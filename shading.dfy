/** The scene's material and light records and the Blinn-Phong `shade_pixel`, with its
    final clamp to [0, 1] and the 0-255 conversion the render loop applies. */
module Shading {
  import opened Numbers
  import opened Vectors

  datatype Material = Material(diffuse: Vec3, specular: Vec3, shininess: real)

  datatype Light = Light(position: Vec3, color: Vec3)

  /** An 8-bit RGB pixel as written into the image. */
  datatype Rgb = Rgb(r: int, g: int, b: int)

  const Black := Rgb(0, 0, 0)

  /** `min(max(c, 0), 1)`. */
  function Clamp01(c: real): (r: real)
    ensures 0.0 <= r <= 1.0
    ensures 0.0 <= c <= 1.0 ==> r == c
    ensures c < 0.0 ==> r == 0.0
    ensures 1.0 < c ==> r == 1.0
  {
    MinReal(MaxReal(c, 0.0), 1.0)
  }

  predicate InUnitCube(c: Vec3)
  {
    0.0 <= c.x <= 1.0 && 0.0 <= c.y <= 1.0 && 0.0 <= c.z <= 1.0
  }

  /** The clamp at the end of `shade_pixel`, channel by channel. */
  function ClampColor(c: Vec3): (r: Vec3)
    ensures InUnitCube(r)
    ensures InUnitCube(c) ==> r == c
  {
    Vec3(Clamp01(c.x), Clamp01(c.y), Clamp01(c.z))
  }

  /** Clamping twice is clamping once. */
  lemma ClampIdempotent(c: Vec3)
    ensures ClampColor(ClampColor(c)) == ClampColor(c)
  {
  }

  /** The diffuse term: `material.diffuse * max(normal.dot(to_light), 0)`. */
  function DiffuseTerm(material: Material, normal: Vec3, toLight: Vec3): Vec3
  {
    Scale(material.diffuse, MaxReal(Dot(normal, toLight), 0.0))
  }

  /** The specular term: `material.specular * max(normal.dot(halfway), 0) ** shininess`. */
  function SpecularTerm(lib: MathLib, material: Material, normal: Vec3, halfway: Vec3): Vec3
  {
    var specAngle := MaxReal(Dot(normal, halfway), 0.0);
    Scale(material.specular, lib.pow(specAngle, material.shininess))
  }

  /** The light colour times the sum of the two terms, channel by channel. */
  function Combine(lightColor: Vec3, diffuse: Vec3, specular: Vec3): Vec3
  {
    Vec3(lightColor.x * (diffuse.x + specular.x),
         lightColor.y * (diffuse.y + specular.y),
         lightColor.z * (diffuse.z + specular.z))
  }

  /** `shade_pixel(pos, normal, material)` of a renderer with the given light and camera. */
  function ShadePixel(lib: MathLib, light: Light, cameraPos: Vec3,
                      pos: Vec3, normal: Vec3, material: Material): (color: Vec3)
    ensures InUnitCube(color)
  {
    var toLight := Normalize(lib, Sub(light.position, pos));
    var toView := Normalize(lib, Sub(cameraPos, pos));
    var halfway := Normalize(lib, Add(toLight, toView));
    ClampColor(Combine(light.color,
                       DiffuseTerm(material, normal, toLight),
                       SpecularTerm(lib, material, normal, halfway)))
  }

  /** A zero normal gets no diffuse light at all, and its specular factor is `0 ** shininess`. */
  lemma ZeroNormalTerms(lib: MathLib, material: Material, toLight: Vec3, halfway: Vec3)
    ensures DiffuseTerm(material, Zero, toLight) == Zero
    ensures SpecularTerm(lib, material, Zero, halfway)
         == Scale(material.specular, lib.pow(0.0, material.shininess))
  {
    DotZero(toLight);
    DotZero(halfway);
  }

  /** So with `0 ** shininess == 0` (any positive exponent), a zero normal shades black. */
  lemma ZeroNormalIsBlack(lib: MathLib, light: Light, cameraPos: Vec3, pos: Vec3, material: Material)
    requires lib.pow(0.0, material.shininess) == 0.0
    ensures ShadePixel(lib, light, cameraPos, pos, Zero, material) == Zero
  {
    var toLight := Normalize(lib, Sub(light.position, pos));
    var toView := Normalize(lib, Sub(cameraPos, pos));
    var halfway := Normalize(lib, Add(toLight, toView));
    ZeroNormalTerms(lib, material, toLight, halfway);
  }

  /** `int(c * 255)`. */
  function ToChannel(c: real): (v: int)
    ensures 0.0 <= c <= 1.0 ==> 0 <= v <= 255
    ensures c == 1.0 ==> v == 255
    ensures c == 0.0 ==> v == 0
  {
    Trunc(c * 255.0)
  }

  /** The 8-bit pixel written for a colour. */
  function ToRgb(color: Vec3): (p: Rgb)
    ensures InUnitCube(color) ==> 0 <= p.r <= 255 && 0 <= p.g <= 255 && 0 <= p.b <= 255
  {
    Rgb(ToChannel(color.x), ToChannel(color.y), ToChannel(color.z))
  }

  predicate IsByteColor(p: Rgb)
  {
    0 <= p.r <= 255 && 0 <= p.g <= 255 && 0 <= p.b <= 255
  }

  /** Every pixel the shader can produce has all three channels in 0..255. */
  lemma ShadedPixelInRange(lib: MathLib, light: Light, cameraPos: Vec3,
                           pos: Vec3, normal: Vec3, material: Material)
    ensures IsByteColor(ToRgb(ShadePixel(lib, light, cameraPos, pos, normal, material)))
  {
  }

  /** Conversion to 8 bits respects the order of intensities. */
  lemma ToChannelMonotone(c: real, d: real)
    requires c <= d
    ensures ToChannel(c) <= ToChannel(d)
  {
    assert c * 255.0 <= d * 255.0;
  }
}
