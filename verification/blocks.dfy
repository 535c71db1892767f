/**
 The uniform blocks the demo's shaders declare with `layout (std140)`, as
 written in the comments next to the code that fills them in main.cpp, and the
 bytes the std140 rules give for one element of each: the reference the
 packing code is compared with.
 */
module Blocks {
  import opened Bytes
  import Std140
  import M = Materials

  /* ---------- the GLSL declarations ---------- */

  /** `struct Material { vec3 diffuse; vec3 ambient; vec3 specular; float shininess; }` */
  const MATERIAL_STRUCT: seq<Std140.BasicType> :=
    [Std140.Vec3, Std140.Vec3, Std140.Vec3, Std140.Float]

  /** The members of `LightsBlock` before its array: `vec3 global_ambient; int n_lights;` */
  const LIGHTS_HEADER: seq<Std140.BasicType> := [Std140.Vec3, Std140.Int]

  /** `struct Light { vec4 position; vec3 diffuse; vec3 specular; bool is_spot; vec3 spot_direction; float spot_cutoff; float spot_exponent; }` */
  const LIGHT_STRUCT: seq<Std140.BasicType> :=
    [Std140.Vec4, Std140.Vec3, Std140.Vec3, Std140.Bool, Std140.Vec3, Std140.Float, Std140.Float]

  /** `struct Matrices { mat4 mvp; mat4 modelview; mat4 normalmatrix; }` */
  const MATRICES_STRUCT: seq<Std140.BasicType> := [Std140.Mat4, Std140.Mat4, Std140.Mat4]

  /** One light as `UpdateLightsBuffer` computes it. */
  datatype Light = Light(
    position: Vec4Value,
    diffuse: Vec3Value,
    specular: Vec3Value,
    isSpot: bool,
    spotDirection: Vec3Value,
    spotCutoff: Word,
    spotExponent: Word)

  /** One instance's matrices as `UpdateBearMatrices` and `UpdateGroundMatrices` compute them. */
  datatype Matrices = Matrices(mvp: Mat4Value, modelview: Mat4Value, normalMatrix: Mat4Value)

  /* ---------- member payloads and std140 images ---------- */

  function MaterialValues(m: M.Material): (vals: seq<seq<byte>>)
    ensures Std140.Fits(MATERIAL_STRUCT, vals)
  {
    [Flatten(m.diffuse), Flatten(m.ambient), Flatten(m.specular), m.shininess]
  }

  /** One element of `materials[8]` as std140 lays it out. */
  function MaterialImage(m: M.Material): seq<byte> {
    Std140.StructImage(MATERIAL_STRUCT, MaterialValues(m))
  }

  function LightsHeaderValues(ambient: Vec3Value, count: int32): (vals: seq<seq<byte>>)
    ensures Std140.Fits(LIGHTS_HEADER, vals)
  {
    [Flatten(ambient), EncodeInt32(count)]
  }

  /** The bytes of `LightsBlock` from its start to the start of `lights[0]`. */
  function LightsHeaderImage(ambient: Vec3Value, count: int32): seq<byte> {
    Std140.Image(LIGHTS_HEADER, LightsHeaderValues(ambient, count), 2)
    + Zeros(Std140.ArrayOffset(LIGHTS_HEADER, LIGHT_STRUCT) - Std140.End(LIGHTS_HEADER, 2))
  }

  /** A std140 `bool` member is a 32-bit word. */
  function LightValues(l: Light): (vals: seq<seq<byte>>)
    ensures Std140.Fits(LIGHT_STRUCT, vals)
  {
    [Flatten(l.position), Flatten(l.diffuse), Flatten(l.specular), Std140.BoolWord(l.isSpot),
     Flatten(l.spotDirection), l.spotCutoff, l.spotExponent]
  }

  /** One element of `lights[100]` as std140 lays it out. */
  function LightImage(l: Light): seq<byte> {
    Std140.StructImage(LIGHT_STRUCT, LightValues(l))
  }

  function MatricesValues(m: Matrices): (vals: seq<seq<byte>>)
    ensures Std140.Fits(MATRICES_STRUCT, vals)
  {
    [Flatten(m.mvp), Flatten(m.modelview), Flatten(m.normalMatrix)]
  }

  /** One element of `matrices[100]` as std140 lays it out. */
  function MatricesImage(m: Matrices): seq<byte> {
    Std140.StructImage(MATRICES_STRUCT, MatricesValues(m))
  }

  /* ---------- the layouts ---------- */

  /** `Material`: members at 0, 16, 32 and 44; 48 bytes per array element. */
  lemma MaterialLayout()
    ensures Std140.Offset(MATERIAL_STRUCT, 0) == 0 && Std140.Offset(MATERIAL_STRUCT, 1) == 16
    ensures Std140.Offset(MATERIAL_STRUCT, 2) == 32 && Std140.Offset(MATERIAL_STRUCT, 3) == 44
    ensures Std140.End(MATERIAL_STRUCT, 4) == 48 && Std140.StructSize(MATERIAL_STRUCT) == 48
  {
    assert Std140.End(MATERIAL_STRUCT, 1) == 12;
    assert Std140.End(MATERIAL_STRUCT, 2) == 28;
    assert Std140.End(MATERIAL_STRUCT, 3) == 44;
  }

  /** The header of `LightsBlock`: members at 0 and 12, no padding, `lights[0]` at 16. */
  lemma LightsHeaderLayout()
    ensures Std140.Offset(LIGHTS_HEADER, 0) == 0 && Std140.Offset(LIGHTS_HEADER, 1) == 12
    ensures Std140.End(LIGHTS_HEADER, 2) == 16
    ensures Std140.ArrayOffset(LIGHTS_HEADER, LIGHT_STRUCT) == 16
  {
    assert Std140.End(LIGHTS_HEADER, 1) == 12;
  }

  /** `Light`: members at 0, 16, 32, 44, 48, 60 and 64; 80 bytes per array element. */
  lemma LightLayout()
    ensures Std140.Offset(LIGHT_STRUCT, 0) == 0 && Std140.Offset(LIGHT_STRUCT, 1) == 16
    ensures Std140.Offset(LIGHT_STRUCT, 2) == 32 && Std140.Offset(LIGHT_STRUCT, 3) == 44
    ensures Std140.Offset(LIGHT_STRUCT, 4) == 48 && Std140.Offset(LIGHT_STRUCT, 5) == 60
    ensures Std140.Offset(LIGHT_STRUCT, 6) == 64
    ensures Std140.End(LIGHT_STRUCT, 7) == 68 && Std140.StructSize(LIGHT_STRUCT) == 80
  {
    assert Std140.End(LIGHT_STRUCT, 1) == 16;
    assert Std140.End(LIGHT_STRUCT, 2) == 28;
    assert Std140.End(LIGHT_STRUCT, 3) == 44;
    assert Std140.End(LIGHT_STRUCT, 4) == 48;
    assert Std140.End(LIGHT_STRUCT, 5) == 60;
    assert Std140.End(LIGHT_STRUCT, 6) == 64;
  }

  /** `Matrices`: members at 0, 64 and 128; 192 bytes per array element. */
  lemma MatricesLayout()
    ensures Std140.Offset(MATRICES_STRUCT, 0) == 0 && Std140.Offset(MATRICES_STRUCT, 1) == 64
    ensures Std140.Offset(MATRICES_STRUCT, 2) == 128
    ensures Std140.End(MATRICES_STRUCT, 3) == 192 && Std140.StructSize(MATRICES_STRUCT) == 192
  {
    assert Std140.End(MATRICES_STRUCT, 1) == 64;
    assert Std140.End(MATRICES_STRUCT, 2) == 128;
  }

  /** Every material occupies 48 bytes of `materials[8]`. */
  lemma MaterialImageLength()
    ensures forall m: M.Material :: |MaterialImage(m)| == 48
  {
    MaterialLayout();
  }

  /** Every light occupies 80 bytes of `lights[100]`. */
  lemma LightImageLength()
    ensures forall l: Light :: |LightImage(l)| == 80
  {
    LightLayout();
  }

  /** Every instance occupies 192 bytes of `matrices[100]`. */
  lemma MatricesImageLength()
    ensures forall m: Matrices :: |MatricesImage(m)| == 192
  {
    MatricesLayout();
  }

  /* ---------- the images spelled out ---------- */

  /** A material's std140 image: diffuse, 4 zeros, ambient, 4 zeros, specular, shininess. */
  lemma MaterialImageBytes(m: M.Material)
    ensures MaterialImage(m) ==
              Flatten(m.diffuse) + Zeros(4) + Flatten(m.ambient) + Zeros(4) + Flatten(m.specular) + m.shininess
  {
    MaterialLayout();
    var d, a, sp := Flatten(m.diffuse), Flatten(m.ambient), Flatten(m.specular);
    var vals := MaterialValues(m);
    assert Std140.Image(MATERIAL_STRUCT, vals, 1) == d;
    assert Std140.Image(MATERIAL_STRUCT, vals, 2) == d + Zeros(4) + a;
    assert Std140.Image(MATERIAL_STRUCT, vals, 3) == d + Zeros(4) + a + Zeros(4) + sp;
  }

  /** The same, appended to any bytes. */
  lemma MaterialImageAfter(buf: seq<byte>, m: M.Material)
    ensures buf + MaterialImage(m) ==
              buf + Flatten(m.diffuse) + Zeros(4) + Flatten(m.ambient) + Zeros(4) + Flatten(m.specular) + m.shininess
  {
    MaterialImageBytes(m);
  }

  /** The lights header's std140 image: the ambient colour, then the count. */
  lemma LightsHeaderImageAfter(buf: seq<byte>, ambient: Vec3Value, count: int32)
    ensures buf + LightsHeaderImage(ambient, count) == buf + Flatten(ambient) + EncodeInt32(count)
  {
    LightsHeaderLayout();
    var vals := LightsHeaderValues(ambient, count);
    assert Std140.Image(LIGHTS_HEADER, vals, 1) == Flatten(ambient);
    assert LightsHeaderImage(ambient, count) == Flatten(ambient) + EncodeInt32(count);
  }

  lemma LightImagePosition(l: Light)
    ensures Std140.Image(LIGHT_STRUCT, LightValues(l), 2) == Flatten(l.position) + Flatten(l.diffuse)
  {
    LightLayout();
    var vals := LightValues(l);
    assert Std140.Image(LIGHT_STRUCT, vals, 1) == Flatten(l.position) by {
      assert Std140.Image(LIGHT_STRUCT, vals, 1) == [] + Zeros(0) + vals[0];
    }
  }

  /** The std140 bytes of the first four members of `Light`. */
  lemma LightImageFront(l: Light)
    ensures Std140.Image(LIGHT_STRUCT, LightValues(l), 4) ==
              Flatten(l.position) + Flatten(l.diffuse) + Zeros(4) + Flatten(l.specular) + Std140.BoolWord(l.isSpot)
  {
    LightLayout();
    LightImagePosition(l);
  }

  /** The std140 bytes of the last three members of `Light`, which follow each other without gaps. */
  lemma LightImageBack(l: Light)
    ensures Std140.Image(LIGHT_STRUCT, LightValues(l), 7) ==
              Std140.Image(LIGHT_STRUCT, LightValues(l), 4) + Flatten(l.spotDirection) + l.spotCutoff + l.spotExponent
  {
    LightLayout();
  }

  /** A light's std140 image, appended to any bytes: its members, then 12 bytes of tail padding. */
  lemma LightImageAfter(buf: seq<byte>, l: Light)
    ensures buf + LightImage(l) ==
              buf + Flatten(l.position) + Flatten(l.diffuse) + Zeros(4) + Flatten(l.specular) + Std140.BoolWord(l.isSpot)
              + Flatten(l.spotDirection) + l.spotCutoff + l.spotExponent + Zeros(12)
  {
    LightLayout();
    LightImageFront(l);
    LightImageBack(l);
  }

  /** A matrices element's std140 image: the three matrices back to back, appended to any bytes. */
  lemma MatricesImageAfter(buf: seq<byte>, m: Matrices)
    ensures buf + MatricesImage(m) == buf + Flatten(m.mvp) + Flatten(m.modelview) + Flatten(m.normalMatrix)
  {
    MatricesLayout();
    var vals := MatricesValues(m);
    assert Std140.Image(MATRICES_STRUCT, vals, 2) == Flatten(m.mvp) + Flatten(m.modelview);
    assert MatricesImage(m) == Flatten(m.mvp) + Flatten(m.modelview) + Flatten(m.normalMatrix);
  }

  /**
   The packer is not a std140 packer in general: std140 puts a `vec3` that
   follows a `float` at offset 16 (see `Scene.PackerIsNotStd140InGeneral`).
   */
  lemma Vec3AfterFloat()
    ensures Std140.Offset([Std140.Float, Std140.Vec3], 1) == 16
  {
    assert Std140.End([Std140.Float, Std140.Vec3], 1) == 4;
  }
}
