/**
 The callers in main.cpp: the fixed sequences of `Add`/`FinishChunk` calls
 that fill the materials, lights and matrices buffers, proved to write exactly
 the std140 image of the GLSL block declared next to them (see `Blocks`).

 All glm arithmetic (view, projection, normal matrices, light transforms,
 random colours) is outside the model: the records the scene computes are
 parameters, their floats opaque 4-byte words. The light and the matrices of
 grid cell (i, j) are given as functions of (i, j).
 */
module Scene {
  import opened Bytes
  import opened UniformBuffer
  import Std140
  import opened Blocks
  import M = Materials

  /* ---------- scene constants ---------- */

  /** `enum MaterialID`. */
  const BEAR_MATERIAL: nat := 0
  const GROUND_MATERIAL: nat := 1

  /** The lights (and bear instances) form an N_LIGHTS_I x N_LIGHTS_J grid. */
  const N_LIGHTS_I: nat := 10
  const N_LIGHTS_J: nat := 10
  const N_LIGHTS: nat := N_LIGHTS_I * N_LIGHTS_J

  /** The array lengths the GLSL blocks declare. */
  const MATERIALS_CAPACITY: nat := 8
  const LIGHTS_CAPACITY: nat := 100
  const MATRICES_CAPACITY: nat := 100

  /* ---------- the calls for one record, two at a time ---------- */

  /** Diffuse and ambient colour: the second `vec3` does not fit after the first. */
  lemma MaterialPackingFront(p: Packer, m: M.Material)
    requires p.padding == 0
    ensures Add(Add(p, Vec3Field(m.diffuse)), Vec3Field(m.ambient)) ==
              Packer(p.buffer + Flatten(m.diffuse) + Zeros(4) + Flatten(m.ambient), 12)
  {
    assert Add(p, Vec3Field(m.diffuse)) == Packer(p.buffer + Flatten(m.diffuse), 12);
  }

  /** Specular colour, shininess and `FinishChunk`, from 12 bytes into a chunk. */
  lemma MaterialPackingBack(q: Packer, m: M.Material)
    requires q.padding == 12
    ensures FinishChunk(Add(Add(q, Vec3Field(m.specular)), FloatField(m.shininess))) ==
              Packer(q.buffer + Zeros(4) + Flatten(m.specular) + m.shininess, 0)
  {
    assert Add(q, Vec3Field(m.specular)) == Packer(q.buffer + Zeros(4) + Flatten(m.specular), 12);
  }

  /** The ambient colour and the light count fill exactly one chunk. */
  lemma LightsHeaderPacking(p: Packer, ambient: Vec3Value, count: int32)
    requires p.padding == 0
    ensures Add(Add(p, Vec3Field(ambient)), IntField(count)) ==
              Packer(p.buffer + Flatten(ambient) + EncodeInt32(count), 0)
  {
    assert Add(p, Vec3Field(ambient)) == Packer(p.buffer + Flatten(ambient), 12);
  }

  /** Position and diffuse colour: the `vec4` fills a chunk, the `vec3` starts the next. */
  lemma LightPackingPosition(p: Packer, l: Light)
    requires p.padding == 0
    ensures Add(Add(p, Vec4Field(l.position)), Vec3Field(l.diffuse)) ==
              Packer(p.buffer + Flatten(l.position) + Flatten(l.diffuse), 12)
  {
    assert Add(p, Vec4Field(l.position)) == Packer(p.buffer + Flatten(l.position), 0);
  }

  /** Specular colour and `is_spot`: the `vec3` starts a new chunk, the one-byte `bool` follows it directly. */
  lemma LightPackingSpecular(q: Packer, l: Light)
    requires q.padding == 12
    ensures Add(Add(q, Vec3Field(l.specular)), BoolField(l.isSpot)) ==
              Packer(q.buffer + Zeros(4) + Flatten(l.specular) + [if l.isSpot then 1 else 0], 13)
  {
    assert Add(q, Vec3Field(l.specular)) == Packer(q.buffer + Zeros(4) + Flatten(l.specular), 12);
  }

  /**
   Spot direction and cutoff: the `vec3` starts a new chunk after 3 zeros, so
   that the one-byte `bool` before it and the zeros make up a std140 `bool`;
   the cutoff completes the chunk.
   */
  lemma LightPackingDirection(x: seq<byte>, l: Light)
    ensures Add(Add(Packer(x + [if l.isSpot then 1 else 0], 13), Vec3Field(l.spotDirection)), FloatField(l.spotCutoff)) ==
              Packer(x + Std140.BoolWord(l.isSpot) + Flatten(l.spotDirection) + l.spotCutoff, 0)
  {
    var s := Packer(x + [if l.isSpot then 1 else 0], 13);
    assert Add(s, Vec3Field(l.spotDirection)) == Packer(x + Std140.BoolWord(l.isSpot) + Flatten(l.spotDirection), 12);
  }

  /** The exponent opens a chunk and `FinishChunk` closes it with 12 zeros. */
  lemma LightPackingExponent(t: Packer, l: Light)
    requires t.padding == 0
    ensures FinishChunk(Add(t, FloatField(l.spotExponent))) == Packer(t.buffer + l.spotExponent + Zeros(12), 0)
  {
    assert Add(t, FloatField(l.spotExponent)) == Packer(t.buffer + l.spotExponent, 4);
  }

  /** Matrices fill whole chunks: the first two. */
  lemma MatricesPacking(p: Packer, m: Matrices)
    requires p.padding == 0
    ensures Add(Add(p, Mat4Field(m.mvp)), Mat4Field(m.modelview)) ==
              Packer(p.buffer + Flatten(m.mvp) + Flatten(m.modelview), 0)
  {
    assert Add(p, Mat4Field(m.mvp)) == Packer(p.buffer + Flatten(m.mvp), 0);
  }

  /* ---------- one record: the packer writes the std140 image ---------- */

  /** The five calls for one material, from a chunk boundary, append the std140 image of `struct Material`. */
  method PackMaterial(p: Packer, m: M.Material) returns (r: Packer)
    requires p.padding == 0
    ensures r == Packer(p.buffer + MaterialImage(m), 0)
  {
    r := Add(p, Vec3Field(m.diffuse));
    r := Add(r, Vec3Field(m.ambient));
    MaterialPackingFront(p, m);
    var q := r;
    r := Add(r, Vec3Field(m.specular));
    r := Add(r, FloatField(m.shininess));
    r := FinishChunk(r);
    MaterialPackingBack(q, m);
    MaterialImageAfter(p.buffer, m);
  }

  /** The three calls for the lights header append the std140 bytes that precede `lights[0]`. */
  method PackLightsHeader(p: Packer, ambient: Vec3Value, count: int32) returns (r: Packer)
    requires p.padding == 0
    ensures r == Packer(p.buffer + LightsHeaderImage(ambient, count), 0)
  {
    r := Add(p, Vec3Field(ambient));
    r := Add(r, IntField(count));
    LightsHeaderPacking(p, ambient, count);
    r := FinishChunk(r);
    LightsHeaderImageAfter(p.buffer, ambient, count);
  }

  /** The eight calls for one light, from a chunk boundary, append the std140 image of `struct Light`. */
  method PackLight(p: Packer, l: Light) returns (r: Packer)
    requires p.padding == 0
    ensures r == Packer(p.buffer + LightImage(l), 0)
  {
    r := Add(p, Vec4Field(l.position));
    r := Add(r, Vec3Field(l.diffuse));
    LightPackingPosition(p, l);
    var q := r;
    r := Add(r, Vec3Field(l.specular));
    r := Add(r, BoolField(l.isSpot));
    LightPackingSpecular(q, l);
    r := Add(r, Vec3Field(l.spotDirection));
    r := Add(r, FloatField(l.spotCutoff));
    LightPackingDirection(q.buffer + Zeros(4) + Flatten(l.specular), l);
    var t := r;
    r := Add(r, FloatField(l.spotExponent));
    r := FinishChunk(r);
    LightPackingExponent(t, l);
    LightImageAfter(p.buffer, l);
  }

  /** The three calls for one instance, from a chunk boundary, append the std140 image of `struct Matrices`. */
  method PackMatrices(p: Packer, m: Matrices) returns (r: Packer)
    requires p.padding == 0
    ensures r == Packer(p.buffer + MatricesImage(m), 0)
  {
    r := Add(p, Mat4Field(m.mvp));
    r := Add(r, Mat4Field(m.modelview));
    MatricesPacking(p, m);
    r := Add(r, Mat4Field(m.normalMatrix));
    MatricesImageAfter(p.buffer, m);
  }

  /**
   The packer is not a std140 packer in general: after a `float`, a `vec3`
   still fits in the current chunk and is placed at offset 4, where the std140
   rules align it to 16. The call sequences above never put a `vec3` there.
   */
  lemma PackerIsNotStd140InGeneral(w: Word, v: Vec3Value)
    ensures FieldStart(Add(EMPTY, FloatField(w)), FieldSize(Vec3Field(v))) == 4
    ensures Std140.Offset([Std140.Float, Std140.Vec3], 1) == 16
  {
    Vec3AfterFloat();
  }

  /* ---------- arrays filled by the 10 x 10 loops ---------- */

  /** Cell (i, j) of the loops is array element i * N_LIGHTS_J + j. */
  function GridIndex(i: nat, j: nat): nat {
    i * N_LIGHTS_J + j
  }

  /** The value a per-cell function gives for array element k. */
  function Grid<T>(f: (nat, nat) -> T, k: nat): T {
    f(k / N_LIGHTS_J, k % N_LIGHTS_J)
  }

  /** Cell (i, j) is numbered GridIndex(i, j), and element GridIndex(i, j) is cell (i, j). */
  lemma GridIndexInverse<T>(f: (nat, nat) -> T, i: nat, j: nat)
    requires j < N_LIGHTS_J
    ensures Grid(f, GridIndex(i, j)) == f(i, j)
  {
    var k := i * 10 + j;
    assert k / 10 == i && k % 10 == j;
  }

  /** Every element below N_LIGHTS is the number of exactly the cell (k / 10, k % 10) of the loops. */
  lemma ElementIsGridCell(k: nat)
    requires k < N_LIGHTS
    ensures k / N_LIGHTS_J < N_LIGHTS_I && k % N_LIGHTS_J < N_LIGHTS_J
    ensures GridIndex(k / N_LIGHTS_J, k % N_LIGHTS_J) == k
  {
  }

  /** Every cell of the grid is one element of an array of N_LIGHTS, each element one cell. */
  lemma GridIndexInRange(i: nat, j: nat)
    requires i < N_LIGHTS_I && j < N_LIGHTS_J
    ensures GridIndex(i, j) < N_LIGHTS <= LIGHTS_CAPACITY && N_LIGHTS <= MATRICES_CAPACITY
  {
  }

  /** The first n elements of an array of structures whose element k is image(Grid(f, k)). */
  function GridArray<T>(image: T -> seq<byte>, f: (nat, nat) -> T, n: nat): seq<byte> {
    Std140.ArrayImage((k: nat) => image(Grid(f, k)), n)
  }

  /** Filling cell (i, j) after the cells before it yields the array one element longer. */
  lemma AppendCell<T>(prefix: seq<byte>, image: T -> seq<byte>, f: (nat, nat) -> T, i: nat, j: nat)
    requires j < N_LIGHTS_J
    ensures prefix + GridArray(image, f, GridIndex(i, j)) + image(f(i, j)) ==
              prefix + GridArray(image, f, GridIndex(i, j) + 1)
  {
    var k := GridIndex(i, j);
    GridIndexInverse(f, i, j);
    assert GridArray(image, f, k + 1) == GridArray(image, f, k) + image(f(i, j));
  }

  /** With stride-byte elements, element GridIndex(i, j) of the array is cell (i, j)'s image. */
  lemma GridArrayPlacesCells<T>(image: T -> seq<byte>, stride: nat, f: (nat, nat) -> T, n: nat, i: nat, j: nat)
    requires forall x: T :: |image(x)| == stride
    requires j < N_LIGHTS_J && GridIndex(i, j) < n
    ensures |GridArray(image, f, n)| == n * stride
    ensures GridIndex(i, j) * stride + stride <= n * stride
    ensures GridArray(image, f, n)[GridIndex(i, j) * stride .. GridIndex(i, j) * stride + stride] == image(f(i, j))
  {
    var elem := (k: nat) => image(Grid(f, k));
    forall k: nat | k < n
      ensures |elem(k)| == stride
    {
      assert elem(k) == image(Grid(f, k));
    }
    Std140.ArrayImagePlacesElements(elem, stride, n, GridIndex(i, j));
    GridIndexInverse(f, i, j);
  }

  /* ---------- whole buffers ---------- */

  /** Proof hint: lets the solver drop the empty prefix of a packed block without unfolding the block. */
  lemma EmptyPrefix(x: seq<byte>, y: seq<byte>)
    ensures [] + x + y == x + y
  {
  }

  /** A buffer with no device name yet has never been filled; every buffer main.cpp keeps is such. */
  predicate Consistent(b: Buffer) {
    GetId(b) == 0 ==> b.cpu == EMPTY
  }

  /** The first call of an update creates the device buffer, later ones reuse it and empty the CPU side. */
  function InitOrClear(b: Buffer, name: nat): (r: Buffer)
    requires name != 0
    ensures GetId(r) != 0
    ensures GetId(b) != 0 ==> GetId(r) == GetId(b)
    ensures GetId(b) == 0 ==> GetId(r) == name
    ensures Consistent(b) ==> r.cpu == EMPTY
  {
    if GetId(b) == 0 then Init(b, name) else Clear(b)
  }

  /** The bytes of `MaterialsBlock` for the materials in ms: `materials[k]` is ms[k]. */
  function MaterialsBlock(ms: seq<M.Material>): seq<byte> {
    Std140.ArrayImage((k: nat) => if k < |ms| then MaterialImage(ms[k]) else [], |ms|)
  }

  /**
   `CreateMaterialsBuffer`, on the buffer the constructor left: the bear and
   the ground material as elements BEAR_MATERIAL and GROUND_MATERIAL of
   `materials[8]`.
   */
  method CreateMaterialsBuffer(name: nat, bear: M.Material, ground: M.Material) returns (r: Buffer)
    requires name != 0
    ensures GetId(r) == name
    ensures r.cpu == Packer(MaterialsBlock([bear, ground]), 0)
    ensures |r.cpu.buffer| == 2 * Std140.StructSize(MATERIAL_STRUCT) == 96
    ensures r.cpu.buffer[BEAR_MATERIAL * 48 .. BEAR_MATERIAL * 48 + 48] == MaterialImage(bear)
    ensures r.cpu.buffer[GROUND_MATERIAL * 48 .. GROUND_MATERIAL * 48 + 48] == MaterialImage(ground)
    ensures |r.cpu.buffer| <= MATERIALS_CAPACITY * Std140.StructSize(MATERIAL_STRUCT)
  {
    r := Init(NEW_BUFFER, name);
    var p := PackMaterial(r.cpu, bear);
    p := PackMaterial(p, ground);
    r := Buffer(r.ubo, p);
    MaterialsBlockOfTwo(bear, ground);
    MaterialImageLength();
    MaterialLayout();
    MaterialsBlockPlacesMaterials([bear, ground], BEAR_MATERIAL);
    MaterialsBlockPlacesMaterials([bear, ground], GROUND_MATERIAL);
  }

  lemma MaterialsBlockOfTwo(bear: M.Material, ground: M.Material)
    ensures MaterialsBlock([bear, ground]) == MaterialImage(bear) + MaterialImage(ground)
  {
    var ms := [bear, ground];
    var elem := (k: nat) => if k < |ms| then MaterialImage(ms[k]) else [];
    assert Std140.ArrayImage(elem, 2) == [] + elem(0) + elem(1);
    EmptyPrefix(MaterialImage(bear), MaterialImage(ground));
  }

  /** Material k of `MaterialsBlock` sits at its std140 array position, 48 bytes per material. */
  lemma MaterialsBlockPlacesMaterials(ms: seq<M.Material>, k: nat)
    requires k < |ms|
    ensures var o := Std140.ElementOffset([], MATERIAL_STRUCT, k);
            o == 48 * k && o + 48 <= |MaterialsBlock(ms)| && MaterialsBlock(ms)[o .. o + 48] == MaterialImage(ms[k])
  {
    MaterialLayout();
    var elem := (j: nat) => if j < |ms| then MaterialImage(ms[j]) else [];
    Std140.ArrayImagePlacesElements(elem, 48, |ms|, k);
  }

  /** The bytes of `LightsBlock`: the header, then the light of cell (i, j) as element GridIndex(i, j). */
  function LightsBlock(ambient: Vec3Value, light: (nat, nat) -> Light): seq<byte> {
    LightsHeaderImage(ambient, N_LIGHTS as int32) + GridArray(LightImage, light, N_LIGHTS)
  }

  /** The body of the inner loop of `UpdateLightsBuffer`: the light of cell (i, j) extends the array by one element. */
  method PackLightCell(r: Packer, prefix: seq<byte>, light: (nat, nat) -> Light, i: nat, j: nat) returns (r': Packer)
    requires j < N_LIGHTS_J && r == Packer(prefix + GridArray(LightImage, light, GridIndex(i, j)), 0)
    ensures r' == Packer(prefix + GridArray(LightImage, light, GridIndex(i, j) + 1), 0)
  {
    r' := PackLight(r, light(i, j));
    AppendCell(prefix, LightImage, light, i, j);
  }

  /** The two loops of `UpdateLightsBuffer`: one light per grid cell, row after row. */
  method PackLightGrid(p: Packer, light: (nat, nat) -> Light) returns (r: Packer)
    requires p.padding == 0
    ensures r == Packer(p.buffer + GridArray(LightImage, light, N_LIGHTS), 0)
  {
    r := p;
    for i := 0 to N_LIGHTS_I
      invariant r == Packer(p.buffer + GridArray(LightImage, light, GridIndex(i, 0)), 0)
    {
      for j := 0 to N_LIGHTS_J
        invariant r == Packer(p.buffer + GridArray(LightImage, light, GridIndex(i, j)), 0)
      {
        r := PackLightCell(r, p.buffer, light, i, j);
      }
    }
  }

  /**
   `UpdateLightsBuffer`: the header announces N_LIGHTS lights, then the two
   loops append the lights one grid cell after another.
   */
  method UpdateLightsBuffer(b: Buffer, name: nat, ambient: Vec3Value, light: (nat, nat) -> Light)
    returns (r: Buffer)
    requires name != 0 && Consistent(b)
    ensures GetId(r) != 0 && (GetId(b) != 0 ==> GetId(r) == GetId(b)) && Consistent(r)
    ensures r.cpu == Packer(LightsBlock(ambient, light), 0)
  {
    r := InitOrClear(b, name);
    var p := PackLightsHeader(r.cpu, ambient, N_LIGHTS as int32);
    p := PackLightGrid(p, light);
    EmptyPrefix(LightsHeaderImage(ambient, N_LIGHTS as int32), GridArray(LightImage, light, N_LIGHTS));
    r := Buffer(r.ubo, p);
  }

  /** Element k of `lights[100]` starts 16 + 80k bytes into the block. */
  lemma LightElementOffset(k: nat)
    ensures Std140.ElementOffset(LIGHTS_HEADER, LIGHT_STRUCT, k) == 16 + 80 * k
  {
    LightsHeaderLayout();
    LightLayout();
  }

  /** After a 16-byte header, cell (i, j)'s light occupies the 80 bytes from 16 + 80 * GridIndex(i, j). */
  lemma LightsAfterHeader(header: seq<byte>, light: (nat, nat) -> Light, i: nat, j: nat)
    requires |header| == 16 && i < N_LIGHTS_I && j < N_LIGHTS_J
    ensures var blk := header + GridArray(LightImage, light, N_LIGHTS); var o := 16 + 80 * GridIndex(i, j);
            && |blk| == 16 + 80 * N_LIGHTS && blk[..16] == header
            && o + 80 <= |blk| && blk[o .. o + 80] == LightImage(light(i, j))
  {
    LightImageLength();
    var arr := GridArray(LightImage, light, N_LIGHTS);
    GridArrayPlacesCells(LightImage, 80, light, N_LIGHTS, i, j);
    var k := GridIndex(i, j);
    SliceOfSuffix(header, arr, 16 + k * 80, 16 + k * 80 + 80);
  }

  /**
   The lights block is the std140 image of `LightsBlock`: the count is
   N_LIGHTS, and the light of cell (i, j) sits at the std140 position of
   element GridIndex(i, j) of `lights[100]`.
   */
  lemma LightsBlockIsStd140(ambient: Vec3Value, light: (nat, nat) -> Light, i: nat, j: nat)
    requires i < N_LIGHTS_I && j < N_LIGHTS_J
    ensures var blk := LightsBlock(ambient, light);
            var o := Std140.ElementOffset(LIGHTS_HEADER, LIGHT_STRUCT, GridIndex(i, j));
            && |blk| == 16 + 80 * N_LIGHTS
            && blk[..16] == Flatten(ambient) + EncodeInt32(N_LIGHTS as int32)
            && o + 80 <= |blk| && blk[o .. o + 80] == LightImage(light(i, j))
  {
    LightsHeaderImageAfter([], ambient, N_LIGHTS as int32);
    var header := LightsHeaderImage(ambient, N_LIGHTS as int32);
    assert header == Flatten(ambient) + EncodeInt32(N_LIGHTS as int32);
    LightsAfterHeader(header, light, i, j);
    LightElementOffset(GridIndex(i, j));
  }

  /**
   Byte k of member m of the light of cell (i, j) lies at the std140 offset of
   that member within element GridIndex(i, j) of `lights[100]`.
   */
  lemma LightMemberInBlock(ambient: Vec3Value, light: (nat, nat) -> Light, i: nat, j: nat, m: nat, k: nat)
    requires i < N_LIGHTS_I && j < N_LIGHTS_J && m < |LIGHT_STRUCT| && k < Std140.Size(LIGHT_STRUCT[m])
    ensures var blk := LightsBlock(ambient, light);
            var o := Std140.ElementOffset(LIGHTS_HEADER, LIGHT_STRUCT, GridIndex(i, j)) + Std140.Offset(LIGHT_STRUCT, m) + k;
            o < |blk| && blk[o] == LightValues(light(i, j))[m][k]
  {
    LightsBlockIsStd140(ambient, light, i, j);
    LightMemberInSlice(LightsBlock(ambient, light), Std140.ElementOffset(LIGHTS_HEADER, LIGHT_STRUCT, GridIndex(i, j)),
                       light(i, j), m, k);
  }

  lemma LightMemberInSlice(blk: seq<byte>, e: nat, l: Light, m: nat, k: nat)
    requires e + 80 <= |blk| && blk[e .. e + 80] == LightImage(l)
    requires m < |LIGHT_STRUCT| && k < Std140.Size(LIGHT_STRUCT[m])
    ensures e + Std140.Offset(LIGHT_STRUCT, m) + k < |blk|
    ensures blk[e + Std140.Offset(LIGHT_STRUCT, m) + k] == LightValues(l)[m][k]
  {
    LightImageLength();
    Std140.StructImagePlacesMembers(LIGHT_STRUCT, LightValues(l), m, k);
    assert blk[e + Std140.Offset(LIGHT_STRUCT, m) + k] == blk[e .. e + 80][Std140.Offset(LIGHT_STRUCT, m) + k];
  }

  /** The bear instances' block: the matrices of cell (i, j) as element GridIndex(i, j) of `matrices[100]`. */
  function BearMatricesBlock(matrices: (nat, nat) -> Matrices): seq<byte> {
    GridArray(MatricesImage, matrices, N_LIGHTS)
  }

  /** The body of the inner loop of `UpdateBearMatrices`: the matrices of cell (i, j) extend the array by one element. */
  method PackMatricesCell(r: Packer, prefix: seq<byte>, matrices: (nat, nat) -> Matrices, i: nat, j: nat)
    returns (r': Packer)
    requires j < N_LIGHTS_J && r == Packer(prefix + GridArray(MatricesImage, matrices, GridIndex(i, j)), 0)
    ensures r' == Packer(prefix + GridArray(MatricesImage, matrices, GridIndex(i, j) + 1), 0)
  {
    r' := PackMatrices(r, matrices(i, j));
    AppendCell(prefix, MatricesImage, matrices, i, j);
  }

  /** The two loops of `UpdateBearMatrices`: one instance's matrices per grid cell, row after row. */
  method PackMatricesGrid(p: Packer, matrices: (nat, nat) -> Matrices) returns (r: Packer)
    requires p.padding == 0
    ensures r == Packer(p.buffer + GridArray(MatricesImage, matrices, N_LIGHTS), 0)
  {
    r := p;
    for i := 0 to N_LIGHTS_I
      invariant r == Packer(p.buffer + GridArray(MatricesImage, matrices, GridIndex(i, 0)), 0)
    {
      for j := 0 to N_LIGHTS_J
        invariant r == Packer(p.buffer + GridArray(MatricesImage, matrices, GridIndex(i, j)), 0)
      {
        r := PackMatricesCell(r, p.buffer, matrices, i, j);
      }
    }
  }

  /**
   `UpdateBearMatrices`: the two loops append one instance's matrices per grid
   cell; no `FinishChunk` is needed, since every `mat4` fills whole chunks.
   */
  method UpdateBearMatrices(b: Buffer, name: nat, matrices: (nat, nat) -> Matrices) returns (r: Buffer)
    requires name != 0 && Consistent(b)
    ensures GetId(r) != 0 && (GetId(b) != 0 ==> GetId(r) == GetId(b)) && Consistent(r)
    ensures r.cpu == Packer(BearMatricesBlock(matrices), 0)
  {
    r := InitOrClear(b, name);
    var p := PackMatricesGrid(r.cpu, matrices);
    // Proof hint: the grid was packed after an empty prefix.
    assert [] + BearMatricesBlock(matrices) == BearMatricesBlock(matrices);
    r := Buffer(r.ubo, p);
  }

  /** The matrices of cell (i, j) sit at the std140 position of element GridIndex(i, j) of `matrices[100]`. */
  lemma BearMatricesBlockIsStd140(matrices: (nat, nat) -> Matrices, i: nat, j: nat)
    requires i < N_LIGHTS_I && j < N_LIGHTS_J
    ensures var blk := BearMatricesBlock(matrices);
            var o := Std140.ElementOffset([], MATRICES_STRUCT, GridIndex(i, j));
            && |blk| == 192 * N_LIGHTS
            && o + 192 <= |blk| && blk[o .. o + 192] == MatricesImage(matrices(i, j))
  {
    MatricesLayout();
    MatricesImageLength();
    GridArrayPlacesCells(MatricesImage, 192, matrices, N_LIGHTS, i, j);
  }

  /** `UpdateGroundMatrices`: one instance, element 0 of `matrices[100]`. */
  method UpdateGroundMatrices(b: Buffer, name: nat, m: Matrices) returns (r: Buffer)
    requires name != 0 && Consistent(b)
    ensures GetId(r) != 0 && (GetId(b) != 0 ==> GetId(r) == GetId(b)) && Consistent(r)
    ensures r.cpu == Packer(MatricesImage(m), 0)
    ensures |r.cpu.buffer| == Std140.StructSize(MATRICES_STRUCT)
  {
    r := InitOrClear(b, name);
    var p := PackMatrices(r.cpu, m);
    r := Buffer(r.ubo, p);
    MatricesLayout();
  }
}
