/**
 The host-side material table of Materials.cpp: records appended one at a
 time, a material's ID being its position in the table, and `Reload`, which
 hands the raw records to the device. The device handle is an opaque number
 (0 = none yet); the name the device hands out and `sizeof(Material)` (the
 struct is declared in Materials.h, which is not part of this model) are
 parameters.
 */
module Materials {
  import opened Bytes

  /** One material: three colours and a shininess exponent, all opaque floats. */
  datatype Material = Material(diffuse: Vec3Value, ambient: Vec3Value, specular: Vec3Value, shininess: Word)

  /** The table: the device handle `ubo_` and the records `materials_`, indexed by material ID. */
  datatype Materials = Materials(ubo: nat, materials: seq<Material>)

  /** The state the constructor leaves behind. */
  const NEW_MATERIALS: Materials := Materials(0, [])

  /** `Materials::Add`: builds one record from its ten floats and appends it. */
  function Add(t: Materials, dr: Word, dg: Word, db: Word, ar: Word, ag: Word, ab: Word,
               sr: Word, sg: Word, sb: Word, shininess: Word): (r: Materials)
    ensures r.ubo == t.ubo
    ensures |r.materials| == |t.materials| + 1 && r.materials[..|t.materials|] == t.materials
    ensures var m := r.materials[|t.materials|];
      && m.diffuse[0] == dr && m.diffuse[1] == dg && m.diffuse[2] == db
      && m.ambient[0] == ar && m.ambient[1] == ag && m.ambient[2] == ab
      && m.specular[0] == sr && m.specular[1] == sg && m.specular[2] == sb
      && m.shininess == shininess
  {
    var m := Material([dr, dg, db], [ar, ag, ab], [sr, sg, sb], shininess);
    Materials(t.ubo, t.materials + [m])
  }

  /** Passes the components of m to `Add`, in the order of its parameter list. */
  function AddMaterial(t: Materials, m: Material): Materials {
    Add(t, m.diffuse[0], m.diffuse[1], m.diffuse[2],
        m.ambient[0], m.ambient[1], m.ambient[2],
        m.specular[0], m.specular[1], m.specular[2], m.shininess)
  }

  /**
   Taking a material apart into `Add`'s ten arguments and building the record
   again gives back the same material: every component lands in its own slot.
   */
  lemma AddMaterialKeepsComponents(t: Materials, m: Material)
    ensures AddMaterial(t, m) == Materials(t.ubo, t.materials + [m])
  {
    var r := AddMaterial(t, m).materials[|t.materials|];
    assert r.diffuse == m.diffuse;
    assert r.ambient == m.ambient;
    assert r.specular == m.specular;
  }

  /** A sequence of `Add` calls, in order. */
  function AddAll(t: Materials, ms: seq<Material>): Materials
    decreases |ms|
  {
    if ms == [] then t else AddAll(AddMaterial(t, ms[0]), ms[1..])
  }

  /**
   After any sequence of `Add` calls, the earlier records are untouched and the
   k-th call's material is found, unchanged, under ID |t.materials| + k.
   */
  lemma {:induction false} AddAllAppends(t: Materials, ms: seq<Material>)
    ensures AddAll(t, ms) == Materials(t.ubo, t.materials + ms)
    decreases |ms|
  {
    if ms == [] {
      assert t.materials + ms == t.materials;
    } else {
      var t1 := AddMaterial(t, ms[0]);
      AddMaterialKeepsComponents(t, ms[0]);
      AddAllAppends(t1, ms[1..]);
      assert t.materials + [ms[0]] + ms[1..] == t.materials + ms;
    }
  }

  /** From the constructor state, material ID k is the k-th material added. */
  lemma MaterialIdIsInsertionIndex(ms: seq<Material>, id: nat)
    requires id < |ms|
    ensures |AddAll(NEW_MATERIALS, ms).materials| == |ms|
    ensures AddAll(NEW_MATERIALS, ms).materials[id] == ms[id]
  {
    AddAllAppends(NEW_MATERIALS, ms);
  }

  /** What `Reload` hands to `glBufferData`: the handle and the byte count. */
  datatype Upload = Upload(handle: nat, size: nat)

  /**
   `Materials::Reload`: a handle is allocated only when there is none yet;
   the upload covers every record, `sizeof(Material)` bytes each.
   */
  function Reload(t: Materials, name: nat, materialSize: nat): (r: (Materials, Upload))
    requires name != 0
    ensures r.0.materials == t.materials
    ensures r.0.ubo != 0
    ensures t.ubo != 0 ==> r.0.ubo == t.ubo
    ensures r.1.handle == r.0.ubo && r.1.size == materialSize * |t.materials|
  {
    var ubo := if t.ubo == 0 then name else t.ubo;
    (Materials(ubo, t.materials), Upload(ubo, materialSize * |t.materials|))
  }

  /** Reloading again never allocates a second handle. */
  lemma ReloadAllocatesOnce(t: Materials, name1: nat, name2: nat, materialSize: nat)
    requires name1 != 0 && name2 != 0
    ensures var once := Reload(t, name1, materialSize).0;
      Reload(once, name2, materialSize).0 == once
  {
  }
}
