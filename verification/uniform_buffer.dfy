/**
 The CPU side of `UniforBuffer` (UniformBuffer.h / UniformBuffer.cpp): an
 append-only byte sequence plus the offset of the next byte inside the current
 16-byte chunk, and a separate opaque device handle. Every `Add` overload
 funnels into `AddToBuffer`, which first closes the current chunk when the
 field would not fit in what is left of it, then appends the field's bytes
 verbatim.
 */
module UniformBuffer {
  import opened Bytes

  const CHUNK_SIZE: nat := 16

  /**
   The packer state: the bytes packed so far (`buffer_`) and the offset inside
   the current chunk (`padding_`).
   */
  datatype Packer = Packer(buffer: seq<byte>, padding: nat)

  /** The state the constructor leaves behind. */
  const EMPTY: Packer := Packer([], 0)

  /** The packer invariant: the chunk offset is the buffer length modulo 16. */
  predicate Valid(p: Packer) {
    p.padding < CHUNK_SIZE && p.padding == |p.buffer| % CHUNK_SIZE
  }

  /** Closes the current chunk with zero bytes, so that the next field starts on a 16-byte boundary. */
  function FinishChunk(p: Packer): Packer {
    if p.padding == 0 then p
    else Packer(p.buffer + Zeros(if p.padding < CHUNK_SIZE then CHUNK_SIZE - p.padding else 0), 0)
  }

  /**
   `FinishChunk` only appends zeros, leaves the offset at 0 and, from a valid
   state, appends exactly the bytes left in the current chunk.
   */
  lemma FinishChunkSpec(p: Packer)
    ensures var r := FinishChunk(p);
            && r.padding == 0
            && p.buffer <= r.buffer && AllZero(r.buffer[|p.buffer|..])
            && (p.padding == 0 ==> r == p)
            && (Valid(p) ==> Valid(r) && |r.buffer| == |p.buffer| + (CHUNK_SIZE - p.padding) % CHUNK_SIZE)
  {
  }

  lemma FinishChunkIdempotent(p: Packer)
    ensures FinishChunk(FinishChunk(p)) == FinishChunk(p)
  {
  }

  /** Closes the current chunk when n more bytes would overflow it. */
  function CheckChunk(p: Packer, n: nat): Packer {
    if p.padding + n > CHUNK_SIZE then FinishChunk(p) else p
  }

  /** Where a field of n bytes begins when it is added to p. */
  function FieldStart(p: Packer, n: nat): nat {
    |CheckChunk(p, n).buffer|
  }

  /**
   No field of at most 16 bytes straddles a chunk boundary, a larger one
   starts on a boundary, and fewer than 16 padding bytes ever precede a field;
   a field that fits in what is left of the chunk follows the previous one
   directly.
   */
  lemma FieldStartSpec(p: Packer, n: nat)
    requires Valid(p)
    ensures var s := FieldStart(p, n);
            && |p.buffer| <= s < |p.buffer| + CHUNK_SIZE
            && (n <= CHUNK_SIZE ==> s % CHUNK_SIZE + n <= CHUNK_SIZE)
            && (n > CHUNK_SIZE ==> s % CHUNK_SIZE == 0)
            && (p.padding == 0 || p.padding + n <= CHUNK_SIZE <==> s == |p.buffer|)
  {
  }

  /** Appends a field's bytes, after closing the chunk first if they would not fit in it. */
  function AddToBuffer(p: Packer, data: seq<byte>): Packer {
    var q := CheckChunk(p, |data|);
    Packer(q.buffer + data, (q.padding + |data|) % CHUNK_SIZE)
  }

  /**
   `AddToBuffer` keeps what was there, pads with zeros up to the field's
   start, then holds exactly the field's bytes; it keeps the packer invariant.
   */
  lemma AddToBufferSpec(p: Packer, data: seq<byte>)
    ensures var r := AddToBuffer(p, data); var s := FieldStart(p, |data|);
            && p.buffer <= r.buffer
            && |r.buffer| == s + |data|
            && r.buffer[s..] == data
            && AllZero(r.buffer[|p.buffer|..s])
            && (Valid(p) ==> Valid(r))
            && (Valid(p) && data == [] ==> r == p)
  {
    FinishChunkSpec(p);
  }

  /** The byte sequence `AddToBuffer` produces, case by case. */
  lemma AddToBufferCases(p: Packer, data: seq<byte>)
    requires Valid(p)
    ensures p.padding + |data| <= CHUNK_SIZE ==> AddToBuffer(p, data).buffer == p.buffer + data
    ensures p.padding == 0 ==> AddToBuffer(p, data).buffer == p.buffer + data
    ensures 0 < p.padding && CHUNK_SIZE < p.padding + |data| ==>
              AddToBuffer(p, data).buffer == p.buffer + Zeros(CHUNK_SIZE - p.padding) + data
  {
  }

  /* ---------- the Add overloads ---------- */

  /**
   One argument of an `Add` overload. `sizeof(bool)` is taken to be 1;
   `FloatArray` is the `Add(T *elements, int n)` template, instantiated for
   `float` only.
   */
  datatype Field =
    | IntField(i: int32)
    | FloatField(f: Word)
    | BoolField(b: bool)
    | Vec3Field(v3: Vec3Value)
    | Vec4Field(v4: Vec4Value)
    | Mat4Field(m: Mat4Value)
    | FloatArray(elements: seq<Word>)

  /** The number of bytes each overload hands to `AddToBuffer`. */
  function FieldSize(f: Field): nat {
    match f
    case IntField(_) => 4
    case FloatField(_) => 4
    case BoolField(_) => 1
    case Vec3Field(_) => 12
    case Vec4Field(_) => 16
    case Mat4Field(_) => 64
    case FloatArray(es) => 4 * |es|
  }

  /** The bytes of a field as they sit in memory. */
  function Encode(f: Field): (r: seq<byte>)
    ensures |r| == FieldSize(f)
  {
    match f
    case IntField(i) => EncodeInt32(i)
    case FloatField(w) => w
    case BoolField(b) => [if b then 1 else 0]
    case Vec3Field(v) => Flatten(v)
    case Vec4Field(v) => Flatten(v)
    case Mat4Field(m) => Flatten(m)
    case FloatArray(es) => Flatten(es)
  }

  function Add(p: Packer, f: Field): Packer {
    AddToBuffer(p, Encode(f))
  }

  /** Every overload appends its field's encoding where `FieldStart` says. */
  lemma AddSpec(p: Packer, f: Field)
    ensures var r := Add(p, f); var s := FieldStart(p, FieldSize(f));
            && (Valid(p) ==> Valid(r))
            && p.buffer <= r.buffer && |r.buffer| == s + FieldSize(f)
            && r.buffer[s..] == Encode(f)
  {
    AddToBufferSpec(p, Encode(f));
  }

  /** The array overload puts element k's four bytes at 4k past the field's start. */
  lemma AddFloatArrayPlacesElements(p: Packer, es: seq<Word>, k: nat, j: nat)
    requires k < |es| && j < 4
    ensures Add(p, FloatArray(es)).buffer[FieldStart(p, 4 * |es|) + 4 * k + j] == es[k][j]
  {
    AddSpec(p, FloatArray(es));
    FlattenPlacesWords(es, k, j);
  }

  /* ---------- sequences of calls ---------- */

  /** One call a caller makes on the packer. */
  datatype Op = Put(f: Field) | Finish

  function Step(p: Packer, op: Op): Packer {
    match op
    case Put(f) => Add(p, f)
    case Finish => FinishChunk(p)
  }

  /** The packer after a sequence of calls, in order. */
  function Run(p: Packer, ops: seq<Op>): Packer
    decreases |ops|
  {
    if ops == [] then p else Run(Step(p, ops[0]), ops[1..])
  }

  lemma {:induction false} RunAppend(p: Packer, a: seq<Op>, b: seq<Op>)
    ensures Run(p, a + b) == Run(Run(p, a), b)
    decreases |a|
  {
    if a == [] {
      assert a + b == b;
    } else {
      assert (a + b)[0] == a[0];
      assert (a + b)[1..] == a[1..] + b;
      RunAppend(Step(p, a[0]), a[1..], b);
    }
  }

  /** Any sequence of calls keeps the packer invariant and only ever appends. */
  lemma {:induction false} RunPreservesValid(p: Packer, ops: seq<Op>)
    requires Valid(p)
    ensures Valid(Run(p, ops))
    ensures p.buffer <= Run(p, ops).buffer
    decreases |ops|
  {
    if ops != [] {
      match ops[0] {
        case Put(f) => AddSpec(p, f);
        case Finish => FinishChunkSpec(p);
      }
      RunPreservesValid(Step(p, ops[0]), ops[1..]);
    }
  }

  /** From the constructor state, whatever the calls, offset == length mod 16 and 0 <= offset < 16. */
  lemma ReachableIsValid(ops: seq<Op>)
    ensures var p := Run(EMPTY, ops); p.padding < CHUNK_SIZE && p.padding == |p.buffer| % CHUNK_SIZE
  {
    RunPreservesValid(EMPTY, ops);
  }

  /* ---------- the object: handle plus CPU state ---------- */

  /** A uniform buffer object: the device handle `ubo_` (0 = none yet) and the CPU-side packer. */
  datatype Buffer = Buffer(ubo: nat, cpu: Packer)

  const NEW_BUFFER: Buffer := Buffer(0, EMPTY)

  /** `Init`: records the name the device handed out; the CPU side is untouched. */
  function Init(b: Buffer, name: nat): (r: Buffer)
    requires name != 0
    ensures GetId(r) != 0 && r.cpu == b.cpu
  {
    Buffer(name, b.cpu)
  }

  function GetId(b: Buffer): nat {
    b.ubo
  }

  /**
   `Clear` empties the CPU-side buffer. Its definition is not in the source;
   it is taken to restore the constructor's CPU state and keep the handle.
   */
  function Clear(b: Buffer): (r: Buffer)
    ensures r.ubo == b.ubo && r.cpu.buffer == [] && Valid(r.cpu)
  {
    Buffer(b.ubo, EMPTY)
  }
}
