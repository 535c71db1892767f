/**
 An independent reference for the memory layout the GLSL blocks of the demo
 declare with `layout (std140)`: the standard uniform block layout rules of
 section 7.6.2.2 of the OpenGL 4.5 Core Profile specification, restricted to
 the member types those blocks use (scalars, `vec3`, `vec4`, `mat4`, structures
 of those, and arrays of such structures). Nothing here knows about the packer;
 the `Scene` module proves that the packer's output coincides with these
 layouts for the call sequences the demo makes.
 */
module Std140 {
  import opened Bytes

  /** The basic machine unit N of the rules: every scalar, `bool` included, takes 4 bytes. */
  const N: nat := 4

  /** The base alignment of a `vec4`, to which structures are rounded up. */
  const VEC4_ALIGNMENT: nat := 4 * N

  /** GLSL member types of a structure or a block. */
  datatype BasicType = Float | Int | Bool | Vec3 | Vec4 | Mat4

  /**
   Rule (1): a scalar is aligned to N. Rules (2)-(3): a `vec3` or `vec4` to 4N.
   Rules (4)-(5): a column-major `mat4` is an array of four `vec4` columns,
   aligned to 4N.
   */
  function BaseAlignment(t: BasicType): (a: nat)
    ensures IsAlignment(a)
  {
    match t
    case Float => N
    case Int => N
    case Bool => N
    case Vec3 => 4 * N
    case Vec4 => 4 * N
    case Mat4 => 4 * N
  }

  /** The bytes a member occupies (a `mat4` is four 16-byte column strides). */
  function Size(t: BasicType): nat {
    match t
    case Float => N
    case Int => N
    case Bool => N
    case Vec3 => 3 * N
    case Vec4 => 4 * N
    case Mat4 => 4 * (4 * N)
  }

  /** The only alignments the rules produce for these types. */
  predicate IsAlignment(a: nat) {
    a == N || a == VEC4_ALIGNMENT
  }

  /** x is a multiple of the alignment a. */
  predicate Aligned(x: nat, a: nat) {
    (a == N && x % 4 == 0) || (a == VEC4_ALIGNMENT && x % 16 == 0)
  }

  /** The least multiple of a not below x. */
  function RoundUp(x: nat, a: nat): (r: nat)
    requires IsAlignment(a)
    ensures Aligned(r, a) && x <= r < x + a
  {
    if a == N then (if x % 4 == 0 then x else x + (4 - x % 4))
    else (if x % 16 == 0 then x else x + (16 - x % 16))
  }

  /**
   The offset of member i of a structure (or of the members of a block before
   its array), relative to its start: the first multiple of the member's base
   alignment at or after the end of the member before it.
   */
  function Offset(ts: seq<BasicType>, i: nat): (o: nat)
    requires i < |ts|
    decreases i, 1
  {
    RoundUp(End(ts, i), BaseAlignment(ts[i]))
  }

  /** The first byte after the first n members. */
  function End(ts: seq<BasicType>, n: nat): (e: nat)
    requires n <= |ts|
    decreases n, 0
  {
    if n == 0 then 0 else Offset(ts, n - 1) + Size(ts[n - 1])
  }

  /** Every member is aligned to its base alignment and starts at or after the end of the previous one. */
  lemma OffsetIsAligned(ts: seq<BasicType>, i: nat)
    requires i < |ts|
    ensures Aligned(Offset(ts, i), BaseAlignment(ts[i])) && End(ts, i) <= Offset(ts, i)
  {
  }

  /** Members lie in declaration order and no member overlaps a later one. */
  lemma {:induction false} MembersDoNotOverlap(ts: seq<BasicType>, i: nat, j: nat)
    requires i < j < |ts|
    ensures Offset(ts, i) + Size(ts[i]) <= Offset(ts, j)
    decreases j
  {
    OffsetIsAligned(ts, j);
    if i < j - 1 {
      MembersDoNotOverlap(ts, i, j - 1);
      OffsetIsAligned(ts, j - 1);
    }
  }

  /** Rule (9): a structure is aligned to the largest member alignment, rounded up to that of a `vec4`. */
  function StructAlignment(ts: seq<BasicType>): (a: nat)
    ensures a == VEC4_ALIGNMENT
  {
    RoundUp(MaxAlignment(ts), VEC4_ALIGNMENT)
  }

  /**
   The largest member alignment. Starting from N, the smallest alignment there
   is, changes nothing for the (never empty) structures GLSL allows.
   */
  function MaxAlignment(ts: seq<BasicType>): (m: nat)
    ensures IsAlignment(m)
    ensures forall i :: 0 <= i < |ts| ==> BaseAlignment(ts[i]) <= m
    decreases |ts|
  {
    if ts == [] then N
    else
      var m := MaxAlignment(ts[1..]);
      assert forall i :: 1 <= i < |ts| ==> ts[i] == ts[1..][i - 1];
      if BaseAlignment(ts[0]) > m then BaseAlignment(ts[0]) else m
  }

  /** Rule (9): a structure is padded at the end up to a multiple of its alignment. */
  function StructSize(ts: seq<BasicType>): (s: nat)
    ensures End(ts, |ts|) <= s < End(ts, |ts|) + StructAlignment(ts)
    ensures s % 16 == 0
  {
    RoundUp(End(ts, |ts|), StructAlignment(ts))
  }

  /* ---------- images ---------- */

  /** vals holds one payload of the right size per member. */
  predicate Fits(ts: seq<BasicType>, vals: seq<seq<byte>>) {
    |ts| == |vals| && forall i :: 0 <= i < |ts| ==> |vals[i]| == Size(ts[i])
  }

  /** The std140 encoding of a `bool` member: a 32-bit 1 or 0. */
  function BoolWord(b: bool): Word {
    [if b then 1 else 0, 0, 0, 0]
  }

  /**
   The bytes of the first n members: each payload at its offset (see
   `ImagePlacesMembers`), zeros in the alignment gaps (see `ImageGapsAreZero`).
   */
  function Image(ts: seq<BasicType>, vals: seq<seq<byte>>, n: nat): (r: seq<byte>)
    requires Fits(ts, vals) && n <= |ts|
    ensures |r| == End(ts, n)
    decreases n
  {
    if n == 0 then []
    else Image(ts, vals, n - 1) + Zeros(Offset(ts, n - 1) - End(ts, n - 1)) + vals[n - 1]
  }

  /** Byte k of member i's payload sits at byte k past member i's offset. */
  lemma {:induction false} ImagePlacesMembers(ts: seq<BasicType>, vals: seq<seq<byte>>, n: nat, i: nat, k: nat)
    requires Fits(ts, vals) && i < n <= |ts| && k < Size(ts[i])
    ensures Offset(ts, i) + k < End(ts, n)
    ensures Image(ts, vals, n)[Offset(ts, i) + k] == vals[i][k]
    decreases n
  {
    if i < n - 1 {
      ImagePlacesMembers(ts, vals, n - 1, i, k);
      MembersDoNotOverlap(ts, i, n - 1);
    }
  }

  /** A byte that lies before the first member or between two members is zero. */
  lemma {:induction false} ImageGapsAreZero(ts: seq<BasicType>, vals: seq<seq<byte>>, n: nat, i: nat, x: nat)
    requires Fits(ts, vals) && i < n <= |ts| && End(ts, i) <= x < Offset(ts, i)
    ensures x < End(ts, n)
    ensures Image(ts, vals, n)[x] == 0
    decreases n
  {
    if i < n - 1 {
      ImageGapsAreZero(ts, vals, n - 1, i, x);
      MembersDoNotOverlap(ts, i, n - 1);
    }
  }

  /** A whole structure: its members, then the tail padding of rule (9). */
  function StructImage(ts: seq<BasicType>, vals: seq<seq<byte>>): (r: seq<byte>)
    requires Fits(ts, vals)
    ensures |r| == StructSize(ts)
    ensures r[..End(ts, |ts|)] == Image(ts, vals, |ts|)
    ensures AllZero(r[End(ts, |ts|)..])
  {
    Image(ts, vals, |ts|) + Zeros(StructSize(ts) - End(ts, |ts|))
  }

  /** In a whole structure too, byte k of member i's payload sits at byte k past member i's offset. */
  lemma StructImagePlacesMembers(ts: seq<BasicType>, vals: seq<seq<byte>>, i: nat, k: nat)
    requires Fits(ts, vals) && i < |ts| && k < Size(ts[i])
    ensures Offset(ts, i) + k < StructSize(ts)
    ensures StructImage(ts, vals)[Offset(ts, i) + k] == vals[i][k]
  {
    ImagePlacesMembers(ts, vals, |ts|, i, k);
    var r := StructImage(ts, vals);
    assert r[Offset(ts, i) + k] == r[..End(ts, |ts|)][Offset(ts, i) + k];
  }

  /* ---------- blocks: header members, then an array of structures ---------- */

  /** Rules (9)-(10): the array starts at the structure alignment after the header. */
  function ArrayOffset(header: seq<BasicType>, elem: seq<BasicType>): (o: nat)
    ensures End(header, |header|) <= o && o % 16 == 0
  {
    RoundUp(End(header, |header|), StructAlignment(elem))
  }

  /** Rule (10): element k of an array of structures, laid out one padded structure after another. */
  function ElementOffset(header: seq<BasicType>, elem: seq<BasicType>, k: nat): (o: nat)
    ensures o % 16 == 0
    ensures ArrayOffset(header, elem) <= o
  {
    var stride := StructSize(elem);
    MultipleOfVec4(k, stride);
    var m := k * stride;
    var a := ArrayOffset(header, elem);
    assert (a + m) % 16 == 0 by { SumOfMultiples(a, m); }
    a + m
  }

  /**
   Rule (10) again: the first n elements of an array of structures, element k
   being elem(k), one after another with nothing between them.
   */
  function ArrayImage(elem: nat -> seq<byte>, n: nat): seq<byte>
    decreases n
  {
    if n == 0 then [] else ArrayImage(elem, n - 1) + elem(n - 1)
  }

  lemma {:induction false} ArrayImageLength(elem: nat -> seq<byte>, stride: nat, n: nat)
    requires forall k: nat :: k < n ==> |elem(k)| == stride
    ensures |ArrayImage(elem, n)| == n * stride
    decreases n
  {
    if n > 0 {
      ArrayImageLength(elem, stride, n - 1);
      assert n * stride == (n - 1) * stride + stride;
    }
  }

  /** When every element is stride bytes long, element k occupies bytes k * stride up to (k + 1) * stride. */
  lemma {:induction false} ArrayImagePlacesElements(elem: nat -> seq<byte>, stride: nat, n: nat, k: nat)
    requires forall j: nat :: j < n ==> |elem(j)| == stride
    requires k < n
    ensures |ArrayImage(elem, n)| == n * stride && k * stride + stride <= n * stride
    ensures ArrayImage(elem, n)[k * stride .. k * stride + stride] == elem(k)
    decreases n
  {
    ArrayImageLength(elem, stride, n);
    ArrayImageLength(elem, stride, n - 1);
    var prev := ArrayImage(elem, n - 1);
    var lo := k * stride;
    assert n * stride == (n - 1) * stride + stride;
    if k < n - 1 {
      ArrayImagePlacesElements(elem, stride, n - 1, k);
      SliceOfPrefix(prev, elem(n - 1), lo, lo + stride);
    } else {
      assert lo == (n - 1) * stride;
      SliceOfSuffix(prev, elem(n - 1), lo, lo + stride);
    }
  }

  lemma SumOfMultiples(a: nat, b: nat)
    requires a % 16 == 0 && b % 16 == 0
    ensures (a + b) % 16 == 0
  {
  }

  lemma {:induction false} MultipleOfVec4(k: nat, s: nat)
    requires s % 16 == 0
    ensures k * s >= 0 && (k * s) % 16 == 0
  {
    if k > 0 {
      MultipleOfVec4(k - 1, s);
      assert k * s == (k - 1) * s + s;
    }
  }
}
