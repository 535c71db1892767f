/**
 Raw bytes as the packer sees them. Every payload the uniform buffers carry is
 a block of bytes of fixed length: floats are opaque 4-byte words (no floating
 point arithmetic is modelled), vectors and matrices are sequences of such
 words, and the one integer ever packed is stored little-endian in two's
 complement; that is an assumption about the host, whose memory `memcpy` copies.
 */
module Bytes {

  newtype byte = b: int | 0 <= b < 256

  /** The four bytes of one 32-bit float or int. */
  type Word = s: seq<byte> | |s| == 4 witness [0, 0, 0, 0]

  const ZERO_WORD: Word := [0, 0, 0, 0]

  /** A `glm::vec3`: three floats, in component order. */
  type Vec3Value = s: seq<Word> | |s| == 3 witness [ZERO_WORD, ZERO_WORD, ZERO_WORD]

  /** A `glm::vec4`: four floats, in component order. */
  type Vec4Value = s: seq<Word> | |s| == 4
    witness [ZERO_WORD, ZERO_WORD, ZERO_WORD, ZERO_WORD]

  /** A `glm::mat4`: sixteen floats, column after column. */
  type Mat4Value = s: seq<Word> | |s| == 16
    witness seq(16, _ => ZERO_WORD)

  function Zeros(n: nat): (r: seq<byte>)
    ensures |r| == n
    ensures forall i :: 0 <= i < n ==> r[i] == 0
  {
    seq(n, _ => 0)
  }

  predicate AllZero(s: seq<byte>) {
    forall i :: 0 <= i < |s| ==> s[i] == 0
  }

  /** The bytes of consecutive words, with nothing between them. */
  function Flatten(ws: seq<Word>): (r: seq<byte>)
    ensures |r| == 4 * |ws|
  {
    if ws == [] then [] else ws[0] + Flatten(ws[1..])
  }

  /** Byte j of word k sits at byte 4k + j. */
  lemma {:induction false} FlattenPlacesWords(ws: seq<Word>, k: nat, j: nat)
    requires k < |ws| && j < 4
    ensures Flatten(ws)[4 * k + j] == ws[k][j]
  {
    if k > 0 {
      FlattenPlacesWords(ws[1..], k - 1, j);
    }
  }

  /** A slice of a concatenation that lies within its second part. */
  lemma SliceOfSuffix<T>(x: seq<T>, y: seq<T>, a: nat, b: nat)
    requires |x| <= a <= b <= |x| + |y|
    ensures (x + y)[a..b] == y[a - |x| .. b - |x|]
  {
  }

  /** A slice of a concatenation that lies within its first part. */
  lemma SliceOfPrefix<T>(x: seq<T>, y: seq<T>, a: nat, b: nat)
    requires a <= b <= |x|
    ensures (x + y)[a..b] == x[a..b]
  {
  }

  /* ---------- 32-bit integers ---------- */

  newtype int32 = x: int | -0x8000_0000 <= x < 0x8000_0000

  function Pow256(n: nat): (r: nat)
    ensures r > 0
  {
    if n == 0 then 1 else 256 * Pow256(n - 1)
  }

  /** The n low-order bytes of u, least significant first. */
  function LittleEndian(u: nat, n: nat): (r: seq<byte>)
    ensures |r| == n
  {
    if n == 0 then [] else [(u % 256) as byte] + LittleEndian(u / 256, n - 1)
  }

  /** The number whose little-endian digits in base 256 are s. */
  function FromLittleEndian(s: seq<byte>): (r: nat)
    ensures r < Pow256(|s|)
  {
    if s == [] then 0 else s[0] as nat + 256 * FromLittleEndian(s[1..])
  }

  lemma {:induction false} LittleEndianRoundTrip(u: nat, n: nat)
    requires u < Pow256(n)
    ensures FromLittleEndian(LittleEndian(u, n)) == u
  {
    if n > 0 {
      LittleEndianRoundTrip(u / 256, n - 1);
      assert LittleEndian(u, n)[1..] == LittleEndian(u / 256, n - 1);
    }
  }

  lemma {:induction false} FromLittleEndianRoundTrip(s: seq<byte>)
    ensures LittleEndian(FromLittleEndian(s), |s|) == s
  {
    if s != [] {
      FromLittleEndianRoundTrip(s[1..]);
      var u := FromLittleEndian(s);
      assert u % 256 == s[0] as nat;
      assert u / 256 == FromLittleEndian(s[1..]);
    }
  }

  /** The bytes `memcpy` copies out of an `int`: two's complement, little-endian. */
  function EncodeInt32(x: int32): (r: Word)
    ensures FromLittleEndian(r) == if x < 0 then x as int + 0x1_0000_0000 else x as int
  {
    var u := if x < 0 then x as int + 0x1_0000_0000 else x as int;
    assert Pow256(4) == 0x1_0000_0000;
    LittleEndianRoundTrip(u, 4);
    LittleEndian(u, 4)
  }

  function DecodeInt32(w: Word): int32 {
    var u := FromLittleEndian(w);
    assert Pow256(4) == 0x1_0000_0000;
    if u >= 0x8000_0000 then (u - 0x1_0000_0000) as int32 else u as int32
  }

  lemma Int32RoundTrip(x: int32)
    ensures DecodeInt32(EncodeInt32(x)) == x
  {
  }

  lemma Int32WordRoundTrip(w: Word)
    ensures EncodeInt32(DecodeInt32(w)) == w
  {
    assert Pow256(4) == 0x1_0000_0000;
    FromLittleEndianRoundTrip(w);
  }
}
