/** Big-endian numbers and the byte order of a key-value store. */
module ByteOrder {
  import Lex
  import opened GoInt

  // ---- Lexicographic order ------------------------------------------------------------------

  function Value(b: byte): int { b as int }

  /** bytes.Compare(a, b) < 0 */
  predicate Less(a: bytes, b: bytes) { Lex.Less(a, b, Value) }

  lemma Irreflexive(a: bytes)
    ensures !Less(a, a)
  {
    if Less(a, a) { Lex.Asymmetric(a, a, Value); }
  }

  lemma Transitive(a: bytes, b: bytes, c: bytes)
    requires Less(a, b) && Less(b, c)
    ensures Less(a, c)
  {
    Lex.Transitive(a, b, c, Value);
  }

  lemma LessConcat(a: bytes, b: bytes, x: bytes, y: bytes)
    requires |a| == |b|
    ensures Less(a + x, b + y) <==> Less(a, b) || (a == b && Less(x, y))
  {
    Lex.Concat(a, b, x, y, Value);
  }

  // ---- Big-endian ----------------------------------------------------------------------------

  function Pow256(n: nat): (p: nat)
    ensures p > 0
  {
    if n == 0 then 1 else 256 * Pow256(n - 1)
  }

  /** The low `n` bytes of `x`, most significant first. */
  function BigEndian(x: nat, n: nat): (s: bytes)
    ensures |s| == n
  {
    if n == 0 then [] else BigEndian(x / 256, n - 1) + [(x % 256) as byte]
  }

  function FromBigEndian(s: bytes): nat {
    if s == [] then 0 else 256 * FromBigEndian(s[..|s| - 1]) + s[|s| - 1] as int
  }

  lemma {:induction false} FromTo(x: nat, n: nat)
    requires x < Pow256(n)
    ensures FromBigEndian(BigEndian(x, n)) == x
  {
    if n > 0 {
      FromTo(x / 256, n - 1);
      var s := BigEndian(x, n);
      assert s[..|s| - 1] == BigEndian(x / 256, n - 1);
    }
  }

  /** Byte order is numeric order. */
  lemma {:induction false} BigEndianOrder(x: nat, y: nat, n: nat)
    requires x < Pow256(n) && y < Pow256(n)
    ensures Less(BigEndian(x, n), BigEndian(y, n)) <==> x < y
  {
    if n > 0 {
      var a, b := BigEndian(x / 256, n - 1), BigEndian(y / 256, n - 1);
      assert BigEndian(x, n) == a + [(x % 256) as byte] && BigEndian(y, n) == b + [(y % 256) as byte];
      hide BigEndian, Less, FromBigEndian;
      BigEndianOrder(x / 256, y / 256, n - 1);
      FromTo(x / 256, n - 1);
      FromTo(y / 256, n - 1);
      LessConcat(a, b, [(x % 256) as byte], [(y % 256) as byte]);
      LessByte([(x % 256) as byte], (y % 256) as byte);
    } else {
      Irreflexive([]);
    }
  }

  lemma LessByte(k: bytes, v: byte)
    ensures Less(k, [v]) <==> k == [] || k[0] < v
  {
    assert [v][1..] == [];
    if k != [] { assert !Less(k[1..], []); }
  }

  /** sdk.Uint64ToBigEndian */
  function BigEndian64(x: uint64): (s: bytes)
    ensures |s| == 8
  {
    BigEndian(x, 8)
  }

  lemma BigEndian64Order(x: uint64, y: uint64)
    ensures Less(BigEndian64(x), BigEndian64(y)) <==> x < y
    ensures BigEndian64(x) == BigEndian64(y) <==> x == y
    ensures FromBigEndian(BigEndian64(x)) == x
  {
    Pow256Of8();
    hide BigEndian, Less, FromBigEndian, Pow256;
    BigEndianOrder(x, y, 8);
    FromTo(x, 8);
    FromTo(y, 8);
  }

  lemma Pow256Of8()
    ensures Pow256(8) == 0x1_0000_0000_0000_0000
  {
    assert Pow256(2) == 0x1_0000;
    assert Pow256(4) == 0x1_0000 * Pow256(2);
    assert Pow256(6) == 0x1_0000 * Pow256(4);
    assert Pow256(8) == 0x1_0000 * Pow256(6);
  }
}
