/** Base-128 varints as `types/indexer.pb.go` writes and reads them. The reference is the
    Protocol Buffers Encoding guide, section "Base 128 Varints": seven bits a byte, least
    significant group first, the top bit set on every byte but the last. */
module Varint {
  import opened GoInt

  const MAX_GROUPS: nat := 10

  // ---- Reference: exact numbers, no widths, no shifts -----------------------------------

  function Encode(v: nat): (s: bytes)
    ensures |s| >= 1
  {
    if v < 128 then [v as byte] else [(v % 128 + 128) as byte] + Encode(v / 128)
  }

  datatype Read = Ok(value: nat, next: nat) | Eof | Overflow

  /** The exact number held by the groups at `i`, `k` groups having been read already. */
  function Decode(s: bytes, i: nat, k: nat): (r: Read)
    requires k <= MAX_GROUPS
    ensures r.Ok? ==> i < r.next <= |s|
    decreases MAX_GROUPS - k
  {
    if k == MAX_GROUPS then Overflow
    else if i >= |s| then Eof
    else if s[i] < 128 then Ok(s[i] as int, i + 1)
    else match Decode(s, i + 1, k + 1)
         case Ok(v, n) => Ok(s[i] as int % 128 + 128 * v, n)
         case e => e
  }

  /** Reading back an encoding gives the number and stops right after it. */
  lemma {:induction false} DecodeEncode(v: nat, pre: bytes, post: bytes, k: nat)
    requires k + |Encode(v)| <= MAX_GROUPS
    ensures Decode(pre + Encode(v) + post, |pre|, k) == Ok(v, |pre| + |Encode(v)|)
    decreases v
  {
    var s := pre + Encode(v) + post;
    if v >= 128 {
      var pre' := pre + [(v % 128 + 128) as byte];
      assert s == pre' + Encode(v / 128) + post;
      DecodeEncode(v / 128, pre', post, k + 1);
    }
  }

  /** A successful read depends only on the bytes it consumed. */
  lemma {:induction false} DecodePrefix(a: bytes, b: bytes, i: nat, k: nat)
    requires k <= MAX_GROUPS
    requires Decode(a, i, k).Ok?
    ensures Decode(a + b, i, k) == Decode(a, i, k)
    decreases MAX_GROUPS - k
  {
    assert (a + b)[i] == a[i];
    if a[i] >= 128 { DecodePrefix(a, b, i + 1, k + 1); }
  }

  /** Groups that never end: too short an input, or more than ten of them. */
  lemma {:induction false} DecodeErrors(s: bytes, i: nat, k: nat)
    requires k <= 10 && i <= |s|
    ensures |s| - i < 10 - k && (forall j :: i <= j < |s| ==> s[j] >= 128) ==> Decode(s, i, k) == Eof
    ensures |s| - i >= 10 - k && (forall j :: i <= j < i + 10 - k ==> s[j] >= 128) ==> Decode(s, i, k) == Overflow
    decreases 10 - k
  {
    if k < 10 && i < |s| { DecodeErrors(s, i + 1, k + 1); }
  }

  /** What a read amounts to once the groups worth `low`, `shift` bits in all, stand before it. */
  function Above(r: Read, low: nat, shift: nat): Read {
    if r.Ok? then Ok(low + r.value * Pow2(shift), r.next) else r
  }

  // ---- Size ------------------------------------------------------------------------------

  /** math/bits.Len64 */
  function BitLen(x: nat): nat {
    if x == 0 then 0 else 1 + BitLen(x / 2)
  }

  /** sovIndexer */
  function Size(x: uint64): nat {
    (BitLen(BitOr(x, 1)) + 6) / 7
  }

  lemma {:induction false} BitLenOfOrOne(x: nat)
    ensures BitLen(BitOr(x, 1)) == if x == 0 then 1 else BitLen(x)
  {
    var half := x / 2;
    BitOrZero(half);
    assert BitOr(x, 1) == 1 + 2 * BitOr(half, 0);
    assert (1 + 2 * half) / 2 == half;
  }

  lemma {:induction false} BitLenOfHalf(x: nat)
    requires x > 0
    ensures BitLen(x) == 1 + BitLen(x / 2)
  {
  }

  lemma {:induction false} BitLenOfShift7(x: nat)
    requires x >= 128
    ensures BitLen(x) == 7 + BitLen(x / 128)
  {
    hide BitLen;
    BitLenOfHalf(x);
    BitLenOfHalf(x / 2);
    BitLenOfHalf(x / 4);
    BitLenOfHalf(x / 8);
    BitLenOfHalf(x / 16);
    BitLenOfHalf(x / 32);
    BitLenOfHalf(x / 64);
  }

  /** sovIndexer's bit trick is the length of the encoding, and never passes ten. */
  lemma {:induction false} SizeIsLength(x: uint64)
    ensures Size(x) == |Encode(x)|
    ensures Size(x) <= MAX_GROUPS
  {
    BitLenOfOrOne(x);
    LengthFromBits(x);
    BitLenBound(x, 64) by { Pow2Values(); }
  }

  lemma {:induction false} LengthFromBits(x: nat)
    ensures |Encode(x)| == ((if x == 0 then 1 else BitLen(x)) + 6) / 7
  {
    if x >= 128 {
      LengthFromBits(x / 128);
      BitLenOfShift7(x);
    } else if x > 0 {
      BitLenBound(x, 7) by { Pow2Values(); }
    }
  }

  lemma {:induction false} BitLenBound(x: nat, n: nat)
    requires x < Pow2(n)
    ensures BitLen(x) <= n
  {
    if x > 0 { BitLenBound(x / 2, n - 1); }
  }

  // ---- The loops of the generated code -----------------------------------------------------

  /** `s` with the bytes from `i` to `end` replaced. */
  function Splice(s: bytes, i: nat, x: bytes, end: nat): bytes
    requires i <= end <= |s|
  {
    s[..i] + x + s[end..]
  }

  /** encodeVarintIndexer: writes `v` so that it ends at `offset`, and returns where it starts. */
  method EncodeAt(dAtA: array<byte>, offset: int, v: uint64) returns (base: int)
    requires Size(v) <= offset <= dAtA.Length
    modifies dAtA
    ensures base == offset - |Encode(v)| >= 0
    ensures dAtA[..] == Splice(old(dAtA[..]), base, Encode(v), offset)
  {
    SizeIsLength(v);
    base := offset - Size(v);
    var o, w := base, v;
    ghost var before: bytes, done: bytes := dAtA[..], [];
    SpliceNothing(before, base);
    hide Encode, Size, Splice;
    while w >= 128
      invariant 0 <= w && o == base + |done|
      invariant o + |Encode(w)| == offset
      invariant done + Encode(w) == Encode(v)
      invariant dAtA[..] == Splice(before, base, done, o)
      decreases w
    {
      EncodeStep(done, w);
      PutByte(dAtA, o, (w % 128 + 128) as byte, before, base, done);
      done := done + [(w % 128 + 128) as byte];
      w := w / 128;
      o := o + 1;
    }
    EncodeLast(done, w);
    PutByte(dAtA, o, w as byte, before, base, done);
  }

  lemma {:induction false} EncodeStep(done: bytes, w: nat)
    requires w >= 128
    ensures |Encode(w)| == 1 + |Encode(w / 128)|
    ensures (done + [(w % 128 + 128) as byte]) + Encode(w / 128) == done + Encode(w)
  {
  }

  lemma {:induction false} EncodeLast(done: bytes, w: nat)
    requires w < 128
    ensures |Encode(w)| == 1
    ensures done + [w as byte] == done + Encode(w)
  {
  }

  lemma SpliceNothing(s: bytes, end: nat)
    requires end <= |s|
    ensures Splice(s, end, [], end) == s
  {
  }

  /** dAtA[o] = b, where `done` is what has been written from `base` up to `o`. */
  method PutByte(dAtA: array<byte>, o: nat, b: byte, ghost before: bytes, ghost base: nat, ghost done: bytes)
    requires base + |done| == o < dAtA.Length == |before|
    requires dAtA[..] == Splice(before, base, done, o)
    modifies dAtA
    ensures dAtA[..] == Splice(before, base, done + [b], o + 1)
  {
    ghost var s := dAtA[..];
    dAtA[o] := b;
    assert dAtA[..] == s[o := b];
  }

  /** The inlined read loop, accumulating by `acc |= T(b & 0x7F) << shift` in a type of the
      given width. It yields the exact number truncated to that width. */
  method ReadLoop(dAtA: bytes, start: nat, width: nat) returns (r: Read)
    ensures r == Truncated(Decode(dAtA, start, 0), width)
  {
    var acc: nat, i: nat, shift: nat := 0, start, 0;
    ghost var k: nat, exact: nat := 0, 0;
    assert Pow2(0) == 1 && Trunc(0, width) == 0;
    hide Pow2, Decode, Trunc, OrShift, WithGroup, Above;
    ReadBegin(Decode(dAtA, start, 0));
    while true
      invariant k <= MAX_GROUPS && shift == 7 * k
      invariant exact < Pow2(shift)
      invariant acc == Trunc(exact, width)
      invariant Decode(dAtA, start, 0) == Above(Decode(dAtA, i, k), exact, shift)
      decreases MAX_GROUPS - k
    {
      ReadEnd(dAtA, i, k, exact);
      if shift >= 64 { return Overflow; }
      if i >= |dAtA| { return Eof; }
      var b := dAtA[i] as int;
      ReadStep(dAtA, i, k, exact, width);
      i := i + 1;
      acc := OrShift(acc, b % 128, shift, width);
      exact := WithGroup(exact, b % 128, shift);
      if b < 128 {
        return Ok(acc, i);
      }
      shift := shift + 7;
      k := k + 1;
    }
  }

  /** The exact number once a group has been put above it. */
  function WithGroup(exact: nat, g: nat, shift: nat): nat {
    exact + g * Pow2(shift)
  }

  lemma ReadBegin(r: Read)
    ensures Above(r, 0, 0) == r
  {
    assert Pow2(0) == 1;
  }

  lemma ReadEnd(s: bytes, i: nat, k: nat, exact: nat)
    requires k <= MAX_GROUPS
    ensures k == MAX_GROUPS ==> Above(Decode(s, i, k), exact, 7 * k) == Overflow
    ensures k < MAX_GROUPS && i >= |s| ==> Above(Decode(s, i, k), exact, 7 * k) == Eof
  {
  }

  function Truncated(r: Read, width: nat): Read {
    if r.Ok? then Ok(Trunc(r.value, width), r.next) else r
  }

  /** One turn of the read loop: the accumulator, and what remains to be read. */
  lemma ReadStep(s: bytes, i: nat, k: nat, exact: nat, width: nat)
    requires k < MAX_GROUPS && i < |s| && exact < Pow2(7 * k)
    ensures var exact' := WithGroup(exact, s[i] as int % 128, 7 * k);
            && exact' < Pow2(7 * k + 7)
            && OrShift(Trunc(exact, width), s[i] as int % 128, 7 * k, width) == Trunc(exact', width)
            && Above(Decode(s, i, k), exact, 7 * k) ==
               if s[i] < 128 then Ok(exact', i + 1) else Above(Decode(s, i + 1, k + 1), exact', 7 * k + 7)
  {
    hide Decode, Trunc, OrShift, Above, Pow2;
    OrShiftStep(exact, s[i] as int % 128, 7 * k, width);
    GroupStep(exact, s[i] as int % 128, 7 * k);
    AboveStep(s, i, k, exact);
  }

  lemma AboveStep(s: bytes, i: nat, k: nat, exact: nat)
    requires k < MAX_GROUPS && i < |s|
    ensures var exact' := WithGroup(exact, s[i] as int % 128, 7 * k);
            Above(Decode(s, i, k), exact, 7 * k) ==
            if s[i] < 128 then Ok(exact', i + 1) else Above(Decode(s, i + 1, k + 1), exact', 7 * k + 7)
  {
    hide Pow2;
    if s[i] >= 128 {
      var rest := Decode(s, i + 1, k + 1);
      if rest.Ok? { RegroupStep(exact, s[i] as int % 128, rest.value, 7 * k); }
    }
  }

  lemma GroupStep(exact: nat, g: nat, shift: nat)
    requires exact < Pow2(shift) && g < 128
    ensures exact + g * Pow2(shift) < Pow2(shift + 7)
  {
    Pow2Add(7, shift);
    Pow2Values();
    GroupBound(exact, g, Pow2(shift));
  }

  lemma GroupBound(exact: nat, g: nat, p: nat)
    requires exact < p && g < 128
    ensures exact + g * p < 128 * p
  {
    assert (127 - g) * p >= 0;
    assert (127 - g) * p == 127 * p - g * p;
  }

  lemma RegroupStep(exact: nat, g: nat, v: nat, shift: nat)
    ensures exact + (g + 128 * v) * Pow2(shift) == (exact + g * Pow2(shift)) + v * Pow2(shift + 7)
  {
    Pow2Add(7, shift);
    Pow2Values();
    RegroupProduct(g, v, Pow2(shift));
  }

  lemma RegroupProduct(g: nat, v: nat, p: nat)
    ensures (g + 128 * v) * p == g * p + v * (128 * p)
  {
    assert (g + 128 * v) * p == g * p + (128 * v) * p;
    MulAssoc(v, 128, p);
  }
}
