/** The wire codec of `TxResult`, the value stored by the transaction index
    (types/indexer.pb.go). */
module TxResultCodec {
  import opened GoInt
  import V = Varint

  datatype TxRecord = TxRecord(height: int64, txIndex: uint32, ethTxIndex: int32, failed: bool)

  const ZERO: TxRecord := TxRecord(0, 0, 0, false)

  datatype Error =
    | NoError
    | IntOverflow
    | UnexpectedEof
    | EndGroup
    | IllegalTag
    | WrongWireType
    | InvalidLength
    | UnexpectedEndOfGroup
    | IllegalWireType

  // ---- Reference encoder: fields in ascending order, zero values left out -------------------

  function Field(tag: byte, v: uint64, present: bool): bytes {
    if present then [tag] + V.Encode(v) else []
  }

  function HeightField(r: TxRecord): bytes { Field(0x08, Uint64(r.height), r.height != 0) }

  function TxIndexField(r: TxRecord): bytes { Field(0x10, Uint64(r.txIndex), r.txIndex != 0) }

  function EthTxIndexField(r: TxRecord): bytes { Field(0x18, Uint64(r.ethTxIndex), r.ethTxIndex != 0) }

  function FailedField(r: TxRecord): bytes { Field(0x20, 1, r.failed) }

  function Marshaled(r: TxRecord): bytes {
    HeightField(r) + (TxIndexField(r) + (EthTxIndexField(r) + FailedField(r)))
  }

  // ---- Reference decoder: exact arithmetic, no wrap-around ------------------------------------

  datatype Skip = Skipped(n: nat) | SkipFailed(err: Error)

  function ReadError(r: V.Read): Error
    requires !r.Ok?
  {
    if r.Eof? then UnexpectedEof else IntOverflow
  }

  datatype Step = Next(n: nat, depth: nat) | Bad(err: Error)

  /** The body of a field at `n`: where the next tag would stand, and how deep in groups. */
  function BodyOver(s: bytes, n: nat, wireType: nat, depth: nat): (r: Step)
    requires n <= |s|
    ensures r.Next? ==> n <= r.n < |s| + TWO_63
    ensures r.Bad? ==> r.err != NoError
  {
    if wireType == 0 then
      (match V.Decode(s, n, 0)
       case Ok(_, n') => Next(n', depth)
       case e => Bad(ReadError(e)))
    else if wireType == 1 then Next(n + 8, depth)
    else if wireType == 2 then
      (match V.Decode(s, n, 0)
       case Ok(length, n') =>
         if Int64(length) < 0 then Bad(InvalidLength) else Next(n' + Int64(length), depth)
       case e => Bad(ReadError(e)))
    else if wireType == 3 then Next(n, depth + 1)
    else if wireType == 4 then
      if depth == 0 then Bad(UnexpectedEndOfGroup) else Next(n, depth - 1)
    else if wireType == 5 then Next(n + 4, depth)
    else Bad(IllegalWireType)
  }

  function StepOver(s: bytes, i: nat, depth: nat): (r: Step)
    requires i < |s|
    ensures r.Next? ==> i < r.n < |s| + TWO_63
    ensures r.Bad? ==> r.err != NoError
  {
    match V.Decode(s, i, 0)
    case Ok(w, n) => BodyOver(s, n, Uint64(w) % 8, depth)
    case e => Bad(ReadError(e))
  }

  /** Steps over the field at `i`, `depth` groups deep. A position past the largest `int` is an
      invalid length. */
  function SkipFrom(s: bytes, i: nat, depth: nat): (r: Skip)
    ensures r.Skipped? ==> i < r.n < TWO_63
    ensures r.SkipFailed? ==> r.err != NoError
    decreases if i < |s| then |s| - i else 0
  {
    if i >= |s| then SkipFailed(UnexpectedEof)
    else match StepOver(s, i, depth)
         case Bad(e) => SkipFailed(e)
         case Next(n, d) =>
           if n >= TWO_63 then SkipFailed(InvalidLength)
           else if d == 0 then Skipped(n)
           else SkipFrom(s, n, d)
  }

  datatype Parse = Accepted(rec: TxRecord) | Rejected(err: Error)

  /** What a varint field does to the record; `v` is the exact number on the wire. */
  function SetField(r: TxRecord, num: int, v: nat): TxRecord
    requires 1 <= num <= 4
  {
    if num == 1 then r.(height := Int64(v))
    else if num == 2 then r.(txIndex := Uint32(v))
    else if num == 3 then r.(ethTxIndex := Int32(v))
    else r.(failed := Int64(v) != 0)
  }

  datatype Item = Known(num: int, v: nat, next: nat) | Unknown(next: nat) | BadItem(err: Error)

  /** The field at `i`. */
  function ItemAt(s: bytes, i: nat): (r: Item)
    requires i < |s|
    ensures !r.BadItem? ==> i < r.next <= |s|
    ensures r.Known? ==> 1 <= r.num <= 4
    ensures r.BadItem? ==> r.err != NoError
  {
    match V.Decode(s, i, 0)
    case Ok(w, n) =>
      var num, wireType := Int32(Uint64(w) / 8), Uint64(w) % 8;
      if wireType == 4 then BadItem(EndGroup)
      else if num <= 0 then BadItem(IllegalTag)
      else if num <= 4 then
        if wireType != 0 then BadItem(WrongWireType)
        else (match V.Decode(s, n, 0)
              case Ok(v, n') => Known(num, v, n')
              case e => BadItem(ReadError(e)))
      else (match SkipFrom(s[i..], 0, 0)
            case Skipped(k) =>
              if i + k >= TWO_63 then BadItem(InvalidLength)
              else if i + k > |s| then BadItem(UnexpectedEof)
              else Unknown(i + k)
            case SkipFailed(e) => BadItem(e))
    case e => BadItem(ReadError(e))
  }

  /** A tag that is cut short is the end of the input, and one of more than ten groups is an overflow. */
  lemma TagErrors(s: bytes, i: nat)
    requires i < |s|
    ensures |s| - i < 10 && (forall j :: i <= j < |s| ==> s[j] >= 128) ==> ItemAt(s, i) == BadItem(UnexpectedEof)
    ensures |s| - i >= 10 && (forall j :: i <= j < i + 10 ==> s[j] >= 128) ==> ItemAt(s, i) == BadItem(IntOverflow)
  {
    hide V.Decode;
    V.DecodeErrors(s, i, 0);
  }

  /** The fields from `i` to the end of the input, applied in order; unknown ones are dropped. */
  function ParseFrom(s: bytes, i: nat, r: TxRecord): Parse
    requires i <= |s|
    decreases |s| - i
  {
    if i == |s| then Accepted(r)
    else match ItemAt(s, i)
         case Known(num, v, n) => ParseFrom(s, n, SetField(r, num, v))
         case Unknown(n) => ParseFrom(s, n, r)
         case BadItem(e) => Rejected(e)
  }

  // ---- Round trip ---------------------------------------------------------------------------------

  /** Where an encoded field stands, it is read back. */
  lemma {:induction false} FieldReads(s: bytes, pre: bytes, num: int, v: uint64, post: bytes)
    requires 1 <= num <= 4
    requires s == pre + Field((8 * num) as byte, v, true) + post
    ensures |pre| < |s|
    ensures ItemAt(s, |pre|) == Known(num, v, |pre| + |Field((8 * num) as byte, v, true)|)
  {
    V.SizeIsLength(v);
    var pre' := pre + [(8 * num) as byte];
    assert s == pre' + V.Encode(v) + post;
    V.DecodeEncode(v, pre', post, 0);
    TagReads(s, |pre|, num);
    hide V.Decode, V.Encode, SkipFrom;
  }

  lemma TagReads(s: bytes, i: nat, num: int)
    requires i < |s| && 1 <= num <= 4 && s[i] as int == 8 * num
    ensures V.Decode(s, i, 0) == V.Ok(8 * num, i + 1)
    ensures Uint64(8 * num) % 8 == 0 && Int32(Uint64(8 * num) / 8) == num
  {
  }

  function SetIf(r: TxRecord, num: int, v: nat, present: bool): TxRecord
    requires 1 <= num <= 4
  {
    if present then SetField(r, num, v) else r
  }

  /** A field that may be left out is applied if it is there, and stepped over. */
  lemma {:induction false} ParseOptional(s: bytes, i: nat, pre: bytes, num: int, v: uint64, present: bool, post: bytes, r: TxRecord)
    requires 1 <= num <= 4 && i == |pre|
    requires s == pre + (Field((8 * num) as byte, v, present) + post)
    ensures ParseFrom(s, i, r) == ParseFrom(s, i + |Field((8 * num) as byte, v, present)|, SetIf(r, num, v, present))
  {
    hide ItemAt, V.Encode;
    if present {
      var f := Field((8 * num) as byte, v, true);
      assert s == pre + f + post;
      FieldReads(s, pre, num, v, post);
    }
  }

  lemma ParseEnd(s: bytes, r: TxRecord)
    ensures ParseFrom(s, |s|, r) == Accepted(r)
  {
  }

  /** `r` read over an existing value: absent fields keep what was there. */
  function Merged(m: TxRecord, r: TxRecord): TxRecord {
    TxRecord(if r.height != 0 then r.height else m.height,
             if r.txIndex != 0 then r.txIndex else m.txIndex,
             if r.ethTxIndex != 0 then r.ethTxIndex else m.ethTxIndex,
             r.failed || m.failed)
  }

  function AfterTxIndex(m: TxRecord, r: TxRecord): TxRecord {
    SetIf(SetIf(m, 1, Uint64(r.height), r.height != 0), 2, Uint64(r.txIndex), r.txIndex != 0)
  }

  lemma {:induction false} ParseFront(r: TxRecord, m: TxRecord)
    ensures |HeightField(r)| + |TxIndexField(r)| <= |Marshaled(r)|
    ensures ParseFrom(Marshaled(r), 0, m) ==
            ParseFrom(Marshaled(r), |HeightField(r)| + |TxIndexField(r)|, AfterTxIndex(m, r))
  {
    var h, t, rest := HeightField(r), TxIndexField(r), EthTxIndexField(r) + FailedField(r);
    var s := Marshaled(r);
    hide ParseFrom, Field, SetField;
    assert s == [] + (h + (t + rest)) == h + (t + rest);
    ParseOptional(s, 0, [], 1, Uint64(r.height), r.height != 0, t + rest, m);
    ParseOptional(s, |h|, h, 2, Uint64(r.txIndex), r.txIndex != 0, rest, SetIf(m, 1, Uint64(r.height), r.height != 0));
  }

  lemma {:induction false} ParseBack(r: TxRecord, m: TxRecord)
    ensures |HeightField(r)| + |TxIndexField(r)| <= |Marshaled(r)|
    ensures ParseFrom(Marshaled(r), |HeightField(r)| + |TxIndexField(r)|, m) ==
            Accepted(SetIf(SetIf(m, 3, Uint64(r.ethTxIndex), r.ethTxIndex != 0), 4, 1, r.failed))
  {
    var pre, e, f := HeightField(r) + TxIndexField(r), EthTxIndexField(r), FailedField(r);
    var s := Marshaled(r);
    hide ParseFrom, Field, SetField;
    assert s == pre + (e + f);
    ParseOptional(s, |pre|, pre, 3, Uint64(r.ethTxIndex), r.ethTxIndex != 0, f, m);
    assert s == (pre + e) + (f + []);
    ParseOptional(s, |pre| + |e|, pre + e, 4, 1, r.failed, [], SetIf(m, 3, Uint64(r.ethTxIndex), r.ethTxIndex != 0));
    ParseEnd(s, SetIf(SetIf(m, 3, Uint64(r.ethTxIndex), r.ethTxIndex != 0), 4, 1, r.failed));
  }

  /** Decoding an encoded record over any value merges it in. */
  lemma ParseMarshaled(r: TxRecord, m: TxRecord)
    ensures ParseFrom(Marshaled(r), 0, m) == Accepted(Merged(m, r))
  {
    hide ParseFrom, Marshaled;
    ParseFront(r, m);
    ParseBack(r, AfterTxIndex(m, r));
    Reinterpret(r);
  }

  /** Decoding an encoded record into a zero value gives the record back, whatever the signs. */
  lemma RoundTrip(r: TxRecord)
    ensures ParseFrom(Marshaled(r), 0, ZERO) == Accepted(r)
  {
    hide ParseFrom, Marshaled;
    ParseMarshaled(r, ZERO);
  }

  lemma Reinterpret(r: TxRecord)
    ensures Int64(Uint64(r.height)) == r.height
    ensures Uint32(Uint64(r.txIndex)) == r.txIndex
    ensures Int32(Uint64(r.ethTxIndex)) == r.ethTxIndex
  {
    assert Uint64(r.ethTxIndex) == if r.ethTxIndex < 0 then TWO_64 + r.ethTxIndex else r.ethTxIndex;
    assert Uint64(r.height) == if r.height < 0 then TWO_64 + r.height else r.height;
  }

  // ---- Concatenation ----------------------------------------------------------------------------

  lemma StepPrefix(a: bytes, b: bytes, i: nat, depth: nat)
    requires i < |a| && StepOver(a, i, depth).Next?
    ensures StepOver(a + b, i, depth) == StepOver(a, i, depth)
  {
    V.DecodePrefix(a, b, i, 0);
    var n := V.Decode(a, i, 0).next;
    if V.Decode(a, n, 0).Ok? { V.DecodePrefix(a, b, n, 0); }
  }

  lemma {:induction false} SkipPrefix(a: bytes, b: bytes, i: nat, depth: nat)
    requires SkipFrom(a, i, depth).Skipped?
    ensures SkipFrom(a + b, i, depth) == SkipFrom(a, i, depth)
    decreases if i < |a| then |a| - i else 0
  {
    StepPrefix(a, b, i, depth);
    var Next(n, d) := StepOver(a, i, depth);
    if d > 0 { SkipPrefix(a, b, n, d); }
  }

  lemma ItemPrefix(a: bytes, b: bytes, i: nat)
    requires i < |a| && !ItemAt(a, i).BadItem?
    ensures ItemAt(a + b, i) == ItemAt(a, i)
  {
    hide SkipFrom;
    V.DecodePrefix(a, b, i, 0);
    if ItemAt(a, i).Known? {
      V.DecodePrefix(a, b, V.Decode(a, i, 0).next, 0);
    } else {
      assert (a + b)[i..] == a[i..] + b;
      SkipPrefix(a[i..], b, 0, 0);
    }
  }

  /** Messages concatenate: decoding `a + b` is decoding `b` over the result of decoding `a`. In
      particular a successful decode has consumed its input exactly. */
  lemma {:induction false} ParseConcat(a: bytes, b: bytes, i: nat, r: TxRecord)
    requires i <= |a|
    requires ParseFrom(a, i, r).Accepted?
    ensures ParseFrom(a + b, i, r) == ParseFrom(a + b, |a|, ParseFrom(a, i, r).rec)
    decreases |a| - i
  {
    hide ItemAt;
    if i < |a| {
      ItemPrefix(a, b, i);
      match ItemAt(a, i)
      case Known(num, v, n) => ParseConcat(a, b, n, SetField(r, num, v));
      case Unknown(n) => ParseConcat(a, b, n, r);
    }
  }

  // ---- The generated code -------------------------------------------------------------------------

  /** Whether an index in a wrapping `int` stands for the position `n`. */
  predicate Wraps(i: int64, n: nat) {
    if n < TWO_63 then i == n else i < 0
  }

  /** A read loop over a 64-bit accumulator. */
  method ReadUint64(dAtA: bytes, i: nat) returns (r: V.Read)
    ensures match V.Decode(dAtA, i, 0)
            case Ok(v, n) => r == V.Ok(Uint64(v), n) && Int64(Uint64(v)) == Int64(v)
            case e => r == e
  {
    r := V.ReadLoop(dAtA, i, 64);
    Pow2Values();
    if r.Ok? { Truncations(V.Decode(dAtA, i, 0).value); }
  }

  /** The wire-type switch of skipIndexer. */
  method SkipBody(dAtA: bytes, n: int64, wireType: nat, depth0: nat) returns (i: int64, depth: nat, err: Error)
    requires 0 <= n <= |dAtA| < TWO_63
    ensures match BodyOver(dAtA, n, wireType, depth0)
            case Bad(e) => err == e && err != NoError
            case Next(n', d) => err == NoError && depth == d && Wraps(i, n')
  {
    i, depth := n, depth0;
    if wireType == 0 {
      var v := V.ReadLoop(dAtA, i, 0);
      if !v.Ok? { return 0, 0, ReadError(v); }
      i := v.next;
    } else if wireType == 1 {
      WrapIsNegative(i, 8);
      i := Int64(i + 8);
    } else if wireType == 2 {
      var length := ReadUint64(dAtA, i);
      if !length.Ok? { return 0, 0, ReadError(length); }
      i := length.next;
      if Int64(length.value) < 0 { return 0, 0, InvalidLength; }
      WrapIsNegative(i, Int64(length.value));
      i := Int64(i + Int64(length.value));
    } else if wireType == 3 {
      depth := depth + 1;
    } else if wireType == 4 {
      if depth == 0 { return 0, 0, UnexpectedEndOfGroup; }
      depth := depth - 1;
    } else if wireType == 5 {
      WrapIsNegative(i, 4);
      i := Int64(i + 4);
    } else {
      return 0, 0, IllegalWireType;
    }
    err := NoError;
  }

  /** skipIndexer. A wrapped index is negative exactly when the true position passes MaxInt64. */
  method SkipIndexer(dAtA: bytes) returns (n: int64, err: Error)
    requires |dAtA| < TWO_63
    ensures match SkipFrom(dAtA, 0, 0)
            case Skipped(k) => err == NoError && n == k
            case SkipFailed(e) => err == e && e != NoError
    ensures err == NoError ==> n >= 1
  {
    var i: int64, depth: nat := 0, 0;
    while i < |dAtA|
      invariant 0 <= i
      invariant SkipFrom(dAtA, i, depth) == SkipFrom(dAtA, 0, 0)
      decreases |dAtA| - i
    {
      var wire := ReadUint64(dAtA, i);
      if !wire.Ok? { return 0, ReadError(wire); }
      i, depth, err := SkipBody(dAtA, wire.next, wire.value % 8, depth);
      if err != NoError { return 0, err; }
      if i < 0 { return 0, InvalidLength; }
      if depth == 0 { return i, NoError; }
    }
    return 0, UnexpectedEof;
  }

  lemma SpliceTag(s: bytes, i: nat, tag: byte, x: bytes, end: nat)
    requires i + 1 + |x| == end <= |s|
    ensures V.Splice(s, i + 1, x, end)[i := tag] == V.Splice(s, i, [tag] + x, end)
  {
  }

  /** `s` up to `i`, and then `tail`. */
  function WithTail(s: bytes, i: nat, tail: bytes): bytes
    requires i <= |s|
  {
    s[..i] + tail
  }

  lemma SpliceTail(s: bytes, end: nat, x: bytes, tail: bytes)
    requires |x| <= end <= |s|
    ensures |WithTail(s, end, tail)| == end + |tail|
    ensures V.Splice(WithTail(s, end, tail), end - |x|, x, end) == WithTail(s, end - |x|, x + tail)
  {
  }

  class TxResult {
    var height: int64
    var txIndex: uint32
    var ethTxIndex: int32
    var failed: bool

    constructor ()
      ensures Value() == ZERO
    {
      height, txIndex, ethTxIndex, failed := 0, 0, 0, false;
    }

    function Value(): TxRecord
      reads this
    {
      TxRecord(height, txIndex, ethTxIndex, failed)
    }

    method Size() returns (n: nat)
      ensures n == |Marshaled(Value())|
    {
      assert V.Encode(1) == [1];
      hide V.Encode, V.Size;
      V.SizeIsLength(Uint64(height));
      V.SizeIsLength(Uint64(txIndex));
      V.SizeIsLength(Uint64(ethTxIndex));
      n := 0;
      if height != 0 { n := n + 1 + V.Size(Uint64(height)); }
      if txIndex != 0 { n := n + 1 + V.Size(Uint64(txIndex)); }
      if ethTxIndex != 0 { n := n + 1 + V.Size(Uint64(ethTxIndex)); }
      if failed { n := n + 2; }
    }

    /** Writes one tagged varint so that it ends at `end`, unless it is to be left out; `tail` is
        what the buffer already holds from there on. */
    method WriteField(dAtA: array<byte>, end: int, tag: byte, v: uint64, present: bool,
                      ghost before: bytes, ghost tail: bytes)
      returns (i: int)
      requires |Field(tag, v, present)| <= end <= |before| == dAtA.Length
      requires dAtA[..] == WithTail(before, end, tail)
      modifies dAtA
      ensures i == end - |Field(tag, v, present)|
      ensures dAtA[..] == WithTail(before, i, Field(tag, v, present) + tail)
    {
      hide V.Encode, V.Size, V.Splice, WithTail;
      i := end;
      if present {
        V.SizeIsLength(v);
        i := V.EncodeAt(dAtA, i, v);
        i := i - 1;
        ghost var coded := dAtA[..];
        dAtA[i] := tag;
        assert dAtA[..] == coded[i := tag];
        SpliceTag(WithTail(before, end, tail), i, tag, V.Encode(v), end);
        SpliceTail(before, end, [tag] + V.Encode(v), tail);
      } else {
        assert [] + tail == tail;
      }
    }

    /** The flag, at the end of the buffer. */
    method WriteFailed(dAtA: array<byte>) returns (i: int)
      requires |FailedField(Value())| <= dAtA.Length
      modifies dAtA
      ensures i == dAtA.Length - |FailedField(Value())|
      ensures dAtA[..] == WithTail(old(dAtA[..]), i, FailedField(Value()))
    {
      assert V.Encode(1) == [1];
      i := dAtA.Length;
      if failed {
        i := i - 1;
        dAtA[i] := 1;
        i := i - 1;
        dAtA[i] := 0x20;
      }
    }

    /** MarshalToSizedBuffer: the fields last to first, from the end of the buffer backwards. */
    method MarshalToSizedBuffer(dAtA: array<byte>) returns (n: int)
      requires |Marshaled(Value())| <= dAtA.Length
      modifies dAtA
      ensures n == |Marshaled(Value())|
      ensures dAtA[..] == WithTail(old(dAtA[..]), dAtA.Length - n, Marshaled(Value()))
    {
      ghost var before, r := dAtA[..], Value();
      hide Field, WithTail;
      var i := WriteFailed(dAtA);
      i := WriteField(dAtA, i, 0x18, Uint64(ethTxIndex), ethTxIndex != 0, before, FailedField(r));
      i := WriteField(dAtA, i, 0x10, Uint64(txIndex), txIndex != 0, before, EthTxIndexField(r) + FailedField(r));
      i := WriteField(dAtA, i, 0x08, Uint64(height), height != 0, before,
                      TxIndexField(r) + (EthTxIndexField(r) + FailedField(r)));
      n := dAtA.Length - i;
    }

    /** Marshal: the buffer is sized first and filled exactly. */
    method Marshal() returns (dAtA: array<byte>)
      ensures fresh(dAtA)
      ensures dAtA[..] == Marshaled(Value())
    {
      var size := Size();
      dAtA := new byte[size];
      var n := MarshalToSizedBuffer(dAtA);
    }

    /** The four `case` arms of Unmarshal: reads the varint at `i` into the numbered field. */
    method ReadField(dAtA: bytes, i: int64, fieldNum: int32) returns (next: int64, err: Error)
      requires 0 <= i <= |dAtA| < TWO_63 && 1 <= fieldNum <= 4
      modifies this
      ensures match V.Decode(dAtA, i, 0)
              case Ok(v, n) => err == NoError && next == n && Value() == SetField(old(Value()), fieldNum, v)
              case e => err == ReadError(e)
    {
      var v := V.ReadLoop(dAtA, i, if fieldNum == 1 || fieldNum == 4 then 64 else 32);
      if !v.Ok? { return i, ReadError(v); }
      TruncationKeepsField(Value(), fieldNum, V.Decode(dAtA, i, 0).value);
      if fieldNum == 1 { height := Int64(v.value); }
      else if fieldNum == 2 { txIndex := Uint32(v.value); }
      else if fieldNum == 3 { ethTxIndex := Int32(v.value); }
      else { failed := Int64(v.value) != 0; }
      return v.next, NoError;
    }

    /** The body of Unmarshal's loop: one field. */
    method ReadItem(dAtA: bytes, preIndex: int64) returns (i: int64, err: Error)
      requires 0 <= preIndex < |dAtA| < TWO_63
      modifies this
      ensures match ItemAt(dAtA, preIndex)
              case Known(num, v, n) => err == NoError && i == n && Value() == SetField(old(Value()), num, v)
              case Unknown(n) => err == NoError && i == n && Value() == old(Value())
              case BadItem(e) => err == e
    {
      hide V.Decode, SkipFrom, SetField;
      var wire := ReadUint64(dAtA, preIndex);
      if !wire.Ok? { return 0, ReadError(wire); }
      i := wire.next;
      var fieldNum, wireType := Int32(wire.value / 8), wire.value % 8;
      if wireType == 4 { return 0, EndGroup; }
      if fieldNum <= 0 { return 0, IllegalTag; }
      if fieldNum <= 4 {
        if wireType != 0 { return 0, WrongWireType; }
        i, err := ReadField(dAtA, i, fieldNum);
      } else {
        i := preIndex;
        var skippy, e := SkipIndexer(dAtA[i..]);
        if e != NoError { return 0, e; }
        WrapIsNegative(i, skippy);
        if skippy < 0 || Int64(i + skippy) < 0 { return 0, InvalidLength; }
        if Int64(i + skippy) > |dAtA| { return 0, UnexpectedEof; }
        i := Int64(i + skippy);
        err := NoError;
      }
    }

    /** Unmarshal: reads over the receiver's present value. */
    method Unmarshal(dAtA: bytes) returns (err: Error)
      requires |dAtA| < TWO_63
      modifies this
      ensures match ParseFrom(dAtA, 0, old(Value()))
              case Accepted(r) => err == NoError && Value() == r
              case Rejected(e) => err == e && err != NoError
    {
      hide ItemAt;
      var l: int64 := |dAtA|;
      var i: int64 := 0;
      while i < l
        invariant 0 <= i <= l
        invariant ParseFrom(dAtA, i, Value()) == ParseFrom(dAtA, 0, old(Value()))
        decreases l - i
      {
        i, err := ReadItem(dAtA, i);
        if err != NoError { return err; }
      }
      if i > l { return UnexpectedEof; }
      return NoError;
    }
  }

  lemma WrapIsNegative(i: int64, k: int64)
    requires 0 <= i && 0 <= k
    ensures Int64(i + k) < 0 <==> i + k >= TWO_63
    ensures i + k < TWO_63 ==> Int64(i + k) == i + k
  {
  }

  lemma TruncationKeepsField(r: TxRecord, num: int, v: nat)
    requires 1 <= num <= 4
    ensures SetField(r, num, Trunc(v, if num == 1 || num == 4 then 64 else 32)) == SetField(r, num, v)
  {
    Pow2Values();
    Truncations(v);
  }
}
