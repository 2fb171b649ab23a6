/** The framing of Ledger exchanges (wallets/usbwallet/ledger.go): a command APDU cut into 64-byte
    chunks, and a reply put together from them. */
module LedgerFraming {
  import opened GoInt

  const HEADER: bytes := [0x01, 0x01, 0x05]
  const SPACE: nat := 59

  /** binary.BigEndian of a uint16 */
  function Pair(n: nat): (b: bytes)
    requires n < 65536
    ensures |b| == 2
  {
    [(n / 256) as byte, (n % 256) as byte]
  }

  function Unpair(hi: byte, lo: byte): (n: nat)
    ensures n < 65536
  {
    hi as int * 256 + lo as int
  }

  lemma UnpairPair(n: nat)
    requires n < 65536
    ensures Unpair(Pair(n)[0], Pair(n)[1]) == n
    ensures Pair(n)[0] == 0 && Pair(n)[1] == 0 <==> n == 0
  {
  }

  /** The APDU without its length field: class, instruction, parameters, data length and data. */
  function Body(opcode: byte, p1: byte, p2: byte, data: bytes): bytes {
    [0xe0, opcode, p1, p2, (|data| % 256) as byte] + data
  }

  function Apdu(opcode: byte, p1: byte, p2: byte, data: bytes): bytes {
    Pair((5 + |data|) % 65536) + Body(opcode, p1, p2, data)
  }

  // ---- Writing ---------------------------------------------------------------------------------------

  function Cut(apdu: bytes): nat { if |apdu| > SPACE then SPACE else |apdu| }

  function Chunk(apdu: bytes, i: nat): bytes {
    HEADER + Pair(i % 65536) + apdu[..Cut(apdu)]
  }

  /** The chunks for `apdu`, numbered from `i`. */
  function ChunksFrom(apdu: bytes, i: nat): seq<bytes> {
    if apdu == [] then [] else [Chunk(apdu, i)] + ChunksFrom(apdu[Cut(apdu)..], i + 1)
  }

  function Concat(chunks: seq<bytes>): bytes {
    if chunks == [] then [] else chunks[0] + Concat(chunks[1..])
  }

  /** What the chunks carry. */
  function Payloads(chunks: seq<bytes>): bytes
    requires forall k :: 0 <= k < |chunks| ==> |chunks[k]| >= 5
  {
    if chunks == [] then [] else chunks[0][5..] + Payloads(chunks[1..])
  }

  /** The chunk loop. The device takes `accepts` writes before it fails, if it fails at all. */
  method WriteChunks(apdu: bytes, accepts: nat) returns (sent: seq<bytes>, ok: bool)
    ensures ok <==> |ChunksFrom(apdu, 0)| <= accepts
    ensures sent == if ok then ChunksFrom(apdu, 0) else ChunksFrom(apdu, 0)[..accepts]
  {
    var rest, i := apdu, 0;
    sent := [];
    while rest != []
      invariant sent + ChunksFrom(rest, i) == ChunksFrom(apdu, 0) && |sent| == i <= accepts
      decreases |rest|
    {
      hide Chunk;
      var chunk := Chunk(rest, i);
      if i == accepts { return sent, false; }
      assert sent + ([chunk] + ChunksFrom(rest[Cut(rest)..], i + 1)) == (sent + [chunk]) + ChunksFrom(rest[Cut(rest)..], i + 1);
      sent := sent + [chunk];
      rest := rest[Cut(rest)..];
      i := i + 1;
    }
    ok := true;
  }

  predicate Numbered(chunk: bytes, n: nat) {
    5 < |chunk| <= 64 && chunk[..3] == HEADER && chunk[3..5] == Pair(n % 65536)
  }

  lemma ChunkShape(apdu: bytes, i: nat)
    requires apdu != []
    ensures Numbered(Chunk(apdu, i), i) && |Chunk(apdu, i)| == 5 + Cut(apdu) && Chunk(apdu, i)[5..] == apdu[..Cut(apdu)]
  {
    hide Pair;
    var c := Chunk(apdu, i);
    assert c == HEADER + (Pair(i % 65536) + apdu[..Cut(apdu)]);
  }

  /** Every chunk fits, all but the last are full, chunk k bears number i + k, and together the chunks
      carry the APDU. */
  lemma {:induction false} ChunksCarry(apdu: bytes, i: nat)
    ensures var c := ChunksFrom(apdu, i);
      && (forall k :: 0 <= k < |c| ==> Numbered(c[k], i + k))
      && (forall k :: 0 <= k < |c| - 1 ==> |c[k]| == 64)
      && Payloads(c) == apdu
  {
    if apdu != [] {
      hide Chunk, Pair;
      var rest := apdu[Cut(apdu)..];
      ChunksCarry(rest, i + 1);
      ChunkShape(apdu, i);
      var c, d := ChunksFrom(apdu, i), ChunksFrom(rest, i + 1);
      assert c[0] == Chunk(apdu, i) && c[1..] == d;
      forall k | 0 <= k < |c| ensures Numbered(c[k], i + k) && (k < |c| - 1 ==> |c[k]| == 64)
      {
        if k > 0 { assert c[k] == d[k - 1] && Numbered(d[k - 1], i + 1 + (k - 1)); }
      }
    }
  }

  /** What a command is on the wire, byte by byte: its length, the class, the instruction with its parameters, and
      the data behind their length. */
  predicate Carries(apdu: bytes, opcode: byte, p1: byte, p2: byte, data: bytes) {
    && |apdu| == 7 + |data| && apdu[0] as int * 256 + apdu[1] as int == (5 + |data|) % 65536
    && apdu[2] == 0xe0 && apdu[3] == opcode && apdu[4] == p1 && apdu[5] == p2
    && apdu[6] as int == |data| % 256 && apdu[7..] == data
  }

  lemma ApduCarries(opcode: byte, p1: byte, p2: byte, data: bytes)
    ensures Carries(Apdu(opcode, p1, p2, data), opcode, p1, p2, data)
  {
    UnpairPair((5 + |data|) % 65536);
    hide Pair;
    assert Apdu(opcode, p1, p2, data)[7..] == Body(opcode, p1, p2, data)[5..] == data;
  }

  // ---- Reading ---------------------------------------------------------------------------------------

  /** `Panic` is a slice bound out of range. */
  datatype Reply = Reply(value: bytes) | WriteFailed | ReadFailed | InvalidHeader | Panic

  /** The last two bytes, the status word, are cut off. */
  function Finish(reply: bytes): Reply {
    if |reply| < 2 then Panic else Reply(reply[..|reply| - 2])
  }

  predicate GoodHeader(chunk: bytes)
    requires |chunk| >= 5
  {
    chunk[0] == 0x01 && chunk[1] == 0x01 && chunk[2] == 0x05
  }

  predicate IsFirst(chunk: bytes)
    requires |chunk| >= 5
  {
    chunk[3] == 0 && chunk[4] == 0
  }

  /** The reply read from a stream, with `reply` of `room` bytes gathered already. */
  function ReadFrom(stream: bytes, room: nat, reply: bytes): Reply
    requires |reply| <= room
    decreases |stream|
  {
    if |stream| < 64 then ReadFailed
    else if !GoodHeader(stream) then InvalidHeader
    else if IsFirst(stream) then Gather(stream, Unpair(stream[5], stream[6]), [], stream[7..64])
    else Gather(stream, room, reply, stream[5..64])
  }

  function Gather(stream: bytes, room: nat, reply: bytes, payload: bytes): Reply
    requires |stream| >= 64 && |reply| <= room
    decreases |stream|, 0
  {
    var left := room - |reply|;
    if left > |payload| then ReadFrom(stream[64..], room, reply + payload) else Finish(reply + payload[..left])
  }

  /** The reply loop. */
  method ReadReply(stream: bytes) returns (r: Reply)
    ensures r == ReadFrom(stream, 0, [])
  {
    hide Unpair;
    var rest, room, reply := stream, 0, [];
    while true
      invariant |reply| <= room && ReadFrom(rest, room, reply) == ReadFrom(stream, 0, [])
      decreases |rest|
    {
      if |rest| < 64 { return ReadFailed; }
      if rest[0] != 0x01 || rest[1] != 0x01 || rest[2] != 0x05 { return InvalidHeader; }
      var payload;
      if rest[3] == 0x00 && rest[4] == 0x00 {
        room, reply, payload := Unpair(rest[5], rest[6]), [], rest[7..64];
      } else {
        payload := rest[5..64];
      }
      var left := room - |reply|;
      if left <= |payload| { return Finish(reply + payload[..left]); }
      reply := reply + payload;
      rest := rest[64..];
    }
  }

  /** ledgerExchange with a device that takes `accepts` writes and then answers with `answer`. */
  method LedgerExchange(opcode: byte, p1: byte, p2: byte, data: bytes, accepts: nat, answer: bytes) returns (sent: seq<bytes>, r: Reply)
    ensures var chunks := ChunksFrom(Apdu(opcode, p1, p2, data), 0);
      if |chunks| <= accepts then sent == chunks && r == ReadFrom(answer, 0, [])
      else sent == chunks[..accepts] && r == WriteFailed
    ensures !r.WriteFailed? ==> (forall k :: 0 <= k < |sent| ==> |sent[k]| >= 5) && Carries(Payloads(sent), opcode, p1, p2, data)
  {
    ChunksCarry(Apdu(opcode, p1, p2, data), 0);
    ApduCarries(opcode, p1, p2, data);
    hide ReadFrom, ChunksFrom, Apdu, Payloads, Carries;
    var ok;
    sent, ok := WriteChunks(Apdu(opcode, p1, p2, data), accepts);
    if !ok { return sent, WriteFailed; }
    r := ReadReply(answer);
  }

  // ---- The reader undoes the writer --------------------------------------------------------------------

  lemma Slice(s: bytes, a: nat, b: nat, c: nat, d: nat)
    requires a + c <= a + d <= b <= |s|
    ensures s[a..b][c..d] == s[a + c..a + d]
  {
    var x, y := s[a..b][c..d], s[a + c..a + d];
    assert forall i :: 0 <= i < |x| ==> x[i] == y[i];
  }

  /** A stream that begins with a chunk, followed by enough bytes to fill it up. */
  lemma StreamHead(apdu: bytes, i: nat, rest: bytes)
    requires apdu != [] && |Chunk(apdu, i) + rest| >= 64
    ensures var s := Chunk(apdu, i) + rest;
      && GoodHeader(s) && (IsFirst(s) <==> i % 65536 == 0)
      && s[5..5 + Cut(apdu)] == apdu[..Cut(apdu)] && (Cut(apdu) == SPACE ==> s[64..] == rest)
  {
    ChunkShape(apdu, i);
    UnpairPair(i % 65536);
    hide Pair, Chunk;
    var c := Chunk(apdu, i);
    var s := c + rest;
    assert s[..3] == c[..3] == HEADER;
    assert s[0] == s[..3][0] && s[1] == s[..3][1] && s[2] == s[..3][2];
    assert s[3..5] == c[3..5];
    assert s[3] == s[3..5][0] && s[4] == s[3..5][1];
    assert s[5..5 + Cut(apdu)] == c[5..];
  }

  /** The chunks of `apdu` from number `i` on, and then other bytes. */
  function Stream(apdu: bytes, i: nat, tail: bytes): bytes { Concat(ChunksFrom(apdu, i)) + tail }

  lemma StreamStep(apdu: bytes, i: nat, tail: bytes)
    requires apdu != []
    ensures Stream(apdu, i, tail) == Chunk(apdu, i) + Stream(apdu[Cut(apdu)..], i + 1, tail)
  {
    hide Chunk;
    var c := ChunksFrom(apdu, i);
    assert c[1..] == ChunksFrom(apdu[Cut(apdu)..], i + 1);
    assert (Chunk(apdu, i) + Concat(c[1..])) + tail == Chunk(apdu, i) + (Concat(c[1..]) + tail);
  }

  /** There are enough bytes after the chunks to fill up the last one. */
  predicate Padded(apdu: bytes, tail: bytes) {
    |apdu| % SPACE != 0 ==> |tail| >= SPACE - |apdu| % SPACE
  }

  lemma StreamLong(apdu: bytes, i: nat, tail: bytes)
    requires apdu != [] && Padded(apdu, tail)
    ensures |Stream(apdu, i, tail)| >= 64
    ensures |apdu| >= SPACE ==> Padded(apdu[Cut(apdu)..], tail)
    ensures |apdu| < SPACE ==> apdu[Cut(apdu)..] == [] && Stream([], i + 1, tail) == tail
  {
    ChunkShape(apdu, i);
    StreamStep(apdu, i, tail);
    hide Chunk;
    if |apdu| < SPACE { assert |apdu| % SPACE == |apdu|; }
  }

  /** From a chunk that is not the first, the reader takes what is left of the reply. */
  lemma {:induction false} ReadRest(apdu: bytes, i: nat, tail: bytes, room: nat, reply: bytes)
    requires |reply| < room && room - |reply| <= |apdu| && Padded(apdu, tail)
    requires 1 <= i && SPACE * i + (room - |reply|) <= 65600
    ensures ReadFrom(Stream(apdu, i, tail), room, reply) == Finish(reply + apdu[..room - |reply|])
    decreases |apdu|
  {
    hide Chunk, Stream, Padded, Finish;
    var left := room - |reply|;
    var s, rest := Stream(apdu, i, tail), apdu[Cut(apdu)..];
    StreamLong(apdu, i, tail);
    StreamStep(apdu, i, tail);
    StreamHead(apdu, i, Stream(rest, i + 1, tail));
    var payload := s[5..64];
    if left > SPACE {
      assert payload == apdu[..SPACE];
      ReadRest(rest, i + 1, tail, room, reply + payload);
      assert (reply + payload) + rest[..left - SPACE] == reply + apdu[..left];
    } else {
      Slice(s, 5, 64, 0, left);
      Slice(s, 5, 5 + Cut(apdu), 0, left);
      assert payload[..left] == apdu[..Cut(apdu)][..left] == apdu[..left];
    }
  }

  /** The first chunk gives the length of the reply and its first bytes. */
  lemma ReadFirst(n: nat, body: bytes, tail: bytes)
    requires n < 65536 && n <= |body| && |body| >= 5 && Padded(Pair(n) + body, tail)
    ensures var apdu := Pair(n) + body;
      var s := Stream(apdu, 0, tail);
      && |s| >= 64 && ReadFrom(s, 0, []) == Gather(s, n, [], s[7..64])
      && (n > 57 ==> s[7..64] == body[..57] && s[64..] == Stream(apdu[Cut(apdu)..], 1, tail))
      && (n <= 57 ==> s[7..64][..n] == body[..n])
  {
    hide Chunk, Stream, Padded, Finish, Gather;
    var apdu := Pair(n) + body;
    var s, rest := Stream(apdu, 0, tail), apdu[Cut(apdu)..];
    StreamLong(apdu, 0, tail);
    StreamStep(apdu, 0, tail);
    StreamHead(apdu, 0, Stream(rest, 1, tail));
    var first := s[5..5 + Cut(apdu)];
    assert s[5] == first[0] == Pair(n)[0] && s[6] == first[1] == Pair(n)[1];
    UnpairPair(n);
    hide Pair;
    var m := if n > 57 then 57 else n;
    Slice(s, 7, 64, 0, m);
    Slice(s, 5, 5 + Cut(apdu), 2, 2 + m);
    Slice(apdu, 0, Cut(apdu), 2, 2 + m);
    assert apdu[2..2 + m] == body[..m];
  }

  /** What the reader makes of the chunks of a whole APDU whose length field says `n`. */
  lemma ReadWhole(n: nat, body: bytes, tail: bytes)
    requires n < 65536 && n <= |body| && |body| >= 5 && Padded(Pair(n) + body, tail)
    ensures ReadFrom(Stream(Pair(n) + body, 0, tail), 0, []) == Finish(body[..n])
  {
    ReadFirst(n, body, tail);
    hide Chunk, Stream, Finish, Pair, ReadFrom;
    var apdu := Pair(n) + body;
    var s, rest := Stream(apdu, 0, tail), apdu[Cut(apdu)..];
    var payload := s[7..64];
    assert [] + payload == payload && [] + body[..n] == body[..n];
    if n > 57 {
      StreamLong(apdu, 0, tail);
      ReadRest(rest, 1, tail, n, payload);
      assert rest == body[57..];
      assert payload + rest[..n - 57] == body[..n];
    }
  }

  /** For every payload, reading back the chunks gives the first (5 + length) mod 2^16 bytes of the
      body without their last two, or a panic if there are fewer than two. */
  lemma ReadWritten(opcode: byte, p1: byte, p2: byte, data: bytes, tail: bytes)
    requires Padded(Apdu(opcode, p1, p2, data), tail)
    ensures ReadFrom(Stream(Apdu(opcode, p1, p2, data), 0, tail), 0, []) == Finish(Body(opcode, p1, p2, data)[..(5 + |data|) % 65536])
  {
    hide Stream, Padded, Finish, ReadFrom;
    ReadWhole((5 + |data|) % 65536, Body(opcode, p1, p2, data), tail);
  }

  /** The reader undoes the writer, status word apart, exactly for payloads of up to 65530 bytes. */
  lemma ReaderUndoesWriter(opcode: byte, p1: byte, p2: byte, data: bytes, tail: bytes)
    requires Padded(Apdu(opcode, p1, p2, data), tail)
    ensures var body := Body(opcode, p1, p2, data);
      ReadFrom(Stream(Apdu(opcode, p1, p2, data), 0, tail), 0, []) == Reply(body[..|body| - 2]) <==> |data| <= 65530
  {
    hide Stream, Padded, ReadFrom;
    ReadWritten(opcode, p1, p2, data, tail);
    var body := Body(opcode, p1, p2, data);
    if |data| <= 65530 {
      assert body[..|body|] == body;
    } else {
      var n := (5 + |data|) % 65536;
      assert n >= 2 ==> |body[..n][..n - 2]| == n - 2 < |body| - 2 == |body[..|body| - 2]|;
    }
  }

  /** One byte more and the length field is zero: the reader panics on it. */
  lemma LengthWraps(tail: bytes)
    ensures var apdu := Apdu(0, 0, 0, seq(65531, _ => 0));
      Padded(apdu, tail) ==> ReadFrom(Stream(apdu, 0, tail), 0, []) == Panic
  {
    hide Stream, Padded, ReadFrom;
    var data: bytes := seq(65531, _ => 0);
    if Padded(Apdu(0, 0, 0, data), tail) { ReadWritten(0, 0, 0, data, tail); }
  }

  /** The single length byte inside the APDU says how long the data is only up to 255 bytes. */
  lemma DataLengthByte(opcode: byte, p1: byte, p2: byte, data: bytes)
    ensures Body(opcode, p1, p2, data)[4] as int == |data| <==> |data| <= 255
  {
  }
}
