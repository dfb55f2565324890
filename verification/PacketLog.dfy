/** The packet logger file: records of a length, a time stamp, a type and a
  * payload, written and read through a stream. */
module PacketLog {
  import opened Bytes
  import opened Sequences

  const BUFFER := 1024

  /** What one record carries. */
  datatype Packet = Packet(timestamp: nat, kind: U8, payload: seq<U8>)

  datatype ReadResult =
    | Got(length: U32, packet: Packet)  // the length the header declares, and what there was
    | NotAPacket   // the reader returns -1
    | Overrun      // more bytes are read than the 1024-byte buffer holds

  /** A stream that is being read: once a read has come up short, all later ones
    * deliver nothing. */
  datatype Cursor = Cursor(pos: nat, failed: bool)

  datatype Chunk = Chunk(bytes: seq<U8>, after: Cursor)

  function ReadUpTo(bytes: seq<U8>, c: Cursor, n: nat): (r: Chunk)
    requires c.pos <= |bytes|
    ensures c.pos <= r.after.pos <= |bytes| && |r.bytes| <= n
    ensures r.after.failed || |r.bytes| == n
    ensures c.failed ==> r.after == c
  {
    if c.failed then Chunk([], c)
    else if c.pos + n <= |bytes| then Chunk(bytes[c.pos..c.pos + n], Cursor(c.pos + n, false))
    else Chunk(bytes[c.pos..], Cursor(|bytes|, true))
  }

  /** A field of n bytes that was zero before the read. */
  function Padded(b: seq<U8>, n: nat): (r: seq<U8>)
    ensures |b| <= n ==> |r| == n
  {
    b + seq(if |b| <= n then n - |b| else 0, _ => 0)
  }

  /** The magic check of the reader. */
  predicate Plausible(len: nat, kind: U8)
  {
    8 <= len < 65536 && KnownKind(kind)
  }

  predicate KnownKind(kind: U8)
  {
    kind < 0x04 || kind == 0xFB || kind == 0xFC || kind == 0xFE || kind == 0xFF
  }

  datatype Header = Header(len: U32, timestamp: nat, kind: U8, after: Cursor)

  /** The three header fields, big-endian, from wherever the stream is. */
  function HeaderAt(bytes: seq<U8>, c: Cursor): (h: Header)
    requires c.pos <= |bytes|
    ensures c.pos <= h.after.pos <= |bytes|
  {
    var l := ReadUpTo(bytes, c, 4);
    var t := ReadUpTo(bytes, l.after, 8);
    var k := ReadUpTo(bytes, t.after, 1);
    Header(FromBigEndian(Padded(l.bytes, 4)) % 0x1_0000_0000, FromBigEndian(Padded(t.bytes, 8)),
        Padded(k.bytes, 1)[0], k.after)
  }

  datatype Step = Step(result: ReadResult, after: Cursor)

  function PacketAt(bytes: seq<U8>, c: Cursor): (s: Step)
    requires c.pos <= |bytes|
    ensures c.pos <= s.after.pos <= |bytes|
  {
    var h := HeaderAt(bytes, c);
    if !Plausible(h.len, h.kind) then Step(NotAPacket, h.after)
    else
      // an unsigned subtraction: a length of 8 asks for almost four gigabytes
      var n := (h.len as int - 9) % 0x1_0000_0000;
      var p := ReadUpTo(bytes, h.after, n);
      Step(if |p.bytes| > BUFFER then Overrun else Got(h.len, Packet(h.timestamp, h.kind, p.bytes)), p.after)
  }

  /** The bytes of a record. Every record gets the time stamp 0. */
  function Encode(kind: U8, payload: seq<U8>): (b: seq<U8>)
    ensures |b| == 13 + |payload|
  {
    BigEndian((9 + |payload|) % 0x1_0000_0000, 4) + BigEndian(0, 8) + [kind] + payload
  }

  class Stream {
    var bytes: seq<U8>
    var cursor: Cursor

    constructor (bytes: seq<U8>)
      ensures this.bytes == bytes && cursor == Cursor(0, false)
    {
      this.bytes := bytes;
      cursor := Cursor(0, false);
    }

    predicate Valid()
      reads this
    {
      cursor.pos <= |bytes|
    }

    method Read(n: nat) returns (b: seq<U8>)
      requires Valid()
      modifies this`cursor
      ensures Chunk(b, cursor) == ReadUpTo(bytes, old(cursor), n) && Valid()
    {
      if cursor.failed {
        return [];
      }
      var end := if cursor.pos + n <= |bytes| then cursor.pos + n else |bytes|;
      b := bytes[cursor.pos..end];
      cursor := Cursor(end, cursor.pos + n > |bytes|);
    }

    method Write(b: seq<U8>)
      modifies this`bytes
      ensures bytes == old(bytes) + b
    {
      bytes := bytes + b;
    }
  }

  /** Appends one record, the payload byte by byte. */
  method WritePacket(file: Stream, kind: U8, payload: seq<U8>)
    modifies file`bytes
    ensures file.bytes == old(file.bytes) + Encode(kind, payload)
  {
    var len := (8 + 1 + |payload|) % 0x1_0000_0000;
    file.Write(BigEndian(len, 4));
    file.Write(BigEndian(0, 8));
    file.Write([kind]);
    ghost var header := BigEndian(len, 4) + BigEndian(0, 8) + [kind];
    assert file.bytes == old(file.bytes) + header;
    for i := 0 to |payload|
      invariant file.bytes == old(file.bytes) + (header + payload[..i])
    {
      file.Write([payload[i]]);
      assert payload[..i + 1] == payload[..i] + [payload[i]];
    }
    assert payload[..|payload|] == payload;
  }

  method ReadHeader(file: Stream) returns (ok: bool, len: U32, timestamp: nat, kind: U8)
    requires file.Valid()
    modifies file`cursor
    ensures file.Valid() && Header(len, timestamp, kind, file.cursor) == HeaderAt(file.bytes, old(file.cursor))
    ensures ok == Plausible(len, kind)
  {
    var b := file.Read(4);
    len := FromBigEndian(Padded(b, 4)) % 0x1_0000_0000;
    b := file.Read(8);
    timestamp := FromBigEndian(Padded(b, 8));
    b := file.Read(1);
    kind := Padded(b, 1)[0];
    ok := 8 <= len < 65536
          && (kind < 0x04 || kind == 0xFB || kind == 0xFC || kind == 0xFE || kind == 0xFF);
  }

  /** Reads one record from wherever the stream is. */
  method ReadPacket(file: Stream) returns (r: ReadResult)
    requires file.Valid()
    modifies file`cursor
    ensures file.Valid() && Step(r, file.cursor) == PacketAt(file.bytes, old(file.cursor))
  {
    hide FromBigEndian; hide Padded; hide ReadUpTo;
    var ok, len, timestamp, kind := ReadHeader(file);
    if !ok {
      return NotAPacket;
    }
    var n := (len as int - 9) % 0x1_0000_0000;
    var payload := file.Read(n);
    if |payload| > BUFFER {
      return Overrun;
    }
    return Got(len, Packet(timestamp, kind, payload));
  }

  // ----- round trip ---------------------------------------------------------------------

  function EncodeAll(ps: seq<Packet>): seq<U8>
  {
    if ps == [] then [] else Encode(ps[0].kind, ps[0].payload) + EncodeAll(ps[1..])
  }

  /** Fields that lie one behind the other. */
  lemma FieldsAt(before: seq<U8>, a: seq<U8>, b: seq<U8>, c: seq<U8>, d: seq<U8>, after: seq<U8>)
    ensures var bytes, p := before + (a + b + c + d) + after, |before|;
            && bytes[p..p + |a|] == a
            && bytes[p + |a|..p + |a| + |b|] == b
            && bytes[p + |a| + |b|..p + |a| + |b| + |c|] == c
            && bytes[p + |a| + |b| + |c|..p + |a| + |b| + |c| + |d|] == d
  {
  }

  lemma FullRead(bytes: seq<U8>, pos: nat, b: seq<U8>)
    requires pos + |b| <= |bytes| && bytes[pos..pos + |b|] == b
    ensures ReadUpTo(bytes, Cursor(pos, false), |b|) == Chunk(b, Cursor(pos + |b|, false))
    ensures Padded(b, |b|) == b
  {
  }

  lemma HeaderEncoded(before: seq<U8>, kind: U8, payload: seq<U8>, after: seq<U8>)
    requires |payload| <= BUFFER
    ensures HeaderAt(before + Encode(kind, payload) + after, Cursor(|before|, false))
         == Header(9 + |payload|, 0, kind, Cursor(|before| + 13, false))
  {
    hide ReadUpTo; hide Padded; hide BigEndian; hide FromBigEndian;
    var p := |before|;
    var bytes := before + Encode(kind, payload) + after;
    var len, ts := BigEndian(9 + |payload|, 4), BigEndian(0, 8);
    FieldsAt(before, len, ts, [kind], payload, after);
    FullRead(bytes, p, len);
    FullRead(bytes, p + 4, ts);
    FullRead(bytes, p + 12, [kind]);
    LengthField(9 + |payload|);
    ZeroField();
  }

  lemma LengthField(n: nat)
    requires n < 0x1_0000_0000
    ensures FromBigEndian(BigEndian(n, 4)) == n
  {
    assert Pow256(2) == 256 * Pow256(1) && Pow256(3) == 256 * Pow256(2) && Pow256(4) == 256 * Pow256(3);
    DecodeBigEndian(n, 4);
  }

  lemma ZeroField()
    ensures FromBigEndian(BigEndian(0, 8)) == 0
  {
    DecodeBigEndian(0, 8);
  }

  /** A record that was written is read back exactly when its type is one the
    * reader knows. Type 9, the extended command, is written but never read. */
  lemma RecordRoundTrip(before: seq<U8>, kind: U8, payload: seq<U8>, after: seq<U8>)
    requires |payload| <= BUFFER
    ensures var s := PacketAt(before + Encode(kind, payload) + after, Cursor(|before|, false));
            var got := Got(9 + |payload|, Packet(0, kind, payload));
            && (s == Step(got, Cursor(|before| + |Encode(kind, payload)|, false)) <==> KnownKind(kind))
            && (!KnownKind(kind) ==> s.result == NotAPacket)
  {
    hide ReadUpTo; hide HeaderAt; hide BigEndian;
    var bytes := before + Encode(kind, payload) + after;
    HeaderEncoded(before, kind, payload, after);
    FieldsAt(before, BigEndian(9 + |payload|, 4), BigEndian(0, 8), [kind], payload, after);
    FullRead(bytes, |before| + 13, payload);
  }

  /** At the end of the stream there is no packet, and the read marks the stream
    * as failed. */
  lemma EndOfStream(bytes: seq<U8>)
    ensures PacketAt(bytes, Cursor(|bytes|, false)) == Step(NotAPacket, Cursor(|bytes|, true))
  {
    NothingRead();
  }

  lemma NothingRead()
    ensures FromBigEndian(Padded([], 4)) == 0
  {
    assert Padded([], 4) == BigEndian(0, 4) by {
      assert BigEndian(0, 2) == BigEndian(0, 1) + [0] == [0, 0];
      assert BigEndian(0, 3) == BigEndian(0, 2) + [0] && BigEndian(0, 4) == BigEndian(0, 3) + [0];
    }
    LengthField(0);
  }

  /** The cursor moves on, or a stream that has failed stays where it is. */
  function Left(bytes: seq<U8>, c: Cursor): nat
    requires c.pos <= |bytes|
  {
    |bytes| - c.pos + if c.failed then 0 else 1
  }

  /** A packet can only come from bytes that have not been read yet. */
  lemma PacketTakesBytes(bytes: seq<U8>, c: Cursor)
    requires c.pos <= |bytes| && PacketAt(bytes, c).result.Got?
    ensures Left(bytes, PacketAt(bytes, c).after) < Left(bytes, c)
  {
    if c.failed {
      NothingRead();
    } else {
      var l := ReadUpTo(bytes, c, 4);
      assert l.after.pos > c.pos || l.after.failed;
    }
  }

  /** The packets read one after the other, and the first read that gave none. */
  datatype Reading = Reading(packets: seq<Packet>, last: Step)

  function ReadFrom(bytes: seq<U8>, c: Cursor): (r: Reading)
    requires c.pos <= |bytes|
    ensures !r.last.result.Got?
    decreases Left(bytes, c)
  {
    var s := PacketAt(bytes, c);
    if s.result.Got? then
      PacketTakesBytes(bytes, c);
      var rest := ReadFrom(bytes, s.after);
      Reading([s.result.packet] + rest.packets, rest.last)
    else Reading([], s)
  }

  /** Reads packet after packet; it terminates on any stream. */
  method ReadAll(file: Stream) returns (ps: seq<Packet>, last: ReadResult)
    requires file.Valid()
    modifies file`cursor
    ensures Reading(ps, Step(last, file.cursor)) == ReadFrom(file.bytes, old(file.cursor))
  {
    hide PacketAt;
    ps := [];
    ghost var all := ReadFrom(file.bytes, file.cursor);
    last := ReadPacket(file);
    if last.Got? {
      PacketTakesBytes(file.bytes, old(file.cursor));
    }
    while last.Got?
      invariant file.Valid()
      invariant if last.Got? then
                  var rest := ReadFrom(file.bytes, file.cursor);
                  all == Reading(ps + ([last.packet] + rest.packets), rest.last)
                else all == Reading(ps, Step(last, file.cursor))
      decreases last.Got?, Left(file.bytes, file.cursor)
    {
      ghost var before := file.cursor;
      ps := ps + [last.packet];
      last := ReadPacket(file);
      if last.Got? {
        PacketTakesBytes(file.bytes, before);
      }
    }
  }

  /** What a packet must be to survive: the writer drops the time stamp, and the
    * reader has a buffer of fixed size and knows only some types. */
  predicate Survives(p: Packet)
  {
    p.timestamp == 0 && KnownKind(p.kind) && |p.payload| <= BUFFER
  }

  /** No packet that is read is longer than the buffer. */
  lemma ShortPackets(bytes: seq<U8>, c: Cursor)
    requires c.pos <= |bytes|
    ensures var r := PacketAt(bytes, c).result; r.Got? ==> |r.packet.payload| <= BUFFER
  {
    hide HeaderAt; hide Plausible;
  }

  lemma FirstPacket(before: seq<U8>, p: Packet, after: seq<U8>)
    ensures var s := PacketAt(before + Encode(p.kind, p.payload) + after, Cursor(|before|, false));
            && (s.result.Got? && s.result.packet == p <==> Survives(p))
            && (Survives(p) ==> s.result.length == 9 + |p.payload|)
            && (Survives(p) ==> s.after == Cursor(|before| + |Encode(p.kind, p.payload)|, false))
  {
    hide PacketAt; hide Encode; hide KnownKind;
    ShortPackets(before + Encode(p.kind, p.payload) + after, Cursor(|before|, false));
    if |p.payload| <= BUFFER {
      RecordRoundTrip(before, p.kind, p.payload, after);
    }
  }

  lemma OneMorePacket(bytes: seq<U8>, c: Cursor, ps: seq<Packet>)
    requires c.pos <= |bytes| && ps != []
    ensures var s, r := PacketAt(bytes, c), ReadFrom(bytes, c);
            && (r.packets == ps <==>
                  && s.result.Got? && s.result.packet == ps[0]
                  && ReadFrom(bytes, s.after).packets == ps[1..])
            && (s.result.Got? ==> r.last == ReadFrom(bytes, s.after).last)
  {
    hide PacketAt;
    var s := PacketAt(bytes, c);
    if s.result.Got? {
      var rest := ReadFrom(bytes, s.after).packets;
      assert ([s.result.packet] + rest)[1..] == rest;
      assert [ps[0]] + ps[1..] == ps;
    }
  }

  /** What is written, byte by byte: the length of all that follows it, eight bytes of
    * time stamp, the type, the payload. */
  lemma WrittenBytes(kind: U8, payload: seq<U8>)
    requires |payload| < 0xFFFF_FFF7
    ensures var n := |payload| + 9;
            Encode(kind, payload)
            == [n / 0x100_0000, n / 0x1_0000 % 0x100, n / 0x100 % 0x100, n % 0x100]
               + [0, 0, 0, 0, 0, 0, 0, 0] + [kind] + payload
  {
    hide BigEndian;
    BigEndianBytes(|payload| + 9);
    EightZeros();
  }

  lemma EightZeros()
    ensures BigEndian(0, 8) == [0, 0, 0, 0, 0, 0, 0, 0]
  {
    assert BigEndian(0, 0) == [] && BigEndian(0, 1) == BigEndian(0, 0) + [0];
    assert BigEndian(0, 2) == BigEndian(0, 1) + [0] && BigEndian(0, 3) == BigEndian(0, 2) + [0];
    assert BigEndian(0, 4) == BigEndian(0, 3) + [0] && BigEndian(0, 5) == BigEndian(0, 4) + [0];
    assert BigEndian(0, 6) == BigEndian(0, 5) + [0] && BigEndian(0, 7) == BigEndian(0, 6) + [0];
    assert BigEndian(0, 8) == BigEndian(0, 7) + [0];
  }

  lemma WordValue(b: seq<U8>)
    requires |b| == 4
    ensures FromBigEndian(b) ==
            0x100_0000 * b[0] as nat + 0x1_0000 * b[1] as nat + 0x100 * b[2] as nat + b[3] as nat < 0x1_0000_0000
  {
    assert b[..3][..2] == b[..2] && b[..2][..1] == b[..1] && b[..1][..0] == [];
    assert FromBigEndian(b[..1]) == b[0] && FromBigEndian(b[..2]) == 0x100 * b[0] as nat + b[1] as nat;
    assert FromBigEndian(b[..3]) == 0x100 * (0x100 * b[0] as nat + b[1] as nat) + b[2] as nat;
  }

  lemma AnyHeader(before: seq<U8>, len: seq<U8>, stamp: seq<U8>, kind: U8, rest: seq<U8>)
    requires |len| == 4 && |stamp| == 8
    ensures var bytes, p := before + (len + stamp + [kind] + rest), |before|;
            && FromBigEndian(len) < 0x1_0000_0000 && bytes[p + 13..] == rest
            && HeaderAt(bytes, Cursor(p, false))
               == Header(FromBigEndian(len), FromBigEndian(stamp), kind, Cursor(p + 13, false))
  {
    hide FromBigEndian; hide ReadUpTo; hide Padded;
    var bytes, p := before + (len + stamp + [kind] + rest), |before|;
    FieldsAt(before, len, stamp, [kind], rest, []);
    assert bytes + [] == bytes;
    FullRead(bytes, p, len);
    FullRead(bytes, p + 4, stamp);
    FullRead(bytes, p + 12, [kind]);
    WordValue(len);
  }

  /** A read of n bytes with these ahead of it. */
  lemma Ahead(bytes: seq<U8>, pos: nat, n: nat)
    requires pos <= |bytes|
    ensures var rest := bytes[pos..];
            ReadUpTo(bytes, Cursor(pos, false), n).bytes == if |rest| < n then rest else rest[..n]
  {
  }

  /** Any record, from whichever writer: it is refused exactly for a length that is not
    * between 8 and 65535 or a type that is neither below 4 nor one of the four for
    * text; its time stamp is kept; the payload is what the length says. A length of 8
    * leaves less than nothing for the payload, and takes all that is there. */
  lemma AnyRecord(before: seq<U8>, len: seq<U8>, stamp: seq<U8>, kind: U8, rest: seq<U8>)
    requires |len| == 4 && |stamp| == 8 && |rest| < 0xFFFF_FFFF
    ensures var n: nat := 0x100_0000 * len[0] as nat + 0x1_0000 * len[1] as nat + 0x100 * len[2] as nat + len[3] as nat;
            var r := PacketAt(before + (len + stamp + [kind] + rest), Cursor(|before|, false)).result;
            var taken := if n < 9 || |rest| < n - 9 then rest else rest[..n - 9];
            if n < 8 || n > 65535 || (kind >= 4 && kind != 0xFB && kind != 0xFC && kind != 0xFE && kind != 0xFF) then
              r == NotAPacket
            else if |taken| > 1024 then r == Overrun
            else r == Got(n, Packet(FromBigEndian(stamp), kind, taken))
  {
    hide FromBigEndian; hide ReadUpTo; hide HeaderAt;
    AnyHeader(before, len, stamp, kind, rest);
    WordValue(len);
    Ahead(before + (len + stamp + [kind] + rest), |before| + 13, (FromBigEndian(len) - 9) % 0x1_0000_0000);
  }

  /** Some bytes that a stream ends with, and zeros for those of a header that are
    * missing. */
  function Completed(tail: seq<U8>): (h: seq<U8>)
    requires |tail| < 13
    ensures |h| == 13
  {
    tail + seq(13 - |tail|, _ => 0)
  }

  /** A stream that ends inside a header: the bytes that are missing count as zeros, and
    * if the length they make is between 8 and 65535 that is taken for a packet without
    * a payload. */
  lemma TruncatedHeader(before: seq<U8>, tail: seq<U8>)
    requires |tail| < 13
    ensures var h := Completed(tail);
            var n: nat := 0x100_0000 * h[0] as nat + 0x1_0000 * h[1] as nat + 0x100 * h[2] as nat + h[3] as nat;
            var s := PacketAt(before + tail, Cursor(|before|, false));
            && s.after == Cursor(|before + tail|, true)
            && s.result == if n < 8 || n > 65535 then NotAPacket else
                             Got(n, Packet(FromBigEndian(h[4..12]), 0, []))
  {
    hide FromBigEndian; hide PacketAt;
    var bytes, p, h := before + tail, |before|, Completed(tail);
    PartialHeader(before, tail);
    WordValue(h[..4]);
    PacketBehind(bytes, Cursor(p, false));
  }

  lemma PartialHeader(before: seq<U8>, tail: seq<U8>)
    requires |tail| < 13
    ensures var h := Completed(tail);
            HeaderAt(before + tail, Cursor(|before|, false))
            == Header(FromBigEndian(h[..4]) % 0x1_0000_0000, FromBigEndian(h[4..12]), 0, Cursor(|before + tail|, true))
  {
    hide FromBigEndian;
    var bytes, h := before + tail, Completed(tail);
    var l := ReadUpTo(bytes, Cursor(|before|, false), 4);
    var t := ReadUpTo(bytes, l.after, 8);
    assert bytes[|before|..] == tail;
    if |tail| < 4 {
      assert l.bytes == tail && t.bytes == [];
    } else {
      assert l.bytes == tail[..4] && l.after == Cursor(|before| + 4, false);
      assert bytes[|before| + 4..] == tail[4..];
      assert t.bytes == if |tail| < 12 then tail[4..] else tail[4..12];
    }
    PadPart(l.bytes, h[..4]);
    PadPart(t.bytes, h[4..12]);
  }

  /** Some bytes of a field and the zeros behind them. */
  lemma PadPart(b: seq<U8>, field: seq<U8>)
    requires b <= field && forall i :: |b| <= i < |field| ==> field[i] == 0
    ensures Padded(b, |field|) == field
  {
  }

  /** Behind a header that is cut off nothing more is read. */
  lemma PacketBehind(bytes: seq<U8>, c: Cursor)
    requires c.pos <= |bytes| && HeaderAt(bytes, c).after == Cursor(|bytes|, true)
    ensures var h, s := HeaderAt(bytes, c), PacketAt(bytes, c);
            && s.after == Cursor(|bytes|, true)
            && s.result == if Plausible(h.len, h.kind) then Got(h.len, Packet(h.timestamp, h.kind, []))
                           else NotAPacket
  {
    hide HeaderAt;
  }

  /** Three bytes that are taken for a packet. */
  lemma ThreeBytes()
    ensures PacketAt([0, 0, 1], Cursor(0, false)).result == Got(256, Packet(0, 0, []))
  {
    hide PacketAt; hide FromBigEndian;
    TruncatedHeader([], [0, 0, 1]);
    assert [] + [0, 0, 1] == [0, 0, 1];
    var h := Completed([0, 0, 1]);
    assert h[4..12] == [0, 0, 0, 0, 0, 0, 0, 0];
    assert h[0] == 0 && h[1] == 0 && h[2] == 1 && h[3] == 0;
    EightZeros();
    ZeroField();
  }

  /** The whole stream: reading what was written gives back every packet, in
    * order, exactly when all of them survive; the read after the last one finds
    * the end of the stream. */
  lemma {:induction false} StreamRoundTrip(before: seq<U8>, ps: seq<Packet>)
    ensures var bytes := before + EncodeAll(ps);
            var r := ReadFrom(bytes, Cursor(|before|, false));
            && (r.packets == ps <==> forall p :: p in ps ==> Survives(p))
            && (r.packets == ps ==> r.last == Step(NotAPacket, Cursor(|bytes|, true)))
    decreases |ps|
  {
    hide PacketAt; hide Encode; hide Survives; hide ReadFrom;
    var bytes, start := before + EncodeAll(ps), Cursor(|before|, false);
    if ps == [] {
      assert bytes == before;
      EndOfStream(bytes);
      NoPacket(bytes, start);
    } else {
      var p, rest := ps[0], ps[1..];
      var code := Encode(p.kind, p.payload);
      Assoc(before, code, EncodeAll(rest));
      assert forall q :: q in ps <==> q == p || q in rest;
      FirstPacket(before, p, EncodeAll(rest));
      OneMorePacket(bytes, start, ps);
      if Survives(p) {
        StreamRoundTrip(before + code, rest);
      }
    }
  }

  lemma NoPacket(bytes: seq<U8>, c: Cursor)
    requires c.pos <= |bytes| && PacketAt(bytes, c).result == NotAPacket
    ensures ReadFrom(bytes, c) == Reading([], PacketAt(bytes, c))
  {
    hide PacketAt;
  }
}
