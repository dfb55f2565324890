/** The bytes the serializer writes, and when printing what was parsed gives
  * the parsed bytes back. */
module SdpEncoding {
  import opened Bytes
  import opened Sequences
  import opened SdpElement
  import opened SdpScan

  datatype Encoding =
    | Coded(bytes: seq<U8>)
    | Rejected      // the serializer throws
    | Unspecified   // a shift by at least the width of the shifted value

  /** One element without its children. A text is written with its own length,
    * whatever its size field says; a dummy is written without any header. */
  function EncodeFields(f: Fields): (e: Encoding)
    ensures f.kind == Sequence ==> e.Coded? && |e.bytes| == 3
  {
    match f.kind
    case DummyUint =>
      if f.size % 256 > 4 then Unspecified else Coded(BigEndian(f.uintValue, f.size % 256))
    case Uint => EncodeNumber(8, f.size, f.uintValue)
    case Uuid => EncodeNumber(24, f.size, f.uuidValue)
    case TextString => Coded([37, |f.text| % 256] + f.text)
    case Sequence => Coded([54] + BigEndian(f.size, 2))
    case _ => Rejected
  }

  function EncodeNumber(typeBits: nat, size: U16, value: U32): Encoding
    requires typeBits + 2 < 256
  {
    if size == 1 || size == 2 || size == 4 then
      Coded([typeBits + if size == 4 then 2 else size - 1] + BigEndian(value, size))
    else Rejected
  }

  /** Every number, byte by byte: a descriptor for type and size, then the value with
    * its high byte first. */
  lemma PrintedNumber(f: Fields)
    requires f.kind in {Uint, Uuid}
    ensures var v, first := if f.kind == Uint then f.uintValue as nat else f.uuidValue as nat,
                  if f.kind == Uint then 0x08 else 0x18;
            EncodeFields(f) ==
              if f.size == 1 then Coded([first, v % 0x100])
              else if f.size == 2 then Coded([first + 1, v / 0x100 % 0x100, v % 0x100])
              else if f.size == 4 then
                Coded([first + 2, v / 0x100_0000 % 0x100, v / 0x1_0000 % 0x100, v / 0x100 % 0x100, v % 0x100])
              else Rejected
  {
    hide BigEndian;
    var v := if f.kind == Uint then f.uintValue else f.uuidValue;
    BigEndianBytes(v);
    OneByteEncoded(v);
  }

  /** The other elements: a length and a text, or two bytes of length. */
  lemma PrintedOther(f: Fields)
    requires f.kind !in {Uint, Uuid}
    ensures f.kind == TextString ==> EncodeFields(f) == Coded([0x25, |f.text| % 0x100] + f.text)
    ensures f.kind == Sequence ==> EncodeFields(f) == Coded([0x36, f.size / 0x100, f.size % 0x100])
    ensures f.kind == DummyUint && f.size == 2 ==>
              EncodeFields(f) == Coded([f.uintValue / 0x100 % 0x100, f.uintValue % 0x100])
    ensures f.kind !in {TextString, Sequence, DummyUint} ==> EncodeFields(f) == Rejected
  {
    hide BigEndian;
    BigEndianBytes(f.uintValue);
    BigEndianBytes(f.size);
  }

  lemma OneByteEncoded(v: nat)
    ensures BigEndian(v, 1) == [v % 0x100]
  {
    assert BigEndian(v / 256, 0) == [];
  }

  const BUFFER_SIZE := 256

  datatype PrintResult =
    | Returned(value: nat)
    | Refused      // the serializer throws on the kind or the size of an element
    | OutOfBounds  // the checked access to the array throws
    | Undefined    // a text copied past the array, or an unspecified shift

  /** The array and the result; nothing is said about the array of an undefined
    * run. */
  datatype Print = Print(buffer: seq<U8>, result: PrintResult)

  /** The contents of a buffer after b has been written at pos. */
  function Overlay(buffer: seq<U8>, pos: nat, b: seq<U8>): (r: seq<U8>)
    requires pos + |b| <= |buffer|
    ensures |r| == |buffer|
  {
    buffer[..pos] + b + buffer[pos + |b|..]
  }

  /** One element at pos. A value is written from its last byte on, so one that
    * does not fit leaves only its descriptor; the copy of a text is unchecked. The
    * returned count has eight bits. */
  function PrintOne(buffer: seq<U8>, f: Fields, pos: nat): (p: Print)
    requires |buffer| == BUFFER_SIZE && pos <= 255
    ensures |p.buffer| == BUFFER_SIZE
  {
    match EncodeFields(f)
    case Rejected => Print(buffer, Refused)
    case Unspecified => Print(buffer, if pos + f.size % 256 > BUFFER_SIZE then OutOfBounds else Undefined)
    case Coded(b) =>
      if pos + |b| <= BUFFER_SIZE then Print(Overlay(buffer, pos, b), Returned(|b| % 256))
      else if f.kind == DummyUint then Print(buffer, OutOfBounds)
      else if f.kind == TextString && pos < 255 then Print(buffer, Undefined)
      else Print(buffer[pos := b[0]], OutOfBounds)
  }

  /** The elements in turn, the first at pos. The cursor has eight bits: behind an
    * element that ends in the last cell, the next one goes to the first cell. */
  function PrintAll(buffer: seq<U8>, fs: seq<Fields>, pos: nat): (p: Print)
    requires |buffer| == BUFFER_SIZE && pos <= 255
    ensures |p.buffer| == BUFFER_SIZE
    decreases |fs|
  {
    if fs == [] then Print(buffer, Returned(pos))
    else
      var p := PrintOne(buffer, fs[0], pos);
      if p.result.Returned? then PrintAll(p.buffer, fs[1..], (pos + p.result.value) % 256) else p
  }

  predicate Encodable(fs: seq<Fields>)
  {
    forall i :: 0 <= i < |fs| ==> EncodeFields(fs[i]).Coded?
  }

  /** The encoding of one element, empty if it has none. */
  function Coding(f: Fields): seq<U8>
  {
    if EncodeFields(f).Coded? then EncodeFields(f).bytes else []
  }

  /** The concatenated encodings. */
  function BytesOf(fs: seq<Fields>): (b: seq<U8>)
  {
    if fs == [] then [] else Coding(fs[0]) + BytesOf(fs[1..])
  }

  lemma {:induction false} BytesOfConcat(a: seq<Fields>, b: seq<Fields>)
    ensures BytesOf(a + b) == BytesOf(a) + BytesOf(b)
  {
    hide EncodeFields;
    if a == [] {
      assert a + b == b;
    } else {
      assert (a + b)[1..] == a[1..] + b;
      BytesOfConcat(a[1..], b);
      Assoc(Coding(a[0]), BytesOf(a[1..]), BytesOf(b));
    }
  }

  /** The elements in the order in which the serializer writes them; it looks at
    * the children of sequences only. */
  function PrintOrder(t: Tree): seq<Fields>
    decreases t, 0
  {
    [t.fields] + if t.fields.kind == Sequence then PrintOrderForest(t.kids) else []
  }

  function PrintOrderForest(ts: seq<Tree>): seq<Fields>
    decreases ts, 1
  {
    if ts == [] then [] else PrintOrder(ts[0]) + PrintOrderForest(ts[1..])
  }

  /** The recursive encoding of a tree: an element, then its children. */
  function Code(t: Tree): seq<U8>
    decreases t, 0
  {
    Coding(t.fields) + if t.fields.kind == Sequence then CodeForest(t.kids) else []
  }

  function CodeForest(ts: seq<Tree>): seq<U8>
    decreases ts, 1
  {
    if ts == [] then [] else Code(ts[0]) + CodeForest(ts[1..])
  }

  lemma {:induction false} ForestBytes(ts: seq<Tree>)
    ensures BytesOf(PrintOrderForest(ts)) == CodeForest(ts)
    decreases ts, 1
  {
    hide EncodeFields;
    if ts == [] {
    } else {
      TreeBytes(ts[0]);
      ForestBytes(ts[1..]);
      BytesOfConcat(PrintOrder(ts[0]), PrintOrderForest(ts[1..]));
    }
  }

  /** The encodings in print order, one behind the other, are the recursive
    * encoding of the tree. */
  lemma {:induction false} TreeBytes(t: Tree)
    ensures BytesOf(PrintOrder(t)) == Code(t)
    decreases t, 0
  {
    hide EncodeFields;
    ForestBytes(t.kids);
    assert PrintOrder(t)[1..] == if t.fields.kind == Sequence then PrintOrderForest(t.kids) else [];
  }

  lemma {:induction false} BarePrintOrder(t: Tree)
    requires Bare(t)
    ensures PrintOrder(t) == Preorder(t)
    decreases t, 0
  {
    BarePrintOrderForest(t.kids);
  }

  lemma {:induction false} BarePrintOrderForest(ts: seq<Tree>)
    requires forall i :: 0 <= i < |ts| ==> Bare(ts[i])
    ensures PrintOrderForest(ts) == PreorderForest(ts)
    decreases ts, 1
  {
    if ts == [] {
    } else {
      BarePrintOrder(ts[0]);
      BarePrintOrderForest(ts[1..]);
    }
  }

  lemma OverlayTwice(s: seq<U8>, pos: nat, a: seq<U8>, b: seq<U8>)
    requires pos + |a| + |b| <= |s|
    ensures Overlay(Overlay(s, pos, a), pos + |a|, b) == Overlay(s, pos, a + b)
  {
  }

  lemma OverlayNothing(s: seq<U8>, pos: nat)
    requires pos <= |s|
    ensures Overlay(s, pos, []) == s
  {
  }

  /** Where the cursor goes from pos, over n bytes that fit. */
  lemma EightBits(pos: nat, n: nat)
    requires pos + n <= 256
    ensures (pos + n % 256) % 256 == (pos + n) % 256 == if pos + n == 256 then 0 else pos + n
  {
  }

  /** One element that is written in full. */
  lemma PrintOneFits(buffer: seq<U8>, f: Fields, pos: nat)
    requires |buffer| == BUFFER_SIZE && pos <= 255
    ensures PrintOne(buffer, f, pos).result.Returned? <==> EncodeFields(f).Coded? && pos + |Coding(f)| <= BUFFER_SIZE
    ensures EncodeFields(f).Coded? && pos + |Coding(f)| <= BUFFER_SIZE ==>
              PrintOne(buffer, f, pos) == Print(Overlay(buffer, pos, Coding(f)), Returned(|Coding(f)| % 256))
  {
    hide EncodeFields;
  }

  lemma EncodableCons(fs: seq<Fields>)
    requires fs != []
    ensures Encodable(fs) <==> EncodeFields(fs[0]).Coded? && Encodable(fs[1..])
  {
    hide EncodeFields;
    var rest := fs[1..];
    assert forall i :: 0 <= i < |rest| ==> rest[i] == fs[i + 1];
    assert forall i :: 0 < i < |fs| ==> fs[i] == rest[i - 1];
  }

  /** Elements that have encodings and fit the array, to its last cell, are written
    * one behind the other, and every other cell stays as it was. */
  lemma {:induction false} PrintAllFits(buffer: seq<U8>, fs: seq<Fields>, pos: nat)
    requires |buffer| == BUFFER_SIZE && pos <= 255
    requires Encodable(fs) && pos + |BytesOf(fs)| <= BUFFER_SIZE
    ensures PrintAll(buffer, fs, pos) == Print(Overlay(buffer, pos, BytesOf(fs)), Returned((pos + |BytesOf(fs)|) % 256))
    decreases |fs|
  {
    hide EncodeFields; hide Overlay; hide Encodable; hide PrintOne; hide Coding;
    if fs == [] {
      OverlayNothing(buffer, pos);
      EightBits(pos, 0);
    } else {
      var b, rest := Coding(fs[0]), BytesOf(fs[1..]);
      EncodableCons(fs);
      PrintOneFits(buffer, fs[0], pos);
      EightBits(pos, |b|);
      EightBits(pos, |b + rest|);
      OverlayTwice(buffer, pos, b, rest);
      if pos + |b| == BUFFER_SIZE {
        OverlayNothing(Overlay(buffer, pos, b), 0);
        OverlayNothing(Overlay(buffer, pos, b), 256);
        EightBits(0, 0);
      }
      PrintAllFits(Overlay(buffer, pos, b), fs[1..], (pos + |b|) % 256);
    }
  }

  /** Every element has an encoding that fits from where the cursor is when its turn
    * comes: to the last cell of the array at most, and behind an element that ends
    * there the cursor is back at the first cell. */
  predicate NoneStraddles(fs: seq<Fields>, pos: nat)
    decreases |fs|
  {
    fs == [] || (
      && EncodeFields(fs[0]).Coded? && pos + |Coding(fs[0])| <= BUFFER_SIZE
      && NoneStraddles(fs[1..], (pos + |Coding(fs[0])|) % 256))
  }

  /** Printing returns exactly when every element has an encoding and none straddles
    * the end of the array. */
  lemma {:induction false} PrintAllReturns(buffer: seq<U8>, fs: seq<Fields>, pos: nat)
    requires |buffer| == BUFFER_SIZE && pos <= 255
    ensures PrintAll(buffer, fs, pos).result.Returned? <==> NoneStraddles(fs, pos)
    ensures NoneStraddles(fs, pos) ==> Encodable(fs)
    decreases |fs|
  {
    hide EncodeFields; hide Overlay; hide Encodable; hide PrintOne; hide Coding;
    if fs == [] {
      NothingEncodable();
    } else {
      var b, p := Coding(fs[0]), PrintOne(buffer, fs[0], pos);
      PrintOneFits(buffer, fs[0], pos);
      EncodableCons(fs);
      if p.result.Returned? {
        EightBits(pos, |b|);
        PrintAllReturns(p.buffer, fs[1..], (pos + |b|) % 256);
      }
    }
  }

  lemma NothingEncodable()
    ensures Encodable([])
  {
  }

  /** A tree that wraps: the header of a sequence fills the last three cells, its
    * child goes to the first two, and printing returns 2. */
  lemma WrapsAround(buffer: seq<U8>, v: U8)
    requires |buffer| == BUFFER_SIZE
    ensures var t := Node(Fields(0, Sequence, 2, 0, 0, []), [Node(Fields(0, Uint, 1, v, 0, []), [])]);
            && 253 + |Code(t)| == 258
            && PrintAll(buffer, PrintOrder(t), 253)
               == Print(Overlay(Overlay(buffer, 253, [54, 0, 2]), 0, [8, v]), Returned(2))
  {
    hide Overlay; hide PrintOrder; hide Code; hide PrintOne; hide PrintAll; hide Coding; hide EncodeFields;
    var root, leaf := Fields(0, Sequence, 2, 0, 0, []), Fields(0, Uint, 1, v, 0, []);
    WrapCodes(root, leaf);
    OneChild(root, leaf);
    PrintOneFits(buffer, root, 253);
    PrintOneFits(Overlay(buffer, 253, [54, 0, 2]), leaf, 0);
    PrintTwo(buffer, root, leaf, 253);
  }

  lemma WrapCodes(root: Fields, leaf: Fields)
    requires root == Fields(0, Sequence, 2, 0, 0, []) && leaf.kind == Uint && leaf.size == 1 && leaf.uintValue < 256
    ensures EncodeFields(root).Coded? && Coding(root) == [54, 0, 2]
    ensures EncodeFields(leaf).Coded? && Coding(leaf) == [8, leaf.uintValue]
  {
    hide BigEndian;
    SmallNumbers(leaf.uintValue);
    assert [54] + [0, 2] == [54, 0, 2];
  }

  /** A sequence of one leaf. */
  lemma OneChild(root: Fields, leaf: Fields)
    requires root.kind == Sequence && leaf.kind != Sequence
    ensures var t := Node(root, [Node(leaf, [])]);
            PrintOrder(t) == [root, leaf] && Code(t) == Coding(root) + Coding(leaf)
  {
    hide Coding;
    var kid := Node(leaf, []);
    assert [kid][1..] == [];
    assert PrintOrderForest([kid]) == [leaf] + [] + [] && CodeForest([kid]) == Coding(leaf) + [] + [];
    assert [root] + [leaf] == [root, leaf];
  }

  lemma PrintTwo(buffer: seq<U8>, f: Fields, g: Fields, pos: nat)
    requires |buffer| == BUFFER_SIZE && pos <= 255
    ensures var p := PrintOne(buffer, f, pos);
            p.result.Returned? ==>
              var next := (pos + p.result.value) % 256;
              var q := PrintOne(p.buffer, g, next);
              q.result.Returned? ==>
                PrintAll(buffer, [f, g], pos) == Print(q.buffer, Returned((next + q.result.value) % 256))
  {
    hide PrintOne;
    assert [f, g][1..] == [g] && [g][1..] == [];
    var p := PrintOne(buffer, f, pos);
    if p.result.Returned? {
      var next := (pos + p.result.value) % 256;
      var q := PrintOne(p.buffer, g, next);
      assert PrintAll(buffer, [f, g], pos) == PrintAll(p.buffer, [g], next);
      if q.result.Returned? {
        assert PrintAll(p.buffer, [g], next) == PrintAll(q.buffer, [], (next + q.result.value) % 256);
      }
    }
  }

  lemma SmallNumbers(v: U8)
    ensures BigEndian(2, 2) == [0, 2] && BigEndian(v, 1) == [v]
  {
    assert BigEndian(0, 1) == [] + [0] == [0];
    assert BigEndian(v / 256, 0) == [];
  }

  // ----- parse, then print -------------------------------------------------

  /** The element at pos has the header form the serializer writes: the 3-byte
    * header of a sequence, the 2-byte header of a text, 1, 2 or 4 bytes of a
    * number; of a 4-byte UUID only the low half is kept. */
  predicate Canonical(data: seq<U8>, pos: nat)
    requires ReadToken(data, pos).Item?
  {
    var desc := data[pos] % 8;
    match ReadToken(data, pos).token.fields.kind
    case Uint => desc <= 2
    case Uuid => desc <= 1 || (desc == 2 && data[pos + 1] == data[pos + 2] == 0)
    case TextString => desc == 5
    case _ => desc == 6
  }

  lemma SmallPowers()
    ensures Pow256(1) == 0x100 && Pow256(2) == 0x1_0000 && Pow256(4) == 0x1_0000_0000
  {
    assert Pow256(2) == 256 * Pow256(1) && Pow256(3) == 256 * Pow256(2) && Pow256(4) == 256 * Pow256(3);
  }

  lemma FourBytes(b: seq<U8>)
    requires |b| == 4
    ensures FromBigEndian(b) == FromBigEndian(b[..2]) * 0x1_0000 + FromBigEndian(b[2..])
  {
    assert b[..3][..2] == b[..2];
    assert FromBigEndian(b[..3]) == FromBigEndian(b[..2]) * 256 + b[2];
    OneByte(b[2..][..1]);
    assert FromBigEndian(b[2..]) == FromBigEndian(b[2..][..1]) * 256 + b[3];
  }

  /** A 4-byte UUID keeps its low 16 bits. */
  lemma TruncatedUuid(b: seq<U8>)
    requires |b| == 4
    ensures BigEndian(FromBigEndian(b) % 0x1_0000, 4) == [0, 0, b[2], b[3]]
  {
    hide FromBigEndian;
    hide BigEndian;
    FourBytes(b);
    SmallPowers();
    BigEndianBound(b[2..]);
    var low := FromBigEndian(b[2..]);
    assert FromBigEndian(b) % 0x1_0000 == low;
    EncodeBigEndian(b[2..]);
    WidenBigEndian(low);
  }

  lemma WidenBigEndian(v: U16)
    ensures BigEndian(v, 4) == [0, 0] + BigEndian(v, 2)
  {
    assert BigEndian(v / 256, 3) == BigEndian(v / 256 / 256, 2) + [v / 256 % 256];
    assert BigEndian(0, 2) == BigEndian(0, 1) + [0] == [0, 0];
    assert BigEndian(v / 256, 1) == BigEndian(v / 256 / 256, 0) + [v / 256 % 256];
  }

  /** The encoding of a number shows its size descriptor in the first byte. */
  lemma NumberPrefix(typeBits: nat, size: U16, value: U32, data: seq<U8>, pos: nat)
    requires typeBits % 8 == 0 && typeBits + 2 < 256 && pos < |data|
    requires EncodeNumber(typeBits, size, value).Coded?
    requires EncodeNumber(typeBits, size, value).bytes <= data[pos..]
    ensures data[pos] % 8 <= 2
  {
    var b := EncodeNumber(typeBits, size, value).bytes;
    assert b[0] == data[pos..][0] == data[pos];
  }

  /** A number of 1, 2 or 4 bytes whose value is that of its body. */
  lemma NumberFills(typeBits: nat, value: U32, data: seq<U8>, pos: nat, size: U16)
    requires typeBits % 8 == 0 && typeBits + 2 < 256 && pos + 1 + size <= |data|
    requires data[pos] / 8 == typeBits / 8 && data[pos] % 8 <= 2
    requires size == if data[pos] % 8 == 2 then 4 else data[pos] % 8 + 1
    ensures var e := EncodeNumber(typeBits, size, value);
            && e.Coded? && |e.bytes| == 1 + size
            && (e.bytes <= data[pos..] <==> BigEndian(value, size) == data[pos + 1..pos + 1 + size])
  {
    var b := EncodeNumber(typeBits, size, value).bytes;
    assert b == [data[pos]] + BigEndian(value, size);
    assert data[pos..][..1 + size] == [data[pos]] + data[pos + 1..pos + 1 + size];
    if b <= data[pos..] {
      assert b[1..] == data[pos..][..1 + size][1..];
    }
  }

  /** A body of at most n bytes is a number below the n-th power. */
  lemma BodyBound(b: seq<U8>, n: nat)
    requires |b| <= n
    ensures FromBigEndian(b) < Pow256(n)
  {
    BigEndianBound(b);
    PowersGrow(|b|, n);
  }

  lemma {:induction false} PowersGrow(m: nat, n: nat)
    requires m <= n
    ensures Pow256(m) <= Pow256(n)
    decreases n - m
  {
    if m < n {
      PowersGrow(m + 1, n);
    }
  }

  lemma SmallRemainder(v: nat, m: nat)
    requires v < m
    ensures v % m == v
  {
  }

  lemma Keeps32(b: seq<U8>)
    requires |b| <= 4
    ensures BigEndian(FromBigEndian(b) % 0x1_0000_0000, |b|) == b
  {
    assert FromBigEndian(b) < 0x1_0000_0000 by {
      BodyBound(b, 4);
      SmallPowers();
    }
    SmallRemainder(FromBigEndian(b), 0x1_0000_0000);
    EncodeBigEndian(b);
  }

  lemma Keeps16(b: seq<U8>)
    requires |b| <= 2
    ensures BigEndian(FromBigEndian(b) % 0x1_0000, |b|) == b
  {
    assert FromBigEndian(b) < 0x1_0000 by {
      BodyBound(b, 2);
      SmallPowers();
    }
    SmallRemainder(FromBigEndian(b), 0x1_0000);
    EncodeBigEndian(b);
  }

  /** What 16 bits keep of a body of 4 bytes. */
  lemma Keeps16Of32(b: seq<U8>)
    requires |b| == 4
    ensures BigEndian(FromBigEndian(b) % 0x1_0000, 4) == b <==> b[0] == b[1] == 0
  {
    TruncatedUuid(b);
    assert b == [b[0], b[1], b[2], b[3]];
  }

  /** A number read from pos has an encoding that lies at pos exactly when its
    * size descriptor is at most 2 and no byte of it was lost. */
  lemma NumberLies(data: seq<U8>, pos: nat, typeBits: nat, size: U16, value: U32)
    requires typeBits % 8 == 0 && typeBits + 2 < 256
    requires pos < |data| && data[pos] / 8 == typeBits / 8
    requires data[pos] % 8 <= 2 ==>
               size == (if data[pos] % 8 == 2 then 4 else data[pos] % 8 + 1) && pos + 1 + size <= |data|
    ensures var e := EncodeNumber(typeBits, size, value);
            && (e.Coded? && e.bytes <= data[pos..]
                <==> data[pos] % 8 <= 2 && BigEndian(value, size) == data[pos + 1..pos + 1 + size])
            && (e.Coded? ==> |e.bytes| == 1 + size)
  {
    var e := EncodeNumber(typeBits, size, value);
    if data[pos] % 8 <= 2 {
      NumberFills(typeBits, value, data, pos, size);
    } else if e.Coded? && e.bytes <= data[pos..] {
      NumberPrefix(typeBits, size, value, data, pos);
    }
  }

  lemma CanonicalNumber(data: seq<U8>, pos: nat)
    requires ReadToken(data, pos).Item?
    requires ReadToken(data, pos).token.fields.kind in {Uint, Uuid}
    ensures var t := ReadToken(data, pos).token; var e := EncodeFields(t.fields);
            && (Canonical(data, pos) <==> e.Coded? && e.bytes <= data[pos..])
            && (Canonical(data, pos) ==> |e.bytes| == t.length)
  {
    hide FromBigEndian;
    hide BigEndian;
    hide EncodeNumber;
    var f := ReadToken(data, pos).token.fields;
    NumberLies(data, pos, if f.kind == Uint then 8 else 24, f.size,
               if f.kind == Uint then f.uintValue else f.uuidValue);
    if data[pos] % 8 <= 2 {
      var body := data[pos + 1..pos + 1 + f.size];
      if f.kind == Uint {
        Keeps32(body);
      } else if data[pos] % 8 <= 1 {
        Keeps16(body);
      } else {
        Keeps16Of32(body);
      }
    }
  }

  lemma FirstByte(b: seq<U8>, data: seq<U8>, pos: nat)
    requires b != [] && pos < |data|
    ensures b <= data[pos..] ==> b[0] == data[pos]
  {
  }

  lemma TextAt(data: seq<U8>, pos: nat)
    requires ReadToken(data, pos).Item? && data[pos] % 8 == 5
    requires ReadToken(data, pos).token.fields.kind == TextString
    ensures var t := ReadToken(data, pos).token; var text := t.fields.text;
            && |text| < 256 && t.length == 2 + |text| && data[pos..][..t.length] == [37, |text|] + text
  {
    hide FromBigEndian;
    var t := ReadToken(data, pos).token;
    OneByte(data[pos..pos + 2][1..]);
    assert data[pos..][..t.length] == [37, data[pos + 1]] + t.fields.text;
  }

  lemma CanonicalText(data: seq<U8>, pos: nat)
    requires ReadToken(data, pos).Item?
    requires ReadToken(data, pos).token.fields.kind == TextString
    ensures var t := ReadToken(data, pos).token; var e := EncodeFields(t.fields);
            && (Canonical(data, pos) <==> e.Coded? && e.bytes <= data[pos..])
            && (Canonical(data, pos) ==> |e.bytes| == t.length)
  {
    hide ReadToken;
    FirstByte(EncodeFields(ReadToken(data, pos).token.fields).bytes, data, pos);
    if data[pos] % 8 == 5 {
      TextAt(data, pos);
    }
  }

  lemma CanonicalSequence(data: seq<U8>, pos: nat)
    requires ReadToken(data, pos).Item?
    requires ReadToken(data, pos).token.fields.kind == Sequence
    ensures var t := ReadToken(data, pos).token; var e := EncodeFields(t.fields);
            && (Canonical(data, pos) <==> e.Coded? && e.bytes <= data[pos..])
            && (Canonical(data, pos) ==> |e.bytes| == t.length)
  {
    hide BigEndian; hide FromBigEndian;
    FirstByte(EncodeFields(ReadToken(data, pos).token.fields).bytes, data, pos);
    if data[pos] % 8 == 6 {
      var count := data[pos..pos + 3][1..];
      Keeps16(count);
      assert data[pos..][..3] == [54] + count;
    }
  }

  /** Of one element: the encoding of what was read lies at pos exactly when
    * the element is canonical. */
  lemma CanonicalToken(data: seq<U8>, pos: nat)
    requires ReadToken(data, pos).Item?
    ensures var t := ReadToken(data, pos).token; var e := EncodeFields(t.fields);
            && (Canonical(data, pos) <==> e.Coded? && e.bytes <= data[pos..])
            && (Canonical(data, pos) ==> |e.bytes| == t.length)
  {
    match ReadToken(data, pos).token.fields.kind {
      case Sequence => CanonicalSequence(data, pos);
      case TextString => CanonicalText(data, pos);
      case _ => CanonicalNumber(data, pos);
    }
  }

  predicate AllCanonical(data: seq<U8>, ts: seq<Token>, pos: nat, end: nat)
    requires Consecutive(data, ts, pos, end)
    decreases |ts|
  {
    ts == [] || (Canonical(data, pos) && AllCanonical(data, ts[1..], pos + ts[0].length, end))
  }

  lemma {:induction false} ReprintTokens(data: seq<U8>, ts: seq<Token>, pos: nat, end: nat)
    requires Consecutive(data, ts, pos, end)
    requires pos <= end <= |data|
    ensures var fs := TokenFields(ts);
            AllCanonical(data, ts, pos, end) <==> Encodable(fs) && BytesOf(fs) == data[pos..end]
    decreases |ts|
  {
    hide EncodeFields;
    hide ReadToken;
    hide Canonical;
    var fs := TokenFields(ts);
    if ts == [] {
      assert data[pos..end] == [];
    } else {
      var next := pos + ts[0].length;
      ConsecutiveBounds(data, ts[1..], next, end);
      assert fs[1..] == TokenFields(ts[1..]);
      assert Encodable(fs) <==> EncodeFields(fs[0]).Coded? && Encodable(fs[1..]);
      CanonicalToken(data, pos);
      ReprintTokens(data, ts[1..], next, end);
      if Encodable(fs) {
        SplitStretch(data, Coding(fs[0]), BytesOf(fs[1..]), pos, next, end);
      }
    }
  }

  /** Two parts fill a stretch exactly when each fills its own part of it. */
  lemma SplitStretch<T>(data: seq<T>, head: seq<T>, tail: seq<T>, pos: nat, next: nat, end: nat)
    requires pos <= next <= end <= |data|
    requires head <= data[pos..] ==> |head| == next - pos
    ensures head + tail == data[pos..end] <==> head <= data[pos..] && tail == data[next..end]
  {
    var stretch := data[pos..end];
    assert head <= data[pos..] ==> head == data[pos..next];
    assert data[pos..next] + data[next..end] == stretch;
    if head + tail == stretch {
      assert head == stretch[..|head|];
      assert stretch <= data[pos..];
      assert head <= data[pos..];
      assert tail == stretch[|head|..];
    }
  }

  /** Parse, then print: the bytes that were parsed come back, at the index they
    * came from, exactly when every element among them has the serializer's own
    * header form. How the parser nested the elements makes no difference. */
  lemma ParseThenPrint(data: seq<U8>, start: nat, buffer: seq<U8>)
    requires Scan(data, start).Scanned? && |buffer| == BUFFER_SIZE
    ensures var r := Scan(data, start);
            var t := BuildTree(r.tokens, start);
            && Consecutive(data, r.tokens, start, r.end) && start <= 255 && start < r.end <= |data|
            && (AllCanonical(data, r.tokens, start, r.end)
                <==> Encodable(PrintOrder(t)) && Code(t) == data[start..r.end])
            && (AllCanonical(data, r.tokens, start, r.end) && r.end <= BUFFER_SIZE ==>
                  PrintAll(buffer, PrintOrder(t), start)
                  == Print(Overlay(buffer, start, data[start..r.end]), Returned(r.end % 256)))
  {
    hide EncodeFields; hide ReadToken; hide Canonical; hide BuildTree; hide Code; hide PrintOrder; hide Coding;
    hide AllCanonical; hide PrintAll; hide Overlay; hide BytesOf;
    var r := Scan(data, start);
    var t := BuildTree(r.tokens, start);
    ScanConsecutive(data, start);
    LeafScan(data, start);
    BuildTreeBare(r.tokens, start);
    BarePrintOrder(t);
    PreorderIsScanOrder(r.tokens, start);
    ReprintTokens(data, r.tokens, start, r.end);
    TreeBytes(t);
    if AllCanonical(data, r.tokens, start, r.end) && r.end <= BUFFER_SIZE {
      PrintAllFits(buffer, PrintOrder(t), start);
    }
  }

  lemma CanonicalHeader(data: seq<U8>, pos: nat)
    requires ReadToken(data, pos).Item? && Canonical(data, pos)
    ensures var t := ReadToken(data, pos).token;
            t.length >= 2 && (t.fields.kind == Sequence ==> t.length == 3)
  {
    hide FromBigEndian; hide KindOf;
  }

  lemma {:induction false} LastCanonical(data: seq<U8>, ts: seq<Token>, pos: nat, end: nat)
    requires Consecutive(data, ts, pos, end) && ts != [] && AllCanonical(data, ts, pos, end)
    ensures ts[|ts| - 1].length >= 2
    decreases |ts|
  {
    hide ReadToken; hide Canonical;
    if |ts| == 1 {
      CanonicalHeader(data, pos);
    } else {
      LastCanonical(data, ts[1..], pos + ts[0].length, end);
    }
  }

  /** The round trip of a whole element, stated on the data alone: when elements of
    * any declared sizes fill the body of a sequence exactly, parsing consumes the
    * sequence and printing gives all of its bytes back if and only if it has at
    * most 255 bytes and every element has the serializer's header form. */
  lemma WholeElementRoundTrip(data: seq<U8>, start: nat, ts: seq<Token>, end: nat, buffer: seq<U8>)
    requires Consecutive(data, ts, start, end) && ts != [] && ts[0].fields.kind == Sequence
    requires end == start + ts[0].length + ts[0].fields.size
    requires |buffer| == BUFFER_SIZE
    ensures start <= 255 && start < end <= |data|
    ensures var t := BuildTree(ts, start);
            && (AllCanonical(data, ts, start, end) && end - start <= 255
                <==> Scan(data, start) == Scanned(ts, end) && Encodable(PrintOrder(t)) && Code(t) == data[start..end])
            && (AllCanonical(data, ts, start, end) && end - start <= 255 && end <= BUFFER_SIZE ==>
                  PrintAll(buffer, PrintOrder(t), start)
                  == Print(Overlay(buffer, start, data[start..end]), Returned(end % 256)))
  {
    hide ReadToken; hide Canonical; hide BuildTree; hide Code; hide PrintOrder; hide Encodable; hide Scan;
    hide PrintAll;
    hide Overlay;
    ConsecutiveBounds(data, ts, start, end);
    if AllCanonical(data, ts, start, end) && end - start <= 255 {
      CanonicalHeader(data, start);
      LastCanonical(data, ts, start, end);
      ConsumesWholeElement(data, start, ts, end);
    }
    if Scan(data, start) == Scanned(ts, end) {
      ParseThenPrint(data, start, buffer);
    }
  }

  /** The scan of a leaf is the leaf alone. */
  lemma LeafScan(data: seq<U8>, start: nat)
    requires Scan(data, start).Scanned?
    ensures var ts := Scan(data, start).tokens; ts[0].fields.kind == Sequence || |ts| == 1
  {
    hide ReadToken;
    var t := ReadToken(data, start).token;
    assert t.fields.kind != Sequence ==>
        ScanFrom(data, start + t.length, Stop(t.fields)) == Scanned([], start + t.length);
  }
}
