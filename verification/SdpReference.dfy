/** A recursive decoder written from sections 3.2 and 3.3 of Volume 3, Part B of
  * the Bluetooth Core Specification 4.0, and how the parser relates to it. */
module SdpReference {
  import opened Bytes
  import opened Options
  import opened SdpElement
  import opened SdpScan
  import opened SdpEncoding
  import opened SdpLayout

  /** Size descriptors 0 to 6: the descriptor alone, or a count of 1 or 2 bytes. */
  function CountBytes(desc: nat): nat
  {
    if desc == 5 then 1 else if desc == 6 then 2 else 0
  }

  function BodySize(desc: nat, count: seq<U8>): nat
  {
    match desc
    case 0 => 1
    case 1 => 2
    case 2 => 4
    case 3 => 8
    case 4 => 16
    case _ => FromBigEndian(count)
  }

  /** The size descriptors section 3.2 allows for a type. */
  predicate ValidSize(kind: ElementType, desc: nat)
  {
    match kind
    case Uint => desc <= 4
    case Uuid => desc in {1, 2, 4}
    case TextString => desc in {5, 6}
    case Sequence => desc in {5, 6}
    case _ => false
  }

  /** The element at pos inside data[..end], if it is of one of the four types
    * and its value fits the fields of a DataElement. */
  function Decode(data: seq<U8>, pos: nat, end: nat): (r: Option<Layout>)
    requires end <= |data|
    decreases end - pos, 0
  {
    if pos >= end then None
    else
      var kind, desc := KindOf(data[pos] / 8), data[pos] % 8;
      var n := 1 + CountBytes(desc);
      if !ValidSize(kind, desc) || pos + n > end then None
      else
        var size := BodySize(desc, data[pos + 1..pos + n]);
        if pos + n + size > end || size >= 0x1_0000 then None
        else if kind == Sequence then
          match DecodeAll(data, pos + n, pos + n + size)
          case None => None
          case Some(kids) => Some(Span(Token(Fields(pos, Sequence, size, 0, 0, []), n), kids))
        else
          DecodeLeaf(kind, pos, n, data[pos + n..pos + n + size])
  }

  function DecodeLeaf(kind: ElementType, pos: nat, header: nat, body: seq<U8>): (r: Option<Layout>)
    requires |body| < 0x1_0000
  {
    var size, value := |body|, FromBigEndian(body);
    match kind
    case Uint =>
      if value < 0x1_0000_0000 then Some(Span(Token(Fields(pos, Uint, size, value, 0, []), header + size),
          [])) else None
    case Uuid =>
      if value < 0x1_0000 then Some(Span(Token(Fields(pos, Uuid, size, 0, value, []), header + size), [])) else None
    case TextString =>
      Some(Span(Token(Fields(pos, TextString, size, 0, 0, body), header + size), []))
    case _ => None
  }

  /** Elements that fill data[pos..end] exactly. */
  function DecodeAll(data: seq<U8>, pos: nat, end: nat): (r: Option<seq<Layout>>)
    requires end <= |data|
    decreases end - pos, 1
  {
    if pos == end then Some([])
    else match Decode(data, pos, end)
      case None => None
      case Some(l) =>
        if Length(l) == 0 || pos + Length(l) > end then None
        else match DecodeAll(data, pos + Length(l), end)
          case None => None
          case Some(rest) => Some([l] + rest)
  }

  // ----- the parser reads what the reference decoder reads -----------------

  /** Every element of l is what the parser reads at its position. */
  predicate Legible(data: seq<U8>, l: Layout)
    decreases l, 0
  {
    ReadToken(data, l.token.fields.start) == Item(l.token) && LegibleForest(data, l.kids)
  }

  predicate LegibleForest(data: seq<U8>, ls: seq<Layout>)
    decreases ls, 1
  {
    ls == [] || (Legible(data, ls[0]) && LegibleForest(data, ls[1..]))
  }

  lemma SmallCount(count: seq<U8>)
    requires |count| <= 2
    ensures FromBigEndian(count) % 0x1_0000 == FromBigEndian(count)
  {
    BodyBound(count, 2);
    SmallPowers();
  }

  lemma SameHeader(data: seq<U8>, pos: nat, end: nat)
    requires end <= Limit(data) && Decode(data, pos, end).Some?
    ensures var desc := data[pos] % 8; var n := HeaderLength(desc);
            && n == 1 + CountBytes(desc) && pos + n <= end
            && DeclaredSize(data[pos..pos + n]) == BodySize(desc, data[pos + 1..pos + n])
  {
    hide FromBigEndian; hide DecodeLeaf; hide DecodeAll;
    var desc := data[pos] % 8;
    var n := HeaderLength(desc);
    assert data[pos..pos + n][1..] == data[pos + 1..pos + n];
    SmallCount(data[pos + 1..pos + n]);
  }

  lemma DecodeReadsLeaf(data: seq<U8>, pos: nat, end: nat)
    requires end <= Limit(data) && Decode(data, pos, end).Some?
    requires KindOf(data[pos] / 8) != Sequence
    ensures var l := Decode(data, pos, end).value;
            ReadToken(data, pos) == Item(l.token) && Sized(l, pos) && l.kids == [] && pos + Length(l) <= end
  {
    hide FromBigEndian;
    SameHeader(data, pos, end);
    var n := HeaderLength(data[pos] % 8);
    var size := DeclaredSize(data[pos..pos + n]);
    var body := data[pos + n..pos + n + size];
    if KindOf(data[pos] / 8) == Uint {
      SmallRemainder(FromBigEndian(body), 0x1_0000_0000);
    } else if KindOf(data[pos] / 8) == Uuid {
      SmallRemainder(FromBigEndian(body), 0x1_0000);
    }
  }

  lemma SequenceToken(data: seq<U8>, pos: nat, end: nat)
    requires pos < end <= Limit(data) && pos + HeaderLength(data[pos] % 8) <= end
    requires KindOf(data[pos] / 8) == Sequence
    ensures var n := HeaderLength(data[pos] % 8);
            ReadToken(data, pos) == Item(Token(Fields(pos, Sequence, DeclaredSize(data[pos..pos + n]), 0, 0, []), n))
  {
    hide DeclaredSize; hide KindOf;
  }

  /** What the reference decoder accepts is laid out as declared, and the parser
    * reads each element of it alike. */
  lemma {:induction false} DecodeReads(data: seq<U8>, pos: nat, end: nat)
    requires end <= Limit(data) && Decode(data, pos, end).Some?
    ensures var l := Decode(data, pos, end).value;
            Legible(data, l) && Sized(l, pos) && pos + Length(l) <= end
    decreases end - pos, 0
  {
    hide FromBigEndian; hide DecodeLeaf; hide ReadToken;
    if KindOf(data[pos] / 8) != Sequence {
      DecodeReadsLeaf(data, pos, end);
    } else {
      SameHeader(data, pos, end);
      var n := HeaderLength(data[pos] % 8);
      var size := DeclaredSize(data[pos..pos + n]);
      SequenceToken(data, pos, end);
      DecodeAllReads(data, pos + n, pos + n + size);
    }
  }

  lemma {:induction false} DecodeAllReads(data: seq<U8>, pos: nat, end: nat)
    requires pos <= end <= Limit(data) && DecodeAll(data, pos, end).Some?
    ensures var ls := DecodeAll(data, pos, end).value;
            LegibleForest(data, ls) && SizedForest(ls, pos) && pos + LengthForest(ls) == end
    decreases end - pos, 1
  {
    hide Decode; hide ReadToken;
    if pos < end {
      DecodeReads(data, pos, end);
      var l := Decode(data, pos, end).value;
      DecodeAllReads(data, pos + Length(l), end);
      var rest := DecodeAll(data, pos + Length(l), end).value;
      assert ([l] + rest)[1..] == rest;
    }
  }

  /** Every element is at least two bytes long, so the loop, which may stop one
    * byte early, still reads a layout to its end. */
  lemma {:induction false} ScanForest(data: seq<U8>, ls: seq<Layout>, pos: nat, stop: nat)
    requires SizedForest(ls, pos) && LegibleForest(data, ls)
    requires pos + LengthForest(ls) <= stop + 1
    ensures ScanFrom(data, pos, stop) == Prepend(TokensForest(ls), ScanFrom(data, pos + LengthForest(ls), stop))
    decreases ls, 1
  {
    hide ReadToken; hide Prepend; hide ScanFrom;
    var after := ScanFrom(data, pos + LengthForest(ls), stop);
    PrependPrepend([], [], after);
    if ls == [] {
    } else {
      ScanTree(data, ls[0], pos, stop);
      ScanForest(data, ls[1..], pos + Length(ls[0]), stop);
      PrependPrepend(Tokens(ls[0]), TokensForest(ls[1..]), after);
    }
  }

  lemma {:induction false} ScanTree(data: seq<U8>, l: Layout, pos: nat, stop: nat)
    requires Sized(l, pos) && Legible(data, l)
    requires pos + Length(l) <= stop + 1
    ensures ScanFrom(data, pos, stop) == Prepend(Tokens(l), ScanFrom(data, pos + Length(l), stop))
    decreases l, 0
  {
    hide ReadToken; hide Prepend;
    ScanForest(data, l.kids, pos + l.token.length, stop);
    PrependPrepend([l.token], TokensForest(l.kids), ScanFrom(data, pos + Length(l), stop));
  }

  /** The scan of a layout is the list of its elements, and ends where it does, if
    * its bytes can be counted in eight bits. */
  lemma ScanLayout(data: seq<U8>, l: Layout, origin: nat)
    requires Sized(l, origin) && Legible(data, l)
    requires IsSequence(l) ==> l.token.length <= 3
    ensures Scan(data, origin) == Scanned(Tokens(l), origin + Length(l)) <==> Length(l) <= 255
  {
    hide ReadToken;
    var end := origin + Length(l);
    if IsSequence(l) {
      ScanForest(data, l.kids, origin + l.token.length, Stop(l.token.fields));
      assert ScanFrom(data, end, Stop(l.token.fields)) == Scanned([], end);
      assert TokensForest(l.kids) + [] == TokensForest(l.kids);
    }
  }

  /** Against the standard: on data the reference decoder accepts, with 1 or 2
    * length bytes in every header, the parser consumes the whole element and
    * reads every part of it, if it has at most 255 bytes, and the tree it builds is the one the standard
    * prescribes exactly when the layout is recoverable. */
  lemma ParserAgainstStandard(data: seq<U8>, origin: nat, end: nat)
    requires end <= Limit(data) && Decode(data, origin, end).Some?
    ensures var l := Decode(data, origin, end).value;
            && (Scan(data, origin) == Scanned(Tokens(l), origin + Length(l)) <==> Length(l) <= 255)
            && (BuildTree(Tokens(l), origin) == TreeOf(l) <==> RecoverableRoot(l, origin))
  {
    DecodeReads(data, origin, end);
    var l := Decode(data, origin, end).value;
    assert IsSequence(l) ==> l.token.length <= 3;
    ScanLayout(data, l, origin);
    NestsAs(l, origin);
  }

  // ----- print, then parse ---------------------------------------------------

  /** A leaf whose value fits its declared size, with the unused fields as a
    * fresh element has them; a sequence with no value. */
  predicate Faithful(f: Fields)
  {
    match f.kind
    case Uint => f.size in {1, 2, 4} && f.uintValue < Pow256(f.size) && f.uuidValue == 0 && f.text == []
    case Uuid => f.size in {2, 4} && f.uuidValue < Pow256(f.size) && f.uintValue == 0 && f.text == []
    case TextString => f.size == |f.text| < 256 && f.uintValue == f.uuidValue == 0
    case Sequence => f.uintValue == f.uuidValue == 0 && f.text == []
    case _ => false
  }

  /** Every declared size is the total encoded length of the children. */
  predicate WellSized(t: Tree)
    decreases t, 0
  {
    && Faithful(t.fields)
    && (if t.fields.kind == Sequence then t.fields.size == |CodeForest(t.kids)| else t.kids == [])
    && WellSizedForest(t.kids)
  }

  predicate WellSizedForest(ts: seq<Tree>)
    decreases ts, 1
  {
    ts == [] || (WellSized(ts[0]) && WellSizedForest(ts[1..]))
  }

  /** Where the elements of t lie when it is printed at pos. */
  function LayoutOf(t: Tree, pos: nat): Layout
    decreases t, 0
  {
    Span(Token(t.fields.(start := pos), |Coding(t.fields)|), LayoutsOf(t.kids, pos + |Coding(t.fields)|))
  }

  function LayoutsOf(ts: seq<Tree>, pos: nat): seq<Layout>
    decreases ts, 1
  {
    if ts == [] then [] else [LayoutOf(ts[0], pos)] + LayoutsOf(ts[1..], pos + |Code(ts[0])|)
  }

  /** A tree without its start indices, which the serializer ignores. */
  function Unplaced(t: Tree): Tree
    decreases t, 0
  {
    Node(t.fields.(start := 0), UnplacedForest(t.kids))
  }

  function UnplacedForest(ts: seq<Tree>): seq<Tree>
    decreases ts, 1
  {
    if ts == [] then [] else [Unplaced(ts[0])] + UnplacedForest(ts[1..])
  }

  lemma {:induction false} LayoutKeepsTree(t: Tree, pos: nat)
    requires WellSized(t)
    ensures Unplaced(TreeOf(LayoutOf(t, pos))) == Unplaced(t)
    ensures Length(LayoutOf(t, pos)) == |Code(t)|
    decreases t, 0
  {
    hide EncodeFields; hide Coding;
    LayoutsKeepTrees(t.kids, pos + |Coding(t.fields)|);
  }

  lemma {:induction false} LayoutsKeepTrees(ts: seq<Tree>, pos: nat)
    requires WellSizedForest(ts)
    ensures UnplacedForest(TreesOf(LayoutsOf(ts, pos))) == UnplacedForest(ts)
    ensures LengthForest(LayoutsOf(ts, pos)) == |CodeForest(ts)|
    decreases ts, 1
  {
    hide Code; hide Unplaced; hide TreeOf; hide LayoutOf; hide Length; hide WellSized;
    if ts == [] {
    } else {
      var next := pos + |Code(ts[0])|;
      LayoutKeepsTree(ts[0], pos);
      LayoutsKeepTrees(ts[1..], next);
      var ls := LayoutsOf(ts, pos);
      assert ls[1..] == LayoutsOf(ts[1..], next);
      assert TreesOf(ls)[1..] == TreesOf(ls[1..]);
    }
  }

  /** The bytes b lie at pos. */
  predicate At(data: seq<U8>, pos: nat, b: seq<U8>)
  {
    pos + |b| <= |data| && data[pos..pos + |b|] == b
  }

  lemma SplitAt(data: seq<U8>, pos: nat, a: seq<U8>, b: seq<U8>)
    requires At(data, pos, a + b)
    ensures At(data, pos, a) && At(data, pos + |a|, b)
  {
    var c := data[pos..pos + |a + b|];
    assert data[pos..pos + |a|] == c[..|a|] == (a + b)[..|a|] == a;
    assert data[pos + |a|..pos + |a| + |b|] == c[|a|..] == (a + b)[|a|..] == b;
  }

  lemma NumberHeader(f: Fields, typeBits: nat, value: U32)
    requires Faithful(f)
    requires (f.kind == Uint && typeBits == 8 && value == f.uintValue)
          || (f.kind == Uuid && typeBits == 24 && value == f.uuidValue)
    ensures Coding(f) == [typeBits + if f.size == 4 then 2 else f.size - 1] + BigEndian(value, f.size)
    ensures FromBigEndian(BigEndian(value, f.size)) == value
  {
    DecodeBigEndian(value, f.size);
  }

  /** Decoding a leaf, step by step. */
  lemma DecodeLeafAt(data: seq<U8>, pos: nat, end: nat, kind: ElementType, n: nat, size: nat)
    requires pos + n + size <= end <= |data| && n > 0 && size < 0x1_0000
    requires kind == KindOf(data[pos] / 8) && kind != Sequence && ValidSize(kind, data[pos] % 8)
    requires n == 1 + CountBytes(data[pos] % 8) && size == BodySize(data[pos] % 8, data[pos + 1..pos + n])
    ensures Decode(data, pos, end) == DecodeLeaf(kind, pos, n, data[pos + n..pos + n + size])
  {
    hide KindOf; hide ValidSize; hide CountBytes; hide BodySize; hide DecodeLeaf; hide DecodeAll;
  }

  lemma NumberDescriptor(first: nat, f: Fields)
    requires Faithful(f) && f.kind in {Uint, Uuid}
    requires first == (if f.kind == Uint then 8 else 24) + if f.size == 4 then 2 else f.size - 1
    ensures KindOf(first / 8) == f.kind && ValidSize(f.kind, first % 8)
    ensures CountBytes(first % 8) == 0 && forall count :: BodySize(first % 8, count) == f.size
  {
  }

  lemma NumberFields(f: Fields, pos: nat, body: seq<U8>)
    requires Faithful(f) && f.kind in {Uint, Uuid} && |body| == f.size
    requires FromBigEndian(body) == if f.kind == Uint then f.uintValue else f.uuidValue
    ensures DecodeLeaf(f.kind, pos, 1, body) == Some(Span(Token(f.(start := pos), 1 + f.size), []))
  {
    hide FromBigEndian;
  }

  lemma DecodeNumber(data: seq<U8>, f: Fields, typeBits: nat, value: U32, pos: nat, end: nat)
    requires Faithful(f) && At(data, pos, Coding(f)) && pos + |Coding(f)| <= end <= |data|
    requires (f.kind == Uint && typeBits == 8 && value == f.uintValue)
          || (f.kind == Uuid && typeBits == 24 && value == f.uuidValue)
    ensures Decode(data, pos, end) == Some(Span(Token(f.(start := pos), 1 + f.size), []))
  {
    hide BigEndian; hide FromBigEndian; hide Coding; hide Decode; hide DecodeLeaf;
    hide KindOf; hide ValidSize; hide CountBytes; hide BodySize;
    NumberHeader(f, typeBits, value);
    var first, body := [typeBits + if f.size == 4 then 2 else f.size - 1], BigEndian(value, f.size);
    SplitAt(data, pos, first, body);
    assert data[pos] == data[pos..pos + 1][0];
    NumberDescriptor(data[pos], f);
    DecodeLeafAt(data, pos, end, f.kind, 1, f.size);
    NumberFields(f, pos, body);
  }

  lemma TextDescriptor(count: U8)
    ensures KindOf(37 / 8) == TextString && ValidSize(TextString, 37 % 8)
    ensures CountBytes(37 % 8) == 1 && BodySize(37 % 8, [count]) == count
  {
    OneByte([count]);
  }

  lemma TextFields(f: Fields)
    requires Faithful(f) && f.kind == TextString
    ensures f.size == |f.text| < 256 && Coding(f) == [37, f.size] + f.text
    ensures forall pos :: DecodeLeaf(TextString, pos, 2, f.text) == Some(Span(Token(f.(start := pos), 2 + f.size), []))
  {
    hide FromBigEndian;
  }

  lemma DecodeText(data: seq<U8>, f: Fields, pos: nat, end: nat)
    requires Faithful(f) && f.kind == TextString
    requires At(data, pos, Coding(f)) && pos + |Coding(f)| <= end <= |data|
    ensures Decode(data, pos, end) == Some(Span(Token(f.(start := pos), 2 + f.size), []))
  {
    hide FromBigEndian; hide Decode; hide DecodeLeaf; hide Coding; hide Faithful;
    hide KindOf; hide ValidSize; hide CountBytes; hide BodySize;
    TextFields(f);
    SplitAt(data, pos, [37, f.size], f.text);
    TwoCells(data, pos, [37, f.size]);
    TextDescriptor(f.size);
    DecodeLeafAt(data, pos, end, TextString, 2, f.size);
  }

  lemma TwoCells(data: seq<U8>, pos: nat, header: seq<U8>)
    requires |header| == 2 && At(data, pos, header)
    ensures data[pos] == header[0] && data[pos + 1..pos + 2] == [header[1]]
  {
    assert data[pos + 1..pos + 2] == data[pos..pos + 2][1..];
  }

  lemma SequenceHeader(f: Fields)
    requires f.kind == Sequence
    ensures Coding(f) == [54] + BigEndian(f.size, 2)
    ensures FromBigEndian(BigEndian(f.size, 2)) == f.size
  {
    SmallPowers();
    DecodeBigEndian(f.size, 2);
  }

  lemma DecodeSequence(data: seq<U8>, f: Fields, pos: nat, end: nat)
    requires Faithful(f) && f.kind == Sequence
    requires At(data, pos, Coding(f)) && pos + 3 + f.size <= end <= |data|
    ensures Decode(data, pos, end)
         == match DecodeAll(data, pos + 3, pos + 3 + f.size)
            case None => None
            case Some(kids) => Some(Span(Token(f.(start := pos), 3), kids))
  {
    hide BigEndian; hide FromBigEndian; hide DecodeAll; hide EncodeFields;
    SequenceHeader(f);
    SplitAt(data, pos, [54], BigEndian(f.size, 2));
    assert data[pos] == data[pos..pos + 1][0];
  }

  /** The reference decoder recovers every printed tree, of any depth, whose
    * declared sizes are right. */
  lemma {:induction false} DecodePrinted(data: seq<U8>, t: Tree, pos: nat, end: nat)
    requires WellSized(t) && At(data, pos, Code(t)) && pos + |Code(t)| <= end <= |data|
    ensures Decode(data, pos, end) == Some(LayoutOf(t, pos))
    decreases t, 0
  {
    hide Decode; hide DecodeAll; hide At; hide BigEndian;
    var f := t.fields;
    SplitAt(data, pos, Coding(f), CodeForest(t.kids));
    match f.kind {
      case Sequence =>
        DecodeSequence(data, f, pos, end);
        DecodePrintedForest(data, t.kids, pos + 3);
      case TextString => DecodeText(data, f, pos, end);
      case Uint => DecodeNumber(data, f, 8, f.uintValue, pos, end);
      case Uuid => DecodeNumber(data, f, 24, f.uuidValue, pos, end);
    }
  }

  lemma {:induction false} DecodePrintedForest(data: seq<U8>, ts: seq<Tree>, pos: nat)
    requires WellSizedForest(ts) && At(data, pos, CodeForest(ts)) && pos + |CodeForest(ts)| <= |data|
    ensures DecodeAll(data, pos, pos + |CodeForest(ts)|) == Some(LayoutsOf(ts, pos))
    decreases ts, 1
  {
    hide Decode; hide At; hide Code; hide LayoutOf; hide WellSized;
    if ts == [] {
    } else {
      var t, end := ts[0], pos + |CodeForest(ts)|;
      SplitAt(data, pos, Code(t), CodeForest(ts[1..]));
      DecodePrinted(data, t, pos, end);
      DecodePrintedForest(data, ts[1..], pos + |Code(t)|);
      LayoutKeepsTree(t, pos);
      CodeNotEmpty(t);
    }
  }

  lemma CodeNotEmpty(t: Tree)
    requires WellSized(t)
    ensures |Code(t)| > 0
  {
  }

  /** Print, then parse: the parser rebuilds the tree that was printed, up to the
    * start indices printing ignores, exactly when the printed layout is
    * recoverable; it reads all of it in any case, if that is at most 255 bytes. */
  lemma PrintThenParse(data: seq<U8>, t: Tree, origin: nat)
    requires WellSized(t) && At(data, origin, Code(t)) && origin + |Code(t)| <= Limit(data)
    ensures var l := LayoutOf(t, origin);
            && Unplaced(TreeOf(l)) == Unplaced(t)
            && (Scan(data, origin) == Scanned(Tokens(l), origin + |Code(t)|) <==> |Code(t)| <= 255)
            && (BuildTree(Tokens(l), origin) == TreeOf(l) <==> RecoverableRoot(l, origin))
  {
    hide Decode;
    hide BuildTree;
    hide Scan;
    hide Code;
    hide LayoutOf;
    hide TreeOf;
    hide Unplaced;
    hide RecoverableRoot;
    hide WellSized;
    hide Tokens;
    hide Length;
    DecodePrinted(data, t, origin, origin + |Code(t)|);
    LayoutKeepsTree(t, origin);
    ParserAgainstStandard(data, origin, origin + |Code(t)|);
  }

  // ----- print, then parse: two levels -------------------------------------------

  /** Every child is a leaf or a sequence of leaves. */
  predicate TwoLevelTrees(ts: seq<Tree>)
  {
    forall i :: 0 <= i < |ts| && ts[i].fields.kind == Sequence ==>
      forall j :: 0 <= j < |ts[i].kids| ==> ts[i].kids[j].fields.kind != Sequence
  }

  /** The last element of a non-empty sequence is printed with more than 3 bytes. */
  predicate PrintsLongEnd(t: Tree)
  {
    t.kids != [] ==> |Code(t.kids[|t.kids| - 1])| > 3
  }

  predicate AllPrintLongEnds(ts: seq<Tree>)
  {
    forall i :: 0 <= i < |ts| && ts[i].fields.kind == Sequence ==> PrintsLongEnd(ts[i])
  }

  lemma {:induction false} LayoutAt(ts: seq<Tree>, pos: nat, i: nat) returns (p: nat)
    requires i < |ts|
    ensures i < |LayoutsOf(ts, pos)| && LayoutsOf(ts, pos)[i] == LayoutOf(ts[i], p)
    decreases i
  {
    hide Code; hide LayoutOf;
    if i == 0 {
      p := pos;
    } else {
      p := LayoutAt(ts[1..], pos + |Code(ts[0])|, i - 1);
    }
  }

  lemma {:induction false} LayoutsCount(ts: seq<Tree>, pos: nat)
    ensures |LayoutsOf(ts, pos)| == |ts|
    decreases |ts|
  {
    hide Code; hide LayoutOf;
    if ts == [] {
    } else {
      LayoutsCount(ts[1..], pos + |Code(ts[0])|);
    }
  }

  lemma {:induction false} WellSizedAt(ts: seq<Tree>, i: nat)
    requires WellSizedForest(ts) && i < |ts|
    ensures WellSized(ts[i])
    decreases i
  {
    hide WellSized;
    if i == 0 {
    } else {
      WellSizedAt(ts[1..], i - 1);
    }
  }

  /** A sequence of leaves, where it is printed. */
  lemma InnerLayout(t: Tree, pos: nat)
    requires WellSized(t) && t.fields.kind == Sequence
    requires forall j :: 0 <= j < |t.kids| ==> t.kids[j].fields.kind != Sequence
    ensures var l := LayoutOf(t, pos);
            IsSequence(l) && AllLeaves(l.kids) && (EndsLong(l) <==> PrintsLongEnd(t))
  {
    hide Code; hide Length; hide EncodeFields; hide BigEndian; hide LayoutsOf;
    var l, next := LayoutOf(t, pos), pos + 3;
    SequenceHeader(t.fields);
    LayoutsCount(t.kids, next);
    forall j | 0 <= j < |l.kids| ensures !IsSequence(l.kids[j]) && Length(l.kids[j]) == |Code(t.kids[j])| {
      var p := LayoutAt(t.kids, next, j);
      WellSizedAt(t.kids, j);
      LayoutKeepsTree(t.kids[j], p);
    }
  }

  /** Print at index 0, then parse, for a root whose children are leaves and
    * sequences of leaves: the tree comes back exactly when the last element of
    * every non-empty inner sequence is printed with more than 3 bytes. */
  lemma TwoLevelRoundTrip(data: seq<U8>, t: Tree)
    requires WellSized(t) && t.fields.kind == Sequence && TwoLevelTrees(t.kids)
    requires At(data, 0, Code(t)) && |Code(t)| <= 255
    ensures var l := LayoutOf(t, 0);
            && Unplaced(TreeOf(l)) == Unplaced(t)
            && Scan(data, 0) == Scanned(Tokens(l), |Code(t)|)
            && (BuildTree(Tokens(l), 0) == TreeOf(l) <==> AllPrintLongEnds(t.kids))
  {
    var l := LayoutOf(t, 0);
    TwoLevelLayout(t);
    hide AllEndLong; hide AllPrintLongEnds; hide Recoverable; hide RecoverableKids; hide Legible;
    hide TwoLevels; hide TwoLevelTrees; hide At; hide IsSequence;
    hide Decode; hide BuildTree; hide Scan; hide Code; hide LayoutOf; hide TreeOf; hide Unplaced; hide WellSized;
    hide Tokens; hide Length; hide Sized; hide SizedForest; hide PrintsLongEnd; hide EndsLong;
    AtFits(data, 0, Code(t));
    PrintThenParse(data, t, 0);
    DecodePrinted(data, t, 0, |Code(t)|);
    DecodeReads(data, 0, |Code(t)|);
    SizedKids(l, 0);
    TwoLevelsRecoverable(l.kids, l.token.length, l.token.length);
  }

  lemma AtFits(data: seq<U8>, pos: nat, b: seq<U8>)
    requires At(data, pos, b)
    ensures pos + |b| <= |data|
  {
  }

  lemma TwoLevelLayout(t: Tree)
    requires WellSized(t) && t.fields.kind == Sequence && TwoLevelTrees(t.kids)
    ensures var l := LayoutOf(t, 0);
            && TwoLevels(l.kids)
            && (AllEndLong(l.kids) <==> AllPrintLongEnds(t.kids))
  {
    hide Code; hide EncodeFields; hide LayoutsOf; hide EndsLong; hide PrintsLongEnd; hide AllLeaves;
    var l, next := LayoutOf(t, 0), |Coding(t.fields)|;
    LayoutsCount(t.kids, next);
    forall i | 0 <= i < |l.kids|
      ensures IsSequence(l.kids[i]) <==> t.kids[i].fields.kind == Sequence
      ensures IsSequence(l.kids[i]) ==> AllLeaves(l.kids[i].kids) && (EndsLong(l.kids[i]) <==> PrintsLongEnd(t.kids[i]))
    {
      var p := LayoutAt(t.kids, next, i);
      WellSizedAt(t.kids, i);
      if t.kids[i].fields.kind == Sequence {
        InnerLayout(t.kids[i], p);
      }
    }
  }
}
