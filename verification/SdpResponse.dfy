/** The ServiceSearchAttribute response: the service record the stack prints, what
  * the standard makes of it, and what its own parser does. */
module SdpResponse {
  import opened Bytes
  import opened Options
  import opened SdpElement
  import opened SdpScan
  import opened SdpEncoding
  import opened SdpLayout
  import opened SdpReference

  // ----- what printed bytes mean ------------------------------------------------

  /** What the encoding of an element says. A dummy is plain bytes, which may be the
    * encoding of a number; of a sequence only the size is written. */
  function Meant(f: Fields): Fields
  {
    match f.kind
    case Sequence => Fields(f.start, Sequence, f.size, 0, 0, [])
    case DummyUint =>
      if f.size == 2 && f.uintValue / 0x100 == 8 then Fields(f.start, Uint, 1, f.uintValue % 0x100, 0, [])
      else if f.size == 3 && f.uintValue / 0x1_0000 == 9 then Fields(f.start, Uint, 2, f.uintValue % 0x1_0000, 0, [])
      else if f.size == 3 && f.uintValue / 0x1_0000 == 25 then Fields(f.start, Uuid, 2, 0, f.uintValue % 0x1_0000, [])
      else f
    case _ => f
  }

  function MeantTree(t: Tree): Tree
    decreases t, 0
  {
    Node(Meant(t.fields), if t.fields.kind == DummyUint then [] else MeantForest(t.kids))
  }

  function MeantForest(ts: seq<Tree>): (r: seq<Tree>)
    ensures |r| == |ts|
    decreases ts, 1
  {
    if ts == [] then [] else [MeantTree(ts[0])] + MeantForest(ts[1..])
  }

  lemma MeantCoding(f: Fields)
    ensures EncodeFields(Meant(f)) == EncodeFields(f)
  {
    if f.kind == DummyUint && Meant(f) != f {
      hide BigEndian;
      if f.size == 2 {
        LeadingByte(f.uintValue, 1);
      } else {
        LeadingByte(f.uintValue, 2);
      }
      SmallPowers();
    }
  }

  lemma BigEndianStep(v: nat, n: nat)
    ensures BigEndian(v, n + 1) == BigEndian(v / 256, n) + [v % 256]
    ensures v < 256 ==> BigEndian(v, 1) == [v]
  {
    assert BigEndian(v / 256, 0) == [];
  }

  /** A number whose first byte stands for itself. */
  lemma LeadingByte(v: nat, n: nat)
    requires 1 <= n <= 2 && v / Pow256(n) < 256
    ensures BigEndian(v, n + 1) == [v / Pow256(n)] + BigEndian(v % Pow256(n), n)
  {
    hide BigEndian;
    SmallPowers();
    BigEndianStep(v, n);
    if n == 1 {
      BigEndianStep(v / 256, 0);
      BigEndianStep(v % 256, 0);
    } else {
      var low := v % 0x1_0000;
      assert v / 256 / 256 == v / 0x1_0000 && low / 256 == v / 256 % 256 && low % 256 == v % 256;
      BigEndianStep(v / 256, 1);
      BigEndianStep(v / 0x1_0000, 0);
      BigEndianStep(low, 1);
      BigEndianStep(low / 256, 0);
    }
  }

  lemma {:induction false} MeantCode(t: Tree)
    ensures Code(MeantTree(t)) == Code(t)
    decreases t, 0
  {
    hide EncodeFields;
    MeantCoding(t.fields);
    MeantForestCode(t.kids);
  }

  lemma {:induction false} MeantForestCode(ts: seq<Tree>)
    ensures CodeForest(MeantForest(ts)) == CodeForest(ts)
    decreases ts, 1
  {
    hide Code; hide MeantTree;
    if ts == [] {
    } else {
      MeantCode(ts[0]);
      MeantForestCode(ts[1..]);
      assert MeantForest(ts)[1..] == MeantForest(ts[1..]);
    }
  }

  /** The reference decoder recovers what a printed tree means, dummies included. */
  lemma DecodePrintedMeaning(data: seq<U8>, t: Tree, pos: nat, end: nat)
    requires WellSized(MeantTree(t)) && At(data, pos, Code(t)) && pos + |Code(t)| <= end <= |data|
    ensures Decode(data, pos, end) == Some(LayoutOf(MeantTree(t), pos))
  {
    hide Decode; hide LayoutOf; hide Code; hide WellSized; hide MeantTree;
    MeantCode(t);
    DecodePrinted(data, MeantTree(t), pos, end);
  }

  // ----- the record -----------------------------------------------------------------

  function Number(size: U16, value: U32): Tree
  {
    Node(Fields(0, Uint, size, value, 0, []), [])
  }

  function Id(value: U16): Tree
  {
    Node(Fields(0, Uuid, 2, 0, value, []), [])
  }

  function Name(text: seq<U8>): Tree
    requires |text| < 0x1_0000
  {
    Node(Fields(0, TextString, |text|, 0, 0, text), [])
  }

  /** Two bytes that are added as they are. */
  function Dummy(value: U32): Tree
  {
    Node(Fields(0, DummyUint, 2, value, 0, []), [])
  }

  /** A sequence; some carry a number in a field that is not printed. */
  function List(size: U16, note: U32, kids: seq<Tree>): Tree
  {
    Node(Fields(0, Sequence, size, note, 0, []), kids)
  }

  function Attribute(id: U16, value: Tree, rest: seq<Tree>): seq<Tree>
  {
    [Number(2, id)] + ([value] + rest)
  }

  function Both(a: Tree, b: Tree): seq<Tree>
  {
    [a] + ([b] + [])
  }

  function Only(a: Tree): seq<Tree>
  {
    [a] + []
  }

  /** "SPP Counter". */
  const SERVICE_NAME: seq<U8> := [0x53, 0x50, 0x50, 0x20, 0x43, 0x6f, 0x75, 0x6e, 0x74, 0x65, 0x72]

  function Protocols(): Tree
  {
    List(14, 1, Both(List(3, 0, Only(Id(0x0100))), List(5, 0, Both(Id(0x0003), Dummy(0x0801)))))
  }

  function Languages(): Tree
  {
    List(9, 0, [Number(2, 0x656e)] + Both(Number(2, 0x006a), Number(2, 0x0100)))
  }

  function Profiles(): Tree
  {
    List(9, 0, Only(List(6, 0, Both(Id(0x1101), Number(2, 0x1102)))))
  }

  function LaterAttributes(): seq<Tree>
  {
    Attribute(5, List(3, 0, Only(Id(0x1002))),
      Attribute(6, Languages(), Attribute(9, Profiles(), Attribute(0x0100, Name(SERVICE_NAME), []))))
  }

  function Attributes(): seq<Tree>
  {
    Attribute(0, Number(4, 0x0001_0001),
      Attribute(1, List(3, 1, Only(Id(0x1101))), Attribute(4, Protocols(), LaterAttributes())))
  }

  function ServiceRecord(): Tree
  {
    List(95, 0, Only(List(92, 0, Attributes())))
  }

  /** A tree of n bytes in which every declared size is right. */
  predicate Right(t: Tree, n: nat)
  {
    WellSized(MeantTree(t)) && |Code(t)| == n
  }

  predicate AllRight(ts: seq<Tree>, n: nat)
  {
    WellSizedForest(MeantForest(ts)) && |CodeForest(ts)| == n
  }

  lemma NoneRight()
    ensures AllRight([], 0)
  {
  }

  lemma RightCons(t: Tree, rest: seq<Tree>, a: nat, b: nat)
    requires Right(t, a) && AllRight(rest, b)
    ensures AllRight([t] + rest, a + b)
  {
    hide MeantTree; hide WellSized; hide Code;
    var ts := [t] + rest;
    assert ts[1..] == rest;
    assert MeantForest(ts)[1..] == MeantForest(rest);
  }

  lemma RightList(size: U16, note: U32, kids: seq<Tree>)
    requires AllRight(kids, size)
    ensures Right(List(size, note, kids), 3 + size)
  {
    hide BigEndian; hide MeantForest; hide CodeForest; hide WellSizedForest;
    MeantForestCode(kids);
  }

  lemma RightNumber(size: U16, value: U32)
    requires size in {1, 2, 4} && value < Pow256(size)
    ensures Right(Number(size, value), 1 + size)
  {
    hide BigEndian; hide Pow256;
    NoTrees();
  }

  lemma RightId(value: U16)
    ensures Right(Id(value), 3)
  {
    hide BigEndian;
    SmallPowers();
    NoTrees();
  }

  lemma RightName(text: seq<U8>)
    requires |text| < 256
    ensures Right(Name(text), 2 + |text|)
  {
    NoTrees();
  }

  /** The two bytes 08 01 are a one-byte unsigned integer, 1. */
  lemma RightDummy()
    ensures Right(Dummy(0x0801), 2) && MeantTree(Dummy(0x0801)) == Number(1, 1)
  {
    MeantCode(Dummy(0x0801));
    assert Pow256(1) == 0x100;
    RightNumber(1, 1);
    assert MeantTree(Number(1, 1)) == Number(1, 1) by { NoTrees(); }
  }

  lemma NoTrees()
    ensures MeantForest([]) == [] && WellSizedForest([]) && CodeForest([]) == []
  {
  }

  lemma RightOne(a: Tree, m: nat)
    requires Right(a, m)
    ensures AllRight(Only(a), m)
  {
    hide Right; hide AllRight;
    NoneRight();
    RightCons(a, [], m, 0);
  }

  lemma RightTwo(a: Tree, b: Tree, m: nat, n: nat)
    requires Right(a, m) && Right(b, n)
    ensures AllRight(Both(a, b), m + n)
  {
    hide Right; hide AllRight;
    NoneRight();
    RightCons(b, [], n, 0);
    RightCons(a, [b] + [], m, n);
  }

  lemma RightAttribute(id: U16, value: Tree, rest: seq<Tree>, m: nat, n: nat)
    requires Right(value, m) && AllRight(rest, n)
    ensures AllRight(Attribute(id, value, rest), 3 + m + n)
  {
    hide Right; hide AllRight;
    SmallPowers();
    RightNumber(2, id);
    RightCons(value, rest, m, n);
    RightCons(Number(2, id), [value] + rest, 3, m + n);
  }

  lemma RightProtocols()
    ensures Right(Protocols(), 17)
  {
    hide Right; hide AllRight;
    RightId(0x0100);
    RightOne(Id(0x0100), 3);
    RightList(3, 0, Only(Id(0x0100)));
    RightId(0x0003);
    RightDummy();
    RightTwo(Id(0x0003), Dummy(0x0801), 3, 2);
    RightList(5, 0, Both(Id(0x0003), Dummy(0x0801)));
    RightTwo(List(3, 0, Only(Id(0x0100))), List(5, 0, Both(Id(0x0003), Dummy(0x0801))), 6, 8);
    RightList(14, 1, Both(List(3, 0, Only(Id(0x0100))), List(5, 0, Both(Id(0x0003), Dummy(0x0801)))));
  }

  lemma RightLanguages()
    ensures Right(Languages(), 12)
  {
    hide Right; hide AllRight;
    SmallPowers();
    RightNumber(2, 0x656e);
    RightNumber(2, 0x006a);
    RightNumber(2, 0x0100);
    RightTwo(Number(2, 0x006a), Number(2, 0x0100), 3, 3);
    RightCons(Number(2, 0x656e), Both(Number(2, 0x006a), Number(2, 0x0100)), 3, 6);
    RightList(9, 0, [Number(2, 0x656e)] + Both(Number(2, 0x006a), Number(2, 0x0100)));
  }

  lemma RightProfiles()
    ensures Right(Profiles(), 12)
  {
    hide Right; hide AllRight;
    SmallPowers();
    RightId(0x1101);
    RightNumber(2, 0x1102);
    RightTwo(Id(0x1101), Number(2, 0x1102), 3, 3);
    RightList(6, 0, Both(Id(0x1101), Number(2, 0x1102)));
    RightOne(List(6, 0, Both(Id(0x1101), Number(2, 0x1102))), 9);
    RightList(9, 0, Only(List(6, 0, Both(Id(0x1101), Number(2, 0x1102)))));
  }

  lemma RightSingle(id: U16, note: U32)
    ensures Right(List(3, note, Only(Id(id))), 6)
  {
    hide Right; hide AllRight;
    RightId(id);
    RightOne(Id(id), 3);
    RightList(3, note, Only(Id(id)));
  }

  lemma RightLater()
    ensures AllRight(LaterAttributes(), 55)
  {
    hide Right; hide AllRight; hide Attribute; hide Languages; hide Profiles; hide List; hide Name; hide Only;
    NoneRight();
    RightName(SERVICE_NAME);
    RightAttribute(0x0100, Name(SERVICE_NAME), [], 13, 0);
    var named := Attribute(0x0100, Name(SERVICE_NAME), []);
    RightProfiles();
    RightAttribute(9, Profiles(), named, 12, 16);
    RightLanguages();
    RightAttribute(6, Languages(), Attribute(9, Profiles(), named), 12, 31);
    RightSingle(0x1002, 0);
    RightAttribute(5, List(3, 0, Only(Id(0x1002))), Attribute(6, Languages(), Attribute(9, Profiles(), named)), 6, 46);
  }

  /** The record has the declared sizes it should have: all 98 bytes of it. */
  lemma RecordIsRight()
    ensures Right(ServiceRecord(), 98)
  {
    hide Right; hide AllRight; hide Attribute; hide Protocols; hide LaterAttributes; hide Only; hide List;
    hide Number; hide Id;
    RightLater();
    RightProtocols();
    var fourth := Attribute(4, Protocols(), LaterAttributes());
    RightAttribute(4, Protocols(), LaterAttributes(), 17, 55);
    RightSingle(0x1101, 1);
    var first := Attribute(1, List(3, 1, Only(Id(0x1101))), fourth);
    RightAttribute(1, List(3, 1, Only(Id(0x1101))), fourth, 6, 75);
    SmallPowers();
    RightNumber(4, 0x0001_0001);
    RightAttribute(0, Number(4, 0x0001_0001), first, 5, 84);
    RightList(92, 0, Attributes());
    RightOne(List(92, 0, Attributes()), 95);
    RightList(95, 0, Only(List(92, 0, Attributes())));
  }

  /** Wherever the printed record lies, the standard reads it as the record that
    * was meant, with the two dummy bytes as a number. */
  lemma RecordDecodes(before: seq<U8>, after: seq<U8>)
    ensures |Code(ServiceRecord())| == 98
    ensures var data := before + Code(ServiceRecord()) + after;
            Decode(data, |before|, |data|) == Some(LayoutOf(MeantTree(ServiceRecord()), |before|))
    ensures MeantTree(Dummy(0x0801)) == Number(1, 1)
  {
    hide Decode; hide LayoutOf; hide Code; hide WellSized; hide MeantTree; hide ServiceRecord;
    RecordIsRight();
    RightDummy();
    var data := before + Code(ServiceRecord()) + after;
    assert At(data, |before|, Code(ServiceRecord()));
    hide At;
    DecodePrintedMeaning(data, ServiceRecord(), |before|, |data|);
  }

  // ----- the record, byte by byte ------------------------------------------------------

  lemma IdBytes(value: U16)
    ensures Code(Id(value)) == [0x19, value / 0x100, value % 0x100]
  {
    hide EncodeFields;
    PrintedNumber(Id(value).fields);
  }

  lemma NumberBytes(value: U16)
    ensures Code(Number(2, value)) == [0x09, value / 0x100, value % 0x100]
  {
    hide EncodeFields;
    PrintedNumber(Number(2, value).fields);
  }

  lemma ListBytes(size: U16, note: U32, kids: seq<Tree>)
    ensures Code(List(size, note, kids)) == [0x36, size / 0x100, size % 0x100] + CodeForest(kids)
  {
    hide EncodeFields;
    PrintedOther(List(size, note, kids).fields);
  }

  lemma OnlyBytes(a: Tree)
    ensures CodeForest(Only(a)) == Code(a)
  {
    hide Code;
    assert Only(a) == [a] && [a][1..] == [];
    assert Code(a) + [] == Code(a);
  }

  lemma BothBytes(a: Tree, b: Tree)
    ensures CodeForest(Both(a, b)) == Code(a) + Code(b)
  {
    hide Code;
    OnlyBytes(b);
    assert Both(a, b)[1..] == Only(b);
  }

  lemma AttributeBytes(id: U16, value: Tree, rest: seq<Tree>)
    ensures CodeForest(Attribute(id, value, rest)) == [0x09, id / 0x100, id % 0x100] + Code(value) + CodeForest(rest)
  {
    hide Code; hide Number;
    NumberBytes(id);
    var behind := [value] + rest;
    assert behind[1..] == rest && Attribute(id, value, rest)[1..] == behind;
    assert CodeForest(behind) == Code(value) + CodeForest(rest);
  }

  lemma SingleBytes(note: U32, id: U16)
    ensures Code(List(3, note, Only(Id(id)))) == [0x36, 0, 3, 0x19, id / 0x100, id % 0x100]
  {
    hide Code; hide List; hide Only; hide Id;
    ListBytes(3, note, Only(Id(id)));
    OnlyBytes(Id(id));
    IdBytes(id);
  }

  lemma ProtocolBytes()
    ensures Code(Protocols()) == [0x36, 0, 14, 0x36, 0, 3, 0x19, 1, 0, 0x36, 0, 5, 0x19, 0, 3, 8, 1]
  {
    hide Code; hide List; hide Only; hide Id; hide Both; hide Dummy; hide CodeForest;
    var first, second := List(3, 0, Only(Id(0x0100))), List(5, 0, Both(Id(0x0003), Dummy(0x0801)));
    SingleBytes(0, 0x0100);
    ListBytes(5, 0, Both(Id(0x0003), Dummy(0x0801)));
    BothBytes(Id(0x0003), Dummy(0x0801));
    IdBytes(0x0003);
    DummyBytes();
    BothBytes(first, second);
    ListBytes(14, 1, Both(first, second));
  }

  lemma DummyBytes()
    ensures Code(Dummy(0x0801)) == [8, 1]
  {
    hide EncodeFields;
    PrintedOther(Dummy(0x0801).fields);
  }

  lemma LanguageBytes()
    ensures Code(Languages()) == [0x36, 0, 9, 9, 0x65, 0x6e, 9, 0, 0x6a, 9, 1, 0]
  {
    hide Code; hide List; hide Number; hide Both; hide CodeForest;
    var pair := Both(Number(2, 0x006a), Number(2, 0x0100));
    NumberBytes(0x656e);
    NumberBytes(0x006a);
    NumberBytes(0x0100);
    BothBytes(Number(2, 0x006a), Number(2, 0x0100));
    ConsBytes(Number(2, 0x656e), pair);
    ListBytes(9, 0, [Number(2, 0x656e)] + pair);
  }

  lemma ConsBytes(a: Tree, rest: seq<Tree>)
    ensures CodeForest([a] + rest) == Code(a) + CodeForest(rest)
  {
    hide Code;
    assert ([a] + rest)[1..] == rest;
  }

  lemma ProfileBytes()
    ensures Code(Profiles()) == [0x36, 0, 9, 0x36, 0, 6, 0x19, 0x11, 1, 9, 0x11, 2]
  {
    hide Code; hide List; hide Number; hide Both; hide Id; hide Only; hide CodeForest;
    var inner := List(6, 0, Both(Id(0x1101), Number(2, 0x1102)));
    IdBytes(0x1101);
    NumberBytes(0x1102);
    BothBytes(Id(0x1101), Number(2, 0x1102));
    ListBytes(6, 0, Both(Id(0x1101), Number(2, 0x1102)));
    OnlyBytes(inner);
    ListBytes(9, 0, Only(inner));
  }

  lemma NameBytes()
    ensures Code(Name(SERVICE_NAME)) == [0x25, 11, 'S' as int, 'P' as int, 'P' as int, ' ' as int, 'C' as int,
                                         'o' as int, 'u' as int, 'n' as int, 't' as int, 'e' as int, 'r' as int]
  {
    hide EncodeFields;
    PrintedOther(Name(SERVICE_NAME).fields);
  }

  /** One attribute, given the bytes of its number and its value. */
  lemma AttributeIs(id: U16, value: Tree, rest: seq<Tree>, b: seq<U8>)
    requires b == [0x09, id / 0x100, id % 0x100] + Code(value)
    ensures CodeForest(Attribute(id, value, rest)) == b + CodeForest(rest)
  {
    hide Code; hide CodeForest; hide Attribute;
    AttributeBytes(id, value, rest);
  }

  lemma LaterBytes()
    ensures CodeForest(LaterAttributes())
         == [9, 0, 5, 0x36, 0, 3, 0x19, 0x10, 2]
            + ([9, 0, 6, 0x36, 0, 9, 9, 0x65, 0x6e, 9, 0, 0x6a, 9, 1, 0]
               + ([9, 0, 9, 0x36, 0, 9, 0x36, 0, 6, 0x19, 0x11, 1, 9, 0x11, 2]
                  + [9, 1, 0, 0x25, 11, 0x53, 0x50, 0x50, 0x20, 0x43, 0x6f, 0x75, 0x6e, 0x74, 0x65, 0x72]))
  {
    hide Code; hide List; hide Name; hide Languages; hide Profiles; hide Id; hide Only; hide Attribute;
    hide CodeForest;
    LastBytes();
    SingleBytes(0, 0x1002);
    var last := Attribute(0x0100, Name(SERVICE_NAME), []);
    var profiles := Attribute(9, Profiles(), last);
    ProfileAttribute(last);
    LanguageAttribute(profiles);
    AttributeIs(5, List(3, 0, Only(Id(0x1002))), Attribute(6, Languages(), profiles),
        [9, 0, 5, 0x36, 0, 3, 0x19, 0x10, 2]);
  }

  lemma ProfileAttribute(rest: seq<Tree>)
    ensures CodeForest(Attribute(9, Profiles(), rest)) ==
            [9, 0, 9, 0x36, 0, 9, 0x36, 0, 6, 0x19, 0x11, 1, 9, 0x11, 2] + CodeForest(rest)
  {
    hide Code; hide Profiles; hide Attribute; hide CodeForest;
    ProfileBytes();
    AttributeIs(9, Profiles(), rest, [9, 0, 9, 0x36, 0, 9, 0x36, 0, 6, 0x19, 0x11, 1, 9, 0x11, 2]);
  }

  lemma LanguageAttribute(rest: seq<Tree>)
    ensures CodeForest(Attribute(6, Languages(), rest)) ==
            [9, 0, 6, 0x36, 0, 9, 9, 0x65, 0x6e, 9, 0, 0x6a, 9, 1, 0] + CodeForest(rest)
  {
    hide Code; hide Languages; hide Attribute; hide CodeForest;
    LanguageBytes();
    AttributeIs(6, Languages(), rest, [9, 0, 6, 0x36, 0, 9, 9, 0x65, 0x6e, 9, 0, 0x6a, 9, 1, 0]);
  }

  lemma LastBytes()
    ensures CodeForest(Attribute(0x0100, Name(SERVICE_NAME), [])) ==
            [9, 1, 0, 0x25, 11, 0x53, 0x50, 0x50, 0x20, 0x43, 0x6f, 0x75, 0x6e, 0x74, 0x65, 0x72]
  {
    hide Code; hide Name; hide Attribute; hide CodeForest;
    var b := [9, 1, 0, 0x25, 11, 0x53, 0x50, 0x50, 0x20, 0x43, 0x6f, 0x75, 0x6e, 0x74, 0x65, 0x72];
    NameBytes();
    AttributeIs(0x0100, Name(SERVICE_NAME), [], b);
    NoCode();
    assert b + [] == b;
  }

  lemma NoCode()
    ensures CodeForest([]) == []
  {
  }

  /** The service record on the wire. */
  lemma RecordBytes()
    ensures Code(ServiceRecord())
         == [0x36, 0, 95, 0x36, 0, 92]
            + ([9, 0, 0, 0x0A, 0, 1, 0, 1]
               + ([9, 0, 1, 0x36, 0, 3, 0x19, 0x11, 1]
                  + ([9, 0, 4, 0x36, 0, 14, 0x36, 0, 3, 0x19, 1, 0, 0x36, 0, 5, 0x19, 0, 3, 8, 1]
                     + ([9, 0, 5, 0x36, 0, 3, 0x19, 0x10, 2]
                        + ([9, 0, 6, 0x36, 0, 9, 9, 0x65, 0x6e, 9, 0, 0x6a, 9, 1, 0]
                           + ([9, 0, 9, 0x36, 0, 9, 0x36, 0, 6, 0x19, 0x11, 1, 9, 0x11, 2]
                              + [9, 1, 0, 0x25, 11,
                                 0x53, 0x50, 0x50, 0x20, 0x43, 0x6f, 0x75, 0x6e, 0x74, 0x65, 0x72]))))))
  {
    hide Code; hide List; hide Number; hide Protocols; hide Id; hide Only; hide Attribute; hide LaterAttributes;
    hide CodeForest;
    var later := LaterAttributes();
    LaterBytes();
    ProtocolBytes();
    SingleBytes(1, 0x1101);
    HandleBytes();
    var fourth := Attribute(4, Protocols(), later);
    var first := Attribute(1, List(3, 1, Only(Id(0x1101))), fourth);
    AttributeIs(4, Protocols(), later,
        [9, 0, 4, 0x36, 0, 14, 0x36, 0, 3, 0x19, 1, 0, 0x36, 0, 5, 0x19, 0, 3, 8, 1]);
    AttributeIs(1, List(3, 1, Only(Id(0x1101))), fourth, [9, 0, 1, 0x36, 0, 3, 0x19, 0x11, 1]);
    AttributeIs(0, Number(4, 0x0001_0001), first, [9, 0, 0, 0x0A, 0, 1, 0, 1]);
    FrameBytes(Attributes());
  }

  /** The two lists around the attributes. */
  lemma FrameBytes(attributes: seq<Tree>)
    ensures Code(List(95, 0, Only(List(92, 0, attributes)))) == [0x36, 0, 95, 0x36, 0, 92] + CodeForest(attributes)
  {
    hide Code; hide List; hide Only; hide CodeForest;
    ListBytes(92, 0, attributes);
    OnlyBytes(List(92, 0, attributes));
    ListBytes(95, 0, Only(List(92, 0, attributes)));
  }

  lemma HandleBytes()
    ensures Code(Number(4, 0x0001_0001)) == [0x0A, 0, 1, 0, 1]
  {
    hide EncodeFields;
    PrintedNumber(Number(4, 0x0001_0001).fields);
  }

  // ----- the stack's own parser on it -------------------------------------------

  lemma {:induction false} MeantAt(ts: seq<Tree>, i: nat)
    requires i < |ts|
    ensures MeantForest(ts)[i] == MeantTree(ts[i])
    decreases i
  {
    hide MeantTree;
    if i == 0 {
    } else {
      MeantAt(ts[1..], i - 1);
    }
  }

  lemma {:induction false} OneFails(ls: seq<Layout>, i: nat, atRoot: bool, header: nat, origin: nat)
    requires i < |ls| && !Recoverable(ls[i], origin)
    ensures !RecoverableKids(ls, atRoot, header, origin)
    decreases i
  {
    hide Recoverable;
    if i == 0 {
    } else {
      OneFails(ls[1..], i - 1, atRoot, header, origin);
    }
  }

  /** A list whose elements take no more bytes than its header is left too early. */
  lemma ShortListFails(size: U16, note: U32, kids: seq<Tree>, pos: nat)
    requires kids != [] && size <= 3
    ensures !Recoverable(LayoutOf(MeantTree(List(size, note, kids)), pos), 0)
  {
    hide RecoverableKids; hide BigEndian; hide MeantTree;
    var t := MeantTree(List(size, note, kids));
    assert t == Node(Fields(0, Sequence, size, 0, 0, []), MeantForest(kids)) by { MeantList(size, note, kids); }
  }

  lemma MeantList(size: U16, note: U32, kids: seq<Tree>)
    ensures MeantTree(List(size, note, kids)) == Node(Fields(0, Sequence, size, 0, 0, []), MeantForest(kids))
  {
  }

  /** A list fails with any of its elements. */
  lemma ListFails(size: U16, note: U32, kids: seq<Tree>, i: nat, pos: nat)
    requires i < |kids| && forall p :: !Recoverable(LayoutOf(MeantTree(kids[i]), p), 0)
    ensures var l := LayoutOf(MeantTree(List(size, note, kids)), pos); !Recoverable(l, 0) && !RecoverableRoot(l, 0)
  {
    hide RecoverableKids; hide BigEndian; hide MeantTree;
    MeantList(size, note, kids);
    var l := LayoutOf(MeantTree(List(size, note, kids)), pos);
    MeantAt(kids, i);
    var p := LayoutAt(MeantForest(kids), pos + 3, i);
    assert l.kids == LayoutsOf(MeantForest(kids), pos + 3);
    OneFails(l.kids, i, false, l.token.length, 0);
    OneFails(l.kids, i, true, l.token.length, 0);
  }

  lemma AttributeValue()
    ensures |Attributes()| > 3 && Attributes()[3] == List(3, 1, Only(Id(0x1101)))
  {
    hide List; hide Number; hide Id; hide Protocols; hide LaterAttributes; hide Only;
  }

  /** Its own parser reads all of the response, but does not rebuild the record:
    * lists of one UUID, such as the service class list, are left too early. */
  lemma RecordNotRebuilt(after: seq<U8>)
    ensures var data, l := Code(ServiceRecord()) + after, LayoutOf(MeantTree(ServiceRecord()), 0);
            Scan(data, 0) == Scanned(Tokens(l), 98) && BuildTree(Tokens(l), 0) != TreeOf(l)
  {
    hide Decode; hide LayoutOf; hide Code; hide WellSized; hide MeantTree; hide Recoverable; hide RecoverableRoot;
    hide Scan; hide BuildTree; hide Tokens; hide TreeOf; hide List; hide Only; hide Attributes; hide Length;
    var data := Code(ServiceRecord()) + after;
    assert At(data, 0, Code(ServiceRecord()));
    hide At;
    var record := MeantTree(ServiceRecord());
    RecordIsRight();
    MeantCode(ServiceRecord());
    assert At(data, 0, Code(record)) && |Code(record)| == 98;
    PrintThenParse(data, record, 0);
    AttributeValue();
    OneKid();
    var value := List(3, 1, Only(Id(0x1101)));
    forall p ensures !Recoverable(LayoutOf(MeantTree(value), p), 0) {
      ShortListFails(3, 1, Only(Id(0x1101)), p);
    }
    forall p ensures !Recoverable(LayoutOf(MeantTree(List(92, 0, Attributes())), p), 0) {
      ListFails(92, 0, Attributes(), 3, p);
    }
    ListFails(95, 0, Only(List(92, 0, Attributes())), 0, 0);
  }

  lemma OneKid()
    ensures forall t: Tree :: |Only(t)| == 1 && Only(t)[0] == t
  {
  }

  // ----- a part that does not survive -------

  /** The service class id list of the response record: a sequence that holds
    * one 2-byte UUID, here as the only child of a root. */
  function ServiceClassList(uuid: U16): Tree
  {
    Node(Fields(0, Sequence, 6, 0, 0, []),
         [Node(Fields(0, Sequence, 3, 0, 0, []),
               [Node(Fields(0, Uuid, 2, 0, uuid, []), [])])])
  }

  lemma ServiceClassListShape(uuid: U16)
    ensures var t := ServiceClassList(uuid);
            && WellSized(t) && |Code(t)| == 9
            && Tokens(LayoutOf(t, 0)) == [Token(t.fields, 3), Token(t.kids[0].fields.(start := 3), 3),
                                          Token(t.kids[0].kids[0].fields.(start := 6), 3)]
  {
    hide BigEndian;
    var t := ServiceClassList(uuid);
    var inner := t.kids[0];
    var leaf := inner.kids[0];
    SmallPowers();
    assert Faithful(leaf.fields) && leaf.kids == [] && WellSizedForest(leaf.kids);
    assert inner.kids[1..] == [] && t.kids[1..] == [];
    assert |Code(leaf)| == 3 && WellSized(leaf);
    assert CodeForest(inner.kids) == Code(leaf) + CodeForest([]);
    assert WellSizedForest(inner.kids) && WellSized(inner) && |Code(inner)| == 6;
    assert CodeForest(t.kids) == Code(inner) + CodeForest([]);
    assert WellSizedForest(t.kids);
    assert LayoutsOf(leaf.kids, 9) == [];
    assert LayoutsOf(inner.kids, 6) == [LayoutOf(leaf, 6)];
    assert LayoutsOf(t.kids, 3) == [LayoutOf(inner, 3)];
    assert LayoutOf(inner, 3) == Span(Token(inner.fields.(start := 3), 3), [LayoutOf(leaf, 6)]);
    assert LayoutOf(t, 0) == Span(Token(t.fields, 3), [LayoutOf(inner, 3)]);
    assert Tokens(LayoutOf(leaf, 6)) == [Token(leaf.fields.(start := 6), 3)];
    assert TokensForest([LayoutOf(leaf, 6)][1..]) == [] && TokensForest([LayoutOf(inner, 3)][1..]) == [];
    assert TokensForest([LayoutOf(leaf, 6)]) == Tokens(LayoutOf(leaf, 6)) + [];
    assert TokensForest([LayoutOf(inner, 3)]) == Tokens(LayoutOf(inner, 3)) + [];
  }

  /** The round trip fails on it: printed at index 0 and parsed again, the UUID
    * ends up beside the inner sequence instead of inside it. */
  lemma ServiceClassListMisnested(data: seq<U8>, uuid: U16)
    requires At(data, 0, Code(ServiceClassList(uuid)))
    ensures var t, r := ServiceClassList(uuid), Scan(data, 0);
            && r.Scanned?
            && BuildTree(r.tokens, 0) ==
                 Node(t.fields, [Node(t.kids[0].fields.(start := 3), []),
                     Node(t.kids[0].kids[0].fields.(start := 6), [])])
  {
    var t := ServiceClassList(uuid);
    ServiceClassListShape(uuid);
    ParseShape(data, t);
    Misnest(Token(t.fields, 3), Token(t.kids[0].fields.(start := 3), 3),
        Token(t.kids[0].kids[0].fields.(start := 6), 3));
  }

  lemma ParseShape(data: seq<U8>, t: Tree)
    requires WellSized(t) && At(data, 0, Code(t)) && |Code(t)| <= 255
    ensures Scan(data, 0).Scanned? && Scan(data, 0).tokens == Tokens(LayoutOf(t, 0))
  {
    AtFits(data, 0, Code(t));
    hide Scan; hide BuildTree; hide Code; hide WellSized; hide LayoutOf; hide Tokens;
    PrintThenParse(data, t, 0);
  }

  /** A sequence of three bytes is left before its child is read. */
  lemma Misnest(root: Token, inner: Token, leaf: Token)
    requires root.fields.kind == inner.fields.kind == Sequence && leaf.fields.kind != Sequence
    requires inner.fields.start == 3 && inner.length == 3 && inner.fields.size == 3
    ensures BuildTree([root, inner, leaf], 0) == Node(root.fields, [Node(inner.fields, []), Node(leaf.fields, [])])
  {
    var s0 := [Frame(root.fields, [])];
    var s1 := [Frame(root.fields, [Node(inner.fields, [])])];
    var s2 := [Frame(root.fields, [Node(inner.fields, []), Node(leaf.fields, [])])];
    assert Enter(s0, inner) == [Frame(root.fields, []), Frame(inner.fields, [])];
    assert [] + [Node(inner.fields, [])] == [Node(inner.fields, [])];
    assert Enter(s0, inner)[..1] == s0;
    assert StepStack(s0, inner, 0) == s1;
    assert [Node(inner.fields, [])] + [Node(leaf.fields, [])] == s2[0].kids;
    assert StepStack(s1, leaf, 0) == s2;
    assert [root, inner, leaf][1..] == [inner, leaf] && [inner, leaf][1..] == [leaf] && [leaf][1..] == [];
    assert RunStack(s2, [], 0) == s2;
    assert RunStack(s1, [leaf], 0) == s2;
    assert RunStack(s0, [inner, leaf], 0) == s2;
  }
}
