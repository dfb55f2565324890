/** The ServiceSearchAttribute request: transaction id, parameter length, service
  * search pattern, maximum byte count and attribute id list, in this order. */
module SdpRequest {
  import opened Bytes
  import opened Options
  import opened SdpElement
  import opened SdpScan
  import opened SdpLayout
  import opened SdpReference
  import opened SdpParser

  datatype RequestResult =
    | Answered(index: nat, transactionId: U16, requestedUuid: U16)
    | RequestThrew
    | RequestOutOfRange

  /** What reading the parameters at index comes to: two elements are scanned, and
    * the service asked for is the UUID of the second token, whatever it is. */
  function Requested(data: seq<U8>, index: nat): RequestResult
  {
    if index + 4 > Limit(data) then RequestOutOfRange
    else match Scan(data, index + 4)
      case Threw => RequestThrew
      case OutOfRange => RequestOutOfRange
      case Scanned(pattern, end) =>
        if |pattern| == 1 then RequestThrew
        else if end + 2 > Limit(data) then RequestOutOfRange
        else match Scan(data, end + 2)
          case Threw => RequestThrew
          case OutOfRange => RequestOutOfRange
          case Scanned(list, end') =>
            Answered(end' % 256, Pair(data[index], data[index + 1]), pattern[1].fields.uuidValue)
  }

  /** Reads the parameters of a request: both elements are parsed into trees, and
    * the service asked for is the UUID of the first child of the pattern. */
  method ServiceSearchAttributeRequest(data: seq<U8>, index: nat) returns (r: RequestResult)
    ensures r == Requested(data, index)
  {
    hide ReadToken; hide Scan; hide BuildTree; hide Models;
    var idx := index;
    if idx + 4 > Limit(data) {
      return RequestOutOfRange;
    }
    var transactionId := Pair(data[idx], data[idx + 1]);
    idx := idx + 4;
    var pattern := new DataElement();
    var parsed, nodes := Deserialize(data, idx, pattern);
    match parsed {
      case ParseThrew => return RequestThrew;
      case ParseOutOfRange => return RequestOutOfRange;
      case Parsed(n) => idx := idx + n;
    }
    FirstChild(Scan(data, index + 4).tokens, index + 4);
    RootChildren(pattern, BuildTree(Scan(data, index + 4).tokens, index + 4), nodes);
    if |pattern.children| == 0 {
      return RequestThrew;
    }
    var requestedUuid := pattern.children[0].uuidValue;
    if idx + 2 > Limit(data) {
      return RequestOutOfRange;
    }
    idx := idx + 2;
    var list := new DataElement();
    parsed, nodes := Deserialize(data, idx, list);
    match parsed {
      case ParseThrew => return RequestThrew;
      case ParseOutOfRange => return RequestOutOfRange;
      case Parsed(n) => idx := idx + n;
    }
    return Answered(idx % 256, transactionId, requestedUuid);
  }

  lemma RootChildren(root: DataElement, t: Tree, nodes: set<DataElement>)
    requires Models(root, t, nodes)
    ensures |root.children| == |t.kids|
    ensures t.kids != [] ==> root.children[0].Own() == t.kids[0].fields
  {
    if t.kids != [] {
      assert Models(root.children[0], t.kids[0], nodes);
    }
  }

  /** Wherever later elements are attached, the second token of a scan is the
    * first child of the root. */
  lemma FirstChild(ts: seq<Token>, origin: nat)
    requires ts != []
    ensures var t := BuildTree(ts, origin);
            && (t.kids == [] <==> |ts| == 1)
            && (|ts| > 1 ==> t.kids[0].fields == ts[1].fields)
  {
    hide BuildTree;
    var t := BuildTree(ts, origin);
    var items := Flatten(t, 0);
    BuildTreeFlattens(ts, origin);
    assert FlattenForest(t.kids, 1) == items[1..];
  }

  /** A request as section 4.7.1 lays it out: the two data elements are what the
    * reference decoder reads, the pattern is a sequence whose first element is a
    * UUID. It is answered with that UUID, the transaction id it carries and the
    * index behind the attribute list, even where the parser nests them wrongly. */
  lemma ConformingRequest(data: seq<U8>, index: nat, pattern: Layout, list: Layout)
    requires index + 4 <= Limit(data)
    requires Decode(data, index + 4, Limit(data)) == Some(pattern) && IsSequence(pattern)
    requires pattern.kids != [] && pattern.kids[0].token.fields.kind == Uuid
    requires var next := index + 4 + Length(pattern) + 2;
             next <= Limit(data) && Decode(data, next, Limit(data)) == Some(list)
    ensures var next := index + 4 + Length(pattern) + 2;
            Requested(data, index) ==
              Answered((next + Length(list)) % 256, data[index] as int * 0x100 + data[index + 1],
                  pattern.kids[0].token.fields.uuidValue)
  {
    hide Decode; hide Scan; hide BuildTree; hide Tokens; hide Length; hide Sized; hide Legible; hide RecoverableRoot;
    hide TreeOf;
    var next := index + 4 + Length(pattern) + 2;
    DecodeReads(data, index + 4, Limit(data));
    DecodeReads(data, next, Limit(data));
    ParserAgainstStandard(data, index + 4, Limit(data));
    ParserAgainstStandard(data, next, Limit(data));
    SecondToken(pattern);
  }

  lemma SecondToken(l: Layout)
    requires l.kids != []
    ensures |Tokens(l)| > 1 && Tokens(l)[1] == l.kids[0].token
  {
    assert Tokens(l)[1..] == TokensForest(l.kids);
    assert TokensForest(l.kids)[0] == Tokens(l.kids[0])[0];
  }

  /** A pattern without elements has no first child, and asking for it throws. */
  lemma EmptyPattern(data: seq<U8>, index: nat)
    requires index + 6 <= Limit(data) && data[index + 4] == 0x35 && data[index + 5] == 0
    ensures Requested(data, index) == RequestThrew
  {
    var pos := index + 4;
    SizeMeans(data[pos..pos + 2]);
    assert ReadToken(data, pos) == Item(Token(FieldsOf(pos, Sequence, 0, []), 2));
    assert ScanFrom(data, pos + 2, pos + 2) == Scanned([], pos + 2);
    assert Scan(data, pos) == Scanned([Token(FieldsOf(pos, Sequence, 0, []), 2)], pos + 2);
  }

  /** A request that ends inside its header, or right behind it, is read beyond its end. */
  lemma ShortRequest(data: seq<U8>, index: nat)
    requires |data| < index + 5
    ensures Requested(data, index) == RequestOutOfRange
  {
  }
}
