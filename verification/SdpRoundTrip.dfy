/** Parser and printer in turn, on the heap: the objects the one builds are what the
  * other walks. */
module SdpRoundTrip {
  import opened Bytes
  import opened SdpElement
  import opened SdpScan
  import opened SdpEncoding
  import opened SdpParser
  import opened SdpPrinter

  datatype Reprint = NotParsed | Reprinted(result: PrintResult)

  /** Parses the element at start and prints it to the same place. Of an element in
    * the serializer's header form that ends inside the array every byte comes back,
    * and no other cell changes, however the parser nested its parts. */
  method ParseAndPrint(data: seq<U8>, start: nat, target: array<U8>) returns (r: Reprint)
    requires target.Length == BUFFER_SIZE
    modifies target
    ensures r == NotParsed <==> !Scan(data, start).Scanned?
    ensures r == NotParsed ==> target[..] == old(target[..])
    ensures Scan(data, start).Scanned? ==>
              var ts, end := Scan(data, start).tokens, Scan(data, start).end;
              && Consecutive(data, ts, start, end)
              && (AllCanonical(data, ts, start, end) && end <= BUFFER_SIZE ==>
                    && r == Reprinted(Returned((if ts[0].fields.kind == Sequence then end else end - start) % 0x100))
                    && target[..] == Overlay(old(target[..]), start, data[start..end]))
  {
    hide ReadToken; hide Scan; hide BuildTree; hide Models; hide Canonical; hide AllCanonical; hide PrintOrder;
    hide Code;
    hide Encodable; hide PrintAll; hide PrintOne; hide Overlay; hide NoneStraddles;
    var root := new DataElement();
    var parsed, nodes := Deserialize(data, start, root);
    if !parsed.Parsed? {
      return NotParsed;
    }
    ghost var ts := Scan(data, start).tokens;
    ghost var t := BuildTree(ts, start);
    ParseThenPrint(data, start, target[..]);
    RootFields(ts, start);
    var result := Serialize(target, root, start, t, nodes);
    return Reprinted(result);
  }

  lemma RootFields(ts: seq<Token>, origin: nat)
    requires ts != []
    ensures BuildTree(ts, origin).fields == ts[0].fields
  {
    hide BuildTree;
    BuildTreeFlattens(ts, origin);
  }
}
