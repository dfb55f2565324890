/** Where the elements of a nested data element lie, and for which layouts the
  * parser nests the elements as the layout does. */
module SdpLayout {
  import opened Sequences
  import opened SdpElement
  import opened SdpScan

  /** An element, as it is read, with the elements inside it. */
  datatype Layout = Span(token: Token, kids: seq<Layout>)

  function TreeOf(l: Layout): (t: Tree)
    ensures t.fields == l.token.fields
    decreases l, 0
  {
    Node(l.token.fields, TreesOf(l.kids))
  }

  function TreesOf(ls: seq<Layout>): (ts: seq<Tree>)
    ensures |ts| == |ls|
    decreases ls, 1
  {
    if ls == [] then [] else [TreeOf(ls[0])] + TreesOf(ls[1..])
  }

  /** Bytes an element covers. */
  function Length(l: Layout): nat
    decreases l, 0
  {
    l.token.length + LengthForest(l.kids)
  }

  function LengthForest(ls: seq<Layout>): nat
    decreases ls, 1
  {
    if ls == [] then 0 else Length(ls[0]) + LengthForest(ls[1..])
  }

  predicate IsSequence(l: Layout)
  {
    l.token.fields.kind == Sequence
  }

  /** The elements lie one behind the other from pos on, at least two bytes
    * each, and a sequence declares exactly the bytes of its children. */
  predicate Sized(l: Layout, pos: nat)
    decreases l, 0
  {
    && l.token.fields.start == pos && l.token.length >= 2
    && (if IsSequence(l) then l.token.fields.size == LengthForest(l.kids) else l.kids == [])
    && SizedForest(l.kids, pos + l.token.length)
  }

  predicate SizedForest(ls: seq<Layout>, pos: nat)
    decreases ls, 1
  {
    ls == [] || (Sized(ls[0], pos) && SizedForest(ls[1..], pos + Length(ls[0])))
  }

  /** The elements in the order in which they lie. */
  function Tokens(l: Layout): (ts: seq<Token>)
    ensures ts != [] && ts[0] == l.token
    decreases l, 0
  {
    [l.token] + TokensForest(l.kids)
  }

  function TokensForest(ls: seq<Layout>): (ts: seq<Token>)
    ensures ls == [] <==> ts == []
    decreases ls, 1
  {
    if ls == [] then [] else Tokens(ls[0]) + TokensForest(ls[1..])
  }

  lemma {:induction false} TreeCount(l: Layout, depth: nat)
    ensures |Tokens(l)| == |Flatten(TreeOf(l), depth)|
    decreases l, 0
  {
    ForestCount(l.kids, depth + 1);
  }

  lemma {:induction false} ForestCount(ls: seq<Layout>, depth: nat)
    ensures |TokensForest(ls)| == |FlattenForest(TreesOf(ls), depth)|
    decreases ls, 1
  {
    if ls == [] {
    } else {
      TreeCount(ls[0], depth);
      ForestCount(ls[1..], depth);
      assert TreesOf(ls)[1..] == TreesOf(ls[1..]);
    }
  }

  // ----- which layouts the parser follows ----------------------------------

  /** Whether the parser is back on the parent once it has read all of the inner
    * sequence l: the end test counts from origin, and goes up one level only. */
  predicate Closes(l: Layout, origin: nat)
  {
    origin <= l.token.length && (l.kids == [] || !IsSequence(l.kids[|l.kids| - 1]))
  }

  /** No inner sequence of l is left too early or too late. The end test forgets
    * the header, so it fires as soon as the bytes to come, plus origin, are no
    * more than the header of the sequence; it is made after the header and after
    * every leaf. */
  predicate Recoverable(l: Layout, origin: nat)
    decreases l, 0
  {
    IsSequence(l) ==>
      && (l.kids != [] ==> l.token.fields.size + origin > l.token.length)
      && RecoverableKids(l.kids, false, l.token.length, origin)
  }

  predicate RecoverableKids(ls: seq<Layout>, atRoot: bool, header: nat, origin: nat)
    decreases ls, 1
  {
    ls == [] || (
      && Recoverable(ls[0], origin)
      && (|ls| > 1 ==>
            if IsSequence(ls[0]) then Closes(ls[0], origin)
            else atRoot || LengthForest(ls[1..]) + origin > header)
      && RecoverableKids(ls[1..], atRoot, header, origin))
  }

  /** As above for the root, which is never left. */
  predicate RecoverableRoot(l: Layout, origin: nat)
  {
    RecoverableKids(l.kids, true, l.token.length, origin)
  }

  /** The path after a leaf that ends at pos. */
  function AfterLeaf(path: Path, pos: nat, origin: nat): Path
  {
    if |path| > 1 && Ended(path[|path| - 1], pos, origin) then path[..|path| - 1] else path
  }

  /** The path q the parser has reached after all of l, a child of the innermost
    * element of path, when nothing in l was nested wrongly. */
  predicate LeftAt(l: Layout, path: Path, q: Path, end: nat, origin: nat)
  {
    if !IsSequence(l) then q == AfterLeaf(path, end, origin)
    else if Closes(l, origin) then q == path
    else |q| > |path|
  }

  lemma PlaceLeaf(l: Layout, path: Path, pos: nat, origin: nat)
    requires Sized(l, pos) && !IsSequence(l)
    ensures Place(path, Tokens(l), origin) == Flatten(TreeOf(l), |path|)
    ensures RunPath(path, Tokens(l), origin) == AfterLeaf(path, pos + Length(l), origin)
  {
    assert Tokens(l) == [l.token] && Tokens(l)[1..] == [];
    assert Length(l) == l.token.length;
    assert Flatten(TreeOf(l), |path|) == [Placed(l.token.fields, |path|)];
  }

  /** A sequence header: with no more bytes to come than the header had, less
    * origin, the parser is back on the parent at once. */
  lemma EnterPath(t: Token, path: Path, origin: nat)
    requires t.fields.kind == Sequence && origin <= t.fields.start
    ensures StepPath(path, t, origin) == if t.fields.size + origin <= t.length then path else path + [t.fields]
  {
    assert (path + [t.fields])[..|path|] == path;
  }

  /** A sequence is placed rightly exactly when its children are, below it. */
  lemma PlaceSequence(l: Layout, path: Path, origin: nat)
    requires IsSequence(l) && origin <= l.token.fields.start
    ensures var f := l.token.fields; var next := if f.size + origin <= l.token.length then path else path + [f];
            && (Place(path, Tokens(l), origin) == Flatten(TreeOf(l), |path|)
                <==> Place(next, TokensForest(l.kids), origin) == FlattenForest(TreesOf(l.kids), |path| + 1))
            && RunPath(path, Tokens(l), origin) == RunPath(next, TokensForest(l.kids), origin)
  {
    EnterPath(l.token, path, origin);
    var next := StepPath(path, l.token, origin);
    assert Tokens(l)[1..] == TokensForest(l.kids);
    EqualParts([Placed(l.token.fields, |path|)], Place(next, TokensForest(l.kids), origin),
               [Placed(l.token.fields, |path|)], FlattenForest(TreesOf(l.kids), |path| + 1));
  }

  lemma PlaceCons(l: Layout, rest: seq<Layout>, path: Path, origin: nat)
    ensures var ls, q := [l] + rest, RunPath(path, Tokens(l), origin);
            && (Place(path, TokensForest(ls), origin) == FlattenForest(TreesOf(ls), |path|)
                <==> (Place(path, Tokens(l), origin) == Flatten(TreeOf(l), |path|)
                      && Place(q, TokensForest(rest), origin) == FlattenForest(TreesOf(rest), |path|)))
            && RunPath(path, TokensForest(ls), origin) == RunPath(q, TokensForest(rest), origin)
  {
    var ls, q := [l] + rest, RunPath(path, Tokens(l), origin);
    assert ls[1..] == rest;
    assert TreesOf(ls)[1..] == TreesOf(rest);
    TreeCount(l, |path|);
    PlaceConcat(path, Tokens(l), TokensForest(rest), origin);
    EqualParts(Place(path, Tokens(l), origin), Place(q, TokensForest(rest), origin),
               Flatten(TreeOf(l), |path|), FlattenForest(TreesOf(rest), |path|));
  }

  lemma PlaceAtWrongDepth(ls: seq<Layout>, depth: nat, q: Path, origin: nat)
    requires ls != [] && |q| != depth
    ensures Place(q, TokensForest(ls), origin) != FlattenForest(TreesOf(ls), depth)
  {
    assert Place(q, TokensForest(ls), origin)[0].depth == |q|;
  }

  lemma PlaceNothing(path: Path, depth: nat, origin: nat)
    ensures TokensForest([]) == [] && FlattenForest(TreesOf([]), depth) == [] && LengthForest([]) == 0
    ensures Place(path, [], origin) == [] && RunPath(path, [], origin) == path
    ensures forall h :: RecoverableKids([], false, h, origin)
  {
  }

  lemma {:induction false} PlaceTree(l: Layout, path: Path, pos: nat, origin: nat)
    requires Sized(l, pos) && origin <= pos
    ensures Recoverable(l, origin) <==> Place(path, Tokens(l), origin) == Flatten(TreeOf(l), |path|)
    ensures Recoverable(l, origin) ==> LeftAt(l, path, RunPath(path, Tokens(l), origin), pos + Length(l), origin)
    decreases l, 0
  {
    hide Place; hide RunPath; hide StepPath;
    hide Flatten; hide FlattenForest; hide TreeOf; hide TreesOf; hide Tokens; hide TokensForest;
    hide SizedForest; hide RecoverableKids;
    if !IsSequence(l) {
      PlaceLeaf(l, path, pos, origin);
    } else {
      var f, header := l.token.fields, l.token.length;
      var inner := path + [f];
      PlaceSequence(l, path, origin);
      PlaceNothing(path, |inner|, origin);
      PlaceNothing(inner, |inner|, origin);
      if f.size + origin <= header {
        if l.kids != [] {
          PlaceAtWrongDepth(l.kids, |inner|, path, origin);
        }
      } else {
        PlaceForest(l.kids, inner, pos + header, header, origin);
        assert inner[..|path|] == path;
      }
    }
  }

  lemma {:induction false} PlaceForest(ls: seq<Layout>, path: Path, pos: nat, header: nat, origin: nat)
    requires SizedForest(ls, pos) && origin <= pos
    requires |path| > 1 ==>
               var top := path[|path| - 1]; top.start + header + top.size == pos + LengthForest(ls)
    ensures RecoverableKids(ls, |path| == 1, header, origin)
       <==> Place(path, TokensForest(ls), origin) == FlattenForest(TreesOf(ls), |path|)
    ensures ls != [] && RecoverableKids(ls, |path| == 1, header, origin) ==>
              LeftAt(ls[|ls| - 1], path, RunPath(path, TokensForest(ls), origin), pos + LengthForest(ls), origin)
    decreases ls, 1
  {
    hide Place; hide RunPath;
    hide Flatten; hide FlattenForest; hide TreeOf; hide TreesOf; hide Tokens; hide TokensForest;
    hide Sized; hide Recoverable;
    PlaceNothing(path, |path|, origin);
    if ls == [] {
    } else {
      var l, rest := ls[0], ls[1..];
      var q := RunPath(path, Tokens(l), origin);
      assert ls == [l] + rest;
      PlaceTree(l, path, pos, origin);
      PlaceCons(l, rest, path, origin);
      PlaceNothing(q, |path|, origin);
      if rest != [] {
        assert ls[|ls| - 1] == rest[|rest| - 1];
        if |q| != |path| {
          PlaceAtWrongDepth(rest, |path|, q, origin);
        } else {
          PlaceForest(rest, path, pos + Length(l), header, origin);
        }
      }
    }
  }

  /** The nesting theorem: at any depth and for any start index, the parser
    * nests the elements of a layout as the layout does exactly when the layout
    * is recoverable. */
  lemma NestsAs(l: Layout, origin: nat)
    requires Sized(l, origin)
    ensures BuildTree(Tokens(l), origin) == TreeOf(l) <==> RecoverableRoot(l, origin)
  {
    hide Place; hide BuildTree; hide Sized; hide SizedForest; hide TokensForest; hide RecoverableKids;
    assert SizedForest(l.kids, origin + l.token.length) by { SizedKids(l, origin); }
    var f, ts := l.token.fields, Tokens(l);
    assert ts[1..] == TokensForest(l.kids);
    BuildTreeFlattens(ts, origin);
    PlaceForest(l.kids, [f], origin + l.token.length, l.token.length, origin);
    EqualParts([Placed(f, 0)], Place([f], ts[1..], origin), [Placed(f, 0)], FlattenForest(TreesOf(l.kids), 1));
    if Flatten(BuildTree(ts, origin), 0) == Flatten(TreeOf(l), 0) {
      FlattenInjective(BuildTree(ts, origin), TreeOf(l), 0);
    }
  }

  lemma SizedKids(l: Layout, pos: nat)
    requires Sized(l, pos)
    ensures SizedForest(l.kids, pos + l.token.length)
  {
  }

  // ----- two levels ----------------------------------------------------------

  predicate AllLeaves(ls: seq<Layout>)
  {
    forall i :: 0 <= i < |ls| ==> !IsSequence(ls[i])
  }

  /** Every child is a leaf or a sequence of leaves. */
  predicate TwoLevels(ls: seq<Layout>)
  {
    forall i :: 0 <= i < |ls| ==> IsSequence(ls[i]) ==> AllLeaves(ls[i].kids)
  }

  /** A non-empty sequence whose last element is longer than its own header. */
  predicate EndsLong(l: Layout)
  {
    l.kids != [] ==> Length(l.kids[|l.kids| - 1]) > l.token.length
  }

  /** Of leaves alone, only the last one decides at start index 0. */
  lemma {:induction false} LeavesRecoverable(ls: seq<Layout>, header: nat)
    requires AllLeaves(ls) && ls != []
    ensures RecoverableKids(ls, false, header, 0) <==> |ls| == 1 || Length(ls[|ls| - 1]) > header
    ensures LengthForest(ls) >= Length(ls[|ls| - 1])
  {
    if |ls| > 1 {
      LeavesRecoverable(ls[1..], header);
      if |ls| == 2 {
        assert LengthForest(ls[1..]) == Length(ls[1]) + LengthForest(ls[1..][1..]);
      }
    } else {
      assert LengthForest(ls[1..]) == 0;
    }
  }

  lemma InnerRecoverable(l: Layout, pos: nat)
    requires Sized(l, pos) && IsSequence(l) && AllLeaves(l.kids)
    ensures Recoverable(l, 0) <==> EndsLong(l)
    ensures Closes(l, 0)
  {
    if l.kids != [] {
      LeavesRecoverable(l.kids, l.token.length);
      if |l.kids| == 1 {
        assert LengthForest(l.kids) == Length(l.kids[0]) + LengthForest(l.kids[1..]);
      }
    }
  }

  predicate AllEndLong(ls: seq<Layout>)
  {
    forall i :: 0 <= i < |ls| && IsSequence(ls[i]) ==> EndsLong(ls[i])
  }

  /** Two levels, parsed from index 0: a layout is nested rightly exactly when the
    * last element of every non-empty inner sequence is longer than the header of
    * that sequence. A sequence that holds one 2-byte UUID is not. */
  lemma {:induction false} TwoLevelsRecoverable(ls: seq<Layout>, header: nat, pos: nat)
    requires TwoLevels(ls) && SizedForest(ls, pos)
    ensures RecoverableKids(ls, true, header, 0)
       <==> AllEndLong(ls)
  {
    if ls == [] {
    } else {
      var l, rest := ls[0], ls[1..];
      TwoLevelsRecoverable(rest, header, pos + Length(l));
      assert forall i :: 0 <= i < |rest| ==> rest[i] == ls[i + 1];
      assert forall i :: 0 < i < |ls| ==> ls[i] == rest[i - 1];
      if IsSequence(l) {
        InnerRecoverable(l, pos);
      }
    }
  }
}
