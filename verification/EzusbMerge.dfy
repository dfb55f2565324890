/** Merging records does not change what an image means. */
module EzusbMerge {
  import opened Bytes
  import opened Options
  import opened Sequences
  import opened EzusbRam
  import opened EzusbText
  import opened EzusbHex

  /** A byte with the address it goes to. */
  datatype Tagged = Tagged(addr: nat, value: U8)

  function Tags(addr: nat, data: seq<U8>): (ts: seq<Tagged>)
    ensures |ts| == |data|
  {
    seq(|data|, i requires 0 <= i < |data| => Tagged(addr + i, data[i]))
  }

  function TagsOf(segs: seq<Segment>): seq<Tagged>
  {
    if segs == [] then [] else Tags(segs[0].addr, segs[0].data) + TagsOf(segs[1..])
  }

  lemma {:induction false} TagsOfConcat(a: seq<Segment>, b: seq<Segment>)
    ensures TagsOf(a + b) == TagsOf(a) + TagsOf(b)
  {
    if a == [] {
      assert a + b == b;
    } else {
      assert (a + b)[1..] == a[1..] + b;
      TagsOfConcat(a[1..], b);
      assert Tags(a[0].addr, a[0].data) + (TagsOf(a[1..]) + TagsOf(b)) == TagsOf(a) + TagsOf(b);
    }
  }

  lemma TagsCons(c: Segment, rest: seq<Segment>)
    ensures TagsOf([c] + rest) == Tags(c.addr, c.data) + TagsOf(rest)
  {
    hide Tags;
    assert ([c] + rest)[1..] == rest;
  }

  lemma TagsSplit(addr: nat, a: seq<U8>, b: seq<U8>)
    ensures Tags(addr, a + b) == Tags(addr, a) + Tags(addr + |a|, b)
  {
  }

  /** The data records of a file, each for itself, up to its end record. */
  function Records(lines: seq<Line>): seq<Segment>
  {
    if lines == [] then []
    else match lines[0]
      case Record(kind, off, data, _) =>
        if kind == 1 then [] else [Segment(off, data)] + Records(lines[1..])
      case _ => Records(lines[1..])
  }

  /** A line behind which reading goes on. */
  predicate Continues(l: Line)
  {
    l.Comment? || (l.Record? && l.kind == 0 && l.complete)
  }

  /** The first line that ends the reading decides how a file is accepted or
    * rejected; the end of the file, without an end record, is no error. */
  lemma {:induction false} FirstEndDecides(lines: seq<Line>, p: Pending, n: nat)
    requires n <= |lines| && (forall i :: 0 <= i < n ==> Continues(lines[i]))
    requires n < |lines| ==> !Continues(lines[n])
    ensures Merge(lines, p).code ==
              if n == |lines| then 0
              else match lines[n]
                case Record(kind, _, _, _) => if kind == 1 then 0 else if kind != 0 then -3 else -4
                case _ => -2
    decreases n
  {
    hide Take; hide Emitted; hide Cut;
    if n == 0 {
    } else {
      MergeLine(lines, p);
      assert Continues(lines[0]);
      assert forall i :: 0 <= i < n - 1 ==> lines[1..][i] == lines[i + 1];
      if lines[0].Comment? {
        FirstEndDecides(lines[1..], p, n - 1);
      } else {
        var l := lines[0];
        FirstEndDecides(lines[1..], Take(Seen(p, l.off), l.off, l.data), n - 1);
      }
    }
  }

  /** What the buffer holds after the first n lines. */
  function BufferAfter(lines: seq<Line>, p: Pending, n: nat): Pending
    requires n <= |lines|
    decreases n
  {
    if n == 0 then p
    else if !lines[0].Record? then BufferAfter(lines[1..], p, n - 1)
    else BufferAfter(lines[1..], Take(Seen(p, lines[0].off), lines[0].off, lines[0].data), n - 1)
  }

  /** A file that is rejected at line n: the lines before it, as a file of their own,
    * would be handed out in full; of that only what is in the buffer at line n is
    * missing. */
  lemma {:induction false} RejectedFile(lines: seq<Line>, p: Pending, n: nat)
    requires n < |lines| && forall i :: 0 <= i < n ==> Continues(lines[i])
    requires !Continues(lines[n]) && !(lines[n].Record? && lines[n].kind == 1)
    ensures Merge(lines[..n], p).segments == Merge(lines, p).segments + Cut(BufferAfter(lines, p, n))
    decreases n
  {
    hide Take; hide Emitted; hide Cut; hide Merge; hide Seen;
    MergeLine(lines, p);
    if n == 0 {
      MergeEnd(p);
      assert [] + Cut(p) == Cut(p);
    } else {
      var front, rest := lines[..n], lines[1..];
      MergeLine(front, p);
      assert front[1..] == rest[..n - 1] && front[0] == lines[0] && Continues(lines[0]);
      assert forall i :: 0 <= i < n - 1 ==> rest[i] == lines[i + 1];
      if lines[0].Comment? {
        RejectedFile(rest, p, n - 1);
      } else {
        var l := lines[0];
        var q := Seen(p, l.off);
        var q' := Take(q, l.off, l.data);
        RejectedFile(rest, q', n - 1);
        var e, m, last := Emitted(q, l.off, |l.data|), Merge(rest, q').segments, Cut(BufferAfter(rest, q', n - 1));
        assert e + (m + last) == e + m + last;
      }
    }
  }

  // ----- stale addresses ---------------------------------------------------------

  /** What the records so far say about the next one: an empty buffer whose
    * address is fixed already, or a buffer that ends at an address. */
  datatype Expect = Fresh | Fixed(addr: nat) | Ends(addr: nat)

  /** After a record of len bytes at off. */
  function After(x: Expect, off: nat, len: nat): Expect
  {
    if len > 0 then Ends(off + len)
    else match x
      case Fresh => Fixed(off)
      case Fixed(a) => Fixed(a)
      case Ends(a) => if off == a then Ends(a) else Fixed(off)
  }

  /** No record with data meets an empty buffer whose address an earlier record
    * has fixed elsewhere. Only a record without data can leave such a buffer. */
  predicate NoStale(lines: seq<Line>, x: Expect)
  {
    if lines == [] then true
    else match lines[0]
      case Record(kind, off, data, _) =>
        kind == 1 || (
          && (x.Fixed? && data != [] ==> off == x.addr)
          && NoStale(lines[1..], After(x, off, |data|)))
      case _ => NoStale(lines[1..], x)
  }

  function ExpectOf(p: Pending): Expect
  {
    if p.buf != [] then Ends(p.addr + |p.buf|) else if p.first then Fresh else Fixed(p.addr)
  }

  /** Every record carries data. */
  predicate AllCarryData(lines: seq<Line>)
  {
    forall i :: 0 <= i < |lines| && lines[i].Record? && lines[i].kind != 1 ==> lines[i].data != []
  }

  lemma {:induction false} DataNeverStale(lines: seq<Line>, x: Expect)
    requires AllCarryData(lines) && !x.Fixed?
    ensures NoStale(lines, x)
  {
    if lines == [] {
    } else {
      assert AllCarryData(lines[1..]);
      DataNeverStale(lines[1..], x);
      if lines[0].Record? && lines[0].kind != 1 {
        DataNeverStale(lines[1..], After(x, lines[0].off, |lines[0].data|));
      }
    }
  }

  // ----- the bytes keep their addresses ------------------------------------------

  predicate WellFormed(p: Pending)
  {
    (p.first ==> p.buf == []) && |p.buf| <= BUFFER_SIZE
  }

  /** What is buffered is handed out, at the address of the buffer. */
  lemma CutTags(p: Pending)
    ensures TagsOf(Cut(p)) == Tags(p.addr, p.buf)
  {
    if p.buf != [] {
      assert Cut(p)[1..] == [];
      assert Tags(p.addr, p.buf) + [] == Tags(p.addr, p.buf);
    } else {
      assert Tags(p.addr, p.buf) == [];
    }
  }

  /** A record that is taken: what was handed out for it and is buffered now. */
  lemma TakeTags(q: Pending, off: nat, data: Payload)
    requires !q.first && WellFormed(q)
    ensures var q' := Take(q, off, data);
            var x := ExpectOf(q);
            && WellFormed(q')
            && TagsOf(Emitted(q, off, |data|)) + Tags(q'.addr, q'.buf)
               == Tags(q.addr, q.buf) + Tags(if x.Fixed? then x.addr else off, data)
            && ((x.Fixed? && data != [] && off != x.addr) || ExpectOf(q') == After(x, off, |data|))
  {
    hide Tags;
    CutTags(q);
    if !MustFlush(q, off, |data|) {
      TagsSplit(q.addr, q.buf, data);
      var all := Tags(q.addr, q.buf + data);
      assert TagsOf([]) + all == all;
    }
  }

  lemma {:induction false} MergeStartsWithBuffer(lines: seq<Line>, p: Pending)
    requires WellFormed(p) && Merge(lines, p).code == 0
    ensures Tags(p.addr, p.buf) <= TagsOf(Merge(lines, p).segments)
  {
    hide Tags; hide Take; hide Emitted; hide Cut;
    if lines == [] {
      CutTags(p);
    } else {
      var rest := lines[1..];
      match lines[0] {
        case Comment => MergeStartsWithBuffer(rest, p);
        case Garbage =>
        case Record(kind, off, data, complete) =>
          var q := Seen(p, off);
          EmptyTags(p.addr, q.addr);
          if kind == 1 {
            CutTags(q);
          } else {
            var q' := Take(q, off, data);
            TakeTags(q, off, data);
            MergeStartsWithBuffer(rest, q');
            TagsOfConcat(Emitted(q, off, |data|), Merge(rest, q').segments);
            PrefixChain(TagsOf(Emitted(q, off, |data|)), Tags(q'.addr, q'.buf), TagsOf(Merge(rest, q').segments),
                        Tags(q.addr, q.buf));
          }
      }
    }
  }

  lemma EmptyTags(a: nat, b: nat)
    ensures Tags(a, []) == Tags(b, []) == []
  {
  }

  lemma PrefixChain<T>(e: seq<T>, t: seq<T>, m: seq<T>, b: seq<T>)
    requires t <= m && b <= e + t
    ensures b <= e + m
  {
    assert m == t + m[|t|..];
    assert e + m == (e + t) + m[|t|..];
  }

  lemma RecordsTags(lines: seq<Line>)
    requires lines != []
    ensures TagsOf(Records(lines)) ==
              if lines[0].Record? then
                if lines[0].kind == 1 then [] else Tags(lines[0].off, lines[0].data) + TagsOf(Records(lines[1..]))
              else TagsOf(Records(lines[1..]))
  {
    hide Tags;
    if lines[0].Record? && lines[0].kind != 1 {
      TagsCons(Segment(lines[0].off, lines[0].data), Records(lines[1..]));
    }
  }

  lemma StaleStep(lines: seq<Line>, x: Expect)
    requires lines != [] && lines[0].Record? && lines[0].kind != 1
    ensures var l := lines[0];
            NoStale(lines, x) <==>
              && (x.Fixed? && l.data != [] ==> l.off == x.addr)
              && NoStale(lines[1..], After(x, l.off, |l.data|))
  {
    hide After;
  }

  /** The tags of one record, given those of the records behind it. */
  lemma RecordKeepsTags(lines: seq<Line>, q: Pending, q': Pending, e: seq<Segment>, segs: seq<Segment>)
    requires lines != [] && lines[0].Record? && lines[0].kind != 1 && !q.first && WellFormed(q)
    requires q' == Take(q, lines[0].off, lines[0].data) && e == Emitted(q, lines[0].off, |lines[0].data|)
    requires Tags(q'.addr, q'.buf) <= TagsOf(segs)
    requires NoStale(lines[1..], ExpectOf(q'))
        <==> TagsOf(segs) == Tags(q'.addr, q'.buf) + TagsOf(Records(lines[1..]))
    ensures NoStale(lines, ExpectOf(q)) <==> TagsOf(e + segs) == Tags(q.addr, q.buf) + TagsOf(Records(lines))
  {
    hide Tags; hide TagsOf; hide Take; hide Emitted; hide NoStale; hide Records; hide WellFormed; hide ExpectOf;
    hide After;
    var x, off, data := ExpectOf(q), lines[0].off, lines[0].data;
    TakeTags(q, off, data);
    RecordsTags(lines);
    StaleStep(lines, x);
    TagsOfConcat(e, segs);
    TagCases(TagsOf(e), Tags(q'.addr, q'.buf), TagsOf(segs), Tags(q.addr, q.buf),
             if x.Fixed? then x.addr else off, off, data, TagsOf(Records(lines[1..])));
  }

  /** The meaning of an accepted file: the bytes handed out, in order and with
    * their addresses, are those of the records, exactly when no record with data
    * meets a stale address. */
  lemma {:induction false} MergeKeepsTags(lines: seq<Line>, p: Pending)
    requires WellFormed(p) && Merge(lines, p).code == 0
    ensures NoStale(lines, ExpectOf(p))
       <==> TagsOf(Merge(lines, p).segments) == Tags(p.addr, p.buf) + TagsOf(Records(lines))
  {
    hide Tags; hide TagsOf; hide Take; hide Emitted; hide Cut; hide Merge; hide WellFormed;
    if lines == [] {
      MergeEnd(p);
      NothingTagged(p);
    } else {
      var rest, l := lines[1..], lines[0];
      MergeLine(lines, p);
      if l.Comment? {
        MergeKeepsTags(rest, p);
      } else if l.Record? {
        var q := Seen(p, l.off);
        SeenFits(p, l.off);
        SeenTags(p, l.off);
        if l.kind == 1 {
          NothingTagged(q);
        } else {
          hide NoStale; hide Records; hide ExpectOf; hide Seen;
          var q' := Take(q, l.off, l.data);
          TakeTags(q, l.off, l.data);
          MergeKeepsTags(rest, q');
          MergeStartsWithBuffer(rest, q');
          RecordKeepsTags(lines, q, q', Emitted(q, l.off, |l.data|), Merge(rest, q').segments);
          FreshIsEmpty(lines, p, l.off);
        }
      }
    }
  }

  lemma NothingTagged(p: Pending)
    ensures TagsOf(Cut(p)) == Tags(p.addr, p.buf) + TagsOf([])
  {
    CutTags(p);
    assert Tags(p.addr, p.buf) + [] == Tags(p.addr, p.buf);
  }

  lemma SeenTags(p: Pending, off: nat)
    requires WellFormed(p)
    ensures var q := Seen(p, off); Tags(q.addr, q.buf) == Tags(p.addr, p.buf)
  {
    EmptyTags(p.addr, off);
  }

  /** The first record fixes the address of the empty buffer. */
  lemma FreshIsEmpty(lines: seq<Line>, p: Pending, off: nat)
    requires WellFormed(p) && lines != [] && lines[0].Record? && lines[0].kind != 1 && lines[0].off == off
    ensures NoStale(lines, ExpectOf(Seen(p, off))) <==> NoStale(lines, ExpectOf(p))
  {
    StaleStep(lines, ExpectOf(p));
    StaleStep(lines, ExpectOf(Seen(p, off)));
  }

  /** e ++ t holds the buffer b and the data at address a; m continues t. Then
    * e ++ m is b, the data at off and r just when a is off and m is t ++ r. */
  lemma TagCases(e: seq<Tagged>, t: seq<Tagged>, m: seq<Tagged>, b: seq<Tagged>,
                 a: nat, off: nat, data: seq<U8>, r: seq<Tagged>)
    requires t <= m && e + t == b + Tags(a, data)
    ensures e + m == b + (Tags(off, data) + r) <==> (a == off || data == []) && m == t + r
  {
    hide Tags;
    var m' := m[|t|..];
    assert m == t + m';
    assert e + m == (e + t) + m' == b + (Tags(a, data) + m');
    CutFront(b, Tags(a, data) + m', Tags(off, data) + r);
    EqualParts(Tags(a, data), m', Tags(off, data), r);
    SameTags(a, off, data);
    CutFront(t, m', r);
  }

  lemma SameTags(a: nat, b: nat, data: seq<U8>)
    ensures Tags(a, data) == Tags(b, data) <==> a == b || data == []
  {
    if data != [] {
      assert Tags(a, data)[0].addr == a && Tags(b, data)[0].addr == b;
    } else {
      EmptyTags(a, b);
    }
  }

  /** An accepted file, from its start. */
  lemma MergePreservesMeaning(lines: seq<Line>)
    requires Merge(lines, START).code == 0
    ensures NoStale(lines, Fresh) <==> TagsOf(Merge(lines, START).segments) == TagsOf(Records(lines))
  {
    MergeKeepsTags(lines, START);
    assert Tags(0, []) + TagsOf(Records(lines)) == TagsOf(Records(lines));
  }

  /** The data of segments, one behind the other. */
  function Carried(segs: seq<Segment>): seq<U8>
  {
    if segs == [] then [] else segs[0].data + Carried(segs[1..])
  }

  lemma {:induction false} CarriedConcat(a: seq<Segment>, b: seq<Segment>)
    ensures Carried(a + b) == Carried(a) + Carried(b)
  {
    if a == [] {
      assert a + b == b;
    } else {
      assert (a + b)[1..] == a[1..] + b;
      CarriedConcat(a[1..], b);
      assert a[0].data + (Carried(a[1..]) + Carried(b)) == a[0].data + Carried(a[1..]) + Carried(b);
    }
  }

  lemma TakeCarries(q: Pending, off: nat, data: Payload)
    ensures Carried(Emitted(q, off, |data|)) + Take(q, off, data).buf == q.buf + data
  {
    if MustFlush(q, off, |data|) {
      assert Cut(q)[1..] == [];
      assert q.buf + [] == q.buf;
    }
  }

  lemma CutCarries(p: Pending)
    ensures Carried(Cut(p)) == p.buf
  {
    if p.buf != [] {
      assert Cut(p)[1..] == [];
      assert p.buf + [] == p.buf;
    }
  }

  lemma CarryStep(e: seq<Segment>, m: seq<Segment>, taken: seq<U8>, buf: seq<U8>, data: seq<U8>, r: seq<U8>)
    requires Carried(e) + taken == buf + data && Carried(m) == taken + r
    ensures Carried(e + m) == buf + (data + r)
  {
    hide Carried;
    CarriedConcat(e, m);
    assert Carried(e) + (taken + r) == (Carried(e) + taken) + r;
    assert buf + data + r == buf + (data + r);
  }

  lemma RecordsCarry(lines: seq<Line>)
    requires lines != []
    ensures Carried(Records(lines)) ==
              if lines[0].Record? then
                if lines[0].kind == 1 then [] else lines[0].data + Carried(Records(lines[1..]))
              else Carried(Records(lines[1..]))
  {
    if lines[0].Record? && lines[0].kind != 1 {
      assert Records(lines)[1..] == Records(lines[1..]);
    }
  }

  /** Stale or not, no byte of an accepted file is lost, doubled or moved past
    * another one. */
  lemma {:induction false} MergeCarriesData(lines: seq<Line>, p: Pending)
    requires WellFormed(p) && Merge(lines, p).code == 0
    ensures Carried(Merge(lines, p).segments) == p.buf + Carried(Records(lines))
  {
    hide Take; hide Emitted; hide Carried; hide Records; hide Merge; hide Cut; hide WellFormed; hide Tags; hide TagsOf;
    if lines == [] {
      MergeEnd(p);
      CutCarries(p);
      NothingCarried();
    } else {
      var rest, l := lines[1..], lines[0];
      MergeLine(lines, p);
      RecordsCarry(lines);
      if l.Comment? {
        MergeCarriesData(rest, p);
      } else if l.Record? {
        var q := Seen(p, l.off);
        SeenFits(p, l.off);
        if l.kind == 1 {
          CutCarries(q);
        } else {
          var q' := Take(q, l.off, l.data);
          TakeTags(q, l.off, l.data);
          TakeCarries(q, l.off, l.data);
          MergeCarriesData(rest, q');
          CarryStep(Emitted(q, l.off, |l.data|), Merge(rest, q').segments, q'.buf, q.buf, l.data,
              Carried(Records(rest)));
        }
      }
    }
  }

  lemma NothingCarried()
    ensures Carried(Records([])) == []
  {
  }

  lemma SeenFits(p: Pending, off: nat)
    requires WellFormed(p)
    ensures var q := Seen(p, off); WellFormed(q) && !q.first && q.buf == p.buf
  {
  }

  /** A record without data at the start of the file: the record behind it is
    * poked to the address of the empty one. */
  lemma StaleAddress(value: U8)
    ensures var lines := [Record(0, 0x100, [], true), Record(0, 0x200, [value], true), Record(1, 0, [], true)];
            && !NoStale(lines, Fresh)
            && Merge(lines, START) == Merged([Segment(0x100, [value])], 0)
            && Records(lines) == [Segment(0x100, []), Segment(0x200, [value])]
  {
    var end: Line := Record(1, 0, [], true);
    var second: Line := Record(0, 0x200, [value], true);
    var lines: seq<Line> := [Record(0, 0x100, [], true), second, end];
    assert lines[1..] == [second, end] && [second, end][1..] == [end];
    assert Take(Seen(START, 0x100), 0x100, []) == Pending(false, 0x100, []);
    assert [] + [value] == [value];
    assert Take(Pending(false, 0x100, []), 0x200, [value]) == Pending(false, 0x100, [value]);
    assert Merge([end], Pending(false, 0x100, [value])) == Merged([Segment(0x100, [value])], 0);
    FrontFront([], [], Merged([Segment(0x100, [value])], 0));
    assert Records([end]) == [];
    assert Records([second, end]) == [Segment(0x200, [value])];
  }

  // ----- the buffer --------------------------------------------------------------

  /** A line that opens segment i when the buffer has held buf at the start: the
    * first record with data behind all the data the earlier segments carry. The
    * reading reaches it, and the segment begins with its data. */
  predicate Opens(lines: seq<Line>, n: nat, buf: seq<U8>, segs: seq<Segment>, i: nat)
  {
    && n < |lines| && i < |segs|
    && (forall j :: 0 <= j <= n ==> Continues(lines[j]))
    && lines[n].Record? && lines[n].data != [] && lines[n].data <= segs[i].data
    && Carried(segs[..i]) == buf + Carried(Records(lines[..n]))
  }

  /** Two segments of which the second could not have begun in the buffer of the
    * first, with a record of len bytes. */
  predicate Apart(a: Segment, b: Segment, len: nat)
  {
    b.addr != a.addr + |a.data| || |a.data| + len > 1023
  }

  /** Segment i was opened by a record for which there was no room before. */
  predicate Forced(lines: seq<Line>, buf: seq<U8>, segs: seq<Segment>, i: nat)
  {
    exists n :: 0 <= n < |lines| && Opens(lines, n, buf, segs, i) &&
        (i > 0 ==> Apart(segs[i - 1], segs[i], |lines[n].data|))
  }

  predicate Greedy(lines: seq<Line>, buf: seq<U8>, segs: seq<Segment>)
  {
    && (forall i :: 0 <= i < |segs| ==> 0 < |segs[i].data| <= 1023)
    && (forall i :: 0 <= i < |segs| && (i > 0 || buf == []) ==> Forced(lines, buf, segs, i))
  }

  /** What is handed out begins with the buffer. An empty buffer keeps the address
    * it has until data comes. */
  lemma {:induction false} FirstSegment(lines: seq<Line>, p: Pending)
    requires WellFormed(p) && !p.first
    ensures var segs := Merge(lines, p).segments;
            segs != [] ==> segs[0].addr == p.addr && p.buf <= segs[0].data
  {
    if lines == [] {
    } else {
      var rest := lines[1..];
      if lines[0].Comment? {
        FirstSegment(rest, p);
      } else if lines[0].Record? {
        var q' := Take(p, lines[0].off, lines[0].data);
        if !MustFlush(p, lines[0].off, |lines[0].data|) && lines[0].kind == 0 && lines[0].complete {
          FirstSegment(rest, q');
          assert Merge(lines, p).segments == [] + Merge(rest, q').segments;
        }
      }
    }
  }

  lemma RecordsFirst(lines: seq<Line>, n: nat)
    requires n < |lines| && Continues(lines[0])
    ensures Carried(Records(lines[..n + 1])) ==
              (if lines[0].Record? then lines[0].data else []) + Carried(Records(lines[1..][..n]))
  {
    RecordsCarry(lines[..n + 1]);
    assert lines[..n + 1][1..] == lines[1..][..n];
  }

  lemma ContinuesOn(lines: seq<Line>, n: nat)
    requires n + 1 < |lines| && Continues(lines[0]) && forall j :: 0 <= j <= n ==> Continues(lines[1..][j])
    ensures forall j :: 0 <= j <= n + 1 ==> Continues(lines[j])
  {
    forall j | 0 <= j <= n + 1 ensures Continues(lines[j]) {
      if j > 0 {
        assert lines[j] == lines[1..][j - 1];
      }
    }
  }

  /** One line in front, and perhaps one segment: what opens a segment of the rest
    * opens it in the whole. */
  lemma OpensLater(lines: seq<Line>, n: nat, taken: seq<U8>, buf: seq<U8>, e: seq<Segment>, segs: seq<Segment>, i: nat)
    requires lines != [] && Continues(lines[0]) && |e| <= 1
    requires Carried(e) + taken == buf + if lines[0].Record? then lines[0].data else []
    requires Opens(lines[1..], n, taken, segs, i)
    ensures Opens(lines, n + 1, buf, e + segs, |e| + i)
  {
    hide Carried; hide Records;
    ContinuesOn(lines, n);
    RecordsFirst(lines, n);
    var r := Carried(Records(lines[1..][..n]));
    var d := if lines[0].Record? then lines[0].data else [];
    assert (e + segs)[..|e| + i] == e + segs[..i];
    CarriedConcat(e, segs[..i]);
    assert Carried(e) + (taken + r) == Carried(e) + taken + r == buf + d + r == buf + (d + r);
  }

  lemma OpensNow(lines: seq<Line>, buf: seq<U8>, e: seq<Segment>, segs: seq<Segment>)
    requires lines != [] && Continues(lines[0]) && lines[0].Record? && lines[0].data != [] && Carried(e) == buf
    requires segs != [] && lines[0].data <= segs[0].data
    ensures Opens(lines, 0, buf, e + segs, |e|)
  {
    hide Carried;
    NothingCarried();
    assert lines[..0] == [];
    assert (e + segs)[..|e|] == e;
    assert buf + [] == buf;
  }

  /** Every file, accepted or not: what is poked has 1 to 1023 bytes, and of two
    * successive pokes the second is not adjacent, or the record that opened it
    * would not have fit behind the first. */
  lemma {:induction false} MergeIsGreedy(lines: seq<Line>, p: Pending)
    requires WellFormed(p)
    ensures Greedy(lines, p.buf, Merge(lines, p).segments)
  {
    hide Merge; hide Take; hide Emitted; hide Forced; hide Seen; hide WellFormed; hide Cut;
    if lines == [] {
      MergeEnd(p);
      CutIsGreedy(lines, p);
    } else {
      var rest, l := lines[1..], lines[0];
      MergeLine(lines, p);
      if l.Garbage? {
      } else if l.Comment? {
        MergeIsGreedy(rest, p);
        CommentIsGreedy(lines, p.buf, Merge(rest, p).segments);
      } else {
        var q := Seen(p, l.off);
        SeenFits(p, l.off);
        if l.kind == 1 {
          CutIsGreedy(lines, q);
        } else if l.kind == 0 && l.complete {
          EmittedFits(q, l.off, l.data);
          var e, q' := Emitted(q, l.off, |l.data|), Take(q, l.off, l.data);
          MergeIsGreedy(rest, q');
          RecordIsGreedy(lines, q, e, q', Merge(rest, q').segments);
        }
      }
    }
  }

  lemma CutIsGreedy(lines: seq<Line>, p: Pending)
    requires WellFormed(p)
    ensures Greedy(lines, p.buf, Cut(p))
  {
  }

  lemma LaterForced(lines: seq<Line>, buf: seq<U8>, taken: seq<U8>, e: seq<Segment>, segs: seq<Segment>, i: nat)
    requires lines != [] && Continues(lines[0]) && |e| <= 1
    requires Carried(e) + taken == buf + if lines[0].Record? then lines[0].data else []
    requires i < |segs| && Forced(lines[1..], taken, segs, i)
    requires i == 0 && e != [] ==> segs[0].addr != e[0].addr + |e[0].data|
    ensures Forced(lines, buf, e + segs, |e| + i)
  {
    hide Carried;
    var rest := lines[1..];
    var n :| 0 <= n < |rest| && Opens(rest, n, taken, segs, i)
          && (i > 0 ==> Apart(segs[i - 1], segs[i], |rest[n].data|));
    assert lines[n + 1] == rest[n];
    Neighbours(e, segs, i);
    hide Opens; hide Forced;
    OpensLater(lines, n, taken, buf, e, segs, i);
    MakeForced(lines, buf, e + segs, |e| + i, n + 1);
  }

  lemma MakeForced(lines: seq<Line>, buf: seq<U8>, segs: seq<Segment>, i: nat, n: nat)
    requires Opens(lines, n, buf, segs, i) && (i > 0 ==> Apart(segs[i - 1], segs[i], |lines[n].data|))
    ensures Forced(lines, buf, segs, i)
  {
    hide Carried; hide Records; hide Apart;
  }

  lemma Neighbours(e: seq<Segment>, segs: seq<Segment>, i: nat)
    requires |e| <= 1 && i < |segs|
    ensures (e + segs)[|e| + i] == segs[i]
    ensures i > 0 ==> (e + segs)[|e| + i - 1] == segs[i - 1]
    ensures i == 0 && e != [] ==> (e + segs)[|e| + i - 1] == e[0]
  {
  }

  lemma NowForced(lines: seq<Line>, buf: seq<U8>, e: seq<Segment>, segs: seq<Segment>)
    requires lines != [] && Continues(lines[0]) && lines[0].Record? && lines[0].data != []
    requires Carried(e) == buf && |e| <= 1
    requires segs != [] && lines[0].data <= segs[0].data
    requires e != [] ==> Apart(e[0], segs[0], |lines[0].data|)
    ensures Forced(lines, buf, e + segs, |e|)
  {
    hide Opens; hide Carried;
    OpensNow(lines, buf, e, segs);
    assert (e + segs)[|e|] == segs[0];
  }

  lemma CommentIsGreedy(lines: seq<Line>, buf: seq<U8>, segs: seq<Segment>)
    requires lines != [] && lines[0].Comment? && Greedy(lines[1..], buf, segs)
    ensures Greedy(lines, buf, segs)
  {
    hide Forced;
    forall i | 0 <= i < |segs| && (i > 0 || buf == []) ensures Forced(lines, buf, segs, i) {
      assert Carried([]) + buf == buf + [];
      LaterForced(lines, buf, buf, [], segs, i);
      assert [] + segs == segs;
    }
  }

  /** What a record does to the buffer. */
  lemma EmittedFits(q: Pending, off: nat, data: Payload)
    requires WellFormed(q) && !q.first
    ensures var e, q' := Emitted(q, off, |data|), Take(q, off, data);
            && WellFormed(q') && !q'.first
            && if e == [] then q'.buf == q.buf + data
               else q.buf != [] && e == [Segment(q.addr, q.buf)] && q' == Pending(false, off, data)
                    && (off != q.addr + |q.buf| || |q.buf| + |data| > BUFFER_SIZE)
  {
  }

  /** A data record in front: what it does to the buffer decides what opens the
    * next segment. */
  lemma RecordForces(lines: seq<Line>, q: Pending, e: seq<Segment>, q': Pending, segs: seq<Segment>, i: nat)
    requires lines != [] && lines[0].Record? && Continues(lines[0]) && WellFormed(q) && !q.first
    requires e == Emitted(q, lines[0].off, |lines[0].data|) && q' == Take(q, lines[0].off, lines[0].data)
    requires segs == Merge(lines[1..], q').segments && i < |segs|
    requires i > 0 || q'.buf == [] ==> Forced(lines[1..], q'.buf, segs, i)
    requires |e| + i > 0 || q.buf == []
    ensures Forced(lines, q.buf, e + segs, |e| + i)
  {
    hide Merge; hide Forced; hide Take; hide Emitted; hide WellFormed; hide Carried; hide Continues;
    var off, data := lines[0].off, lines[0].data;
    EmittedFits(q, off, data);
    TakeCarries(q, off, data);
    FirstSegment(lines[1..], q');
    FullBuffer(q);
    if i == 0 && data != [] {
      CarriedBuffer(e, q);
      NowForced(lines, q.buf, e, segs);
    } else {
      assert i == 0 ==> q'.buf == [];
      assert i == 0 && e != [] ==> segs[0].addr == off && e[0].addr + |e[0].data| != off;
      LaterForced(lines, q.buf, q'.buf, e, segs, i);
    }
  }

  lemma FullBuffer(q: Pending)
    requires WellFormed(q)
    ensures |q.buf| <= BUFFER_SIZE
  {
  }

  lemma RecordIsGreedy(lines: seq<Line>, q: Pending, e: seq<Segment>, q': Pending, segs: seq<Segment>)
    requires lines != [] && lines[0].Record? && Continues(lines[0]) && WellFormed(q) && !q.first
    requires e == Emitted(q, lines[0].off, |lines[0].data|) && q' == Take(q, lines[0].off, lines[0].data)
    requires segs == Merge(lines[1..], q').segments && Greedy(lines[1..], q'.buf, segs)
    ensures Greedy(lines, q.buf, e + segs)
  {
    hide Merge; hide Forced; hide Take; hide Emitted; hide Continues;
    EmittedFits(q, lines[0].off, lines[0].data);
    forall i | 0 <= i < |e + segs| && (i > 0 || q.buf == []) ensures Forced(lines, q.buf, e + segs, i) {
      assert i >= |e|;
      RecordForces(lines, q, e, q', segs, i - |e|);
    }
  }

  lemma CarriedBuffer(e: seq<Segment>, q: Pending)
    requires if e == [] then q.buf == [] else e == [Segment(q.addr, q.buf)]
    ensures Carried(e) == q.buf
  {
    assert e != [] ==> e[1..] == [];
    assert q.buf + [] == q.buf;
  }

  // ----- memory --------------------------------------------------------------------

  /** A memory after the bytes have been written in turn. */
  function Apply(mem: map<nat, U8>, ts: seq<Tagged>): map<nat, U8>
    decreases |ts|
  {
    if ts == [] then mem else Apply(mem[ts[0].addr := ts[0].value], ts[1..])
  }

  /** No address is given two different bytes. */
  predicate OneValued(ts: seq<Tagged>)
  {
    forall s, t :: s in ts && t in ts && s.addr == t.addr ==> s.value == t.value
  }

  lemma {:induction false} ApplyKeys(mem: map<nat, U8>, ts: seq<Tagged>)
    ensures forall a :: a in Apply(mem, ts) <==> a in mem || exists t :: t in ts && t.addr == a
    ensures forall a :: a in mem && (forall t :: t in ts ==> t.addr != a) ==> Apply(mem, ts)[a] == mem[a]
    decreases |ts|
  {
    if ts == [] {
    } else {
      var mem' := mem[ts[0].addr := ts[0].value];
      ApplyKeys(mem', ts[1..]);
      assert forall t :: t in ts <==> t == ts[0] || t in ts[1..];
    }
  }

  lemma {:induction false} ApplyValues(mem: map<nat, U8>, ts: seq<Tagged>)
    requires OneValued(ts)
    ensures forall t :: t in ts ==> t.addr in Apply(mem, ts) && Apply(mem, ts)[t.addr] == t.value
    decreases |ts|
  {
    if ts == [] {
    } else {
      var mem' := mem[ts[0].addr := ts[0].value];
      ApplyValues(mem', ts[1..]);
      ApplyKeys(mem', ts[1..]);
      assert forall t :: t in ts <==> t == ts[0] || t in ts[1..];
      if forall t :: t in ts[1..] ==> t.addr != ts[0].addr {
        assert Apply(mem', ts[1..])[ts[0].addr] == ts[0].value;
      }
    }
  }

  /** The order of writing does not matter if no address is given two bytes. */
  lemma OrderIrrelevant(mem: map<nat, U8>, a: seq<Tagged>, b: seq<Tagged>)
    requires OneValued(a) && forall t :: t in a <==> t in b
    ensures Apply(mem, a) == Apply(mem, b)
  {
    ApplyKeys(mem, a);
    ApplyKeys(mem, b);
    assert OneValued(b);
    ApplyValues(mem, a);
    ApplyValues(mem, b);
    forall k | k in Apply(mem, a) ensures k in Apply(mem, b) && Apply(mem, a)[k] == Apply(mem, b)[k] {
      if t :| t in a && t.addr == k {
        assert t in b;
      }
    }
  }

  lemma {:induction false} SelectTags(segs: seq<Segment>, chip: Chip)
    ensures var both := TagsOf(Select(segs, chip, true) + Select(segs, chip, false));
            forall t :: t in TagsOf(segs) <==> t in both
  {
    var ext, onChip := Select(segs, chip, true), Select(segs, chip, false);
    TagsOfConcat(ext, onChip);
    if segs == [] {
    } else {
      var rest := segs[1..];
      SelectTags(rest, chip);
      TagsOfConcat(Select(rest, chip, true), Select(rest, chip, false));
      var one := Tags(segs[0].addr, segs[0].data);
      TagsOfConcat([segs[0]], Select(rest, chip, true));
      TagsOfConcat([segs[0]], Select(rest, chip, false));
      assert [segs[0]][1..] == [];
      assert TagsOf([segs[0]]) == one + [] == one;
      assert [] + Select(rest, chip, true) == Select(rest, chip, true);
      assert [] + Select(rest, chip, false) == Select(rest, chip, false);
    }
  }

  /** The last byte written to an address. */
  function Last(ts: seq<Tagged>, a: nat): Option<U8>
  {
    if ts == [] then None
    else
      var later := Last(ts[1..], a);
      if later.Some? then later else if ts[0].addr == a then Some(ts[0].value) else None
  }

  lemma {:induction false} ApplyLast(mem: map<nat, U8>, ts: seq<Tagged>, a: nat)
    ensures a in Apply(mem, ts) <==> a in mem || Last(ts, a).Some?
    ensures a in Apply(mem, ts) ==> Apply(mem, ts)[a] == if Last(ts, a).Some? then Last(ts, a).value else mem[a]
    decreases |ts|
  {
    if ts == [] {
    } else {
      ApplyLast(mem[ts[0].addr := ts[0].value], ts[1..], a);
    }
  }

  lemma {:induction false} LastConcat(x: seq<Tagged>, y: seq<Tagged>, a: nat)
    ensures Last(x + y, a) == if Last(y, a).Some? then Last(y, a) else Last(x, a)
  {
    if x == [] {
      assert x + y == y;
    } else {
      assert (x + y)[1..] == x[1..] + y;
      LastConcat(x[1..], y, a);
    }
  }

  /** An address that only one of the two shares writes to. */
  lemma {:induction false} LastOfShares(segs: seq<Segment>, chip: Chip, a: nat)
    ensures var all := Last(TagsOf(segs), a);
            var external := Last(TagsOf(Select(segs, chip, true)), a);
            var onChip := Last(TagsOf(Select(segs, chip, false)), a);
            && (onChip == None ==> all == external) && (external == None ==> all == onChip)
            && (all == None ==> external == None && onChip == None)
  {
    hide Last; hide External; hide TagsOf; hide Tags;
    if segs == [] {
    } else {
      hide Select;
      var rest := segs[1..];
      LastOfShares(rest, chip, a);
      LastCons(segs[0], rest, a);
      assert [segs[0]] + rest == segs;
      LastSelect(segs, chip, true, a);
      LastSelect(segs, chip, false, a);
    }
  }

  lemma LastSelect(segs: seq<Segment>, chip: Chip, external: bool, a: nat)
    requires segs != []
    ensures var rest := Last(TagsOf(Select(segs[1..], chip, external)), a);
            Last(TagsOf(Select(segs, chip, external)), a) ==
              if External(chip, segs[0]) != external || rest.Some? then rest
              else Last(Tags(segs[0].addr, segs[0].data), a)
  {
    hide Last; hide External; hide TagsOf;
    var rest := Select(segs[1..], chip, external);
    LastCons(segs[0], rest, a);
    assert [] + rest == rest;
  }

  lemma LastCons(s: Segment, rest: seq<Segment>, a: nat)
    ensures Last(TagsOf([s] + rest), a) ==
              if Last(TagsOf(rest), a).Some? then Last(TagsOf(rest), a) else Last(Tags(s.addr, s.data), a)
  {
    hide Last;
    TagsCons(s, rest);
    LastConcat(Tags(s.addr, s.data), TagsOf(rest), a);
  }

  /** At address a, which external and on-chip segments both write, an on-chip byte
    * has the last word. */
  predicate AgreesAt(segs: seq<Segment>, chip: Chip, a: nat)
  {
    var external, onChip := Last(TagsOf(Select(segs, chip, true)), a), Last(TagsOf(Select(segs, chip, false)), a);
    external.Some? && onChip.Some? ==> Last(TagsOf(segs), a) == onChip
  }

  lemma TwoPassesAt(segs: seq<Segment>, chip: Chip, a: nat)
    ensures AgreesAt(segs, chip, a)
       <==> Last(TagsOf(Select(segs, chip, true) + Select(segs, chip, false)), a) == Last(TagsOf(segs), a)
  {
    hide Last; hide TagsOf; hide Select;
    var ext, onChip := Select(segs, chip, true), Select(segs, chip, false);
    TagsOfConcat(ext, onChip);
    LastConcat(TagsOf(ext), TagsOf(onChip), a);
    LastOfShares(segs, chip, a);
  }

  /** Writing the external segments first and the on-chip ones in a second pass
    * leaves the memory a single pass in file order would, exactly when at every
    * address that both kinds of segments write an on-chip byte has the last word. */
  lemma TwoPassesOneImage(segs: seq<Segment>, chip: Chip, mem: map<nat, U8>)
    ensures Apply(mem, TagsOf(Select(segs, chip, true) + Select(segs, chip, false))) == Apply(mem, TagsOf(segs))
       <==> forall a :: AgreesAt(segs, chip, a)
  {
    hide Apply; hide Last; hide TagsOf; hide Select; hide AgreesAt;
    var two, one := TagsOf(Select(segs, chip, true) + Select(segs, chip, false)), TagsOf(segs);
    if forall a :: AgreesAt(segs, chip, a) {
      forall a ensures a in Apply(mem, two) <==> a in Apply(mem, one)
               ensures a in Apply(mem, two) ==> Apply(mem, two)[a] == Apply(mem, one)[a] {
        assert AgreesAt(segs, chip, a);
        TwoPassesAt(segs, chip, a);
        ApplyLast(mem, two, a);
        ApplyLast(mem, one, a);
      }
      assert Apply(mem, two) == Apply(mem, one);
    } else {
      var a :| !AgreesAt(segs, chip, a);
      TwoPassesAt(segs, chip, a);
      Differs(segs, chip, a);
      ApplyLast(mem, two, a);
      ApplyLast(mem, one, a);
    }
  }

  /** Where the passes disagree, both write. */
  lemma Differs(segs: seq<Segment>, chip: Chip, a: nat)
    requires !AgreesAt(segs, chip, a)
    ensures Last(TagsOf(segs), a).Some?
    ensures Last(TagsOf(Select(segs, chip, true) + Select(segs, chip, false)), a).Some?
  {
    hide Last; hide TagsOf; hide Select;
    var ext, onChip := Select(segs, chip, true), Select(segs, chip, false);
    TagsOfConcat(ext, onChip);
    LastConcat(TagsOf(ext), TagsOf(onChip), a);
    LastOfShares(segs, chip, a);
  }

  /** An address for which the passes change the result: an on-chip byte, then an
    * external segment that begins at the same, last on-chip address. */
  lemma ExternalByteLost(mem: map<nat, U8>)
    ensures var segs := [Segment(0x1b3f, [1]), Segment(0x1b3f, [2, 2])];
            && !AgreesAt(segs, Fx1, 0x1b3f)
            && Apply(mem, TagsOf(Select(segs, Fx1, true) + Select(segs, Fx1, false))) != Apply(mem, TagsOf(segs))
  {
    hide Apply; hide Last;
    var inner, outer := Segment(0x1b3f, [1]), Segment(0x1b3f, [2, 2]);
    TwoSegments(inner, outer, Fx1);
    var one, two := Tags(0x1b3f, [1]), Tags(0x1b3f, [2, 2]);
    assert one == [Tagged(0x1b3f, 1)] && two == [Tagged(0x1b3f, 2), Tagged(0x1b40, 2)];
    LastOfThree();
    TwoPassesOneImage([inner, outer], Fx1, mem);
  }

  lemma TwoSegments(inner: Segment, outer: Segment, chip: Chip)
    requires !External(chip, inner) && External(chip, outer)
    ensures var segs := [inner, outer];
            && Select(segs, chip, true) == [outer] && Select(segs, chip, false) == [inner]
            && TagsOf(segs) == Tags(inner.addr, inner.data) + Tags(outer.addr, outer.data)
            && TagsOf([inner]) == Tags(inner.addr, inner.data) && TagsOf([outer]) == Tags(outer.addr, outer.data)
  {
    hide External; hide Tags;
    var segs, none := [inner, outer], [];
    assert segs[1..] == [outer] && [outer][1..] == none && [inner] + none == [inner] && [outer] + none == [outer];
    SelectFirst(segs, chip, true);
    SelectFirst(segs, chip, false);
    SelectFirst([outer], chip, true);
    SelectFirst([outer], chip, false);
    TagsCons(inner, none);
    TagsCons(outer, none);
    TagsCons(inner, [outer]);
    var i, o := Tags(inner.addr, inner.data), Tags(outer.addr, outer.data);
    assert i + [] == i && o + [] == o && [inner] + [outer] == segs;
  }

  lemma LastOfThree()
    ensures Last([Tagged(0x1b3f, 1)], 0x1b3f) == Some(1)
    ensures Last([Tagged(0x1b3f, 2), Tagged(0x1b40, 2)], 0x1b3f) == Some(2)
    ensures Last([Tagged(0x1b3f, 1)] + [Tagged(0x1b3f, 2), Tagged(0x1b40, 2)], 0x1b3f) == Some(2)
  {
    LastConcat([Tagged(0x1b3f, 1)], [Tagged(0x1b3f, 2), Tagged(0x1b40, 2)], 0x1b3f);
    assert [Tagged(0x1b3f, 2), Tagged(0x1b40, 2)][1..] == [Tagged(0x1b40, 2)];
    assert [Tagged(0x1b40, 2)][1..] == [];
  }

  /** No address is given two different bytes: then every address agrees. */
  lemma OneValuedAgrees(segs: seq<Segment>, chip: Chip)
    requires OneValued(TagsOf(segs))
    ensures forall a :: AgreesAt(segs, chip, a)
  {
    hide Apply; hide TagsOf; hide AgreesAt; hide Select; hide OneValued;
    SelectTags(segs, chip);
    OrderIrrelevant(map[], TagsOf(segs), TagsOf(Select(segs, chip, true) + Select(segs, chip, false)));
    TwoPassesOneImage(segs, chip, map[]);
  }
}
