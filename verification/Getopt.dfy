/** The command line parser: one call returns one option letter, and the
  * position inside a cluster of letters survives from call to call. */
module Getopt {
  import opened Options

  /** Strings end at their first NUL, so none occurs inside. */
  type CString = s: string | '\0' !in s witness ""

  /** How a letter is listed in the option string. */
  datatype Listing = Unlisted | Flag | WithArgument

  /** The first place of c in s, or |s|. */
  function IndexOf(s: string, c: char): (i: nat)
    ensures i <= |s|
    ensures i < |s| ==> s[i] == c
    ensures c !in s[..i]
  {
    if s == "" then 0 else if s[0] == c then 0 else
      var i := IndexOf(s[1..], c) + 1;
      assert s[..i] == [s[0]] + s[1..][..i - 1];
      i
  }

  function ListingOf(options: string, c: char): Listing
  {
    var i := IndexOf(options, c);
    if i == |options| || c == ':' then Unlisted
    else if i + 1 < |options| && options[i + 1] == ':' then WithArgument
    else Flag
  }

  predicate LooksLikeOption(word: string)
  {
    |word| >= 2 && word[0] == '-'
  }

  // ----- the parse, word by word ---------------------------------------------------

  /** An option letter, '?' for one that is not listed or lacks its argument. */
  datatype Found = Found(letter: char, arg: Option<string>)

  /** All options of a command line and the number of words they take. */
  datatype Parse = Parse(found: seq<Found>, words: nat)

  function Cons(f: Found, p: Parse): Parse
  {
    Parse([f] + p.found, p.words)
  }

  function Later(p: Parse, n: nat): Parse
  {
    Parse(p.found, p.words + n)
  }

  /** The options at the front of args. */
  function ParseWords(args: seq<string>, options: string): Parse
    decreases |args|, 0, 0
  {
    if args == [] || !LooksLikeOption(args[0]) then Parse([], 0)
    else if args[0] == "--" then Parse([], 1)
    else Later(ParseLetters(args[0][1..], args[1..], options), 1)
  }

  /** The letters of a cluster, then the words behind it. */
  function ParseLetters(letters: string, rest: seq<string>, options: string): Parse
    decreases |rest|, 1, |letters|
  {
    if letters == "" then ParseWords(rest, options)
    else
      var c, more := letters[0], letters[1..];
      match ListingOf(options, c)
      case Unlisted => Cons(Found('?', None), ParseLetters(more, rest, options))
      case Flag => Cons(Found(c, None), ParseLetters(more, rest, options))
      case WithArgument =>
        if more != "" then Cons(Found(c, Some(more)), ParseWords(rest, options))
        else if rest != [] then Cons(Found(c, Some(rest[0])), Later(ParseWords(rest[1..], options), 1))
        else Cons(Found('?', None), Parse([], 0))
  }

  // ----- the parser object ------------------------------------------------------------

  /** The words from index i on. */
  function From(argv: seq<CString>, i: nat): seq<string>
  {
    if i <= |argv| then argv[i..] else []
  }

  /** Characters and words that have not been looked at. */
  function Unread(words: seq<string>): nat
  {
    if words == [] then 0 else |words[0]| + 1 + Unread(words[1..])
  }

  /** One word further. */
  lemma NextWord(argv: seq<CString>, i: nat, options: string)
    ensures ParseLetters("", From(argv, i), options) ==
              if i >= |argv| || !LooksLikeOption(argv[i]) then Parse([], 0)
              else if argv[i] == "--" then Parse([], 1)
              else Later(ParseLetters(argv[i][1..], From(argv, i + 1), options), 1)
    ensures i < |argv| ==>
              && From(argv, i) != [] && From(argv, i)[0] == argv[i] && From(argv, i)[1..] == From(argv, i + 1)
              && Unread(From(argv, i)) == |argv[i]| + 1 + Unread(From(argv, i + 1))
    ensures i >= |argv| ==> From(argv, i) == []
  {
  }

  /** One letter further. */
  lemma NextLetter(letters: string, argv: seq<CString>, i: nat, options: string)
    requires letters != ""
    ensures var c, more := letters[0], letters[1..];
            ParseLetters(letters, From(argv, i), options) ==
              match ListingOf(options, c)
              case Unlisted => Cons(Found('?', None), ParseLetters(more, From(argv, i), options))
              case Flag => Cons(Found(c, None), ParseLetters(more, From(argv, i), options))
              case WithArgument =>
                if more != "" then Cons(Found(c, Some(more)), ParseLetters("", From(argv, i), options))
                else if i < |argv| then Cons(Found(c, Some(argv[i])),
                    Later(ParseLetters("", From(argv, i + 1), options), 1))
                else Cons(Found('?', None), ParseLetters("", From(argv, i), options))
  {
    NextWord(argv, i, options);
  }

  /** Behind the last letter of a word the next word is looked at. */
  lemma NoLetters(words: seq<string>, options: string)
    ensures ParseLetters("", words, options) == ParseWords(words, options)
  {
  }

  class OptionParser {
    var optind: nat
    var optarg: Option<CString>
    var next: Option<CString>

    constructor ()
      ensures optind == 0
    {
      optind := 0;
      optarg := None;
      next := None;
    }

    /** The letters of the current cluster that are still to come. */
    function Letters(): CString
      reads this
    {
      if optind == 0 || next == None then "" else next.value
    }

    function Position(): nat
      reads this
    {
      if optind == 0 then 1 else optind
    }

    /** What the calls from here on will find. */
    function Ahead(argv: seq<CString>, options: string): Parse
      reads this
    {
      ParseLetters(Letters(), From(argv, Position()), options)
    }

    function Measure(argv: seq<CString>): nat
      reads this
    {
      |Letters()| + Unread(From(argv, Position()))
    }

    /** Moves on to the next word unless letters of a cluster are left. */
    method Fetch(argv: seq<CString>, options: string) returns (ended: bool)
      modifies this
      ensures optind >= 1
      ensures ended ==>
                && old(Ahead(argv, options)).found == []
                && optind == old(Position()) + old(Ahead(argv, options)).words
                && optarg == if optind < |argv| then Some(argv[optind]) else None
      ensures !ended ==>
                && next.Some? && next.value != "" && optarg == None
                && Ahead(argv, options).found == old(Ahead(argv, options)).found
                && optind + Ahead(argv, options).words == old(Position()) + old(Ahead(argv, options)).words
                && Measure(argv) <= old(Measure(argv))
    {
      hide ParseWords; hide ParseLetters; hide Unread; hide From;
      ghost var i := Position();
      NextWord(argv, i, options);
      if optind == 0 {
        next := None;
      }
      optarg := None;
      if next == None || next.value == "" {
        if optind == 0 {
          optind := optind + 1;
        }
        if optind >= |argv| || !LooksLikeOption(argv[optind]) {
          if optind < |argv| {
            optarg := Some(argv[optind]);
          }
          return true;
        }
        if argv[optind] == "--" {
          optind := optind + 1;
          if optind < |argv| {
            optarg := Some(argv[optind]);
          }
          return true;
        }
        next := Some(argv[optind][1..]);
        optind := optind + 1;
        assert Letters() == argv[i][1..];
      }
      return false;
    }

    /** One call: the next option, if there is one, and one step nearer the end;
      * otherwise None, with optind and optarg at the first word that is no
      * option. */
    method Next(argv: seq<CString>, options: string) returns (r: Option<char>)
      modifies this
      ensures optind >= 1
      ensures r.Some? ==>
                && old(Ahead(argv, options)).found != []
                && Found(r.value, optarg) == old(Ahead(argv, options)).found[0]
                && Ahead(argv, options).found == old(Ahead(argv, options)).found[1..]
                && optind + Ahead(argv, options).words == old(Position()) + old(Ahead(argv, options)).words
                && Measure(argv) < old(Measure(argv))
      ensures r == None ==>
                && old(Ahead(argv, options)).found == []
                && optind == old(Position()) + old(Ahead(argv, options)).words
                && optarg == if optind < |argv| then Some(argv[optind]) else None
    {
      hide ParseWords; hide ParseLetters; hide Unread; hide From;
      var ended := Fetch(argv, options);
      if ended {
        return None;
      }
      NextLetter(next.value, argv, optind, options);
      NextWord(argv, optind, options);
      var c := next.value[0];
      next := Some(next.value[1..]);
      var cp := IndexOf(options, c);
      if cp == |options| || c == ':' {
        return Some('?');
      }
      cp := cp + 1;
      if cp < |options| && options[cp] == ':' {
        if next.value != "" {
          optarg := next;
          next := None;
        } else if optind < |argv| {
          optarg := Some(argv[optind]);
          optind := optind + 1;
        } else {
          return Some('?');
        }
      }
      return Some(c);
    }

    /** The loop a program runs: calls until the first None. It terminates, and
      * what it has seen is the word-by-word parse of the arguments. */
    method Run(argv: seq<CString>, options: string) returns (found: seq<Found>)
      requires optind == 0
      modifies this
      ensures var p := ParseWords(From(argv, 1), options);
              && found == p.found
              && optind == 1 + p.words
              && optarg == if optind < |argv| then Some(argv[optind]) else None
    {
      hide ParseLetters; hide ParseWords; hide From; hide Unread;
      found := [];
      NoLetters(From(argv, 1), options);
      var c := Next(argv, options);
      ghost var all := ParseWords(From(argv, 1), options);
      while c.Some?
        invariant optind >= 1
        invariant c.Some? ==>
                    && all.found == found + [Found(c.value, optarg)] + Ahead(argv, options).found
                    && 1 + all.words == optind + Ahead(argv, options).words
        invariant c == None ==>
                    && all.found == found && optind == 1 + all.words
                    && optarg == if optind < |argv| then Some(argv[optind]) else None
        decreases c.Some?, Measure(argv)
      {
        found := found + [Found(c.value, optarg)];
        c := Next(argv, options);
      }
    }
  }

  // ----- laws ---------------------------------------------------------------------------

  lemma ConsLater(f: Found, p: Parse, n: nat)
    ensures Cons(f, Later(p, n)) == Later(Cons(f, p), n)
  {
  }

  // ----- what the option string means ---------------------------------------------------

  /** A letter is looked up at its first place. */
  lemma FirstPlace(pre: string, c: char, post: string)
    requires c !in pre
    ensures IndexOf(pre + [c] + post, c) == |pre|
  {
    var options := pre + [c] + post;
    var front := options[..IndexOf(options, c)];
    assert options[|pre|] == c;
    assert forall j :: 0 <= j < |front| ==> options[j] == front[j];
    assert forall j :: 0 <= j < |pre| ==> options[j] == pre[j];
  }

  /** A letter followed by a colon takes an argument: the rest of its word, or the next
    * word, whatever that looks like; without either it is reported as '?'. */
  lemma LetterWithColon(pre: string, c: char, post: string, v: string, args: seq<string>)
    requires c !in pre && c != ':' && (c != '-' || v != "")
    ensures var options := pre + [c] + ":" + post;
            ParseWords(["-" + [c] + v] + args, options) ==
              if v != "" then
                var rest := ParseWords(args, options);
                Parse([Found(c, Some(v))] + rest.found, 1 + rest.words)
              else if args != [] then
                var rest := ParseWords(args[1..], options);
                Parse([Found(c, Some(args[0]))] + rest.found, 2 + rest.words)
              else Parse([Found('?', None)], 1)
  {
    hide IndexOf; hide ParseWords; hide ParseLetters;
    var options := pre + [c] + ":" + post;
    assert options == pre + [c] + (":" + post);
    assert (pre + [c] + (":" + post))[|pre| + 1] == ':';
    FirstPlace(pre, c, ":" + post);
    Words(c, v);
    OneWord("-" + [c] + v, args, options);
    ArgumentLetter([c] + v, args, options);
  }

  /** A letter followed by no colon takes none; the letters behind it are looked at
    * in turn. */
  lemma LetterWithoutColon(pre: string, c: char, post: string, v: string, args: seq<string>)
    requires c !in pre && c != ':' && (c != '-' || v != "") && (post == "" || post[0] != ':')
    ensures var options := pre + [c] + post;
            var rest := ParseLetters(v, args, options);
            ParseWords(["-" + [c] + v] + args, options) == Parse([Found(c, None)] + rest.found, 1 + rest.words)
  {
    hide IndexOf; hide ParseWords; hide ParseLetters;
    var options := pre + [c] + post;
    assert post != "" ==> options[|pre| + 1] == post[0];
    FirstPlace(pre, c, post);
    Words(c, v);
    OneWord("-" + [c] + v, args, options);
    PlainLetter([c] + v, args, options);
  }

  /** A letter that is not in the option string is reported as '?', and so is a
    * colon; the letters behind it are looked at in turn. */
  lemma UnknownLetter(options: string, c: char, v: string, args: seq<string>)
    requires (c !in options || c == ':') && (c != '-' || v != "")
    ensures var rest := ParseLetters(v, args, options);
            ParseWords(["-" + [c] + v] + args, options) == Parse([Found('?', None)] + rest.found, 1 + rest.words)
  {
    hide ParseWords; hide ParseLetters;
    Words(c, v);
    OneWord("-" + [c] + v, args, options);
    PlainLetter([c] + v, args, options);
  }

  /** Two dashes end the options and are taken; a single dash, an empty word and one
    * without a dash end them and are not. */
  lemma EndOfOptions(word: string, args: seq<string>, options: string)
    ensures ParseWords([], options) == Parse([], 0)
    ensures word == "--" ==> ParseWords([word] + args, options) == Parse([], 1)
    ensures word == "-" || word == "" || word[0] != '-' ==> ParseWords([word] + args, options) == Parse([], 0)
  {
  }

  // ----- splitting clusters -------------------------------------------------------------

  /** A letter at the front of a cluster that takes no argument. */
  predicate Plain(options: string, c: char)
  {
    !ListingOf(options, c).WithArgument?
  }

  function PlainFound(options: string, c: char): Found
  {
    Found(if ListingOf(options, c) == Flag then c else '?', None)
  }

  /** A word with letters at the front of the arguments. */
  lemma OneWord(word: string, post: seq<string>, options: string)
    requires LooksLikeOption(word)
    ensures ParseWords([word] + post, options)
         == if word == "--" then Parse([], 1) else Later(ParseLetters(word[1..], post, options), 1)
  {
    hide ParseLetters;
    assert ([word] + post)[1..] == post;
  }

  lemma PlainLetter(letters: string, rest: seq<string>, options: string)
    requires letters != "" && Plain(options, letters[0])
    ensures ParseLetters(letters, rest, options) ==
                  Cons(PlainFound(options, letters[0]), ParseLetters(letters[1..], rest, options))
  {
  }

  lemma ArgumentLetter(letters: string, rest: seq<string>, options: string)
    requires letters != "" && ListingOf(options, letters[0]) == WithArgument
    ensures var c, more := letters[0], letters[1..];
            ParseLetters(letters, rest, options) ==
              if more != "" then Cons(Found(c, Some(more)), ParseWords(rest, options))
              else if rest != [] then Cons(Found(c, Some(rest[0])), Later(ParseWords(rest[1..], options), 1))
              else Cons(Found('?', None), Parse([], 0))
  {
    hide ListingOf; hide ParseWords;
  }

  lemma LettersFind(letters: string, rest: seq<string>, options: string)
    requires letters != ""
    ensures ParseLetters(letters, rest, options).found != []
  {
    hide ListingOf;
  }

  /** What "-xR" and "-x" "-R" stand for. */
  function Clustered(x: char, r: string, post: seq<string>): seq<string>
  {
    ["-" + [x] + r] + post
  }

  function Split(x: char, r: string, post: seq<string>): seq<string>
  {
    ["-" + [x]] + (["-" + r] + post)
  }

  /** When a letter may be split off the front of a cluster: it takes no argument,
    * and neither part ends the options or is no option at all. */
  predicate Separable(options: string, x: char, r: string)
  {
    x != '-' && Plain(options, x) && r != "" && r != "-"
  }

  lemma Words(x: char, r: string)
    ensures ("-" + [x] + r)[1..] == [x] + r && ("-" + [x])[1..] == [x] && ("-" + r)[1..] == r
    ensures ([x] + r)[1..] == r && [x][1..] == ""
    ensures "-" + [x] == "--" <==> x == '-'
    ensures "-" + [x] + r == "--" <==> x == '-' && r == ""
    ensures "-" + r == "--" <==> r == "-"
    ensures "-" + r != r
  {
    assert ("-" + [x])[1] == x && ("-" + [x] + r)[1] == x;
    assert ("-" + r)[1..] == r && "--"[1..] == "-";
    assert |"-" + r| == 1 + |r|;
  }

  lemma SplitPlain(x: char, r: string, post: seq<string>, options: string)
    requires x != '-' && Plain(options, x)
    ensures ParseWords(Split(x, r, post), options) == Later(ParseWords(Clustered(x, r, post), options), 1)
       <==> r != "" && r != "-"
  {
    hide ListingOf; hide ParseWords; hide ParseLetters;
    Words(x, r);
    var next := ["-" + r] + post;
    OneWord("-" + [x] + r, post, options);
    OneWord("-" + [x], next, options);
    PlainLetter([x] + r, post, options);
    PlainLetter([x], next, options);
    NoLetters(next, options);
    if r == "" {
      NoOption("-" + r, post, options);
      ConsLater(PlainFound(options, x), ParseLetters(r, post, options), 1);
    } else {
      OneWord("-" + r, post, options);
      LettersFind(r, post, options);
    }
  }

  lemma SplitWithArgument(x: char, r: string, post: seq<string>, options: string)
    requires x != '-' && ListingOf(options, x) == WithArgument
    ensures ParseWords(Split(x, r, post), options) != Later(ParseWords(Clustered(x, r, post), options), 1)
  {
    hide ListingOf; hide ParseWords; hide ParseLetters;
    Words(x, r);
    var next := ["-" + r] + post;
    ArgumentLetter([x] + r, post, options);
    ArgumentLetter([x], next, options);
    assert next[1..] == post && next[0] == "-" + r;
    OneWord("-" + [x] + r, post, options);
    OneWord("-" + [x], next, options);
    var one, two := ParseWords(Clustered(x, r, post), options), ParseWords(Split(x, r, post), options);
    assert two.found[0] == Found(x, Some("-" + r));
    if r != "" {
      assert one.found[0] == Found(x, Some(r));
    } else if post == [] {
      assert one.found[0] == Found('?', None);
    } else if post[0] != "-" {
      assert one.found[0] == Found(x, Some(post[0]));
    } else {
      NoOption(post[0], post[1..], options);
      assert post == [post[0]] + post[1..];
    }
  }

  lemma SplitDash(r: string, post: seq<string>, options: string)
    ensures ParseWords(Split('-', r, post), options) != Later(ParseWords(Clustered('-', r, post), options), 1)
  {
    hide ParseWords;
    Words('-', r);
    OneWord("-" + ['-'] + r, post, options);
    OneWord("-" + ['-'], ["-" + r] + post, options);
    if r != "" {
      LettersFind(['-'] + r, post, options);
    }
  }

  /** The cluster law at the front of the arguments, and exactly when it holds:
    * "-xR" gives what "-x" "-R" gives, and takes one word less. */
  lemma SplitCluster(x: char, r: string, post: seq<string>, options: string)
    ensures ParseWords(Split(x, r, post), options) == Later(ParseWords(Clustered(x, r, post), options), 1)
       <==> Separable(options, x, r)
  {
    hide ListingOf; hide ParseWords; hide Split; hide Clustered;
    if x == '-' {
      SplitDash(r, post, options);
    } else if Plain(options, x) {
      SplitPlain(x, r, post, options);
    } else {
      SplitWithArgument(x, r, post, options);
    }
  }

  lemma NoOption(word: string, post: seq<string>, options: string)
    requires !LooksLikeOption(word)
    ensures ParseWords([word] + post, options) == Parse([], 0)
  {
  }

  /** The argument of an option may follow in the same word or in the next. */
  lemma SplitArgument(x: char, v: string, post: seq<string>, options: string)
    requires x != '-' && ListingOf(options, x) == WithArgument && v != ""
    ensures var one, two := ParseWords(["-" + [x] + v] + post, options), ParseWords(["-" + [x], v] + post, options);
            two == Later(one, 1)
  {
    var both := "-" + [x] + v;
    var a, b := [both] + post, ["-" + [x], v] + post;
    assert both[1..] == [x] + v && ([x] + v)[1..] == v && a[1..] == post;
    assert b[1..] == [v] + post && b[1..][1..] == post;
    assert ("-" + [x])[1..] == [x] && [x][1..] == "";
    assert both[1] == x && ("-" + [x])[1] == x;
    assert ParseLetters([x] + v, post, options) == Cons(Found(x, Some(v)), ParseWords(post, options));
    assert ParseLetters([x], b[1..], options) == Cons(Found(x, Some(v)), Later(ParseWords(post, options), 1));
  }

  /** Words that are options through and through: no word ends the options, and
    * the last letter does not wait for an argument. */
  predicate Complete(words: seq<string>, options: string)
    decreases |words|, 0, 0
  {
    words == [] ||
    (LooksLikeOption(words[0]) && words[0] != "--" && CompleteLetters(words[0][1..], words[1..], options))
  }

  predicate CompleteLetters(letters: string, rest: seq<string>, options: string)
    decreases |rest|, 1, |letters|
  {
    if letters == "" then Complete(rest, options)
    else if Plain(options, letters[0]) then CompleteLetters(letters[1..], rest, options)
    else if letters[1..] != "" then Complete(rest, options)
    else rest != [] && Complete(rest[1..], options)
  }

  function Joined(a: Parse, b: Parse): Parse
  {
    Parse(a.found + b.found, a.words + b.words)
  }

  lemma JoinedCons(f: Found, a: Parse, b: Parse, n: nat)
    ensures Joined(Cons(f, a), b) == Cons(f, Joined(a, b))
    ensures Joined(Later(a, n), b) == Later(Joined(a, b), n)
  {
    assert [f] + a.found + b.found == [f] + (a.found + b.found);
  }

  /** Behind complete options the parse starts afresh. */
  lemma {:induction false} ParseConcat(pre: seq<string>, s: seq<string>, options: string)
    requires Complete(pre, options)
    ensures ParseWords(pre + s, options) == Joined(ParseWords(pre, options), ParseWords(s, options))
    decreases |pre|, 0, 0
  {
    hide ListingOf;
    if pre == [] {
      assert pre + s == s;
      assert Joined(Parse([], 0), ParseWords(s, options)) == ParseWords(s, options) by {
        assert [] + ParseWords(s, options).found == ParseWords(s, options).found;
      }
    } else {
      assert (pre + s)[0] == pre[0] && (pre + s)[1..] == pre[1..] + s;
      LettersConcat(pre[0][1..], pre[1..], s, options);
      JoinedCons(Found('?', None), ParseLetters(pre[0][1..], pre[1..], options), ParseWords(s, options), 1);
    }
  }

  lemma {:induction false} LettersConcat(letters: string, rest: seq<string>, s: seq<string>, options: string)
    requires CompleteLetters(letters, rest, options)
    ensures ParseLetters(letters, rest + s, options) ==
                  Joined(ParseLetters(letters, rest, options), ParseWords(s, options))
    decreases |rest|, 1, |letters|
  {
    hide ListingOf;
    var after := ParseWords(s, options);
    if letters == "" {
      ParseConcat(rest, s, options);
    } else {
      var c, more := letters[0], letters[1..];
      if Plain(options, c) {
        LettersConcat(more, rest, s, options);
        JoinedCons(PlainFound(options, c), ParseLetters(more, rest, options), after, 0);
      } else if more != "" {
        ParseConcat(rest, s, options);
        JoinedCons(Found(c, Some(more)), ParseWords(rest, options), after, 0);
      } else {
        assert (rest + s)[0] == rest[0] && (rest + s)[1..] == rest[1..] + s;
        ParseConcat(rest[1..], s, options);
        JoinedCons(Found(c, Some(rest[0])), ParseWords(rest[1..], options), after, 1);
        JoinedCons(Found(c, Some(rest[0])), Later(ParseWords(rest[1..], options), 1), after, 0);
      }
    }
  }

  /** The cluster law anywhere: behind complete options, replacing "-xR" by "-x"
    * "-R" changes nothing but the number of words, exactly when the two parts are
    * separable. */
  lemma ClusterLaw(pre: seq<string>, x: char, r: string, post: seq<string>, options: string)
    requires Complete(pre, options)
    ensures ParseWords(pre + Split(x, r, post), options) == Later(ParseWords(pre + Clustered(x, r, post), options), 1)
       <==> Separable(options, x, r)
  {
    hide ParseWords; hide Split; hide Clustered; hide Separable;
    ParseConcat(pre, Split(x, r, post), options);
    ParseConcat(pre, Clustered(x, r, post), options);
    SplitCluster(x, r, post, options);
    JoinedEqual(ParseWords(pre, options), ParseWords(Split(x, r, post), options),
        ParseWords(Clustered(x, r, post), options));
  }

  lemma JoinedEqual(a: Parse, b: Parse, c: Parse)
    ensures Joined(a, b) == Later(Joined(a, c), 1) <==> b == Later(c, 1)
  {
    if a.found + b.found == a.found + c.found {
      assert b.found == (a.found + b.found)[|a.found|..] == (a.found + c.found)[|a.found|..] == c.found;
    }
  }
}
