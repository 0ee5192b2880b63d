/** getopt.c of lmbench: the option parser, and the command lines it takes back apart. */
module Getopt {
  import opened Collections

  /** The static variables: next word, place in it, argument and the letter in error. */
  datatype Scan = Scan(optind: nat, n: nat, optarg: Option<string>, optopt: char)

  /** What a call returns.  `Error` is the return value '?'.  In `Fault` the assertion fails, or
      the word is read behind its end. */
  datatype Out = Eof | Letter(c: char) | Error | Fault

  /** The character behind a letter in the option string decides what it takes: nothing, a
      needed argument, one that must be attached if there is any, or one that must be attached. */
  datatype Kind = Plain | Colon | Bar | Semi

  function Find(opts: string, c: char): nat {
    if opts == "" || opts[0] == c then 0 else 1 + Find(opts[1..], c)
  }

  function KindAt(opts: string, t: nat): Kind {
    if t + 1 >= |opts| then Plain
    else match opts[t + 1] case ':' => Colon case '|' => Bar case ';' => Semi case _ => Plain
  }

  function KindOf(opts: string, c: char): Kind { KindAt(opts, Find(opts, c)) }

  predicate IsOption(word: string) { |word| > 1 && word[0] == '-' }

  predicate StartsWithDash(word: string) { word != "" && word[0] == '-' }

  function Started(s: Scan): Scan { if s.optind == 0 then s.(optind := 1, n := 1) else s }

  /** One call.  Words hold no NUL, so that a word ends at its length. */
  function Call(s: Scan, av: seq<string>, opts: string): (Scan, Out) {
    var s := Started(s);
    if s.optind >= |av| || !IsOption(av[s.optind]) then (s, Eof)
    else if s.n >= |av[s.optind]| then (s, Fault)
    else
      var word, c := av[s.optind], av[s.optind][s.n];
      var next := s.(optind := s.optind + 1, n := 1);
      var kind := KindOf(opts, c);
      if c !in opts then (s.(optopt := c), Error)
      else if kind == Plain then (if s.n + 1 < |word| then s.(n := s.n + 1) else next, Letter(c))
      else if s.n + 1 < |word| then (next.(optarg := Some(word[s.n + 1..])), Letter(c))
      else if kind == Bar then (next.(optarg := None), Letter(c))
      else if kind == Semi then (s.(optarg := None, optind := s.optind + 1, optopt := c), Error)
      else if s.optind + 1 == |av| || StartsWithDash(av[s.optind + 1]) then (s.(optopt := c), Error)
      else (s.(optarg := Some(av[s.optind + 1]), optind := s.optind + 2, n := 1), Letter(c))
  }

  lemma {:induction false} FindIs(opts: string, c: char, t: nat)
    requires t <= |opts| && (forall x :: 0 <= x < t ==> opts[x] != c) && (t < |opts| ==> opts[t] == c)
    ensures Find(opts, c) == t && (c in opts <==> t < |opts|)
  {
    if t > 0 {
      FindIs(opts[1..], c, t - 1);
      assert opts == [opts[0]] + opts[1..];
    }
  }

  class Parser {
    var optind: nat
    var n: nat
    var optarg: Option<string>
    var optopt: char

    function Value(): Scan
      reads this
    {
      Scan(optind, n, optarg, optopt)
    }

    method Next(av: seq<string>, opts: string) returns (out: Out)
      modifies this
      ensures (Value(), out) == Call(old(Value()), av, opts)
    {
      if optind == 0 {
        optind := 1;
        n := 1;
      }
      if optind >= |av| || !IsOption(av[optind]) {
        return Eof;
      }
      var word := av[optind];
      if n >= |word| {
        return Fault;
      }
      var c, t := word[n], 0;
      while t < |opts| && opts[t] != c
        invariant 0 <= t <= |opts| && forall x :: 0 <= x < t ==> opts[x] != c
      {
        t := t + 1;
      }
      FindIs(opts, c, t);
      if t == |opts| {
        optopt := c;
        return Error;
      }
      out := Take(word, c, KindAt(opts, t), av);
    }

    /** A letter of the option string was found. */
    method Take(word: string, c: char, kind: Kind, av: seq<string>) returns (out: Out)
      requires 0 < optind < |av| && word == av[optind] && n < |word| && c == word[n]
      modifies this
      ensures forall opts: string :: c in opts && KindOf(opts, c) == kind && IsOption(word) ==>
        (Value(), out) == Call(old(Value()), av, opts)
    {
      if kind == Plain {
        if n + 1 >= |word| {
          optind := optind + 1;
          n := 1;
        } else {
          n := n + 1;
        }
        return Letter(c);
      }
      if n + 1 < |word| {
        optarg := Some(word[n + 1..]);
        optind := optind + 1;
        n := 1;
        return Letter(c);
      }
      if kind == Bar {
        optarg := None;
        optind := optind + 1;
        n := 1;
        return Letter(c);
      }
      if kind == Semi {
        optarg := None;
        optind := optind + 1;
        optopt := c;
        return Error;
      }
      if optind + 1 == |av| || StartsWithDash(av[optind + 1]) {
        optopt := c;
        return Error;
      }
      optarg := Some(av[optind + 1]);
      optind := optind + 2;
      n := 1;
      return Letter(c);
    }
  }

  // ----- the place in the words -----

  /** The place lies inside the current word, if that is an option word. */
  predicate InWord(s: Scan, av: seq<string>) {
    s.optind == 0 || (s.n >= 1 && (s.optind < |av| && IsOption(av[s.optind]) ==> s.n < |av[s.optind]|))
  }

  /** The branch that moves to the next word and keeps the place in it. */
  predicate MissingAttached(s: Scan, av: seq<string>, opts: string) {
    var s := Started(s);
    && s.optind < |av| && IsOption(av[s.optind]) && s.n + 1 == |av[s.optind]|
    && av[s.optind][s.n] in opts && KindOf(opts, av[s.optind][s.n]) == Semi
  }

  /** That branch, when the next word is an option word too short for the place. */
  predicate PlaceTooFar(s: Scan, av: seq<string>, opts: string) {
    && MissingAttached(s, av, opts)
    && var next := Started(s).optind + 1; next < |av| && IsOption(av[next]) && |av[next]| <= Started(s).n
  }

  /** No call faults from a good place, and the next one faults if and only if this one leaves
      the place too far in the next word. */
  lemma FaultIff(s: Scan, av: seq<string>, opts: string)
    requires InWord(s, av)
    ensures var (s', out) := Call(s, av, opts);
            && out != Fault
            && (InWord(s', av) <==> !PlaceTooFar(s, av, opts))
            && (Call(s', av, opts).1 == Fault <==> PlaceTooFar(s, av, opts))
  {
  }

  /** A letter moves the place on; at the end and after an unknown letter or a missing word it
      stays. */
  lemma Progress(s: Scan, av: seq<string>, opts: string)
    requires s.optind > 0
    ensures var (s', out) := Call(s, av, opts);
            && (out.Letter? ==> s'.optind > s.optind || (s'.optind == s.optind && s'.n > s.n))
            && (out == Eof ==> s' == s)
            && (out == Error ==> (MissingAttached(s, av, opts) <==> s'.optind != s.optind) && s'.n == s.n)
  {
  }

  /** Both a letter that is delivered and one that is complained of are the one at the place. */
  lemma LetterAtPlace(s: Scan, av: seq<string>, opts: string)
    requires Call(s, av, opts).1.Letter? || Call(s, av, opts).1 == Error
    ensures var (s', out) := Call(s, av, opts);
            && Started(s).optind < |av| && Started(s).n < |av[Started(s).optind]|
            && var c := av[Started(s).optind][Started(s).n];
            (out.Letter? ==> out.c == c && c in opts) && (out == Error ==> s'.optopt == c)
  {
  }

  function After(s: Scan, av: seq<string>, opts: string, k: nat): Scan {
    if k == 0 then s else Call(After(s, av, opts, k - 1), av, opts).0
  }

  /** One of the calls 0..k faults. */
  predicate Faults(s: Scan, av: seq<string>, opts: string, k: nat) {
    Call(After(s, av, opts, k), av, opts).1 == Fault || (k > 0 && Faults(s, av, opts, k - 1))
  }

  /** One of the calls before number k leaves the place too far. */
  predicate LeftTooFar(s: Scan, av: seq<string>, opts: string, k: nat) {
    k > 0 && (PlaceTooFar(After(s, av, opts, k - 1), av, opts) || LeftTooFar(s, av, opts, k - 1))
  }

  /** Over any number of calls: the assertion fails, or a word is read behind its end, if and only
      if a call left the place too far before. */
  lemma {:induction false} FaultsIff(s: Scan, av: seq<string>, opts: string, k: nat)
    requires InWord(s, av)
    ensures Faults(s, av, opts, k) <==> LeftTooFar(s, av, opts, k)
    ensures !LeftTooFar(s, av, opts, k) ==> InWord(After(s, av, opts, k), av)
  {
    if k > 0 {
      FaultsIff(s, av, opts, k - 1);
      if !LeftTooFar(s, av, opts, k - 1) {
        FaultIff(After(s, av, opts, k - 1), av, opts);
      }
    }
    if !LeftTooFar(s, av, opts, k) {
      FaultIff(After(s, av, opts, k), av, opts);
    }
  }

  /** A letter without argument, and one whose argument must be attached. */
  ghost predicate Mixed(opts: string) {
    exists a, d :: a in opts && d in opts && KindOf(opts, a) == Plain && KindOf(opts, d) == Semi
  }

  /** The place is moved past the first letter only by letters without argument. */
  ghost predicate MovedByPlain(s: Scan, opts: string) {
    s.optind == 0 || s.n == 1 || (s.n > 1 && exists a :: a in opts && KindOf(opts, a) == Plain)
  }

  lemma MovedStays(s: Scan, av: seq<string>, opts: string)
    requires InWord(s, av) && MovedByPlain(s, opts)
    ensures MovedByPlain(Call(s, av, opts).0, opts)
    ensures PlaceTooFar(s, av, opts) ==> Mixed(opts)
  {
    if PlaceTooFar(s, av, opts) {
      var a :| a in opts && KindOf(opts, a) == Plain;
      var d := av[Started(s).optind][Started(s).n];
      assert d in opts && KindOf(opts, d) == Semi;
    }
  }

  lemma {:induction false} NotMixed(s: Scan, av: seq<string>, opts: string, k: nat)
    requires s.optind == 0 && !Mixed(opts)
    ensures !LeftTooFar(s, av, opts, k) && MovedByPlain(After(s, av, opts, k), opts)
  {
    if k > 0 {
      NotMixed(s, av, opts, k - 1);
      FaultsIff(s, av, opts, k - 1);
      MovedStays(After(s, av, opts, k - 1), av, opts);
    }
  }

  /** Letter a, then letter d without its argument, then a word that is no longer than the place. */
  lemma MixedFaults(s: Scan, opts: string, program: string, a: char, d: char)
    requires s.optind == 0 && a in opts && d in opts && KindOf(opts, a) == Plain && KindOf(opts, d) == Semi
    ensures var av := [program, ['-', a, d], ['-', a]];
            && Call(After(s, av, opts, 1), av, opts).1 == Error && Call(After(s, av, opts, 2), av, opts).1 == Fault
            && Faults(s, av, opts, 2)
  {
    var av := [program, ['-', a, d], ['-', a]];
    assert After(s, av, opts, 0) == s;
    assert After(s, av, opts, 1) == s.(optind := 1, n := 2);
    assert After(s, av, opts, 2) == s.(optind := 2, n := 2, optarg := None, optopt := d);
  }

  ghost predicate NeverFaults(opts: string) {
    forall s: Scan, av: seq<string>, k: nat :: s.optind == 0 ==> !Faults(s, av, opts, k)
  }

  /** Main result: an option string is safe on every command line, for any number of calls, if and
      only if it does not have letters of both kinds. */
  lemma NeverFaultsIff(opts: string)
    ensures NeverFaults(opts) <==> !Mixed(opts)
  {
    if Mixed(opts) {
      var a, d :| a in opts && d in opts && KindOf(opts, a) == Plain && KindOf(opts, d) == Semi;
      MixedFaults(Scan(0, 0, None, '?'), opts, "", a, d);
    } else {
      forall s: Scan, av: seq<string>, k: nat | s.optind == 0 ensures !Faults(s, av, opts, k) {
        NotMixed(s, av, opts, k);
        FaultsIff(s, av, opts, k);
      }
    }
  }

  /** With option string "ad;", the words -ad -a make the third call fail. */
  lemma AssertionFails(program: string)
    ensures var s, av := Scan(0, 0, None, '?'), [program, "-ad", "-a"];
            && Call(After(s, av, "ad;", 1), av, "ad;").1 == Error && Call(After(s, av, "ad;", 2), av, "ad;").1 == Fault
            && Faults(s, av, "ad;", 2)
  {
    FindIs("ad;", 'a', 0);
    FindIs("ad;", 'd', 1);
    MixedFaults(Scan(0, 0, None, '?'), "ad;", program, 'a', 'd');
  }

  // ----- command lines -----

  /** How the last letter of a word takes an argument. */
  datatype Last = Nothing | Attached(c: char, arg: string) | Bare(c: char) | Separate(c: char, arg: string)

  /** A word: letters without arguments, and perhaps one that can take one. */
  datatype Group = Group(plain: string, last: Last) {
    /** The word behind its dash. */
    function Tail(): string {
      plain + match last
              case Nothing => ""
              case Attached(c, arg) => [c] + arg
              case Bare(c) => [c]
              case Separate(c, arg) => [c]
    }

    function More(): seq<string> { if last.Separate? then [last.arg] else [] }

    function Words(): seq<string> { ["-" + Tail()] + More() }

    ghost predicate Valid(opts: string) {
      && Tail() != ""
      && (forall k :: 0 <= k < |plain| ==> plain[k] in opts && KindOf(opts, plain[k]) == Plain)
      && match last
         case Nothing => true
         case Attached(c, arg) => c in opts && KindOf(opts, c) != Plain && arg != ""
         case Bare(c) => c in opts && KindOf(opts, c) == Bar
         case Separate(c, arg) => c in opts && KindOf(opts, c) == Colon && !StartsWithDash(arg)
    }

    function Items(): seq<Item> {
      Flags(plain) + match last
                     case Nothing => []
                     case Attached(c, arg) => [Value(c, Some(arg))]
                     case Bare(c) => [Value(c, None)]
                     case Separate(c, arg) => [Value(c, Some(arg))]
    }
  }

  /** What a call is to deliver.  A flag leaves `optarg` alone. */
  datatype Item = Flag(c: char) | Value(c: char, arg: Option<string>)

  function Flags(plain: string): (r: seq<Item>)
    ensures |r| == |plain|
  {
    if plain == "" then [] else [Flag(plain[0])] + Flags(plain[1..])
  }

  function AllWords(gs: seq<Group>): seq<string> {
    if gs == [] then [] else gs[0].Words() + AllWords(gs[1..])
  }

  function AllItems(gs: seq<Group>): seq<Item> {
    if gs == [] then [] else gs[0].Items() + AllItems(gs[1..])
  }

  ghost predicate AllValid(gs: seq<Group>, opts: string) {
    forall k :: 0 <= k < |gs| ==> gs[k].Valid(opts)
  }

  predicate Matches(item: Item, before: Scan, after: Scan, out: Out) {
    out == Letter(item.c) && after.optarg == if item.Flag? then before.optarg else item.arg
  }

  /** The next calls deliver the items one by one and end in state s'. */
  ghost predicate Delivers(s: Scan, av: seq<string>, opts: string, items: seq<Item>, s': Scan)
    decreases |items|
  {
    if items == [] then s' == s
    else
      var (t, out) := Call(s, av, opts);
      Matches(items[0], s, t, out) && Delivers(t, av, opts, items[1..], s')
  }

  lemma {:induction false} DeliversBoth(s: Scan, av: seq<string>, opts: string, a: seq<Item>, t: Scan, b: seq<Item>,
                                        s': Scan)
    requires Delivers(s, av, opts, a, t) && Delivers(t, av, opts, b, s')
    ensures Delivers(s, av, opts, a + b, s')
    decreases |a|
  {
    if a == [] {
      assert a + b == b;
    } else {
      DeliversBoth(Call(s, av, opts).0, av, opts, a[1..], t, b, s');
      assert (a + b)[1..] == a[1..] + b;
    }
  }

  // ----- every command line is taken apart again -----

  /** The word at the place ends with the rest of group g, its separate word behind it. */
  ghost predicate At(s: Scan, av: seq<string>, g: Group) {
    && 0 < s.optind && s.n >= 1 && s.optind + 1 + |g.More()| <= |av|
    && IsOption(av[s.optind]) && s.n < |av[s.optind]|
    && av[s.optind][s.n..] == g.Tail() && av[s.optind + 1..s.optind + 1 + |g.More()|] == g.More()
  }

  lemma {:induction false} GroupBack(s: Scan, av: seq<string>, opts: string, g: Group) returns (s': Scan)
    requires g.Valid(opts) && At(s, av, g)
    ensures Delivers(s, av, opts, g.Items(), s') && s'.optind == s.optind + 1 + |g.More()| && s'.n == 1
    decreases |g.plain|
  {
    if g.plain == "" {
      s' := LastBack(s, av, opts, g);
    } else {
      s' := PlainBack(s, av, opts, g);
    }
  }

  lemma {:induction false} LastBack(s: Scan, av: seq<string>, opts: string, g: Group) returns (s': Scan)
    requires g.Valid(opts) && At(s, av, g) && g.plain == ""
    ensures Delivers(s, av, opts, g.Items(), s') && s'.optind == s.optind + 1 + |g.More()| && s'.n == 1
  {
    var word, tail := av[s.optind], g.Tail();
    assert word[s.n..][0] == word[s.n] == g.last.c;
    if g.last.Attached? {
      assert tail[1..] == g.last.arg;
      assert word[s.n..][1..] == word[s.n + 1..];
    }
    if g.last.Separate? {
      assert av[s.optind + 1..s.optind + 2][0] == av[s.optind + 1];
    }
    s' := Call(s, av, opts).0;
    assert g.Items() == [Value(g.last.c, s'.optarg)];
    assert Delivers(s', av, opts, g.Items()[1..], s');
  }

  lemma {:induction false} PlainBack(s: Scan, av: seq<string>, opts: string, g: Group) returns (s': Scan)
    requires g.Valid(opts) && At(s, av, g) && g.plain != ""
    ensures Delivers(s, av, opts, g.Items(), s') && s'.optind == s.optind + 1 + |g.More()| && s'.n == 1
    decreases |g.plain|, 0
  {
    var rest := Group(g.plain[1..], g.last);
    FirstLetter(s, av, g, rest);
    var t := Call(s, av, opts).0;
    if rest.Tail() == "" {
      s' := t;
      assert rest.Items() == [];
    } else {
      RestValid(g, opts);
      s' := GroupBack(t, av, opts, rest);
    }
    ItemInFront(s, av, opts, g, rest, s');
  }

  lemma FirstLetter(s: Scan, av: seq<string>, g: Group, rest: Group)
    requires At(s, av, g) && g.plain != "" && rest == Group(g.plain[1..], g.last)
    ensures av[s.optind][s.n] == g.plain[0] && av[s.optind][s.n + 1..] == rest.Tail()
  {
    var word := av[s.optind];
    assert g.Tail() == [g.plain[0]] + rest.Tail();
    assert word[s.n..][0] == word[s.n];
    assert word[s.n..][1..] == word[s.n + 1..];
  }

  lemma ItemInFront(s: Scan, av: seq<string>, opts: string, g: Group, rest: Group, s': Scan)
    requires g.plain != "" && rest == Group(g.plain[1..], g.last)
    requires Delivers(Call(s, av, opts).0, av, opts, rest.Items(), s')
    requires Matches(Flag(g.plain[0]), s, Call(s, av, opts).0, Call(s, av, opts).1)
    ensures Delivers(s, av, opts, g.Items(), s')
  {
    assert g.Items() == [Flag(g.plain[0])] + rest.Items();
    assert g.Items()[1..] == rest.Items();
  }

  lemma RestValid(g: Group, opts: string)
    requires g.Valid(opts) && g.plain != "" && Group(g.plain[1..], g.last).Tail() != ""
    ensures Group(g.plain[1..], g.last).Valid(opts)
  {
    var rest := Group(g.plain[1..], g.last);
    forall k | 0 <= k < |rest.plain| ensures rest.plain[k] in opts && KindOf(opts, rest.plain[k]) == Plain {
      assert rest.plain[k] == g.plain[k + 1];
    }
  }

  lemma {:induction false} GroupsBack(s: Scan, av: seq<string>, opts: string, gs: seq<Group>) returns (s': Scan)
    requires AllValid(gs, opts) && s.optind >= 1 && s.n == 1
    requires s.optind + |AllWords(gs)| <= |av| && av[s.optind..s.optind + |AllWords(gs)|] == AllWords(gs)
    ensures Delivers(s, av, opts, AllItems(gs), s') && s'.optind == s.optind + |AllWords(gs)| && s'.n == 1
    decreases |gs|
  {
    if gs == [] {
      s' := s;
    } else {
      FirstGroupAt(s, av, gs);
      var t := GroupBack(s, av, opts, gs[0]);
      RestOfWords(s.optind, t.optind, av, gs);
      s' := GroupsBack(t, av, opts, gs[1..]);
      DeliversBoth(s, av, opts, gs[0].Items(), t, AllItems(gs[1..]), s');
    }
  }

  lemma FirstGroupAt(s: Scan, av: seq<string>, gs: seq<Group>)
    requires gs != [] && gs[0].Tail() != "" && s.optind >= 1 && s.n == 1
    requires s.optind + |AllWords(gs)| <= |av| && av[s.optind..s.optind + |AllWords(gs)|] == AllWords(gs)
    ensures At(s, av, gs[0])
  {
    var w, i := AllWords(gs), s.optind;
    assert w[0] == "-" + gs[0].Tail() && av[i] == av[i..i + |w|][0];
    assert av[i][1..] == gs[0].Tail();
    assert w[1..1 + |gs[0].More()|] == gs[0].More();
    Slices(av, i, i + |w|, 1, 1 + |gs[0].More()|);
  }

  lemma Slices(av: seq<string>, i: nat, j: nat, a: nat, b: nat)
    requires a <= b && i + b <= j <= |av|
    ensures av[i..j][a..b] == av[i + a..i + b]
  {
    assert |av[i..j][a..b]| == b - a;
    forall x | 0 <= x < b - a ensures av[i..j][a..b][x] == av[i + a..i + b][x] {
      assert av[i..j][a + x] == av[i + a + x];
    }
  }

  lemma RestOfWords(i: nat, j: nat, av: seq<string>, gs: seq<Group>)
    requires gs != [] && j == i + 1 + |gs[0].More()|
    requires i + |AllWords(gs)| <= |av| && av[i..i + |AllWords(gs)|] == AllWords(gs)
    ensures j + |AllWords(gs[1..])| == i + |AllWords(gs)| && av[j..j + |AllWords(gs[1..])|] == AllWords(gs[1..])
  {
    var w, v := AllWords(gs), AllWords(gs[1..]);
    assert w[j - i..] == v;
    assert av[i..i + |w|][j - i..] == av[j..i + |w|];
  }

  /** Parsing undoes writing: all options in order, then the end at the first operand, for good. */
  lemma RoundTrip(s: Scan, program: string, gs: seq<Group>, rest: seq<string>, opts: string) returns (s': Scan)
    requires s.optind == 0 && AllValid(gs, opts) && (rest != [] ==> !IsOption(rest[0]))
    ensures Delivers(Started(s), [program] + AllWords(gs) + rest, opts, AllItems(gs), s')
    ensures s'.optind == 1 + |AllWords(gs)| && Call(s', [program] + AllWords(gs) + rest, opts) == (s', Eof)
  {
    var av, w := [program] + AllWords(gs) + rest, AllWords(gs);
    assert av[1..1 + |w|] == w;
    s' := GroupsBack(Started(s), av, opts, gs);
    if rest != [] {
      assert av[1 + |w|] == rest[0];
    }
  }

  const OPTS := "aP:b|d;"

  lemma FourLetters()
    ensures KindOf(OPTS, 'a') == Plain && KindOf(OPTS, 'P') == Colon
    ensures KindOf(OPTS, 'b') == Bar && KindOf(OPTS, 'd') == Semi
    ensures 'a' in OPTS && 'P' in OPTS && 'b' in OPTS && 'd' in OPTS
  {
    FindIs(OPTS, 'a', 0);
    FindIs(OPTS, 'P', 1);
    FindIs(OPTS, 'b', 3);
    FindIs(OPTS, 'd', 5);
  }

  /** -aP 2: a flag, ... */
  lemma TheFlag(av: seq<string>, s: Scan)
    requires |av| > 2 && av[1] == "-aP" && s.optind == s.n == 1
    ensures Call(s, av, OPTS) == (s.(n := 2), Letter('a'))
  {
    FourLetters();
  }

  /** ... and a needed argument in the next word. */
  lemma TheNext(av: seq<string>, s: Scan)
    requires |av| > 2 && av[1] == "-aP" && av[2] == "2" && s.optind == 1 && s.n == 2
    ensures Call(s, av, OPTS) == (s.(optind := 3, n := 1, optarg := Some("2")), Letter('P'))
  {
    FourLetters();
  }

  /** -b and -b3: an optional argument that is missing, and one that is attached. */
  lemma OptionalOnes(av: seq<string>, s: Scan)
    requires |av| > 4 && av[3] == "-b" && av[4] == "-b3" && s.optind == 3 && s.n == 1
    ensures Call(s, av, OPTS) == (s.(optind := 4, optarg := None), Letter('b'))
    ensures Call(s.(optind := 4), av, OPTS) == (s.(optind := 5, optarg := Some("3")), Letter('b'))
  {
    FourLetters();
    assert av[4][2..] == "3";
  }

  /** -d4 and an operand: an argument that must be attached, and the end. */
  lemma AttachedAndEnd(av: seq<string>, s: Scan)
    requires |av| > 6 && av[5] == "-d4" && av[6] == "5" && s.optind == 5 && s.n == 1
    ensures Call(s, av, OPTS) == (s.(optind := 6, optarg := Some("4")), Letter('d'))
    ensures Call(s.(optind := 6), av, OPTS) == (s.(optind := 6), Eof)
  {
    FourLetters();
    assert av[5][2..] == "4";
  }

  /** With option string "aP:b|d;" the words -aP 2 -b -b3 -d4 and an operand give a without argument,
      P with 2, b without, b with 3, d with 4, and the end at the operand. */
  lemma WrittenOut(av: seq<string>)
    requires |av| == 7 && av[1] == "-aP" && av[2] == "2" && av[3] == "-b" && av[4] == "-b3" && av[5] == "-d4"
    requires av[6] == "5"
    ensures Call(Scan(0, 0, None, '?'), av, OPTS) == (Scan(1, 2, None, '?'), Letter('a'))
    ensures Call(Scan(1, 2, None, '?'), av, OPTS) == (Scan(3, 1, Some("2"), '?'), Letter('P'))
    ensures Call(Scan(3, 1, Some("2"), '?'), av, OPTS) == (Scan(4, 1, None, '?'), Letter('b'))
    ensures Call(Scan(4, 1, None, '?'), av, OPTS) == (Scan(5, 1, Some("3"), '?'), Letter('b'))
    ensures Call(Scan(5, 1, Some("3"), '?'), av, OPTS) == (Scan(6, 1, Some("4"), '?'), Letter('d'))
    ensures Call(Scan(6, 1, Some("4"), '?'), av, OPTS) == (Scan(6, 1, Some("4"), '?'), Eof)
  {
    TheFlag(av, Scan(1, 1, None, '?'));
    TheNext(av, Scan(1, 2, None, '?'));
    OptionalOnes(av, Scan(3, 1, Some("2"), '?'));
    OptionalOnes(av, Scan(3, 1, None, '?'));
    AttachedAndEnd(av, Scan(5, 1, Some("3"), '?'));
    AttachedAndEnd(av, Scan(5, 1, Some("4"), '?'));
  }

  // ----- and nothing else is -----

  /** k calls give letters, and the next the end. */
  ghost predicate Clean(s: Scan, av: seq<string>, opts: string, k: nat)
    decreases k
  {
    var (t, out) := Call(s, av, opts);
    if k == 0 then out == Eof else out.Letter? && Clean(t, av, opts, k - 1)
  }

  /** The words from i to e are those of gs; inside a word, those of its rest. */
  ghost predicate Reads(s: Scan, av: seq<string>, gs: seq<Group>, e: nat) {
    if s.optind < |av| && IsOption(av[s.optind]) then
      && gs != [] && s.n < |av[s.optind]| && av[s.optind][s.n..] == gs[0].Tail()
      && s.optind + 1 <= e <= |av| && av[s.optind + 1..e] == gs[0].More() + AllWords(gs[1..])
    else gs == [] && e == s.optind
  }

  lemma {:induction false} CleanReads(s: Scan, av: seq<string>, opts: string, k: nat) returns (gs: seq<Group>, e: nat)
    requires s.optind >= 1 && InWord(s, av) && Clean(s, av, opts, k)
    ensures AllValid(gs, opts) && Reads(s, av, gs, e) && (e >= |av| || !IsOption(av[e]))
    decreases k
  {
    if k == 0 {
      gs, e := [], s.optind;
    } else {
      FaultIff(s, av, opts);
      var t := Call(s, av, opts).0;
      var c, more := av[s.optind][s.n], s.n + 1 < |av[s.optind]|;
      var hs, f := CleanReads(t, av, opts, k - 1);
      e := f;
      if KindOf(opts, c) == Plain && more {
        gs := [Group([c] + hs[0].plain, hs[0].last)] + hs[1..];
        LetterInFront(s, t, av, opts, hs, e, c);
      } else {
        var g := LastOfWord(s, t, av, opts);
        gs := [g] + hs;
        GroupInFront(s, t, av, opts, g, hs, e);
      }
    }
  }

  /** A letter that ends its word, with whatever it takes. */
  lemma LastOfWord(s: Scan, t: Scan, av: seq<string>, opts: string) returns (g: Group)
    requires 1 <= s.optind < |av| && IsOption(av[s.optind]) && s.n < |av[s.optind]|
    requires Call(s, av, opts) == (t, Letter(av[s.optind][s.n]))
    requires KindOf(opts, av[s.optind][s.n]) == Plain ==> s.n + 1 == |av[s.optind]|
    ensures g.Valid(opts) && av[s.optind][s.n..] == g.Tail()
    ensures t.optind == s.optind + 1 + |g.More()| <= |av| && t.n == 1 && av[s.optind + 1..t.optind] == g.More()
  {
    var word, c := av[s.optind], av[s.optind][s.n];
    assert word[s.n..] == [c] + word[s.n + 1..];
    if KindOf(opts, c) == Plain {
      g := Group([c], Nothing);
    } else if s.n + 1 < |word| {
      g := Group("", Attached(c, word[s.n + 1..]));
    } else if KindOf(opts, c) == Bar {
      g := Group("", Bare(c));
    } else {
      g := Group("", Separate(c, av[s.optind + 1]));
      assert av[s.optind + 1..t.optind] == [av[s.optind + 1]];
    }
  }

  lemma LetterInFront(s: Scan, t: Scan, av: seq<string>, opts: string, hs: seq<Group>, e: nat, c: char)
    requires s.optind < |av| && IsOption(av[s.optind]) && s.n + 1 < |av[s.optind]| && c == av[s.optind][s.n]
    requires t.optind == s.optind && t.n == s.n + 1
    requires c in opts && KindOf(opts, c) == Plain && AllValid(hs, opts) && Reads(t, av, hs, e)
    ensures var gs := [Group([c] + hs[0].plain, hs[0].last)] + hs[1..];
            AllValid(gs, opts) && Reads(s, av, gs, e)
  {
    var g, h := Group([c] + hs[0].plain, hs[0].last), hs[0];
    var gs := [g] + hs[1..];
    assert gs[1..] == hs[1..];
    assert g.Tail() == [c] + h.Tail();
    assert av[s.optind][s.n..] == [c] + av[s.optind][s.n + 1..];
    assert h.Valid(opts);
    assert g.Valid(opts);
  }

  lemma GroupInFront(s: Scan, t: Scan, av: seq<string>, opts: string, g: Group, hs: seq<Group>, e: nat)
    requires 1 <= s.optind < |av| && IsOption(av[s.optind]) && s.n < |av[s.optind]| && av[s.optind][s.n..] == g.Tail()
    requires g.Valid(opts) && t.optind == s.optind + 1 + |g.More()| <= |av| && t.n == 1
    requires av[s.optind + 1..t.optind] == g.More()
    requires AllValid(hs, opts) && Reads(t, av, hs, e)
    ensures AllValid([g] + hs, opts) && Reads(s, av, [g] + hs, e)
  {
    assert ([g] + hs)[1..] == hs;
    WordsFrom(t, av, hs, e);
    assert av[s.optind + 1..e] == av[s.optind + 1..t.optind] + av[t.optind..e];
  }

  lemma WordsFrom(t: Scan, av: seq<string>, hs: seq<Group>, e: nat)
    requires 1 <= t.optind <= |av| && t.n == 1 && Reads(t, av, hs, e)
    ensures t.optind <= e <= |av| && av[t.optind..e] == AllWords(hs)
  {
    if hs != [] {
      assert av[t.optind] == "-" + av[t.optind][1..];
      assert av[t.optind..e] == [av[t.optind]] + av[t.optind + 1..e];
    }
  }

  /** The words from 1 to e are written from gs, and what follows is an operand or nothing. */
  ghost predicate Written(av: seq<string>, opts: string, gs: seq<Group>, e: nat) {
    1 <= e <= |av| && AllValid(gs, opts) && av[1..e] == AllWords(gs) && (e < |av| ==> !IsOption(av[e]))
  }

  /** Calls give letters and then the end. */
  ghost predicate Parses(s: Scan, av: seq<string>, opts: string) { exists k: nat :: Clean(s, av, opts, k) }

  ghost predicate IsWritten(av: seq<string>, opts: string) {
    exists gs: seq<Group>, e: nat :: Written(av, opts, gs, e)
  }

  /** A command line is parsed without a complaint exactly if it is one of those written above. */
  lemma CleanIffWritten(s: Scan, av: seq<string>, opts: string)
    requires s.optind == 0 && av != []
    ensures Parses(Started(s), av, opts) <==> IsWritten(av, opts)
  {
    if Parses(Started(s), av, opts) {
      var k: nat :| Clean(Started(s), av, opts, k);
      var gs, e := CleanIsWritten(s, av, opts, k);
    }
    if IsWritten(av, opts) {
      var gs: seq<Group>, e: nat :| Written(av, opts, gs, e);
      WrittenIsClean(s, av, opts, gs, e);
    }
  }

  lemma CleanIsWritten(s: Scan, av: seq<string>, opts: string, k: nat) returns (gs: seq<Group>, e: nat)
    requires s.optind == 0 && av != [] && Clean(Started(s), av, opts, k)
    ensures Written(av, opts, gs, e)
  {
    gs, e := CleanReads(Started(s), av, opts, k);
    WordsFrom(Started(s), av, gs, e);
  }

  lemma WrittenIsClean(s: Scan, av: seq<string>, opts: string, gs: seq<Group>, e: nat)
    requires s.optind == 0 && Written(av, opts, gs, e)
    ensures Clean(Started(s), av, opts, |AllItems(gs)|)
  {
    var s' := GroupsBack(Started(s), av, opts, gs);
    DeliversClean(Started(s), av, opts, AllItems(gs), s');
  }

  lemma {:induction false} DeliversClean(s: Scan, av: seq<string>, opts: string, items: seq<Item>, s': Scan)
    requires Delivers(s, av, opts, items, s') && Call(s', av, opts).1 == Eof
    ensures Clean(s, av, opts, |items|)
    decreases |items|
  {
    if items != [] {
      DeliversClean(Call(s, av, opts).0, av, opts, items[1..], s');
    }
  }
}
