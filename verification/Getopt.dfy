/** getopt.c in PERMUTE mode: options are moved in front of the other arguments, in place. */
module Getopt {
  import opened Sequences

  type Text = string

  const TERMINATOR: Text := "--"

  /** An element with option syntax: a dash and at least one more character. */
  predicate IsOption(a: Text) {
    |a| >= 2 && a[0] == '-'
  }

  /** Options with their arguments, and everything else. */
  datatype Parts = Parts(options: seq<Text>, others: seq<Text>)

  /** The arguments as the command line means them, read from the left. `takes` says which option
      elements use the following element as their argument when there is one. */
  function Split(s: seq<Text>, takes: Text -> bool): Parts {
    if s == [] then Parts([], [])
    else if s[0] == TERMINATOR then Parts([s[0]], s[1..])
    else if IsOption(s[0]) then
      var n := Slots(s, takes);
      var p := Split(s[n..], takes);
      p.(options := s[..n] + p.options)
    else
      var p := Split(s[1..], takes);
      p.(others := [s[0]] + p.others)
  }

  /** How many elements the option at the front occupies. */
  function Slots(s: seq<Text>, takes: Text -> bool): nat
    requires s != []
  {
    if takes(s[0]) && |s| > 1 then 2 else 1
  }

  /** What was found so far, in front of what the rest splits into. */
  function Glue(options: seq<Text>, others: seq<Text>, p: Parts): Parts {
    Parts(options + p.options, others + p.others)
  }

  /** Nothing is lost or invented. */
  lemma {:induction false} SplitIsPermutation(s: seq<Text>, takes: Text -> bool)
    ensures var p := Split(s, takes); multiset(p.options) + multiset(p.others) == multiset(s)
  {
    if s == [] {
    } else if s[0] == TERMINATOR || !IsOption(s[0]) {
      assert s == [s[0]] + s[1..];
      if s[0] != TERMINATOR { SplitIsPermutation(s[1..], takes); }
    } else {
      var n := Slots(s, takes);
      SplitIsPermutation(s[n..], takes);
      assert s == s[..n] + s[n..];
    }
  }

  /** The scan meets the element "--". */
  predicate Terminated(s: seq<Text>, takes: Text -> bool) {
    s != []
    && (s[0] == TERMINATOR || if IsOption(s[0]) then Terminated(s[Slots(s, takes)..], takes) else Terminated(s[1..], takes))
  }

  /** The scan ends on an option that uses the next element, but there is none. */
  predicate Dangling(s: seq<Text>, takes: Text -> bool) {
    s != [] && s[0] != TERMINATOR
    && if IsOption(s[0]) then (takes(s[0]) && |s| == 1) || Dangling(s[Slots(s, takes)..], takes)
       else Dangling(s[1..], takes)
  }

  /** Without "--", what is left over has no option syntax. */
  lemma {:induction false} OthersAreNoOptions(s: seq<Text>, takes: Text -> bool)
    requires !Terminated(s, takes)
    ensures forall a :: a in Split(s, takes).others ==> !IsOption(a)
  {
    if s == [] {
    } else if IsOption(s[0]) {
      OthersAreNoOptions(s[Slots(s, takes)..], takes);
    } else {
      OthersAreNoOptions(s[1..], takes);
    }
  }

  lemma {:induction false} NoOptions(s: seq<Text>, takes: Text -> bool)
    requires forall a :: a in s ==> !IsOption(a)
    ensures Split(s, takes) == Parts([], s)
  {
    if s != [] {
      assert s[0] in s && IsOption(TERMINATOR);
      NoOptions(s[1..], takes);
      assert s == [s[0]] + s[1..];
    }
  }

  /** One option at the front of a list does not depend on what follows it, unless it misses its argument. */
  lemma FirstOption(s: seq<Text>, takes: Text -> bool, rest: seq<Text>)
    requires s != [] && IsOption(s[0]) && s[0] != TERMINATOR
    requires !(takes(s[0]) && |s| == 1)
    ensures var n := Slots(s, takes);
            Split(s[..n] + rest, takes) == Split(rest, takes).(options := s[..n] + Split(rest, takes).options)
  {
    var n := Slots(s, takes);
    var t := s[..n] + rest;
    assert t[..n] == s[..n] && t[n..] == rest && t[0] == s[0];
  }

  /** The options alone mean the same in front of any other arguments. */
  lemma {:induction false} OptionsStay(s: seq<Text>, takes: Text -> bool, tail: seq<Text>)
    requires !Dangling(s, takes) && (Terminated(s, takes) || forall a :: a in tail ==> !IsOption(a))
    ensures Split(Split(s, takes).options + tail, takes) == Parts(Split(s, takes).options, tail)
  {
    if s == [] {
      assert [] + tail == tail;
      NoOptions(tail, takes);
    } else if s[0] == TERMINATOR {
      assert ([s[0]] + tail)[1..] == tail;
    } else if IsOption(s[0]) {
      var n := Slots(s, takes);
      var q := Split(s[n..], takes).options;
      assert Split(s, takes).options == s[..n] + q;
      hide Split;
      OptionsStay(s[n..], takes, tail);
      FirstOption(s, takes, q + tail);
      Associate(s[..n], q, tail);
    } else {
      OptionsStay(s[1..], takes, tail);
    }
  }

  /** An option that misses its argument uses up the first of the other arguments. */
  lemma {:induction false} DanglingSwallows(s: seq<Text>, takes: Text -> bool, tail: seq<Text>)
    requires Dangling(s, takes) && tail != []
    ensures |Split(Split(s, takes).options + tail, takes).options| > |Split(s, takes).options|
  {
    if !IsOption(s[0]) {
      DanglingSwallows(s[1..], takes, tail);
    } else if takes(s[0]) && |s| == 1 {
      assert Split([], takes).options == [];
      assert (s + tail)[..2] == s + [tail[0]];
      assert s[..1] + [] == s;
    } else {
      var n := Slots(s, takes);
      var q := Split(s[n..], takes).options;
      DanglingSwallows(s[n..], takes, tail);
      FirstOption(s, takes, q + tail);
      Associate(s[..n], q, tail);
    }
  }

  /** Scanning the permuted arguments again finds the same options and others, exactly unless the last
      option misses its argument and there are others it could take instead. */
  lemma PermutedIsStable(s: seq<Text>, takes: Text -> bool)
    ensures var p := Split(s, takes);
            Split(p.options + p.others, takes) == p <==> !(Dangling(s, takes) && p.others != [])
  {
    var p := Split(s, takes);
    if !Terminated(s, takes) { OthersAreNoOptions(s, takes); }
    if !Dangling(s, takes) {
      OptionsStay(s, takes, p.others);
    } else if p.others != [] {
      DanglingSwallows(s, takes, p.others);
    } else {
      OnlyOptions(s, takes);
      assert p.options + p.others == s;
    }
  }

  lemma {:induction false} OnlyOptions(s: seq<Text>, takes: Text -> bool)
    requires Split(s, takes).others == []
    ensures Split(s, takes).options == s
  {
    if s != [] && s[0] != TERMINATOR {
      var n := Slots(s, takes);
      OnlyOptions(s[n..], takes);
      assert s == s[..n] + s[n..];
    }
  }

  /** One more option element. */
  lemma OptionStep(a: seq<Text>, n: seq<Text>, r: seq<Text>, takes: Text -> bool)
    requires r != [] && IsOption(r[0]) && r[0] != TERMINATOR
    ensures var k := Slots(r, takes); Glue(a, n, Split(r, takes)) == Glue(a + r[..k], n, Split(r[k..], takes))
  {
    var k := Slots(r, takes);
    assert a + (r[..k] + Split(r[k..], takes).options) == a + r[..k] + Split(r[k..], takes).options;
  }

  /** One more element that is not an option. */
  lemma OtherStep(a: seq<Text>, n: seq<Text>, r: seq<Text>, takes: Text -> bool)
    requires r != [] && !IsOption(r[0])
    ensures Glue(a, n, Split(r, takes)) == Glue(a, n + [r[0]], Split(r[1..], takes))
  {
    assert IsOption(TERMINATOR);
    assert n + ([r[0]] + Split(r[1..], takes).others) == n + [r[0]] + Split(r[1..], takes).others;
  }

  /** The element "--", or the end. */
  lemma LastStep(a: seq<Text>, n: seq<Text>, r: seq<Text>, takes: Text -> bool)
    requires r == [] || r[0] == TERMINATOR
    ensures Glue(a, n, Split(r, takes)) == if r == [] then Parts(a, n) else Parts(a + [TERMINATOR], n + r[1..])
  {
    assert a + [] == a && n + [] == n;
  }

  // ---- the block swap --------------------------------------------------------------

  /** The blocks s[b..m] and s[m..t] exchanged. */
  function Rotated<T>(s: seq<T>, b: nat, m: nat, t: nat): seq<T>
    requires b <= m <= t <= |s|
  {
    s[..b] + s[m..t] + s[b..m] + s[t..]
  }

  /** Two blocks of equal length exchanged. */
  function Swapped<T>(s: seq<T>, i: nat, j: nat, n: nat): seq<T>
    requires i + n <= j && j + n <= |s|
  {
    s[..i] + s[j..j + n] + s[i + n..j] + s[i..i + n] + s[j + n..]
  }

  /** Four blocks in a row: each is found where it stands. */
  lemma FourBlocks<T>(a: seq<T>, l: seq<T>, r: seq<T>, z: seq<T>)
    ensures var (s, b, m, t) := (a + l + r + z, |a|, |a| + |l|, |a| + |l| + |r|);
            s[..b] == a && s[b..m] == l && s[m..t] == r && s[t..] == z
  {
  }

  lemma RotatedOf<T>(s: seq<T>, b: nat, m: nat, t: nat, a: seq<T>, l: seq<T>, r: seq<T>, z: seq<T>)
    requires s == a + l + r + z && b == |a| && m == b + |l| && t == m + |r|
    ensures Rotated(s, b, m, t) == a + r + l + z
  {
    FourBlocks(a, l, r, z);
  }

  lemma Regroup<T>(a: seq<T>, x: seq<T>, y: seq<T>, l: seq<T>, r: seq<T>)
    ensures a + x + y + (l + r) == a + (x + y) + l + r
  {
  }

  /** The bottom block is shorter: it goes to the far end of the top block, and is in place. */
  lemma ShortBottom<T>(s: seq<T>, b: nat, m: nat, t: nat)
    requires b <= m <= t <= |s| && m - b < t - m
    ensures Rotated(Swapped(s, b, t - (m - b), m - b), b, m, t - (m - b)) == Rotated(s, b, m, t)
  {
    var x := t - (m - b);
    var w := Swapped(s, b, x, m - b);
    var (bottom, near, far, rest) := (s[b..m], s[m..x], s[x..t], s[t..]);
    Associate(s[..b] + far + near, bottom, rest);
    RotatedOf(w, b, m, x, s[..b], far, near, bottom + rest);
    Join(s, m, x, t);
    Regroup(s[..b], near, far, bottom, rest);
  }

  /** The top block is not longer: it goes to the start of the bottom block, and is in place. */
  lemma ShortTop<T>(s: seq<T>, b: nat, m: nat, t: nat)
    requires b <= m <= t <= |s| && t - m <= m - b
    ensures Rotated(Swapped(s, b, m, t - m), b + (t - m), m, t) == Rotated(s, b, m, t)
  {
    var x := b + (t - m);
    var w := Swapped(s, b, m, t - m);
    var (near, far, top, rest) := (s[b..x], s[x..m], s[m..t], s[t..]);
    RotatedOf(w, x, m, t, s[..b] + top, far, near, rest);
    Join(s, b, x, m);
    Associate(s[..b] + top, near, far);
  }

  lemma RotatedParts<T>(s: seq<T>, k: nat, b: nat, m: nat, t: nat)
    requires k <= b <= m <= t <= |s|
    ensures var (w, x) := (Rotated(s, b, m, t), b + (t - m));
            w[..k] == s[..k] && w[k..x] == s[k..b] + s[m..t] && w[x..t] == s[b..m] && w[t..] == s[t..]
  {
    Join(s, 0, k, b);
    assert s[0..k] == s[..k] && s[0..b] == s[..b];
    Associate(s[..k], s[k..b], s[m..t]);
    FourBlocks(s[..k], s[k..b] + s[m..t], s[b..m], s[t..]);
  }

  /** The same up to the end. */
  lemma EndParts<T>(s: seq<T>, b: nat, m: nat, t: nat)
    requires 1 <= b <= m <= t <= |s|
    ensures var (w, x) := (Rotated(s, b, m, t), b + (t - m));
            |w| == |s| && w[..1] == s[..1] && w[1..x] == s[1..b] + s[m..t] && w[x..] == s[b..m] + s[t..]
  {
    RotatedParts(s, 1, b, m, t);
    var w := Rotated(s, b, m, t);
    assert |w| == |s|;
    hide Rotated;
    Join(w, b + (t - m), t, |w|);
    assert w[t..|w|] == w[t..] && w[b + (t - m)..|w|] == w[b + (t - m)..];
  }

  lemma NothingToRotate<T>(s: seq<T>, b: nat, m: nat, t: nat)
    requires b <= m <= t <= |s| && (b == m || m == t)
    ensures Rotated(s, b, m, t) == s
  {
    assert s[..b] == s[0..b] && s[t..] == s[t..|s|];
    Join(s, 0, b, m);
    Join(s, 0, m, t);
    Join(s, 0, t, |s|);
    assert s[m..m] == [] && s[0..b] + [] == s[0..b] && s[0..t] + [] == s[0..t] && s[0..m] + [] == s[0..m];
  }

  method SwapBlocks(argv: array<Text>, i: nat, j: nat, n: nat)
    requires i + n <= j && j + n <= argv.Length
    modifies argv
    ensures argv[..] == Swapped(old(argv[..]), i, j, n)
  {
    ghost var s := argv[..];
    for k := 0 to n
      invariant argv[..] == Swapped(s, i, j, k)
    {
      ghost var w := argv[..];
      argv[i + k], argv[j + k] := argv[j + k], argv[i + k];
      OneMore(s, i, j, k);
    }
  }

  lemma SwappedAt<T>(s: seq<T>, i: nat, j: nat, n: nat, x: nat)
    requires i + n <= j && j + n <= |s| && x < |s|
    ensures |Swapped(s, i, j, n)| == |s|
    ensures Swapped(s, i, j, n)[x] == s[if i <= x < i + n then x + (j - i) else if j <= x < j + n then x - (j - i) else x]
  {
  }

  lemma OneMore<T>(s: seq<T>, i: nat, j: nat, k: nat)
    requires i + k < j && j + k < |s|
    ensures var w := Swapped(s, i, j, k);
            && |w| == |s| && w[i + k := w[j + k]][j + k := w[i + k]] == Swapped(s, i, j, k + 1)
  {
    var w, v := Swapped(s, i, j, k), Swapped(s, i, j, k + 1);
    SwappedAt(s, i, j, k, i + k);
    SwappedAt(s, i, j, k, j + k);
    SwappedAt(s, i, j, k + 1, 0);
    forall x | 0 <= x < |s|
      ensures w[i + k := w[j + k]][j + k := w[i + k]][x] == v[x]
    {
      SwappedAt(s, i, j, k, x);
      SwappedAt(s, i, j, k + 1, x);
      hide Swapped;
    }
  }

  class Scanner {
    const argv: array<Text>
    var optind: nat
    var firstNonopt: nat
    var lastNonopt: nat

    ghost predicate Valid()
      reads this
    {
      argv.Length > 0 ==> 1 <= firstNonopt <= lastNonopt <= optind <= argv.Length
    }

    /** The arguments, as they stand: options already in place, then the others met so far, then
        options found behind them, then what was not looked at. All of it together still means `p`. */
    ghost predicate Scanned(p: Parts, takes: Text -> bool)
      requires Valid() && argv.Length > 0
      reads this, argv
    {
      p == Glue(argv[1..firstNonopt] + argv[lastNonopt..optind], argv[firstNonopt..lastNonopt], Split(argv[optind..], takes))
    }

    /** _getopt_initialize. */
    constructor (argv: array<Text>, takes: Text -> bool)
      ensures Valid() && this.argv == argv && (argv.Length > 0 ==> Scanned(Split(argv[1..], takes), takes))
    {
      this.argv, optind, firstNonopt, lastNonopt := argv, 1, 1, 1;
      new;
      if argv.Length > 0 {
        assert argv[1..1] + argv[1..1] == [];
      }
    }

    /** exchange: the others and the options behind them change places, each in its own order. */
    method Exchange()
      requires Valid() && argv.Length > 0
      modifies this`firstNonopt, this`lastNonopt, argv
      ensures argv[..] == Rotated(old(argv[..]), old(firstNonopt), old(lastNonopt), optind)
      ensures firstNonopt == old(firstNonopt) + (optind - old(lastNonopt)) && lastNonopt == optind
    {
      hide Rotated, Swapped;
      var bottom, middle, top := firstNonopt, lastNonopt, optind;
      ghost var target := Rotated(argv[..], bottom, middle, top);
      while top > middle > bottom
        invariant 0 <= bottom <= middle <= top <= argv.Length
        invariant Rotated(argv[..], bottom, middle, top) == target
        decreases top - bottom
        modifies argv
      {
        if top - middle > middle - bottom {
          var len := middle - bottom;
          ShortBottom(argv[..], bottom, middle, top);
          SwapBlocks(argv, bottom, top - len, len);
          top := top - len;
        } else {
          var len := top - middle;
          ShortTop(argv[..], bottom, middle, top);
          SwapBlocks(argv, bottom, middle, len);
          bottom := bottom + len;
        }
      }
      NothingToRotate(argv[..], bottom, middle, top);
      firstNonopt := firstNonopt + (optind - lastNonopt);
      lastNonopt := optind;
    }

    /** Options found so far, others found so far, and the rest, which together mean `p`. */
    ghost predicate Front(p: Parts, takes: Text -> bool)
      reads this, argv
    {
      && 1 <= firstNonopt <= optind <= argv.Length
      && p == Glue(argv[1..firstNonopt], argv[firstNonopt..optind], Split(argv[optind..], takes))
    }

    /** Options found behind others are moved in front of them. */
    method Settle(takes: Text -> bool, ghost p: Parts)
      requires Valid() && argv.Length > 0 && Scanned(p, takes)
      modifies this`firstNonopt, this`lastNonopt, argv
      ensures Front(p, takes) && argv[0] == old(argv[0])
    {
      hide Glue, Split, Rotated;
      ghost var s := argv[..];
      RotatedParts(s, 1, firstNonopt, lastNonopt, optind);
      if firstNonopt != lastNonopt && lastNonopt != optind {
        Exchange();
        assert argv[0] == argv[..][..1][0] == s[..1][0];
      } else if lastNonopt != optind {
        Join(s, 1, firstNonopt, optind);
        assert s[optind..optind] == s[firstNonopt..lastNonopt];
        firstNonopt := optind;
      } else {
        assert argv[1..firstNonopt] + argv[lastNonopt..optind] == argv[1..firstNonopt];
      }
    }

    method SkipOthers(takes: Text -> bool, ghost p: Parts)
      requires Front(p, takes)
      modifies this`optind, this`lastNonopt
      ensures Front(p, takes) && lastNonopt == optind >= old(optind)
      ensures optind < argv.Length ==> IsOption(argv[optind])
    {
      hide Glue, Split;
      while optind < argv.Length && !IsOption(argv[optind])
        invariant Front(p, takes) && optind >= old(optind)
        decreases argv.Length - optind
      {
        OtherStep(argv[1..firstNonopt], argv[firstNonopt..optind], argv[optind..], takes);
        assert argv[optind..][1..] == argv[optind + 1..];
        assert argv[firstNonopt..optind + 1] == argv[firstNonopt..optind] + [argv[optind]];
        optind := optind + 1;
      }
      lastNonopt := optind;
    }

    /** The element "--" ends the options, and is one itself. */
    method Terminate(takes: Text -> bool, ghost p: Parts)
      requires Front(p, takes) && lastNonopt == optind < argv.Length && argv[optind] == TERMINATOR
      modifies this, argv
      ensures 1 <= firstNonopt <= optind == lastNonopt == argv.Length && argv[0] == old(argv[0])
      ensures argv[1..firstNonopt] == p.options && argv[firstNonopt..] == p.others
    {
      hide Glue, Split, Rotated, IsOption;
      ghost var s := argv[..];
      LastStep(argv[1..firstNonopt], argv[firstNonopt..optind], argv[optind..], takes);
      assert s[optind..][1..] == s[optind + 1..] && s[optind..optind + 1] == [TERMINATOR];
      optind := optind + 1;
      EndParts(s, firstNonopt, lastNonopt, optind);
      if firstNonopt != lastNonopt && lastNonopt != optind {
        Exchange();
        assert argv[0] == argv[..][..1][0] == s[..1][0];
      } else if firstNonopt == lastNonopt {
        Join(s, 1, firstNonopt, optind);
        assert [] + s[optind..] == s[optind..];
        firstNonopt := optind;
      }
      lastNonopt := argv.Length;
      optind := argv.Length;
    }

    lemma FrontAtEnd(p: Parts, takes: Text -> bool)
      requires Front(p, takes) && optind == argv.Length
      ensures argv[1..firstNonopt] == p.options && argv[firstNonopt..] == p.others
    {
      LastStep(argv[1..firstNonopt], argv[firstNonopt..optind], argv[optind..], takes);
    }

    lemma TwoParts(k: nat)
      requires 1 <= k <= argv.Length
      ensures argv[1..k] + argv[k..] == argv[1..]
    {
    }

    /** One call of getopt_long, up to the end of an option element: true when the scan is over. */
    method Next(takes: Text -> bool, ghost p: Parts) returns (done: bool)
      requires Valid() && (argv.Length > 0 ==> Scanned(p, takes))
      modifies this, argv
      ensures argv.Length > 0 ==> argv[0] == old(argv[0])
      ensures !done ==> Valid() && old(optind) < optind <= argv.Length && Scanned(p, takes)
      ensures done && argv.Length > 0 ==> argv[1..] == p.options + p.others && optind == 1 + |p.options|
    {
      hide Glue, Split;
      if argv.Length < 1 { return true; }
      Settle(takes, p);
      SkipOthers(takes, p);
      if optind != argv.Length && argv[optind] == TERMINATOR {
        Terminate(takes, p);
      } else if optind == argv.Length {
        FrontAtEnd(p, takes);
      }
      if optind == argv.Length {
        TwoParts(firstNonopt);
        if firstNonopt != lastNonopt { optind := firstNonopt; }
        return true;
      }
      TakeOption(takes, p);
      return false;
    }

    /** An option element, with its argument if it uses the next element. */
    method TakeOption(takes: Text -> bool, ghost p: Parts)
      requires Front(p, takes) && lastNonopt == optind < argv.Length
      requires IsOption(argv[optind]) && argv[optind] != TERMINATOR
      modifies this`optind
      ensures Valid() && old(optind) < optind && Scanned(p, takes)
    {
      hide Glue, Split;
      ghost var (r, n) := (argv[optind..], Slots(argv[optind..], takes));
      OptionStep(argv[1..firstNonopt], argv[firstNonopt..optind], r, takes);
      assert r[n..] == argv[optind + n..] && r[..n] == argv[optind..optind + n];
      optind := optind + if takes(argv[optind]) && optind + 1 < argv.Length then 2 else 1;
    }
  }

  /** Calling it until it returns -1, from the first element on: the options end up in front, with
      their arguments, everything else behind, both in their original order, and optind between them. */
  method Permute(argv: array<Text>, takes: Text -> bool) returns (optind: nat)
    requires argv.Length > 0
    modifies argv
    ensures var p := Split(old(argv[1..]), takes);
            && argv[..] == [old(argv[0])] + p.options + p.others
            && optind == 1 + |p.options|
  {
    hide Split, Glue;
    ghost var p := Split(argv[1..], takes);
    var scanner := new Scanner(argv, takes);
    var done := false;
    while !done
      invariant scanner.argv == argv && fresh(scanner) && argv[0] == old(argv[0])
      invariant !done ==> scanner.Valid() && scanner.Scanned(p, takes)
      invariant done ==> argv[1..] == p.options + p.others && scanner.optind == 1 + |p.options|
      decreases !done, argv.Length - scanner.optind
    {
      done := scanner.Next(takes, p);
    }
    assert argv[..] == [argv[0]] + argv[1..];
    return scanner.optind;
  }
}
