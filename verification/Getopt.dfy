/** The permuting argument scanner: the in-place exchange of two adjacent segments and the call-by-call
    state machine, against the one-pass reading of the original arguments. */
module Getopt {
  import opened GetoptSpec
  import opened GetoptWords

  // ---- exchange ----

  /** s with the segments b..m-1 and m..t-1 exchanged. */
  function Rotated(s: Args, b: nat, m: nat, t: nat): (r: Args)
    requires b <= m <= t <= |s|
    ensures |r| == |s|
  {
    s[..b] + s[m..t] + s[b..m] + s[t..]
  }

  /** s with the length-long segments at x and y swapped. */
  function Swapped(s: Args, x: nat, y: nat, length: nat): (r: Args)
    requires x + length <= y && y + length <= |s|
    ensures |r| == |s|
  {
    s[..x] + s[y..y + length] + s[x + length..y] + s[x..x + length] + s[y + length..]
  }

  /** s after the first n pairs have been swapped. */
  ghost function SwappedTo(s: Args, x: nat, y: nat, n: nat): (r: Args)
    requires x + n <= y && y + n <= |s|
    ensures |r| == |s|
  {
    seq(|s|, k requires 0 <= k < |s| =>
      if x <= k < x + n then s[y + (k - x)] else if y <= k < y + n then s[x + (k - y)] else s[k])
  }

  lemma SwapOne(s: Args, x: nat, y: nat, n: nat)
    requires x + n < y && y + n < |s|
    ensures var r := SwappedTo(s, x, y, n); r[x + n := r[y + n]][y + n := r[x + n]] == SwappedTo(s, x, y, n + 1)
  {
  }

  lemma SwapAll(s: Args, x: nat, y: nat, length: nat)
    requires x + length <= y && y + length <= |s|
    ensures SwappedTo(s, x, y, 0) == s && SwappedTo(s, x, y, length) == Swapped(s, x, y, length)
  {
  }

  method SwapRanges(argv: array<string>, x: nat, y: nat, length: nat)
    requires x + length <= y && y + length <= argv.Length
    modifies argv
    ensures argv[..] == Swapped(old(argv[..]), x, y, length)
  {
    ghost var s := argv[..];
    SwapAll(s, x, y, length);
    hide SwappedTo, Swapped;
    for i := 0 to length
      invariant argv[..] == SwappedTo(s, x, y, i)
    {
      SwapOne(s, x, y, i);
      var tem := argv[x + i];
      argv[x + i] := argv[y + i];
      argv[y + i] := tem;
    }
  }

  /** Where each element of the exchanged sequence comes from. */
  ghost function RotatedFrom(b: int, m: int, t: int, k: int): int
  {
    if b <= k < b + (t - m) then k - b + m else if b + (t - m) <= k < t then k - (t - m) else k
  }

  ghost function SwappedFrom(x: int, y: int, length: int, k: int): int
  {
    if x <= k < x + length then k - x + y else if y <= k < y + length then k - y + x else k
  }

  lemma RotatedAt(s: Args, b: nat, m: nat, t: nat)
    requires b <= m <= t <= |s|
    ensures forall k :: 0 <= k < |s| ==>
              0 <= RotatedFrom(b, m, t, k) < |s| && Rotated(s, b, m, t)[k] == s[RotatedFrom(b, m, t, k)]
  {
  }

  lemma SwappedAt(s: Args, x: nat, y: nat, length: nat)
    requires x + length <= y && y + length <= |s|
    ensures forall k :: 0 <= k < |s| ==>
              0 <= SwappedFrom(x, y, length, k) < |s|
              && Swapped(s, x, y, length)[k] == s[SwappedFrom(x, y, length, k)]
  {
  }

  /** Swapping the short bottom segment with the far end of the top one leaves a smaller exchange. */
  lemma ShortBottom(s: Args, b: nat, m: nat, t: nat)
    requires b <= m <= t <= |s| && t - m >= m - b
    ensures Rotated(Swapped(s, b, t - (m - b), m - b), b, m, t - (m - b)) == Rotated(s, b, m, t)
  {
    hide Rotated, Swapped;
    SwappedAt(s, b, t - (m - b), m - b);
    RotatedAt(Swapped(s, b, t - (m - b), m - b), b, m, t - (m - b));
    RotatedAt(s, b, m, t);
  }

  /** Swapping the short top segment with the near end of the bottom one leaves a smaller exchange. */
  lemma ShortTop(s: Args, b: nat, m: nat, t: nat)
    requires b <= m <= t <= |s| && t - m <= m - b
    ensures Rotated(Swapped(s, b, m, t - m), b + (t - m), m, t) == Rotated(s, b, m, t)
  {
    hide Rotated, Swapped;
    SwappedAt(s, b, m, t - m);
    RotatedAt(Swapped(s, b, m, t - m), b + (t - m), m, t);
    RotatedAt(s, b, m, t);
  }

  lemma NothingToExchange(s: Args, b: nat, m: nat, t: nat)
    requires b <= m <= t <= |s| && (m == t || b == m)
    ensures Rotated(s, b, m, t) == s
  {
  }

  /** Exchanges two adjacent segments in place, each keeping its order. */
  method Exchange(argv: array<string>, first: nat, last: nat, optind: nat)
    requires first <= last <= optind <= argv.Length
    modifies argv
    ensures argv[..] == Rotated(old(argv[..]), first, last, optind)
  {
    hide Rotated, Swapped;
    var bottom: nat, middle: nat, top: nat := first, last, optind;
    while top > middle && middle > bottom
      invariant bottom <= middle <= top <= argv.Length
      invariant Rotated(argv[..], bottom, middle, top) == Rotated(old(argv[..]), first, last, optind)
      decreases top - bottom
    {
      ghost var s := argv[..];
      if top - middle > middle - bottom {
        var len := middle - bottom;
        SwapRanges(argv, bottom, top - len, len);
        ShortBottom(s, bottom, middle, top);
        top := top - len;
      } else {
        var len := top - middle;
        SwapRanges(argv, bottom, middle, len);
        ShortTop(s, bottom, middle, top);
        bottom := bottom + len;
      }
    }
    NothingToExchange(argv[..], bottom, middle, top);
  }

  // ---- the state between calls ----

  /** argv with the scanning positions: first..last-1 are skipped operands, nextchar is what is left of
      the element at optind. */
  datatype Scan = Scan(argv: Args, optind: nat, first: nat, last: nat, nextchar: string)

  ghost predicate Positions(a: Args, st: Scan)
  {
    && 1 <= st.first <= st.last <= st.optind <= |a| == |st.argv|
    && (st.nextchar != [] ==> st.optind < |a|)
    && st.argv[0] == a[0] && st.argv[st.optind..] == a[st.optind..]
  }

  /** Options and operands found so far, together with those still to come, are those of the original
      arguments a. */
  ghost predicate Inv(optstring: string, a: Args, st: Scan)
  {
    && Positions(a, st)
    && Options(optstring, a, 1, [])
       == st.argv[1..st.first] + st.argv[st.last..st.optind] + Options(optstring, a, st.optind, st.nextchar)
    && Operands(optstring, a, 1, []) == st.argv[st.first..st.last] + Operands(optstring, a, st.optind, st.nextchar)
  }

  /** All options first, then all operands, and optind at the first operand. */
  ghost predicate Finished(optstring: string, a: Args, argv: Args, optind: nat)
    requires |a| >= 1
  {
    && argv == a[..1] + Options(optstring, a, 1, []) + Operands(optstring, a, 1, [])
    && optind == 1 + |Options(optstring, a, 1, [])|
  }

  /** The skipped operands stand right before optind. */
  ghost predicate Gathered(optstring: string, a: Args, st: Scan)
  {
    Inv(optstring, a, st) && st.last == st.optind && st.nextchar == []
  }

  lemma RotatedSlices(s: Args, b: nat, m: nat, t: nat)
    requires 1 <= b <= m <= t <= |s|
    ensures var r := Rotated(s, b, m, t);
            r[0] == s[0] && r[1..b + (t - m)] == s[1..b] + s[m..t] && r[b + (t - m)..t] == s[b..m] && r[t..] == s[t..]
  {
  }

  /** Exchanging puts the options found after the skipped operands before them. */
  lemma ExchangeGathers(optstring: string, a: Args, st: Scan)
    requires Inv(optstring, a, st) && st.nextchar == []
    ensures st.first <= st.last <= st.optind <= |st.argv|
    ensures Gathered(optstring, a, Scan(Rotated(st.argv, st.first, st.last, st.optind), st.optind,
                                        st.first + (st.optind - st.last), st.optind, []))
  {
    hide Options, Operands, Rotated;
    RotatedSlices(st.argv, st.first, st.last, st.optind);
    assert Rotated(st.argv, st.first, st.last, st.optind)[st.optind..st.optind] == [];
  }

  lemma NothingSkipped(optstring: string, a: Args, st: Scan)
    requires Inv(optstring, a, st) && st.nextchar == [] && st.first == st.last
    ensures Gathered(optstring, a, Scan(st.argv, st.optind, st.optind, st.optind, []))
  {
    hide Options, Operands;
    var v := st.argv;
    assert v[1..st.optind] == v[1..st.first] + v[st.last..st.optind];
    assert v[st.optind..st.optind] == [] && v[st.first..st.last] == [];
  }

  lemma AlreadyGathered(optstring: string, a: Args, st: Scan)
    requires Inv(optstring, a, st) && st.nextchar == [] && st.last == st.optind
    ensures Gathered(optstring, a, st)
  {
  }

  lemma OperandNext(optstring: string, a: Args, v: Args, i: nat)
    requires i < |a| == |v| && v[i..] == a[i..] && NonOption(v[i])
    ensures a[i] == v[i] && v[i + 1..] == a[i + 1..]
    ensures Operands(optstring, a, i, []) == [a[i]] + Operands(optstring, a, i + 1, [])
    ensures Options(optstring, a, i, []) == Options(optstring, a, i + 1, [])
  {
    SuffixAgrees(a, v, i, i);
    SuffixSlices(a, v, i, i, i + 1);
  }

  lemma GatheredFrom(optstring: string, a: Args, st: Scan)
    requires Positions(a, st) && st.last == st.optind && st.nextchar == []
    requires Options(optstring, a, 1, []) == st.argv[1..st.first] + Options(optstring, a, st.optind, [])
    requires Operands(optstring, a, 1, []) == st.argv[st.first..st.optind] + Operands(optstring, a, st.optind, [])
    ensures Gathered(optstring, a, st)
  {
    hide Options, Operands;
    assert st.argv[st.optind..st.optind] == [];
    assert st.argv[1..st.first] + [] == st.argv[1..st.first];
  }

  lemma GatheredPositions(a: Args, v: Args, first: nat, i: nat)
    requires 1 <= first <= i < |a| == |v| && v[0] == a[0] && v[i + 1..] == a[i + 1..]
    ensures Positions(a, Scan(v, i + 1, first, i + 1, []))
  {
  }

  lemma PushOperand(v: Args, first: nat, i: nat, x: string, more: Args)
    requires first <= i < |v| && v[i] == x
    ensures v[first..i] + ([x] + more) == v[first..i + 1] + more
  {
    assert v[first..i + 1] == v[first..i] + [x];
  }

  /** One more operand is skipped. */
  lemma SkipOperand(optstring: string, a: Args, st: Scan)
    requires Gathered(optstring, a, st) && st.optind < |a| && NonOption(st.argv[st.optind])
    ensures Gathered(optstring, a, Scan(st.argv, st.optind + 1, st.first, st.optind + 1, []))
  {
    var i, v := st.optind, st.argv;
    hide *;
    GatheredMeans(optstring, a, st);
    OperandNext(optstring, a, v, i);
    var next := Scan(v, i + 1, st.first, i + 1, []);
    GatheredPositions(a, v, st.first, i);
    PushOperand(v, st.first, i, a[i], Operands(optstring, a, i + 1, []));
    GatheredFrom(optstring, a, next);
  }

  lemma GatheredMeans(optstring: string, a: Args, st: Scan)
    requires Gathered(optstring, a, st)
    ensures Positions(a, st) && 1 <= st.first <= st.optind <= |a| == |st.argv|
    ensures st.argv[0] == a[0] && st.argv[st.optind..] == a[st.optind..]
    ensures Options(optstring, a, 1, []) == st.argv[1..st.first] + Options(optstring, a, st.optind, [])
    ensures Operands(optstring, a, 1, []) == st.argv[st.first..st.optind] + Operands(optstring, a, st.optind, [])
  {
    hide Options, Operands;
    assert st.argv[st.optind..st.optind] == [];
    assert st.argv[1..st.first] + [] == st.argv[1..st.first];
  }

  lemma NothingLeft(optstring: string, a: Args)
    ensures Options(optstring, a, |a|, []) == [] && Operands(optstring, a, |a|, []) == []
    ensures Events(optstring, a, |a|, []) == []
  {
  }

  /** At the end of the arguments. */
  lemma EndOfArguments(optstring: string, a: Args, st: Scan)
    requires Gathered(optstring, a, st) && st.optind == |a|
    ensures Finished(optstring, a, st.argv, st.first) && Events(optstring, a, st.optind, []) == []
  {
    GatheredMeans(optstring, a, st);
    NothingLeft(optstring, a);
    hide Options, Operands, Events, Gathered, Inv, Positions;
    var v := st.argv;
    SlicesJoin(v, 0, 1, st.first);
    SlicesJoin(v, 0, st.first, |v|);
    assert v[0..1] == a[..1] && v[0..|v|] == v;
  }

  lemma AtEndMarker(optstring: string, a: Args, v: Args, i: nat)
    requires i < |a| == |v| && v[i..] == a[i..] && v[i] == END
    ensures Options(optstring, a, i, []) == [END] && Operands(optstring, a, i, []) == a[i + 1..]
    ensures Events(optstring, a, i, []) == []
    ensures v[i..i + 1] == [END] && v[i + 1..] == a[i + 1..]
  {
    SuffixAgrees(a, v, i, i);
    SuffixSlices(a, v, i, i, i + 1);
  }

  /** At the end marker: it goes before the skipped operands and everything after it is an operand. */
  lemma EndMarker(optstring: string, a: Args, st: Scan)
    requires Gathered(optstring, a, st) && st.optind < |a| && st.argv[st.optind] == END
    ensures Finished(optstring, a, Rotated(st.argv, st.first, st.last, st.optind + 1), st.first + 1)
    ensures Events(optstring, a, st.optind, []) == []
  {
    hide *;
    var v, i := st.argv, st.optind;
    GatheredFacts(optstring, a, st);
    GatheredMeans(optstring, a, st);
    AtEndMarker(optstring, a, v, i);
    MarkerRotates(a, v, st.first, i);
    FinishedFrom(optstring, a, Rotated(v, st.first, i, i + 1), v[1..st.first] + [END], v[st.first..i] + a[i + 1..]);
  }

  lemma MarkerRotates(a: Args, v: Args, first: nat, i: nat)
    requires 1 <= first <= i < |a| == |v| && v[0] == a[0] && v[i + 1..] == a[i + 1..] && v[i..i + 1] == [END]
    ensures Rotated(v, first, i, i + 1) == a[..1] + (v[1..first] + [END]) + (v[first..i] + a[i + 1..])
  {
    assert v[..first] == a[..1] + v[1..first];
  }

  lemma FinishedFrom(optstring: string, a: Args, argv: Args, options: Args, operands: Args)
    requires |a| >= 1 && argv == a[..1] + options + operands
    requires options == Options(optstring, a, 1, []) && operands == Operands(optstring, a, 1, [])
    ensures Finished(optstring, a, argv, 1 + |options|)
  {
    hide Options, Operands;
  }

  /** A new option element is entered. */
  lemma EnterElement(optstring: string, a: Args, st: Scan)
    requires Gathered(optstring, a, st) && st.optind < |a| && !NonOption(st.argv[st.optind])
    requires st.argv[st.optind] != END
    ensures Inv(optstring, a, st.(nextchar := st.argv[st.optind][1..])) && st.argv[st.optind][1..] != []
    ensures Events(optstring, a, st.optind, []) == Events(optstring, a, st.optind, st.argv[st.optind][1..])
  {
    var i := st.optind;
    assert st.argv[i..][0] == a[i..][0];
    assert Options(optstring, a, i, []) == Options(optstring, a, i, a[i][1..]);
    assert Operands(optstring, a, i, []) == Operands(optstring, a, i, a[i][1..]);
    hide Options, Operands;
  }

  lemma DecodeSame(optstring: string, a: Args, v: Args, i: nat, s: string)
    requires s != [] && i < |a| == |v| && a[i..] == v[i..]
    ensures Decode(optstring, a, i, s) == Decode(optstring, v, i, s)
  {
    assert i + 1 < |a| ==> a[i + 1] == a[i..][1] == v[i..][1] == v[i + 1];
    hide Index;
  }

  lemma DecodeUnfolds(optstring: string, a: Args, i: nat, s: string)
    requires s != [] && i < |a|
    ensures var d := Decode(optstring, a, i, s);
            && Options(optstring, a, i, s) == a[i..d.next] + Options(optstring, a, d.next, d.rest)
            && Operands(optstring, a, i, s) == Operands(optstring, a, d.next, d.rest)
            && Events(optstring, a, i, s) == [d.event] + Events(optstring, a, d.next, d.rest)
  {
    hide Decode;
  }

  lemma SlicesJoin(v: Args, i: nat, j: nat, k: nat)
    requires i <= j <= k <= |v|
    ensures v[i..j] + v[j..k] == v[i..k]
  {
  }

  lemma SuffixAgrees(a: Args, v: Args, i: nat, k: nat)
    requires i <= k < |a| == |v| && a[i..] == v[i..]
    ensures a[k] == v[k]
  {
    assert a[i..][k - i] == a[k] && v[i..][k - i] == v[k];
  }

  lemma SuffixSlices(a: Args, v: Args, last: nat, i: nat, next: nat)
    requires last <= i <= next <= |a| == |v| && a[i..] == v[i..]
    ensures v[last..next] == v[last..i] + a[i..next] && v[next..] == a[next..]
  {
    forall k | i <= k < |a|
      ensures a[k] == v[k]
    {
      SuffixAgrees(a, v, i, k);
    }
    assert v[i..next] == a[i..next];
    SlicesJoin(v, last, i, next);
  }

  lemma Regroup(a: Args, b: Args, c: Args, d: Args)
    ensures (a + b) + (c + d) == a + (b + c) + d
  {
  }

  lemma InvMeans(optstring: string, a: Args, st: Scan)
    requires Positions(a, st)
    ensures Inv(optstring, a, st) <==>
      Options(optstring, a, 1, [])
      == st.argv[1..st.first] + st.argv[st.last..st.optind] + Options(optstring, a, st.optind, st.nextchar)
      && Operands(optstring, a, 1, []) == st.argv[st.first..st.last] + Operands(optstring, a, st.optind, st.nextchar)
  {
    hide Positions;
  }

  lemma InvPositions(optstring: string, a: Args, st: Scan)
    requires Inv(optstring, a, st)
    ensures Positions(a, st) && 1 <= st.first <= st.last <= st.optind <= |a| == |st.argv|
    ensures (st.nextchar != [] ==> st.optind < |a|) && st.argv[st.optind..] == a[st.optind..] && st.argv[0] == a[0]
  {
    hide Options, Operands;
  }

  lemma MovedPositions(a: Args, st: Scan, next: nat, rest: string)
    requires Positions(a, st) && st.optind <= next <= |a| && (rest != [] ==> next < |a|) && st.argv[next..] == a[next..]
    ensures Positions(a, st.(optind := next, nextchar := rest))
  {
  }

  /** One option character is decoded. */
  lemma DecodeStep(optstring: string, a: Args, st: Scan)
    requires Inv(optstring, a, st) && st.nextchar != []
    ensures |st.argv| == |a| && st.optind < |a|
    ensures var d := Decode(optstring, a, st.optind, st.nextchar);
            && d == Decode(optstring, st.argv, st.optind, st.nextchar)
            && Inv(optstring, a, st.(optind := d.next, nextchar := d.rest))
            && Events(optstring, a, st.optind, st.nextchar) == [d.event] + Events(optstring, a, d.next, d.rest)
  {
    hide *;
    InvPositions(optstring, a, st);
    InvMeans(optstring, a, st);
    var d := Decode(optstring, a, st.optind, st.nextchar);
    DecodeSame(optstring, a, st.argv, st.optind, st.nextchar);
    DecodeUnfolds(optstring, a, st.optind, st.nextchar);
    SuffixSlices(a, st.argv, st.last, st.optind, d.next);
    MovedPositions(a, st, d.next, d.rest);
    Regroup(st.argv[1..st.first], st.argv[st.last..st.optind], a[st.optind..d.next],
            Options(optstring, a, d.next, d.rest));
    InvMeans(optstring, a, st.(optind := d.next, nextchar := d.rest));
  }

  lemma SkipEvents(optstring: string, a: Args, st: Scan)
    requires Gathered(optstring, a, st) && st.optind < |a| && NonOption(st.argv[st.optind])
    ensures Events(optstring, a, st.optind, []) == Events(optstring, a, st.optind + 1, [])
  {
    assert st.argv[st.optind] == st.argv[st.optind..][0] == a[st.optind..][0] == a[st.optind];
    hide Options, Operands;
  }

  lemma FreshInv(optstring: string, a: Args)
    requires |a| >= 1
    ensures Inv(optstring, a, Scan(a, 1, 1, 1, []))
  {
    hide Options, Operands;
    assert a[1..1] == [];
  }

  lemma GatheredFacts(optstring: string, a: Args, st: Scan)
    requires Gathered(optstring, a, st)
    ensures 1 <= st.first <= st.last == st.optind <= |a| == |st.argv| && st.nextchar == []
    ensures st.optind < |a| && !NonOption(st.argv[st.optind]) ==> |st.argv[st.optind]| > 1
  {
    hide Options, Operands;
  }

  /** A position that may not lie beyond optind. */
  function Capped(position: nat, optind: nat): nat
  {
    if position > optind then optind else position
  }

  // ---- the scanner ----

  datatype Result = Finish | Found(event: Event)

  /** The static variables of getopt, in PERMUTE order. */
  class Scanner {
    var optind: nat
    var firstNonopt: nat
    var lastNonopt: nat
    var nextchar: string
    var optarg: Argument
    var initialized: bool

    constructor ()
      ensures !initialized && optind == 1
    {
      optind, initialized := 1, false;
      firstNonopt, lastNonopt, nextchar, optarg := 0, 0, [], NoArg;
    }

    ghost function State(argv: array<string>): Scan
      reads this, argv
    {
      Scan(argv[..], optind, firstNonopt, lastNonopt, nextchar)
    }

    /** Ready for a call: not initialized and argv still the original a, or between calls. */
    ghost predicate Ready(optstring: string, a: Args, argv: array<string>)
      reads this, argv
    {
      if initialized && optind > 0 then Inv(optstring, a, State(argv))
      else argv[..] == a && (optind == 0 || optind == 1) && (|a| >= 1 ==> optind <= |a|)
    }

    /** The events that are still to come. */
    ghost function Coming(optstring: string, a: Args): seq<Event>
      requires |a| >= 1
      reads this
    {
      if !initialized || optind == 0 then Events(optstring, a, 1, [])
      else if optind <= |a| && (nextchar != [] ==> optind < |a|) then Events(optstring, a, optind, nextchar)
      else []
    }

    method Initialize()
      modifies this
      ensures initialized && optind == (if old(optind) == 0 then 1 else old(optind))
      ensures firstNonopt == lastNonopt == optind && nextchar == [] && optarg == old(optarg)
    {
      if optind == 0 {
        optind := 1;
      }
      firstNonopt, lastNonopt := optind, optind;
      nextchar := [];
      initialized := true;
    }

    /** Brings the skipped operands right before optind and skips the operands that follow. */
    method Gather(optstring: string, argv: array<string>, ghost a: Args)
      requires Inv(optstring, a, State(argv)) && nextchar == []
      modifies argv, `optind, `firstNonopt, `lastNonopt
      ensures Gathered(optstring, a, State(argv)) && (optind < |a| ==> !NonOption(argv[optind]))
      ensures Events(optstring, a, optind, []) == old(Events(optstring, a, optind, []))
    {
      hide Inv, Gathered, Positions, Events, Options, Operands, NonOption, Rotated;
      ghost var st := State(argv);
      InvPositions(optstring, a, st);
      if firstNonopt != lastNonopt && lastNonopt != optind {
        Exchange(argv, firstNonopt, lastNonopt, optind);
        ExchangeGathers(optstring, a, st);
        firstNonopt := firstNonopt + (optind - lastNonopt);
        lastNonopt := optind;
      } else if lastNonopt != optind {
        NothingSkipped(optstring, a, st);
        firstNonopt := optind;
      } else {
        AlreadyGathered(optstring, a, st);
      }
      Skip(optstring, argv, a);
    }

    /** Skips operands; those skipped before end at optind. */
    method Skip(optstring: string, argv: array<string>, ghost a: Args)
      requires Gathered(optstring, a, State(argv).(last := optind)) && argv.Length == |a|
      modifies `optind, `lastNonopt
      ensures Gathered(optstring, a, State(argv)) && optind <= |a| && (optind < |a| ==> !NonOption(argv[optind]))
      ensures Events(optstring, a, optind, []) == old(Events(optstring, a, optind, []))
    {
      hide Gathered, Inv, Positions, Events, Options, Operands, NonOption;
      GatheredFacts(optstring, a, State(argv).(last := optind));
      ghost var events := Events(optstring, a, optind, []);
      while optind < argv.Length && NonOption(argv[optind])
        invariant Gathered(optstring, a, State(argv).(last := optind)) && 1 <= optind <= |a|
        invariant nextchar == old(nextchar) && Events(optstring, a, optind, []) == events
        decreases argv.Length - optind
      {
        SkipOperand(optstring, a, State(argv).(last := optind));
        SkipEvents(optstring, a, State(argv).(last := optind));
        optind := optind + 1;
      }
      lastNonopt := optind;
    }

    /** The next short option character; the element is left when its last character is taken. */
    method DecodeChar(optstring: string, argv: array<string>) returns (c: char)
      requires nextchar != [] && optind < argv.Length && optarg == NoArg
      modifies `nextchar, `optind, `optarg
      ensures var d := Decode(optstring, argv[..], old(optind), old(nextchar));
              c == d.event.c && optarg == d.event.arg && nextchar == d.rest && optind == d.next
    {
      c := nextchar[0];
      nextchar := nextchar[1..];
      var temp := Index(optstring, c);
      if nextchar == [] {
        optind := optind + 1;
      }
      if temp == [] || c == ':' {
        return '?';
      }
      if |temp| > 1 && temp[1] == ':' {
        if |temp| > 2 && temp[2] == ':' {
          if nextchar != [] {
            optarg := Arg(nextchar);
            optind := optind + 1;
          } else {
            optarg := NoArg;
          }
          nextchar := [];
        } else {
          if nextchar != [] {
            optarg := Arg(nextchar);
            optind := optind + 1;
          } else if optind == argv.Length {
            if |optstring| > 0 && optstring[0] == ':' {
              c := ':';
            } else {
              c := '?';
            }
          } else {
            optarg := Arg(argv[optind]);
            optind := optind + 1;
          }
          nextchar := [];
        }
      }
    }

    /** The end marker counts as an option; everything after it is left to the caller. */
    method TakeEndMarker(optstring: string, argv: array<string>, ghost a: Args)
      requires Gathered(optstring, a, State(argv)) && optind < argv.Length == |a| && argv[optind] == END
      modifies argv, `optind, `firstNonopt, `lastNonopt
      ensures optind == lastNonopt == argv.Length && nextchar == old(nextchar)
      ensures Finished(optstring, a, argv[..], firstNonopt) && old(Events(optstring, a, optind, [])) == []
    {
      ghost var st := State(argv);
      hide *;
      GatheredFacts(optstring, a, st);
      StateIs(argv);
      EndMarker(optstring, a, st);
      optind := optind + 1;
      if firstNonopt != lastNonopt && lastNonopt != optind {
        Exchange(argv, firstNonopt, lastNonopt, optind);
        firstNonopt := firstNonopt + (optind - lastNonopt);
      } else if firstNonopt == lastNonopt {
        NothingToExchange(argv[..], firstNonopt, lastNonopt, optind);
        firstNonopt := optind;
      }
      lastNonopt := argv.Length;
      optind := argv.Length;
    }

    lemma StateIs(argv: array<string>)
      ensures State(argv) == Scan(argv[..], optind, firstNonopt, lastNonopt, nextchar)
    {
    }

    /** The end of the scan: optind backs over the operands. */
    method BackUp(optstring: string, argv: array<string>, ghost a: Args)
      requires |a| >= 1 && optind == lastNonopt == argv.Length && Finished(optstring, a, argv[..], firstNonopt)
      modifies `optind
      ensures Finished(optstring, a, argv[..], optind) && optind > 0
    {
      if firstNonopt != lastNonopt {
        optind := firstNonopt;
      }
    }

    /** Moves on to the next element; true when the scan is at its end. */
    method NextElement(optstring: string, argv: array<string>, ghost a: Args) returns (atEnd: bool)
      requires Inv(optstring, a, State(argv)) && nextchar == [] && argv.Length == |a| && |a| >= 1
      modifies argv, `optind, `firstNonopt, `lastNonopt, `nextchar
      ensures atEnd ==> Finished(optstring, a, argv[..], optind) && optind > 0
                        && old(Events(optstring, a, optind, [])) == []
      ensures !atEnd ==> Inv(optstring, a, State(argv)) && nextchar != [] && optind < |a|
                         && old(Events(optstring, a, optind, [])) == Events(optstring, a, optind, nextchar)
    {
      assert 1 <= firstNonopt <= lastNonopt <= optind <= |a|;
      assert Capped(lastNonopt, optind) == lastNonopt && Capped(firstNonopt, optind) == firstNonopt;
      hide *;
      lastNonopt := Capped(lastNonopt, optind);
      firstNonopt := Capped(firstNonopt, optind);
      Gather(optstring, argv, a);
      GatheredFacts(optstring, a, State(argv));
      if optind != argv.Length && argv[optind] == END {
        TakeEndMarker(optstring, argv, a);
      } else if optind == argv.Length {
        EndOfArguments(optstring, a, State(argv));
      }
      if optind == argv.Length {
        BackUp(optstring, argv, a);
        return true;
      }
      EnterElement(optstring, a, State(argv));
      nextchar := argv[optind][1..];
      return false;
    }

    /** One call: the next event, or the end with argv permuted. The option string selects PERMUTE order
        and has no W followed by a semicolon. */
    method GetOpt(optstring: string, argv: array<string>, ghost a: Args) returns (result: Result)
      requires |a| == argv.Length && Ready(optstring, a, argv)
      requires |optstring| > 0 ==> optstring[0] != '-' && optstring[0] != '+'
      requires |Index(optstring, 'W')| > 1 ==> Index(optstring, 'W')[1] != ';'
      modifies this, argv
      ensures |a| == 0 ==> result == Finish && argv[..] == a
      ensures |a| >= 1 ==> initialized && optind > 0
      ensures |a| >= 1 && result.Found? ==> Ready(optstring, a, argv) && optarg == result.event.arg
      ensures |a| >= 1 && result.Found? ==> old(Coming(optstring, a)) == [result.event] + Coming(optstring, a)
      ensures |a| >= 1 && result.Finish? ==> old(Coming(optstring, a)) == [] && Finished(optstring, a, argv[..], optind)
    {
      hide Options, Operands, Decode, Events, Inv, Finished;
      if argv.Length < 1 {
        assert argv[..] == a;
        return Finish;
      }
      optarg := NoArg;
      if optind == 0 || !initialized {
        Initialize();
        FreshInv(optstring, a);
      }
      result := Next(optstring, argv, a);
    }

    /** A call on an initialized scanner. */
    method Next(optstring: string, argv: array<string>, ghost a: Args) returns (result: Result)
      requires |a| == argv.Length && |a| >= 1 && initialized && optind > 0 && optarg == NoArg
      requires Inv(optstring, a, State(argv))
      modifies this, argv
      ensures initialized && optind > 0
      ensures result.Found? ==> Inv(optstring, a, State(argv)) && optarg == result.event.arg
      ensures result.Found? ==> old(Coming(optstring, a)) == [result.event] + Coming(optstring, a)
      ensures result.Finish? ==> old(Coming(optstring, a)) == [] && Finished(optstring, a, argv[..], optind)
    {
      hide Options, Operands, Decode, Events, Inv, Finished;
      InvPositions(optstring, a, State(argv));
      if nextchar == [] {
        var atEnd := NextElement(optstring, argv, a);
        if atEnd {
          return Finish;
        }
      }
      InvPositions(optstring, a, State(argv));
      DecodeStep(optstring, a, State(argv));
      var c := DecodeChar(optstring, argv);
      InvPositions(optstring, a, State(argv));
      result := Found(Event(c, optarg));
    }

    /** Before the first call everything is still to come. */
    lemma AllComing(optstring: string, a: Args, argv: array<string>)
      requires !initialized && optind == 1 && argv[..] == a && |a| >= 1
      ensures Ready(optstring, a, argv) && Coming(optstring, a) == Events(optstring, a, 1, [])
    {
    }
  }

  /** The finished vector is a permutation of the original in which options and operands keep their order. */
  lemma FinishedPermutes(optstring: string, a: Args, argv: Args, optind: nat)
    requires |a| >= 1 && Finished(optstring, a, argv, optind)
    ensures 1 <= optind <= |argv| && argv[0] == a[0] && multiset(argv) == multiset(a)
    ensures Interleaves(a[1..], argv[1..optind], argv[optind..])
  {
    var o, n := Options(optstring, a, 1, []), Operands(optstring, a, 1, []);
    ArgumentsInterleave(optstring, a, 1, []);
    InterleavingPermutes(a[1..], o, n);
    hide *;
    assert a == a[..1] + a[1..];
    assert argv == a[..1] + o + n ==> argv[1..1 + |o|] == o && argv[1 + |o|..] == n;
    FinishedParts(optstring, a, argv, optind);
  }

  lemma FinishedParts(optstring: string, a: Args, argv: Args, optind: nat)
    requires |a| >= 1 && Finished(optstring, a, argv, optind)
    ensures argv == a[..1] + Options(optstring, a, 1, []) + Operands(optstring, a, 1, [])
    ensures optind == 1 + |Options(optstring, a, 1, [])|
  {
    hide Options, Operands;
  }

  /** A scanned vector in terms of what was typed: the options with their arguments were told in order, and
      argv holds them, then the end marker if there was one, then the operands, where optind points. */
  ghost predicate ReadBack(optstring: string, ws: seq<Word>, rest: Args, first: string, events: seq<Event>,
                           argv: Args, optind: nat)
  {
    var end := if rest == [] then [] else [END];
    && events == AllTold(optstring, ws)
    && argv == [first] + OptionWords(ws) + end + OperandWords(ws) + (if rest == [] then [] else rest[1..])
    && optind == 1 + |OptionWords(ws)| + |end|
  }

  lemma FinishedReadsBack(optstring: string, a: Args, argv: Args, optind: nat, ws: seq<Word>, rest: Args)
    requires |a| >= 1 && Finished(optstring, a, argv, optind) && Line(optstring, a, 1, ws, rest)
    ensures ReadBack(optstring, ws, rest, a[0], Events(optstring, a, 1, []), argv, optind)
  {
    hide *;
    LineParts(optstring, a, ws, rest);
    FinishedParts(optstring, a, argv, optind);
    ReadBackOf(optstring, ws, rest, a, Events(optstring, a, 1, []), argv, optind);
  }

  lemma LineParts(optstring: string, a: Args, ws: seq<Word>, rest: Args)
    requires |a| >= 1 && Line(optstring, a, 1, ws, rest)
    ensures Events(optstring, a, 1, []) == AllTold(optstring, ws)
    ensures Options(optstring, a, 1, []) == OptionWords(ws) + if rest == [] then [] else [END]
    ensures Operands(optstring, a, 1, []) == OperandWords(ws) + if rest == [] then [] else rest[1..]
  {
    ReadLine(optstring, a, 1, ws, rest);
    if rest != [] {
      LineRest(optstring, a, ws, rest);
      assert rest[..1] == [rest[0]];
    }
    hide Events, Options, Operands, AllTold, OptionWords, OperandWords, Line;
  }

  lemma ReadBackOf(optstring: string, ws: seq<Word>, rest: Args, a: Args, events: seq<Event>, argv: Args, optind: nat)
    requires |a| >= 1 && events == AllTold(optstring, ws)
    requires var o, n := OptionWords(ws) + if rest == [] then [] else [END],
                         OperandWords(ws) + if rest == [] then [] else rest[1..];
             argv == a[..1] + o + n && optind == 1 + |o|
    ensures ReadBack(optstring, ws, rest, a[0], events, argv, optind)
  {
    hide AllTold, OptionWords, OperandWords;
    assert a[..1] == [a[0]];
  }

  lemma LineRest(optstring: string, a: Args, ws: seq<Word>, rest: Args)
    requires Line(optstring, a, 1, ws, rest) && rest != []
    ensures rest[0] == END
  {
  }

  /** A caller's whole run, as in the loop of getopt's own test program: exactly the options of the
      original arguments are reported, and argv ends permuted with optind at the first operand. Every
      vector is a line of words, and what was typed is what is read back. */
  method ScanAll(optstring: string, argv: array<string>) returns (events: seq<Event>, optind: nat)
    requires argv.Length >= 1
    requires |optstring| > 0 ==> optstring[0] != '-' && optstring[0] != '+'
    requires |Index(optstring, 'W')| > 1 ==> Index(optstring, 'W')[1] != ';'
    modifies argv
    ensures events == Events(optstring, old(argv[..]), 1, [])
    ensures Finished(optstring, old(argv[..]), argv[..], optind)
    ensures exists ws, rest :: Line(optstring, old(argv[..]), 1, ws, rest)
    ensures forall ws, rest :: Line(optstring, old(argv[..]), 1, ws, rest) ==>
              ReadBack(optstring, ws, rest, old(argv[0]), events, argv[..], optind)
  {
    hide *;
    ghost var a := argv[..];
    ghost var _, _ := EveryVector(optstring, a, 1);
    var scanner := new Scanner();
    scanner.AllComing(optstring, a, argv);
    events := [];
    while true
      invariant fresh(scanner) && scanner.Ready(optstring, a, argv) && |a| == argv.Length
      invariant events + scanner.Coming(optstring, a) == Events(optstring, a, 1, [])
      decreases |scanner.Coming(optstring, a)|
    {
      var result := scanner.GetOpt(optstring, argv, a);
      if result == Finish {
        optind := scanner.optind;
        assert events + [] == events;
        forall ws, rest | Line(optstring, a, 1, ws, rest)
          ensures ReadBack(optstring, ws, rest, a[0], events, argv[..], optind)
        {
          FinishedReadsBack(optstring, a, argv[..], optind, ws, rest);
        }
        return;
      }
      ghost var rest := scanner.Coming(optstring, a);
      assert events + ([result.event] + rest) == events + [result.event] + rest;
      events := events + [result.event];
    }
  }
}
