/** What a run over the arguments should find: the options with their arguments in order, and the
    operands in order (short options only). */
module GetoptSpec {
  type Args = seq<string>

  datatype Argument = NoArg | Arg(text: string)

  /** What one call returns for an option character. */
  datatype Event = Event(c: char, arg: Argument)

  predicate NonOption(s: string)
  {
    |s| == 0 || s[0] != '-' || |s| == 1
  }

  const END := "--"

  /** The rest of the option string from the first occurrence of a character on; empty if none. */
  function Index(optstring: string, c: char): (rest: string)
    ensures rest != [] ==> rest[0] == c
  {
    if optstring == [] then []
    else if optstring[0] == c then optstring
    else Index(optstring[1..], c)
  }

  /** What decoding one option character yields: the event, the characters left in the element, and
      the element to go on with. */
  datatype Step = Step(event: Event, rest: string, next: nat)

  /** Decodes the first of the characters s that are left of element i. */
  function Decode(optstring: string, a: Args, i: nat, s: string): (step: Step)
    requires s != [] && i < |a|
    ensures i <= step.next <= |a| && step.next <= i + 2
    ensures step.next == i ==> step.rest == s[1..] && step.rest != []
    ensures step.next > i ==> step.rest == []
  {
    var c, t, temp := s[0], s[1..], Index(optstring, s[0]);
    var next := if t == [] then i + 1 else i;
    if temp == [] || c == ':' then Step(Event('?', NoArg), t, next)
    else if |temp| > 1 && temp[1] == ':' then
      if |temp| > 2 && temp[2] == ':' then
        if t != [] then Step(Event(c, Arg(t)), [], i + 1) else Step(Event(c, NoArg), [], next)
      else if t != [] then Step(Event(c, Arg(t)), [], i + 1)
      else if next == |a| then Step(Event(if |optstring| > 0 && optstring[0] == ':' then ':' else '?', NoArg), [], next)
      else Step(Event(c, Arg(a[next])), [], next + 1)
    else Step(Event(c, NoArg), t, next)
  }

  /** The events from the characters s of element i on. */
  function Events(optstring: string, a: Args, i: nat, s: string): seq<Event>
    requires i <= |a| && (s != [] ==> i < |a|)
    decreases |a| - i, if s == [] && i < |a| then |a[i]| else |s|
  {
    if s != [] then
      var d := Decode(optstring, a, i, s);
      [d.event] + Events(optstring, a, d.next, d.rest)
    else if i == |a| || a[i] == END then []
    else if NonOption(a[i]) then Events(optstring, a, i + 1, [])
    else Events(optstring, a, i, a[i][1..])
  }

  /** The elements that are options, option arguments, or the end marker, from there on. */
  function Options(optstring: string, a: Args, i: nat, s: string): Args
    requires i <= |a| && (s != [] ==> i < |a|)
    decreases |a| - i, if s == [] && i < |a| then |a[i]| else |s|
  {
    if s != [] then
      var d := Decode(optstring, a, i, s);
      a[i..d.next] + Options(optstring, a, d.next, d.rest)
    else if i == |a| then []
    else if a[i] == END then [END]
    else if NonOption(a[i]) then Options(optstring, a, i + 1, [])
    else Options(optstring, a, i, a[i][1..])
  }

  /** The operands from there on. */
  function Operands(optstring: string, a: Args, i: nat, s: string): Args
    requires i <= |a| && (s != [] ==> i < |a|)
    decreases |a| - i, if s == [] && i < |a| then |a[i]| else |s|
  {
    if s != [] then
      var d := Decode(optstring, a, i, s);
      Operands(optstring, a, d.next, d.rest)
    else if i == |a| then []
    else if a[i] == END then a[i + 1..]
    else if NonOption(a[i]) then [a[i]] + Operands(optstring, a, i + 1, [])
    else Operands(optstring, a, i, a[i][1..])
  }

  /** a is an interleaving of o and n: both keep their order. */
  predicate Interleaves(a: Args, o: Args, n: Args)
  {
    if a == [] then o == [] && n == []
    else (o != [] && a[0] == o[0] && Interleaves(a[1..], o[1..], n))
         || (n != [] && a[0] == n[0] && Interleaves(a[1..], o, n[1..]))
  }

  lemma {:induction false} AllOperands(a: Args)
    ensures Interleaves(a, [], a)
  {
    if a != [] {
      AllOperands(a[1..]);
    }
  }

  lemma {:induction false} PrefixOfOptions(front: Args, a: Args, o: Args, n: Args)
    requires Interleaves(a, o, n)
    ensures Interleaves(front + a, front + o, n)
  {
    if front == [] {
      assert front + a == a && front + o == o;
    } else {
      PrefixOfOptions(front[1..], a, o, n);
      assert (front + a)[1..] == front[1..] + a && (front + o)[1..] == front[1..] + o;
    }
  }

  /** The arguments interleave the options and the operands. */
  lemma {:induction false} ArgumentsInterleave(optstring: string, a: Args, i: nat, s: string)
    requires i <= |a| && (s != [] ==> i < |a|)
    ensures Interleaves(a[i..], Options(optstring, a, i, s), Operands(optstring, a, i, s))
    decreases |a| - i, if s == [] && i < |a| then |a[i]| else |s|
  {
    if s != [] {
      var d := Decode(optstring, a, i, s);
      ArgumentsInterleave(optstring, a, d.next, d.rest);
      PrefixOfOptions(a[i..d.next], a[d.next..], Options(optstring, a, d.next, d.rest),
                      Operands(optstring, a, d.next, d.rest));
      assert a[i..d.next] + a[d.next..] == a[i..];
    } else if i < |a| {
      assert a[i..][1..] == a[i + 1..];
      if a[i] == END {
        AllOperands(a[i + 1..]);
        assert [END][1..] == [];
      } else if NonOption(a[i]) {
        ArgumentsInterleave(optstring, a, i + 1, []);
        var n := Operands(optstring, a, i + 1, []);
        assert ([a[i]] + n)[1..] == n;
      } else {
        ArgumentsInterleave(optstring, a, i, a[i][1..]);
      }
    }
  }

  /** An interleaving has the same elements. */
  lemma {:induction false} InterleavingPermutes(a: Args, o: Args, n: Args)
    requires Interleaves(a, o, n)
    ensures multiset(a) == multiset(o) + multiset(n) && |a| == |o| + |n|
  {
    if a != [] {
      assert a == [a[0]] + a[1..];
      if o != [] && a[0] == o[0] && Interleaves(a[1..], o[1..], n) {
        InterleavingPermutes(a[1..], o[1..], n);
        assert o == [o[0]] + o[1..];
      } else {
        InterleavingPermutes(a[1..], o, n[1..]);
        assert n == [n[0]] + n[1..];
      }
    }
  }
}
