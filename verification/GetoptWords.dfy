/** Command lines by what was typed: operands, clusters of option characters, options with their arguments.
    Reading the written form gives back what was typed. */
module GetoptWords {
  import opened GetoptSpec

  // ---- what the option string declares ----

  /** The first occurrence of c in the option string is followed by exactly n colons, or by two or more if n is 2. */
  ghost predicate Takes(optstring: string, c: char, n: nat)
  {
    c != ':' && exists k :: 0 <= k < |optstring| && FirstAt(optstring, c, k) && ColonsAfter(optstring, k, n)
  }

  ghost predicate FirstAt(optstring: string, c: char, k: nat)
    requires k < |optstring|
  {
    optstring[k] == c && c !in optstring[..k]
  }

  ghost predicate ColonsAfter(optstring: string, k: nat, n: nat)
    requires k < |optstring|
  {
    var after := optstring[k + 1..];
    if n == 0 then after == [] || after[0] != ':'
    else if n == 1 then |after| >= 1 && after[0] == ':' && (|after| == 1 || after[1] != ':')
    else n == 2 && |after| >= 2 && after[0] == after[1] == ':'
  }

  ghost predicate Undeclared(optstring: string, c: char)
  {
    c == ':' || c !in optstring
  }

  /** c takes no argument, or is not an option at all. */
  ghost predicate Plain(optstring: string, c: char)
  {
    Takes(optstring, c, 0) || Undeclared(optstring, c)
  }

  // ---- words ----

  /** plain are option characters without arguments that stand before c in one element. */
  datatype Word =
    | Operand(text: string)
    | Cluster(plain: string)                        // -abc
    | WithText(plain: string, c: char, text: string) // -abctext
    | WithNext(plain: string, c: char, text: string) // -abc text
    | WithNone(plain: string, c: char)               // -abc, where the argument of c may be left out
    | WithMissing(plain: string, c: char)            // -abc at the very end, where c needs an argument
  {
    ghost predicate Proper(optstring: string)
    {
      match this
      case Operand(text) => text == "" || text[0] != '-' || text == "-"
      case Cluster(plain) => AllPlain(optstring, plain) && plain != "" && plain != "-"
      case WithText(plain, c, text) =>
        AllPlain(optstring, plain) && (Takes(optstring, c, 1) || Takes(optstring, c, 2)) && text != ""
      case WithNext(plain, c, _) => AllPlain(optstring, plain) && Takes(optstring, c, 1) && plain + [c] != "-"
      case WithNone(plain, c) => AllPlain(optstring, plain) && Takes(optstring, c, 2) && plain + [c] != "-"
      case WithMissing(plain, c) => AllPlain(optstring, plain) && Takes(optstring, c, 1) && plain + [c] != "-"
    }

    /** The elements of the argument vector. */
    function Written(): Args
    {
      match this
      case Operand(text) => [text]
      case Cluster(plain) => ["-" + plain]
      case WithText(plain, c, text) => ["-" + plain + [c] + text]
      case WithNext(plain, c, text) => ["-" + plain + [c], text]
      case WithNone(plain, c) => ["-" + plain + [c]]
      case WithMissing(plain, c) => ["-" + plain + [c]]
    }

    /** What the caller is told about it. */
    ghost function Told(optstring: string): seq<Event>
    {
      match this
      case Operand(_) => []
      case Cluster(plain) => PlainTold(optstring, plain)
      case WithText(plain, c, text) => PlainTold(optstring, plain) + [Event(c, Arg(text))]
      case WithNext(plain, c, text) => PlainTold(optstring, plain) + [Event(c, Arg(text))]
      case WithNone(plain, c) => PlainTold(optstring, plain) + [Event(c, NoArg)]
      case WithMissing(plain, c) =>
        PlainTold(optstring, plain) + [Event(if optstring != "" && optstring[0] == ':' then ':' else '?', NoArg)]
    }
  }

  ghost predicate AllPlain(optstring: string, plain: string)
  {
    forall c :: c in plain ==> Plain(optstring, c)
  }

  /** Options are told by their character, anything undeclared by a question mark. */
  ghost function PlainTold(optstring: string, plain: string): seq<Event>
  {
    if plain == [] then []
    else [Event(if Undeclared(optstring, plain[0]) then '?' else plain[0], NoArg)] + PlainTold(optstring, plain[1..])
  }

  // ---- lines ----

  function AllWritten(ws: seq<Word>): Args
  {
    if ws == [] then [] else ws[0].Written() + AllWritten(ws[1..])
  }

  ghost function AllTold(optstring: string, ws: seq<Word>): seq<Event>
  {
    if ws == [] then [] else ws[0].Told(optstring) + AllTold(optstring, ws[1..])
  }

  function OptionWords(ws: seq<Word>): Args
  {
    if ws == [] then []
    else (if ws[0].Operand? then [] else ws[0].Written()) + OptionWords(ws[1..])
  }

  function OperandWords(ws: seq<Word>): Args
  {
    if ws == [] then []
    else (if ws[0].Operand? then ws[0].Written() else []) + OperandWords(ws[1..])
  }

  /** The arguments from element i on are the words, and then perhaps the end marker with further operands;
      an argument is missing only at the very end. */
  ghost predicate Line(optstring: string, a: Args, i: nat, ws: seq<Word>, rest: Args)
  {
    && i <= |a| && a[i..] == AllWritten(ws) + rest && (rest == [] || rest[0] == END)
    && (forall k :: 0 <= k < |ws| ==> ws[k].Proper(optstring))
    && (forall k :: 0 <= k < |ws| && ws[k].WithMissing? ==> k == |ws| - 1 && rest == [])
  }

  // ---- reading ----

  lemma {:induction false} IndexIs(optstring: string, c: char, k: nat)
    requires k < |optstring| && FirstAt(optstring, c, k)
    ensures Index(optstring, c) == optstring[k..]
  {
    if k > 0 {
      assert optstring[..k][0] == optstring[0];
      assert forall x :: x in optstring[1..][..k - 1] ==> x in optstring[..k];
      IndexIs(optstring[1..], c, k - 1);
    }
  }

  lemma {:induction false} IndexNone(optstring: string, c: char)
    requires c !in optstring
    ensures Index(optstring, c) == []
  {
    if optstring != [] {
      IndexNone(optstring[1..], c);
    }
  }

  /** What the scanner looks up about a declared character. */
  lemma TakesIndex(optstring: string, c: char, n: nat)
    requires Takes(optstring, c, n)
    ensures n <= 2 && c != ':' && c in optstring
    ensures var temp := Index(optstring, c);
      && |temp| >= 1 && (n >= 1 <==> |temp| > 1 && temp[1] == ':')
      && (n == 2 <==> |temp| > 2 && temp[1] == temp[2] == ':')
  {
    var k :| 0 <= k < |optstring| && FirstAt(optstring, c, k) && ColonsAfter(optstring, k, n);
    IndexIs(optstring, c, k);
    var temp, after := optstring[k..], optstring[k + 1..];
    assert |temp| > 1 ==> temp[1] == after[0];
    assert |temp| > 2 ==> temp[2] == after[1];
  }

  lemma PlainDecodes(optstring: string, a: Args, i: nat, s: string)
    requires s != [] && i < |a| && Plain(optstring, s[0])
    ensures Decode(optstring, a, i, s)
            == Step(Event(if Undeclared(optstring, s[0]) then '?' else s[0], NoArg), s[1..],
                    if |s| == 1 then i + 1 else i)
  {
    if Undeclared(optstring, s[0]) {
      if s[0] != ':' {
        IndexNone(optstring, s[0]);
      }
    } else {
      TakesIndex(optstring, s[0], 0);
    }
  }

  lemma OptionDecodes(optstring: string, a: Args, i: nat, s: string, n: nat)
    requires s != [] && i < |a| && 1 <= n <= 2 && Takes(optstring, s[0], n)
    ensures |s| > 1 ==> Decode(optstring, a, i, s) == Step(Event(s[0], Arg(s[1..])), [], i + 1)
    ensures |s| == 1 && n == 2 ==> Decode(optstring, a, i, s) == Step(Event(s[0], NoArg), [], i + 1)
    ensures |s| == 1 && n == 1 && i + 1 < |a|
            ==> Decode(optstring, a, i, s) == Step(Event(s[0], Arg(a[i + 1])), [], i + 2)
    ensures |s| == 1 && n == 1 && i + 1 == |a| ==>
              Decode(optstring, a, i, s)
              == Step(Event(if optstring != "" && optstring[0] == ':' then ':' else '?', NoArg), [], i + 1)
  {
    TakesIndex(optstring, s[0], n);
  }

  /** The state of a reading: events, option elements and operands still to come. */
  datatype Reading = Reading(events: seq<Event>, options: Args, operands: Args)

  ghost function Read(optstring: string, a: Args, i: nat, s: string): Reading
    requires i <= |a| && (s != [] ==> i < |a|)
  {
    Reading(Events(optstring, a, i, s), Options(optstring, a, i, s), Operands(optstring, a, i, s))
  }

  ghost function After(told: seq<Event>, elements: Args, r: Reading): Reading
  {
    Reading(told + r.events, elements + r.options, r.operands)
  }

  lemma ReadStep(optstring: string, a: Args, i: nat, s: string)
    requires i < |a| && s != []
    ensures var d := Decode(optstring, a, i, s);
            Read(optstring, a, i, s) == After([d.event], a[i..d.next], Read(optstring, a, d.next, d.rest))
  {
    hide Decode;
  }

  lemma ReadElement(optstring: string, a: Args, i: nat)
    requires i < |a| && !NonOption(a[i]) && a[i] != END
    ensures Read(optstring, a, i, []) == Read(optstring, a, i, a[i][1..])
  {
    hide Decode;
  }

  lemma AfterAfter(x: seq<Event>, e: Args, y: seq<Event>, f: Args, r: Reading)
    ensures After(x, e, After(y, f, r)) == After(x + y, e + f, r)
  {
    assert x + (y + r.events) == x + y + r.events && e + (f + r.options) == e + f + r.options;
  }

  lemma AfterNothing(r: Reading)
    ensures After([], [], r) == r
  {
  }

  /** One character without argument. */
  lemma ReadOne(optstring: string, a: Args, i: nat, s: string)
    requires i < |a| && s != [] && Plain(optstring, s[0])
    ensures Read(optstring, a, i, s)
            == After([Event(if Undeclared(optstring, s[0]) then '?' else s[0], NoArg)], if |s| == 1 then [a[i]] else [],
                     if |s| == 1 then Read(optstring, a, i + 1, []) else Read(optstring, a, i, s[1..]))
  {
    hide Decode, Plain, Undeclared, Read, After;
    PlainDecodes(optstring, a, i, s);
    ReadStep(optstring, a, i, s);
    assert a[i..i] == [] && a[i..i + 1] == [a[i]];
    assert |s| == 1 ==> s[1..] == [];
  }

  /** Characters without arguments are told one by one; the element ends with its last character. */
  lemma {:induction false} ReadPlain(optstring: string, a: Args, i: nat, plain: string, tail: string)
    requires i < |a| && AllPlain(optstring, plain) && plain + tail != []
    ensures Read(optstring, a, i, plain + tail)
            == After(PlainTold(optstring, plain), if tail == [] then [a[i]] else [],
                     if tail == [] then Read(optstring, a, i + 1, []) else Read(optstring, a, i, tail))
    decreases |plain|
  {
    hide Decode, Plain, Undeclared, Read, After;
    if plain == [] {
      assert plain + tail == tail;
      AfterNothing(Read(optstring, a, i, tail));
    } else {
      var s := plain + tail;
      assert s[0] == plain[0] && s[1..] == plain[1..] + tail && plain[0] in plain;
      ReadOne(optstring, a, i, s);
      if |s| > 1 {
        ReadPlain(optstring, a, i, plain[1..], tail);
        var r := if tail == [] then Read(optstring, a, i + 1, []) else Read(optstring, a, i, tail);
        AfterAfter([Event(if Undeclared(optstring, s[0]) then '?' else s[0], NoArg)], [],
                   PlainTold(optstring, plain[1..]), if tail == [] then [a[i]] else [], r);
        assert [] + (if tail == [] then [a[i]] else []) == if tail == [] then [a[i]] else [];
      } else {
        assert plain[1..] == [] && tail == [];
        var told := [Event(if Undeclared(optstring, s[0]) then '?' else s[0], NoArg)];
        assert told + [] == told && PlainTold(optstring, plain) == told + [];
      }
    }
  }

  /** A word in front of what comes after it. */
  ghost function Onto(optstring: string, w: Word, r: Reading): Reading
  {
    if w.Operand? then Reading(r.events, r.options, w.Written() + r.operands)
    else After(w.Told(optstring), w.Written(), r)
  }

  /** A whole word is read: what it tells, its elements among the options or the operands, and on to the next. */
  lemma ReadWord(optstring: string, a: Args, i: nat, w: Word)
    requires w.Proper(optstring) && i + |w.Written()| <= |a| && a[i..i + |w.Written()|] == w.Written()
    requires w.WithMissing? ==> i + 1 == |a|
    ensures Read(optstring, a, i, []) == Onto(optstring, w, Read(optstring, a, i + |w.Written()|, []))
  {
    assert a[i] == w.Written()[0];
    if w.Operand? {
      assert NonOption(a[i]) && a[i] != END;
    } else {
      ReadCluster(optstring, a, i, w);
    }
  }

  /** The characters before the one that takes an argument, and that character with what follows in the element. */
  ghost function Tail(w: Word): string
  {
    match w
    case Operand(_) => ""
    case Cluster(_) => ""
    case WithText(_, c, text) => [c] + text
    case WithNext(_, c, _) => [c]
    case WithNone(_, c) => [c]
    case WithMissing(_, c) => [c]
  }

  lemma ReadCluster(optstring: string, a: Args, i: nat, w: Word)
    requires !w.Operand? && w.Proper(optstring) && i + |w.Written()| <= |a| && a[i..i + |w.Written()|] == w.Written()
    requires w.WithMissing? ==> i + 1 == |a|
    ensures Read(optstring, a, i, [])
            == After(w.Told(optstring), w.Written(), Read(optstring, a, i + |w.Written()|, []))
  {
    var plain, tail := w.plain, Tail(w);
    assert a[i] == w.Written()[0] == "-" + (plain + tail);
    assert a[i][1..] == plain + tail;
    assert plain + tail != "-" && plain + tail != "";
    assert |a[i]| > 1 && a[i][0] == '-' && a[i] != END;
    ReadElement(optstring, a, i);
    ReadPlain(optstring, a, i, plain, tail);
    if tail != [] {
      ReadTail(optstring, a, i, w);
      hide Read, After, PlainTold, Word.Proper, AllPlain;
      var r := Read(optstring, a, i + |w.Written()|, []);
      AfterAfter(PlainTold(optstring, plain), [], TailTold(optstring, w), w.Written(), r);
      assert [] + w.Written() == w.Written();
    }
  }

  ghost function TailTold(optstring: string, w: Word): seq<Event>
  {
    match w
    case Operand(_) => []
    case Cluster(_) => []
    case WithText(_, c, text) => [Event(c, Arg(text))]
    case WithNext(_, c, text) => [Event(c, Arg(text))]
    case WithNone(_, c) => [Event(c, NoArg)]
    case WithMissing(_, _) => [Event(if optstring != "" && optstring[0] == ':' then ':' else '?', NoArg)]
  }

  lemma ReadTail(optstring: string, a: Args, i: nat, w: Word)
    requires !w.Operand? && !w.Cluster? && w.Proper(optstring)
    requires i + |w.Written()| <= |a| && a[i..i + |w.Written()|] == w.Written() && (w.WithMissing? ==> i + 1 == |a|)
    ensures Read(optstring, a, i, Tail(w))
            == After(TailTold(optstring, w), w.Written(), Read(optstring, a, i + |w.Written()|, []))
  {
    var s := Tail(w);
    assert s[0] == w.c;
    OptionDecodes(optstring, a, i, s, if Takes(optstring, w.c, 1) then 1 else 2);
    if w.WithText? {
      assert s[1..] == w.text;
    }
    if w.WithNone? && Takes(optstring, w.c, 1) {
      TakesIndex(optstring, w.c, 1);
      TakesIndex(optstring, w.c, 2);
    }
    if w.WithNext? {
      assert a[i + 1] == w.Written()[1];
    }
    ReadStep(optstring, a, i, s);
    hide Decode, Takes, AllPlain;
  }

  lemma LineNext(optstring: string, a: Args, i: nat, ws: seq<Word>, rest: Args)
    requires Line(optstring, a, i, ws, rest) && ws != []
    ensures var w, n := ws[0], |ws[0].Written()|;
      && w.Proper(optstring) && i + n <= |a| && a[i..i + n] == w.Written() && (w.WithMissing? ==> i + 1 == |a|)
      && Line(optstring, a, i + n, ws[1..], rest)
  {
    hide Word.Proper, Word.Written, AllWritten;
    var w, n := ws[0], |ws[0].Written()|;
    AllWrittenNext(ws);
    assert w.Written() + AllWritten(ws[1..]) + rest == w.Written() + (AllWritten(ws[1..]) + rest);
    Cut(a, i, w.Written(), AllWritten(ws[1..]) + rest);
    if w.WithMissing? {
      MissingIsShort(w);
      assert ws[1..] == [] && rest == [];
      NoneWritten();
    }
    forall k | 0 <= k < |ws[1..]|
      ensures ws[1..][k].Proper(optstring) && (ws[1..][k].WithMissing? ==> k == |ws[1..]| - 1 && rest == [])
    {
      assert ws[1..][k] == ws[k + 1];
    }
  }

  lemma AllWrittenNext(ws: seq<Word>)
    requires ws != []
    ensures AllWritten(ws) == ws[0].Written() + AllWritten(ws[1..])
  {
  }

  lemma NoneWritten()
    ensures AllWritten([]) == []
  {
  }

  lemma MissingIsShort(w: Word)
    requires w.WithMissing?
    ensures |w.Written()| == 1
  {
  }

  lemma Cut(a: Args, i: nat, x: Args, y: Args)
    requires i <= |a| && a[i..] == x + y
    ensures i + |x| <= |a| && a[i..i + |x|] == x && a[i + |x|..] == y
  {
    assert |a[i..]| == |a| - i;
    assert a[i..i + |x|] == a[i..][..|x|] == x;
    assert a[i + |x|..] == a[i..][|x|..] == y;
  }

  /** What comes of a whole line. */
  ghost function LineReading(optstring: string, ws: seq<Word>, rest: Args): Reading
  {
    Reading(AllTold(optstring, ws), OptionWords(ws) + rest[..if rest == [] then 0 else 1],
            OperandWords(ws) + rest[if rest == [] then 0 else 1..])
  }

  lemma LineReadingNext(optstring: string, ws: seq<Word>, rest: Args)
    requires ws != []
    ensures LineReading(optstring, ws, rest) == Onto(optstring, ws[0], LineReading(optstring, ws[1..], rest))
  {
    hide AllTold, OptionWords, OperandWords, Word.Written, Word.Told;
    var w, more := ws[0], ws[1..];
    WordsNext(optstring, ws);
    var o, n := rest[..if rest == [] then 0 else 1], rest[if rest == [] then 0 else 1..];
    if w.Operand? {
      Joins(w.Written(), OperandWords(more), n);
    } else {
      Joins(w.Written(), OptionWords(more), o);
    }
  }

  lemma WordsNext(optstring: string, ws: seq<Word>)
    requires ws != []
    ensures AllTold(optstring, ws)
            == if ws[0].Operand? then AllTold(optstring, ws[1..])
              else ws[0].Told(optstring) + AllTold(optstring, ws[1..])
    ensures OptionWords(ws) == if ws[0].Operand? then OptionWords(ws[1..]) else ws[0].Written() + OptionWords(ws[1..])
    ensures OperandWords(ws) == if ws[0].Operand? then ws[0].Written() + OperandWords(ws[1..])
            else OperandWords(ws[1..])
  {
    hide Word.Written;
  }

  lemma Joins(x: Args, y: Args, z: Args)
    ensures x + y + z == x + (y + z)
  {
  }

  lemma ReadRest(optstring: string, a: Args, i: nat, rest: Args)
    requires i <= |a| && a[i..] == rest && (rest == [] || rest[0] == END)
    ensures Read(optstring, a, i, []) == LineReading(optstring, [], rest)
  {
    if rest != [] {
      assert a[i] == END && a[i + 1..] == rest[1..];
      assert [] + [END] == rest[..1] && [] + rest[1..] == rest[1..];
    }
  }

  lemma LineEnds(optstring: string, a: Args, i: nat, rest: Args)
    requires Line(optstring, a, i, [], rest)
    ensures i <= |a| && a[i..] == rest && (rest == [] || rest[0] == END)
  {
    assert [] + rest == rest;
  }

  /** A line is read word by word: exactly what was typed is told, the options and the end marker are the
      option elements, and everything else is an operand. */
  lemma {:induction false} ReadLine(optstring: string, a: Args, i: nat, ws: seq<Word>, rest: Args)
    requires Line(optstring, a, i, ws, rest)
    ensures i <= |a| && Read(optstring, a, i, []) == LineReading(optstring, ws, rest)
    decreases |ws|
  {
    hide Line, Read, LineReading, Onto, Word.Proper, Word.Told, Word.Written;
    if ws == [] {
      LineEnds(optstring, a, i, rest);
      ReadRest(optstring, a, i, rest);
    } else {
      LineNext(optstring, a, i, ws, rest);
      ReadWord(optstring, a, i, ws[0]);
      ReadLine(optstring, a, i + |ws[0].Written()|, ws[1..], rest);
      LineReadingNext(optstring, ws, rest);
    }
  }

  // ---- every vector is the written form of some words ----

  /** Declared characters take no, a required, or an optional argument. */
  lemma EveryCharacter(optstring: string, c: char)
    ensures Plain(optstring, c) || Takes(optstring, c, 1) || Takes(optstring, c, 2)
  {
    if !Undeclared(optstring, c) {
      var k := FirstPlace(optstring, c);
      assert ColonsAfter(optstring, k, 0) || ColonsAfter(optstring, k, 1) || ColonsAfter(optstring, k, 2);
    }
  }

  lemma {:induction false} FirstPlace(optstring: string, c: char) returns (k: nat)
    requires c in optstring
    ensures k < |optstring| && FirstAt(optstring, c, k)
  {
    if optstring[0] == c {
      k := 0;
    } else {
      k := FirstPlace(optstring[1..], c);
      assert optstring[..k + 1] == [optstring[0]] + optstring[1..][..k];
      k := k + 1;
    }
  }

  /** The longest stretch of plain characters in front. */
  lemma {:induction false} SplitPlain(optstring: string, s: string) returns (plain: string, tail: string)
    ensures s == plain + tail && AllPlain(optstring, plain)
    ensures tail != [] ==> Takes(optstring, tail[0], 1) || Takes(optstring, tail[0], 2)
  {
    if s == [] {
      plain, tail := [], [];
    } else {
      EveryCharacter(optstring, s[0]);
      if Plain(optstring, s[0]) {
        plain, tail := SplitPlain(optstring, s[1..]);
        plain := [s[0]] + plain;
      } else {
        plain, tail := [], s;
      }
    }
    hide Plain, Takes;
  }

  /** The word at element i. */
  lemma WordAt(optstring: string, a: Args, i: nat) returns (w: Word)
    requires i < |a| && a[i] != END
    ensures w.Proper(optstring) && i + |w.Written()| <= |a| && a[i..i + |w.Written()|] == w.Written()
    ensures w.WithMissing? ==> i + 1 == |a|
  {
    hide Takes, AllPlain;
    if NonOption(a[i]) {
      w := Operand(a[i]);
    } else {
      var plain, tail := SplitPlain(optstring, a[i][1..]);
      assert a[i] == "-" + (plain + tail);
      if tail == [] {
        w := Cluster(plain);
      } else {
        var c, text := tail[0], tail[1..];
        assert tail == [c] + text;
        assert "-" + plain + [c] + text == a[i];
        w := if text != [] then WithText(plain, c, text)
             else if Takes(optstring, c, 2) then WithNone(plain, c)
             else if i + 1 == |a| then WithMissing(plain, c)
             else WithNext(plain, c, a[i + 1]);
      }
    }
    assert w.Written()[0] == a[i];
  }

  /** Every argument vector is a line. */
  lemma {:induction false} EveryVector(optstring: string, a: Args, i: nat) returns (ws: seq<Word>, rest: Args)
    requires i <= |a|
    ensures Line(optstring, a, i, ws, rest)
    decreases |a| - i
  {
    if i == |a| || a[i] == END {
      ws, rest := [], a[i..];
    } else {
      var w := WordAt(optstring, a, i);
      ws, rest := EveryVector(optstring, a, i + |w.Written()|);
      LineFirst(optstring, a, i, w, ws, rest);
      ws := [w] + ws;
    }
  }

  lemma LineFirst(optstring: string, a: Args, i: nat, w: Word, ws: seq<Word>, rest: Args)
    requires w.Proper(optstring) && i + |w.Written()| <= |a| && a[i..i + |w.Written()|] == w.Written()
    requires w.WithMissing? ==> i + 1 == |a|
    requires Line(optstring, a, i + |w.Written()|, ws, rest)
    ensures Line(optstring, a, i, [w] + ws, rest)
  {
    hide Word.Proper;
    var n := |w.Written()|;
    assert a[i..] == a[i..i + n] + a[i + n..];
    assert ([w] + ws)[1..] == ws;
    assert AllWritten([w] + ws) + rest == w.Written() + (AllWritten(ws) + rest);
    if w.WithMissing? {
      assert |a[i + n..]| == 0;
      NothingWritten(ws);
    }
  }

  lemma NothingWritten(ws: seq<Word>)
    ensures AllWritten(ws) == [] ==> ws == []
  {
  }
}
