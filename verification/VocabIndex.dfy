/** The open-addressing index over the vocabulary: linear probing in a table that is rebuilt when rare
    words are dropped, and when the vocabulary is sorted in the end. */
module VocabIndex {
  import opened Sequences
  import HuffmanRun

  datatype Entry = Entry(word: string, cn: nat)

  /** Slot reached from home after k probes in a table of n slots. */
  function Slot(n: nat, home: nat, k: nat): (h: nat)
    requires home < n && k < n
    ensures h < n
  {
    if home + k < n then home + k else home + k - n
  }

  function Home(raw: string -> nat, n: nat, w: string): (h: nat)
    requires n > 0
    ensures h < n
  {
    raw(w) % n
  }

  /** Slot h is reached from the word's home over occupied slots only. */
  ghost predicate ReachedBy(table: seq<int>, home: nat, k: nat, h: nat)
    requires home < |table|
  {
    k < |table| && Slot(|table|, home, k) == h && forall j :: 0 <= j < k ==> table[Slot(|table|, home, j)] != -1
  }

  ghost predicate Reachable(table: seq<int>, home: nat, h: nat)
    requires home < |table|
  {
    exists k :: ReachedBy(table, home, k, h)
  }

  ghost predicate Stored(table: seq<int>, i: nat)
  {
    exists h :: 0 <= h < |table| && table[h] == i
  }

  /** Every occupied slot holds a word's index on the word's own probe path. */
  ghost predicate Placed(raw: string -> nat, words: seq<string>, table: seq<int>, h: nat)
    requires h < |table|
  {
    table[h] == -1 || (0 <= table[h] < |words| && Reachable(table, Home(raw, |table|, words[table[h]]), h))
  }

  /** The table indexes the list of distinct words: each index is stored in exactly one slot. */
  ghost predicate Indexed(raw: string -> nat, words: seq<string>, table: seq<int>)
  {
    && |table| > 0
    && (forall i, j :: 0 <= i < j < |words| ==> words[i] != words[j])
    && (forall h :: 0 <= h < |table| ==> Placed(raw, words, table, h))
    && (forall g, h :: 0 <= g < h < |table| && table[g] != -1 ==> table[g] != table[h])
    && (forall i :: 0 <= i < |words| ==> Stored(table, i))
  }

  // ---- there is always an empty slot ----

  lemma {:induction false} DistinctValues(table: seq<int>, n: nat) returns (s: set<int>)
    requires n <= |table| && forall g, h :: 0 <= g < h < |table| ==> table[g] != table[h]
    ensures |s| == n && forall x :: x in s <==> exists h :: 0 <= h < n && table[h] == x
  {
    if n == 0 {
      s := {};
    } else {
      var r := DistinctValues(table, n - 1);
      assert forall h :: 0 <= h < n - 1 ==> table[h] != table[n - 1];
      s := r + {table[n - 1]};
      forall x | x in s
        ensures exists h :: 0 <= h < n && table[h] == x
      {
        assert x in r || x == table[n - 1];
      }
    }
  }

  lemma {:induction false} Range(m: nat) returns (s: set<int>)
    ensures |s| == m && forall x :: x in s <==> 0 <= x < m
  {
    if m == 0 {
      s := {};
    } else {
      var r := Range(m - 1);
      s := r + {m - 1};
    }
  }

  lemma SubsetSize(a: set<int>, b: set<int>)
    requires a <= b
    ensures |a| <= |b|
  {
    assert b == a + (b - a);
  }

  ghost predicate HasRoom(table: seq<int>)
  {
    exists h :: 0 <= h < |table| && table[h] == -1
  }

  /** With fewer words than slots some slot is empty. */
  lemma EmptySlot(raw: string -> nat, words: seq<string>, table: seq<int>)
    requires Indexed(raw, words, table) && |words| < |table|
    ensures HasRoom(table)
  {
    if !HasRoom(table) {
      var values := DistinctValues(table, |table|);
      var range := Range(|words|);
      forall x | x in values
        ensures x in range
      {
        var g :| 0 <= g < |table| && table[g] == x;
        assert Placed(raw, words, table, g);
      }
      SubsetSize(values, range);
    }
  }

  /** The number of probes from home to a slot. */
  function Distance(n: nat, home: nat, h: nat): (k: nat)
    requires home < n && h < n
    ensures k < n && Slot(n, home, k) == h
  {
    if home <= h then h - home else h + n - home
  }

  // ---- probing ----

  /** The slots before probe k are occupied by other words. */
  ghost predicate Passed(raw: string -> nat, words: seq<string>, table: seq<int>, w: string, k: nat)
    requires |table| > 0
  {
    k < |table| && forall j :: 0 <= j < k ==>
      var x := table[Slot(|table|, Home(raw, |table|, w), j)];
      x != -1 && (0 <= x < |words| ==> words[x] != w)
  }

  /** Ending on an empty slot proves the word absent. */
  lemma AbsentIfEmpty(raw: string -> nat, words: seq<string>, table: seq<int>, w: string, k: nat, i: nat)
    requires Indexed(raw, words, table) && Passed(raw, words, table, w, k) && i < |words|
    requires table[Slot(|table|, Home(raw, |table|, w), k)] == -1
    ensures words[i] != w
  {
    assert Stored(table, i);
    var h :| 0 <= h < |table| && table[h] == i;
    assert Placed(raw, words, table, h);
  }

  /** Storing a new word's index in the first empty slot of its path. */
  lemma StoreKeepsIndex(raw: string -> nat, words: seq<string>, table: seq<int>, w: string, k: nat)
    requires Indexed(raw, words, table) && w !in words && Passed(raw, words, table, w, k)
    requires table[Slot(|table|, Home(raw, |table|, w), k)] == -1
    ensures Indexed(raw, words + [w], table[Slot(|table|, Home(raw, |table|, w), k) := |words|])
  {
    var home, i := Home(raw, |table|, w), |words|;
    var slot := Slot(|table|, home, k);
    var after, more := table[slot := i], words + [w];
    assert ReachedBy(after, home, k, slot);
    forall h | 0 <= h < |after|
      ensures Placed(raw, more, after, h)
    {
      if h != slot {
        StaysPlaced(raw, words, table, w, slot, h);
      }
    }
    forall j | 0 <= j < |more|
      ensures Stored(after, j)
    {
      if j < i {
        assert Stored(table, j);
        var h :| 0 <= h < |table| && table[h] == j;
        assert after[h] == j;
      } else {
        assert after[slot] == j;
      }
    }
    forall g, h | 0 <= g < h < |after| && after[g] != -1
      ensures after[g] != after[h]
    {
      assert Placed(raw, words, table, g) && Placed(raw, words, table, h);
    }
    assert forall j :: 0 <= j < i ==> more[j] == words[j] && words[j] in words;
    hide Reachable, Home, Slot, Passed;
  }

  lemma StaysPlaced(raw: string -> nat, words: seq<string>, table: seq<int>, w: string, slot: nat, h: nat)
    requires h < |table| && slot < |table| && h != slot && Placed(raw, words, table, h) && table[slot] == -1
    ensures Placed(raw, words + [w], table[slot := |words|], h)
  {
    var after := table[slot := |words|];
    if table[h] != -1 {
      var home := Home(raw, |table|, words[table[h]]);
      var m :| ReachedBy(table, home, m, h);
      assert ReachedBy(after, home, m, h);
      assert (words + [w])[table[h]] == words[table[h]];
    }
  }

  function NextSlot(n: nat, h: nat): nat
    requires n > 0
  {
    (h + 1) % n
  }

  lemma NextProbe(n: nat, home: nat, k: nat)
    requires home < n && k + 1 < n
    ensures NextSlot(n, Slot(n, home, k)) == Slot(n, home, k + 1)
  {
    WrapAround(n, Slot(n, home, k));
  }

  lemma WrapAround(n: nat, h: nat)
    requires h < n
    ensures NextSlot(n, h) == if h + 1 < n then h + 1 else 0
  {
  }

  lemma PassedNext(raw: string -> nat, words: seq<string>, table: seq<int>, w: string, k: nat)
    requires k + 1 < |table| && Passed(raw, words, table, w, k)
    requires var x := table[Slot(|table|, Home(raw, |table|, w), k)]; x != -1 && (0 <= x < |words| ==> words[x] != w)
    ensures Passed(raw, words, table, w, k + 1)
  {
  }

  lemma FirstSlot(n: nat, home: nat)
    requires home < n
    ensures Slot(n, home, 0) == home
  {
  }

  lemma NonePassed(raw: string -> nat, words: seq<string>, table: seq<int>, w: string)
    requires |table| > 0
    ensures Passed(raw, words, table, w, 0)
  {
  }

  lemma SlotHolds(raw: string -> nat, words: seq<string>, table: seq<int>, h: nat)
    requires Indexed(raw, words, table) && h < |table| && table[h] != -1
    ensures 0 <= table[h] < |words|
  {
    assert Placed(raw, words, table, h);
  }

  // ---- indexing a stretch of a list ----

  /** The table with lo taken off every index. */
  ghost function Lowered(table: seq<int>, lo: nat): (low: seq<int>)
    ensures |low| == |table|
  {
    seq(|table|, h requires 0 <= h < |table| => if table[h] == -1 then -1 else table[h] - lo)
  }

  /** The table indexes the words as those at places lo, lo + 1, ... of a longer list. */
  ghost predicate IndexedFrom(raw: string -> nat, words: seq<string>, table: seq<int>, lo: nat)
  {
    (forall h :: 0 <= h < |table| ==> table[h] == -1 || table[h] >= lo) && Indexed(raw, words, Lowered(table, lo))
  }

  lemma FromZero(raw: string -> nat, words: seq<string>, table: seq<int>)
    ensures IndexedFrom(raw, words, table, 0) <==> Indexed(raw, words, table)
  {
    if Indexed(raw, words, table) {
      forall h | 0 <= h < |table|
        ensures table[h] == -1 || table[h] >= 0
      {
        assert Placed(raw, words, table, h);
      }
    }
    assert Lowered(table, 0) == table;
    hide Indexed;
  }

  lemma NothingIndexed(raw: string -> nat, table: seq<int>, lo: nat)
    requires |table| > 0 && forall h :: 0 <= h < |table| ==> table[h] == -1
    ensures IndexedFrom(raw, [], table, lo)
  {
  }

  lemma RoomFrom(raw: string -> nat, words: seq<string>, table: seq<int>, lo: nat)
    requires IndexedFrom(raw, words, table, lo) && |words| < |table|
    ensures HasRoom(table)
  {
    EmptySlot(raw, words, Lowered(table, lo));
    var h :| 0 <= h < |table| && Lowered(table, lo)[h] == -1;
    assert table[h] == -1;
  }

  /** Storing a new word's index in the first empty slot of its path. */
  lemma StoreFrom(raw: string -> nat, words: seq<string>, table: seq<int>, lo: nat, w: string, k: nat)
    requires IndexedFrom(raw, words, table, lo) && w !in words && k < |table|
    requires table[Slot(|table|, Home(raw, |table|, w), k)] == -1
    requires forall j :: 0 <= j < k ==> table[Slot(|table|, Home(raw, |table|, w), j)] != -1
    ensures IndexedFrom(raw, words + [w], table[Slot(|table|, Home(raw, |table|, w), k) := lo + |words|], lo)
  {
    hide Indexed, Slot, Home;
    var low, slot := Lowered(table, lo), Slot(|table|, Home(raw, |table|, w), k);
    StoreKeepsIndex(raw, words, low, w, k);
    assert Lowered(table[slot := lo + |words|], lo) == low[slot := |words|];
  }

  // ---- the vocabulary ----

  ghost function Words(vocab: seq<Entry>): (words: seq<string>)
    ensures |words| == |vocab| && forall i :: 0 <= i < |vocab| ==> words[i] == vocab[i].word
  {
    seq(|vocab|, i requires 0 <= i < |vocab| => vocab[i].word)
  }

  /** The entries counted more often than the threshold, in order. */
  function Kept(vocab: seq<Entry>, minReduce: nat): (kept: seq<Entry>)
    ensures |kept| <= |vocab|
  {
    if vocab == [] then [] else
      var front, last := vocab[..|vocab| - 1], vocab[|vocab| - 1];
      Kept(front, minReduce) + if last.cn > minReduce then [last] else []
  }

  lemma KeptShorter(vocab: seq<Entry>, minReduce: nat)
    ensures |Kept(vocab, minReduce)| <= |vocab|
  {
  }

  lemma {:induction false} KeptIsPart(vocab: seq<Entry>, minReduce: nat)
    ensures forall e :: e in Kept(vocab, minReduce) <==> e in vocab && e.cn > minReduce
  {
    if vocab != [] {
      var front, last := vocab[..|vocab| - 1], vocab[|vocab| - 1];
      KeptIsPart(front, minReduce);
      assert vocab == front + [last];
    }
  }

  /** kept are the entries at the given places, which go up, and all other entries are too rare. */
  ghost predicate KeptAt(vocab: seq<Entry>, kept: seq<Entry>, minReduce: nat, places: seq<nat>)
  {
    && |places| == |kept|
    && (forall i :: 0 <= i < |places| ==>
          places[i] < |vocab| && kept[i] == vocab[places[i]] && vocab[places[i]].cn > minReduce)
    && (forall i, j :: 0 <= i < j < |places| ==> places[i] < places[j])
    && (forall p: nat :: p < |vocab| && p !in places ==> vocab[p].cn <= minReduce)
  }

  /** The frequent entries stay, in their order. */
  lemma {:induction false} KeptPlaces(vocab: seq<Entry>, minReduce: nat) returns (places: seq<nat>)
    ensures KeptAt(vocab, Kept(vocab, minReduce), minReduce, places)
  {
    if vocab == [] {
      places := [];
    } else {
      var n := |vocab| - 1;
      var front := KeptPlaces(vocab[..n], minReduce);
      places := front + if vocab[n].cn > minReduce then [n] else [];
      PlacesNext(vocab, Kept(vocab[..n], minReduce), minReduce, front);
    }
  }

  lemma PlacesNext(vocab: seq<Entry>, kept: seq<Entry>, minReduce: nat, front: seq<nat>)
    requires vocab != [] && KeptAt(vocab[..|vocab| - 1], kept, minReduce, front)
    ensures var n := |vocab| - 1;
      if vocab[n].cn > minReduce then KeptAt(vocab, kept + [vocab[n]], minReduce, front + [n])
      else KeptAt(vocab, kept, minReduce, front)
  {
    var n := |vocab| - 1;
    assert forall p :: 0 <= p < n ==> vocab[..n][p] == vocab[p];
    assert forall p :: p in front + [n] <==> p in front || p == n;
  }

  ghost predicate DistinctWords(vocab: seq<Entry>)
  {
    forall i, j :: 0 <= i < j < |vocab| ==> vocab[i].word != vocab[j].word
  }

  lemma {:induction false} KeptDistinct(vocab: seq<Entry>, minReduce: nat)
    requires DistinctWords(vocab)
    ensures DistinctWords(Kept(vocab, minReduce))
  {
    if vocab != [] {
      var front, last := vocab[..|vocab| - 1], vocab[|vocab| - 1];
      KeptDistinct(front, minReduce);
      KeptIsPart(front, minReduce);
      forall e | e in Kept(front, minReduce)
        ensures e.word != last.word
      {
        var i :| 0 <= i < |front| && front[i] == e;
        assert vocab[i] == e;
      }
    }
  }

  lemma IndexedIsDistinct(raw: string -> nat, vocab: seq<Entry>, table: seq<int>)
    requires Indexed(raw, Words(vocab), table)
    ensures DistinctWords(vocab)
  {
    forall i, j | 0 <= i < j < |vocab|
      ensures vocab[i].word != vocab[j].word
    {
      assert Words(vocab)[i] != Words(vocab)[j];
    }
  }

  /** Position of a word in the list, found by looking at all of it; its length if absent. */
  function Position(vocab: seq<Entry>, w: string): (i: nat)
    ensures i <= |vocab| && (i < |vocab| ==> vocab[i].word == w) && forall k :: 0 <= k < i ==> vocab[k].word != w
  {
    if vocab == [] then 0 else if vocab[0].word == w then 0 else
      assert vocab == [vocab[0]] + vocab[1..];
      1 + Position(vocab[1..], w)
  }

  /** One occurrence of a word is counted. */
  function Counted(vocab: seq<Entry>, w: string): seq<Entry>
  {
    var i := Position(vocab, w);
    if i < |vocab| then vocab[i := Entry(w, vocab[i].cn + 1)] else vocab + [Entry(w, 1)]
  }

  /** More than seven tenths of the table are in use. */
  predicate TooFull(size: nat, n: nat)
  {
    10 * size > 7 * n
  }

  /** The vocabulary with its threshold, as plain lists. */
  datatype Plain = Plain(vocab: seq<Entry>, minReduce: nat)

  /** What one word of the input does. */
  function AfterWord(p: Plain, w: string, n: nat): Plain
  {
    var v := Counted(p.vocab, w);
    if 10 * |v| > 7 * n then Plain(Kept(v, p.minReduce), p.minReduce + 1) else Plain(v, p.minReduce)
  }

  function AfterWords(p: Plain, input: seq<string>, n: nat): Plain
  {
    if input == [] then p else AfterWord(AfterWords(p, input[..|input| - 1], n), input[|input| - 1], n)
  }

  /** How often a word occurs in the input. */
  function Occurrences(input: seq<string>, w: string): nat
  {
    if input == [] then 0
    else Occurrences(input[..|input| - 1], w) + if input[|input| - 1] == w then 1 else 0
  }

  /** Every word listed is counted as often as it occurs, once listed, and every word of the input is. */
  ghost predicate CountsAll(vocab: seq<Entry>, input: seq<string>)
  {
    && DistinctWords(vocab)
    && (forall i :: 0 <= i < |vocab| ==> vocab[i].cn == Occurrences(input, vocab[i].word))
    && (forall w :: Occurrences(input, w) > 0 ==> exists i :: 0 <= i < |vocab| && vocab[i].word == w)
  }

  lemma CountedCounts(vocab: seq<Entry>, input: seq<string>, w: string)
    requires CountsAll(vocab, input)
    ensures CountsAll(Counted(vocab, w), input + [w])
  {
    var more, i := input + [w], Position(vocab, w);
    var v := Counted(vocab, w);
    assert more[..|input|] == input;
    assert forall x :: Occurrences(more, x) == Occurrences(input, x) + if x == w then 1 else 0;
    assert i == |vocab| ==> Occurrences(input, w) == 0;
    forall x | Occurrences(more, x) > 0
      ensures exists j :: 0 <= j < |v| && v[j].word == x
    {
      if x == w {
        assert v[i].word == w;
      } else {
        var j :| 0 <= j < |vocab| && vocab[j].word == x;
        assert v[j].word == x;
      }
    }
  }

  /** As long as the vocabulary has not been reduced, the counts are those of the input. */
  lemma {:induction false} CountsAreOccurrences(input: seq<string>, n: nat)
    requires AfterWords(Plain([Entry("</s>", 0)], 1), input, n).minReduce == 1
    ensures CountsAll(AfterWords(Plain([Entry("</s>", 0)], 1), input, n).vocab, input)
  {
    hide *;
    if input == [] {
      NothingCounted(n);
    } else {
      var front, w := input[..|input| - 1], input[|input| - 1];
      ThresholdRises(front, n);
      WithLastWord(input, n);
      CountsAreOccurrences(front, n);
      CountedCounts(AfterWords(Plain([Entry("</s>", 0)], 1), front, n).vocab, front, w);
      assert input == front + [w];
    }
  }

  lemma NothingCounted(n: nat)
    ensures CountsAll(AfterWords(Plain([Entry("</s>", 0)], 1), [], n).vocab, [])
  {
  }

  lemma WithLastWord(input: seq<string>, n: nat)
    requires input != []
    ensures var p, q := AfterWords(Plain([Entry("</s>", 0)], 1), input[..|input| - 1], n),
                        AfterWords(Plain([Entry("</s>", 0)], 1), input, n);
      q.minReduce == 1 && p.minReduce >= 1 ==> p.minReduce == 1 && q.vocab == Counted(p.vocab, input[|input| - 1])
  {
    hide Counted, Kept;
  }

  lemma {:induction false} ThresholdRises(input: seq<string>, n: nat)
    ensures AfterWords(Plain([Entry("</s>", 0)], 1), input, n).minReduce >= 1
  {
    if input != [] {
      ThresholdRises(input[..|input| - 1], n);
    }
  }

  /** Reducing always brings the vocabulary back below seven tenths: the word just added has count 1. */
  lemma ReducedEnough(p: Plain, w: string, n: nat)
    requires !TooFull(|p.vocab|, n) && p.minReduce >= 1
    ensures !TooFull(|AfterWord(p, w, n).vocab|, n) && AfterWord(p, w, n).minReduce >= 1
  {
    var v := Counted(p.vocab, w);
    if TooFull(|v|, n) {
      assert v[..|v| - 1] == p.vocab;
    }
  }

  // ---- sorting by count ----

  /** A number converted to a 32-bit int. */
  function ToInt(x: int): int
  {
    var r := x % 0x1_0000_0000;
    if r >= 0x8000_0000 then r - 0x1_0000_0000 else r
  }

  /** The comparator of the sort: the difference of the counts, as an int. */
  function Compare(a: Entry, b: Entry): int
  {
    ToInt(b.cn - a.cn)
  }

  /** The comparator returns the difference exactly when the difference fits. */
  lemma CompareIsExact(a: Entry, b: Entry)
    ensures Compare(a, b) == b.cn - a.cn <==> -0x8000_0000 <= b.cn - a.cn < 0x8000_0000
  {
  }

  /** Counts so far apart that their difference is 0 as an int: the larger one is not put first. */
  lemma CompareWraps(word: string, other: string, cn: nat)
    ensures Compare(Entry(word, cn), Entry(other, cn + 0x1_0000_0000)) == 0
  {
  }

  /** All differences of counts fit an int. */
  ghost predicate Comparable(vocab: seq<Entry>)
  {
    forall i, j :: 0 <= i < |vocab| && 0 <= j < |vocab| ==> vocab[j].cn - vocab[i].cn < 0x8000_0000
  }

  ghost predicate ByCount(vocab: seq<Entry>)
  {
    forall i, j :: 0 <= i < j < |vocab| ==> vocab[i].cn >= vocab[j].cn
  }

  /** The same entries with the first in place and the others by falling count. */
  ghost predicate TailSorted(was: seq<Entry>, now: seq<Entry>)
  {
    |was| >= 1 && |now| == |was| && now[0] == was[0] && multiset(now) == multiset(was) && ByCount(now[1..])
  }

  /** The first place from k on whose count is below the threshold. */
  function CutFrom(vocab: seq<Entry>, minCount: nat, k: nat): (p: nat)
    requires k <= |vocab|
    ensures k <= p <= |vocab| && (forall i :: k <= i < p ==> vocab[i].cn >= minCount)
    ensures p < |vocab| ==> vocab[p].cn < minCount
    decreases |vocab| - k
  {
    if k == |vocab| || vocab[k].cn < minCount then k else CutFrom(vocab, minCount, k + 1)
  }

  /** Where the frequent entries start: the first entry is not sorted in. */
  function FirstFrequent(vocab: seq<Entry>, minCount: nat): nat
    requires |vocab| >= 1
  {
    if vocab[0].cn >= minCount then 0 else 1
  }

  function Total(vocab: seq<Entry>): nat
  {
    if vocab == [] then 0 else Total(vocab[..|vocab| - 1]) + vocab[|vocab| - 1].cn
  }

  lemma PastTheCut(was: seq<Entry>, now: seq<Entry>, minCount: nat, a: nat)
    requires TailSorted(was, now) && 1 <= a < |now|
    ensures now[a].cn >= minCount <==> a < CutFrom(now, minCount, 1)
  {
    var p := CutFrom(now, minCount, 1);
    if p < a {
      assert now[1..][p - 1].cn >= now[1..][a - 1].cn;
    }
  }

  /** Between its ends the sorted list has exactly the entries that are frequent enough. */
  lemma FrequentStretch(was: seq<Entry>, now: seq<Entry>, minCount: nat, e: Entry)
    requires TailSorted(was, now)
    ensures multiset(now[FirstFrequent(now, minCount)..CutFrom(now, minCount, 1)])[e]
            == if e.cn >= minCount then multiset(was)[e] else 0
  {
    var lo, p := FirstFrequent(now, minCount), CutFrom(now, minCount, 1);
    RareOutside(was, now, minCount, e);
    hide TailSorted, CutFrom, FirstFrequent;
    SortedSize(was, now);
    ThreeParts(now, lo, p, e);
  }

  lemma SortedSize(was: seq<Entry>, now: seq<Entry>)
    requires TailSorted(was, now)
    ensures |now| == |was| >= 1 && now[0] == was[0] && multiset(now) == multiset(was)
  {
  }

  lemma RareOutside(was: seq<Entry>, now: seq<Entry>, minCount: nat, e: Entry)
    requires TailSorted(was, now)
    ensures var lo, p := FirstFrequent(now, minCount), CutFrom(now, minCount, 1);
      if e.cn >= minCount then e !in now[..lo] && e !in now[p..] else e !in now[lo..p]
  {
    var p := CutFrom(now, minCount, 1);
    forall a | p <= a < |now|
      ensures now[a].cn < minCount
    {
      PastTheCut(was, now, minCount, a);
    }
  }

  function Counts(vocab: seq<Entry>): (cn: seq<int>)
    ensures |cn| == |vocab|
  {
    seq(|vocab|, i requires 0 <= i < |vocab| => vocab[i].cn)
  }

  /** The counts the Huffman tree is built from are sorted exactly when the entry that stayed in front is
      no rarer than the next. */
  lemma SortedCountsDescend(was: seq<Entry>, now: seq<Entry>, size: nat)
    requires TailSorted(was, now) && size <= |now|
    ensures HuffmanRun.Descending(Counts(now[..size])) <==> size <= 1 || now[0].cn >= now[1].cn
  {
    var v := now[..size];
    if size >= 2 {
      assert Counts(v)[0] == now[0].cn && Counts(v)[1] == now[1].cn;
      if now[0].cn >= now[1].cn {
        forall i, j | 0 <= i <= j < size
          ensures Counts(v)[i] >= Counts(v)[j]
        {
          assert i >= 1 && i < j ==> now[1..][i - 1].cn >= now[1..][j - 1].cn;
          assert i == 0 && j > 1 ==> now[1..][0].cn >= now[1..][j - 1].cn;
        }
      }
    }
  }

  lemma {:induction false} CountsBounded(input: seq<string>, n: nat)
    ensures forall e :: e in AfterWords(Plain([Entry("</s>", 0)], 1), input, n).vocab ==> e.cn <= |input|
  {
    if input != [] {
      var front := input[..|input| - 1];
      var p := AfterWords(Plain([Entry("</s>", 0)], 1), front, n);
      CountsBounded(front, n);
      KeptIsPart(Counted(p.vocab, input[|input| - 1]), p.minReduce);
    }
  }

  /** Files of fewer than 2^31 words have counts the comparator can tell apart. */
  lemma ShortInputsCompare(input: seq<string>, n: nat)
    requires |input| < 0x8000_0000
    ensures Comparable(AfterWords(Plain([Entry("</s>", 0)], 1), input, n).vocab)
  {
    CountsBounded(input, n);
  }

  /** A kept word that is not indexed: the first, when it is too rare and others are not. */
  lemma FirstNotIndexed(raw: string -> nat, words: seq<string>, table: seq<int>, vocab: seq<Entry>)
    requires IndexedFrom(raw, words, table, 1) && vocab != []
    ensures !Indexed(raw, Words(vocab), table)
  {
    assert Indexed(raw, Words(vocab), table) ==> Stored(table, 0);
  }

  /** A first entry that is too rare stays, and the last frequent one goes in its stead. */
  lemma RareFirstStays()
    ensures var v := [Entry("</s>", 0), Entry("word", 5)];
      TailSorted(v, v) && v[..CutFrom(v, 5, 1) - FirstFrequent(v, 5)] == [Entry("</s>", 0)]
  {
    var v := [Entry("</s>", 0), Entry("word", 5)];
    assert CutFrom(v, 5, 1) == 2;
    assert v[1..] == [v[1]];
  }

  class Vocabulary {
    const raw: string -> nat
    const hash: array<int>
    var vocab: seq<Entry>
    var minReduce: nat

    ghost predicate Valid()
      reads this, hash
    {
      hash.Length >= 4 && Indexed(raw, Words(vocab), hash[..]) && |vocab| < hash.Length
    }

    constructor (raw: string -> nat, n: nat)
      requires n >= 4
      ensures Valid() && fresh(hash) && this.raw == raw && hash.Length == n && vocab == [] && minReduce == 1
    {
      this.raw := raw;
      var table := new int[n](_ => -1);
      hash := table;
      vocab, minReduce := [], 1;
      new;
      assert Words([]) == [];
    }

    /** The slot where probing for a word stops: its own, or the first empty one. */
    method Probe(word: string) returns (h: nat, ghost k: nat)
      requires Valid()
      ensures k < hash.Length && h == Slot(hash.Length, Home(raw, hash.Length, word), k)
      ensures Passed(raw, Words(vocab), hash[..], word, k)
      ensures hash[h] == -1 || (0 <= hash[h] < |vocab| && vocab[hash[h]].word == word)
    {
      hide Indexed, Placed, Passed, Slot, Home, NextSlot;
      ghost var words := Words(vocab);
      var n := hash.Length;
      EmptySlot(raw, words, hash[..]);
      ghost var e :| 0 <= e < n && hash[..][e] == -1;
      ghost var home := Home(raw, n, word);
      ghost var last := Distance(n, home, e);
      h, k := Home(raw, n, word), 0;
      FirstSlot(n, home);
      NonePassed(raw, words, hash[..], word);
      while hash[h] != -1
        invariant k <= last && h == Slot(n, home, k) && Passed(raw, words, hash[..], word, k)
        decreases last - k
      {
        SlotHolds(raw, words, hash[..], h);
        if word == vocab[hash[h]].word {
          return;
        }
        assert k != last;
        PassedNext(raw, words, hash[..], word, k);
        NextProbe(n, home, k);
        h := NextSlot(n, h);
        k := k + 1;
      }
    }

    /** The first empty slot on the path of a word. */
    method FirstEmpty(word: string) returns (h: nat, ghost k: nat)
      requires hash.Length > 0 && HasRoom(hash[..])
      ensures k < hash.Length && h == Slot(hash.Length, Home(raw, hash.Length, word), k) && hash[h] == -1
      ensures forall j :: 0 <= j < k ==> hash[Slot(hash.Length, Home(raw, hash.Length, word), j)] != -1
    {
      hide Slot, Home, NextSlot;
      var n := hash.Length;
      ghost var e :| 0 <= e < n && hash[..][e] == -1;
      ghost var home := Home(raw, n, word);
      ghost var last := Distance(n, home, e);
      h, k := Home(raw, n, word), 0;
      FirstSlot(n, home);
      while hash[h] != -1
        invariant k <= last && h == Slot(n, home, k) && forall j :: 0 <= j < k ==> hash[Slot(n, home, j)] != -1
        decreases last - k
      {
        assert k != last;
        NextProbe(n, home, k);
        h := NextSlot(n, h);
        k := k + 1;
      }
    }

    /** Indexes one more word, at place a of the list. */
    method StoreIndex(word: string, a: nat, ghost words: seq<string>, ghost lo: nat)
      requires IndexedFrom(raw, words, hash[..], lo) && |words| < hash.Length && word !in words && a == lo + |words|
      modifies hash
      ensures IndexedFrom(raw, words + [word], hash[..], lo)
    {
      hide IndexedFrom, Slot, Home;
      RoomFrom(raw, words, hash[..], lo);
      ghost var table := hash[..];
      var h;
      ghost var k;
      h, k := FirstEmpty(word);
      StoreFrom(raw, words, table, lo, word, k);
      hash[h] := a;
      assert hash[..] == table[h := a];
    }

    /** Empties the table. */
    method Clear()
      requires hash.Length > 0
      modifies hash
      ensures forall lo: nat :: IndexedFrom(raw, [], hash[..], lo)
    {
      for a := 0 to hash.Length
        invariant forall h :: 0 <= h < a ==> hash[h] == -1
      {
        hash[a] := -1;
      }
      forall lo: nat
        ensures IndexedFrom(raw, [], hash[..], lo)
      {
        NothingIndexed(raw, hash[..], lo);
      }
    }

    /** The index of a word, or -1 exactly when it is not in the vocabulary. */
    method SearchVocab(word: string) returns (index: int)
      requires Valid()
      ensures index == -1 ==> word !in Words(vocab)
      ensures index != -1 ==> 0 <= index < |vocab| && vocab[index].word == word
    {
      ghost var words := Words(vocab);
      var h;
      ghost var k;
      h, k := Probe(word);
      index := hash[h];
      if index == -1 {
        forall i | 0 <= i < |words|
          ensures words[i] != word
        {
          AbsentIfEmpty(raw, words, hash[..], word, k, i);
        }
      }
    }

    /** Appends a word that is not there, with count 0, and indexes it. */
    method AddWordToVocab(word: string) returns (index: nat)
      requires Valid() && word !in Words(vocab) && |vocab| + 1 < hash.Length
      modifies `vocab, hash
      ensures Valid() && vocab == old(vocab) + [Entry(word, 0)] && index == |vocab| - 1
    {
      hide Indexed, IndexedFrom;
      ghost var words := Words(vocab);
      FromZero(raw, words, hash[..]);
      vocab := vocab + [Entry(word, 0)];
      StoreIndex(word, |vocab| - 1, words, 0);
      FromZero(raw, words + [word], hash[..]);
      assert Words(vocab) == words + [word];
      index := |vocab| - 1;
    }

    /** Compacts the list to the words counted more often than the threshold. */
    method Compact() returns (kept: seq<Entry>)
      ensures kept == Kept(vocab, minReduce)
    {
      kept := vocab;
      var b := 0;
      for a := 0 to |vocab|
        invariant b <= a && |kept| == |vocab|
        invariant kept[..b] == Kept(vocab[..a], minReduce)
        invariant forall k :: a <= k < |vocab| ==> kept[k] == vocab[k]
      {
        assert vocab[..a + 1][..a] == vocab[..a];
        if kept[a].cn > minReduce {
          kept := kept[b := kept[a]];
          b := b + 1;
        }
      }
      assert vocab[..|vocab|] == vocab;
      kept := kept[..b];
    }

    /** Clears the table and indexes the words again. */
    method Rebuild()
      requires hash.Length >= 4 && DistinctWords(vocab) && |vocab| < hash.Length
      modifies hash
      ensures Valid()
    {
      hide Indexed, IndexedFrom;
      Clear();
      ghost var words := Words(vocab);
      assert words[..0] == [];
      for a := 0 to |vocab|
        invariant IndexedFrom(raw, words[..a], hash[..], 0)
      {
        StoreIndex(vocab[a].word, a, words[..a], 0);
        assert words[..a + 1] == words[..a] + [vocab[a].word];
      }
      assert words[..|vocab|] == words;
      FromZero(raw, words, hash[..]);
    }

    /** Drops the rare words. */
    method ReduceVocab()
      requires Valid()
      modifies `vocab, `minReduce, hash
      ensures Valid() && vocab == Kept(old(vocab), old(minReduce)) && minReduce == old(minReduce) + 1
      ensures exists places :: KeptAt(old(vocab), vocab, old(minReduce), places)
    {
      hide KeptAt, Indexed, Kept, DistinctWords;
      ghost var places := KeptPlaces(vocab, minReduce);
      IndexedIsDistinct(raw, vocab, hash[..]);
      KeptDistinct(vocab, minReduce);
      var kept := Compact();
      vocab := kept;
      KeptShorter(old(vocab), minReduce);
      Rebuild();
      minReduce := minReduce + 1;
      assert KeptAt(old(vocab), vocab, old(minReduce), places);
    }

    ghost function State(): Plain
      reads this
    {
      Plain(vocab, minReduce)
    }

    /** One word of the training file. */
    method CountWord(word: string)
      requires Valid() && !TooFull(|vocab|, hash.Length) && minReduce >= 1
      modifies `vocab, `minReduce, hash
      ensures Valid() && State() == AfterWord(old(State()), word, hash.Length)
      ensures !TooFull(|vocab|, hash.Length) && minReduce >= 1
    {
      hide Indexed, Words, Position, Counted, AfterWord, Kept, DistinctWords;
      ReducedEnough(State(), word, hash.Length);
      WordCounted(State(), word, hash.Length);
      ghost var was := vocab;
      var i := SearchVocab(word);
      IndexedIsDistinct(raw, vocab, hash[..]);
      SearchIsPosition(vocab, word, i);
      if i == -1 {
        var a := AddWordToVocab(word);
        vocab := vocab[a := Entry(word, 1)];
        assert vocab == was + [Entry(word, 1)];
        ghost var added := was + [Entry(word, 0)];
        SameWords(added, vocab);
      } else {
        vocab := vocab[i := Entry(vocab[i].word, vocab[i].cn + 1)];
        SameWords(was, vocab);
      }
      CountedIs(was, word, i);
      if TooFull(|vocab|, hash.Length) {
        ReduceVocab();
      }
    }

    /** The counting loop: the index-backed run does exactly what plain lists would do. */
    method CountWords(input: seq<string>)
      requires Valid() && vocab == [] && minReduce == 1
      modifies `vocab, `minReduce, hash
      ensures Valid() && State() == AfterWords(Plain([Entry("</s>", 0)], 1), input, hash.Length)
      ensures !TooFull(|vocab|, hash.Length)
    {
      var first := AddWordToVocab("</s>");
      for i := 0 to |input|
        invariant Valid() && State() == AfterWords(Plain([Entry("</s>", 0)], 1), input[..i], hash.Length)
        invariant !TooFull(|vocab|, hash.Length) && minReduce >= 1
      {
        CountWord(input[i]);
        assert input[..i + 1][..i] == input[..i];
      }
      assert input[..|input|] == input;
    }

    /** qsort over all entries but the first: any order of falling counts. */
    method SortTail() returns (sorted: seq<Entry>)
      requires |vocab| >= 1 && Comparable(vocab[1..])
      ensures TailSorted(vocab, sorted)
    {
      var tail := [];
      for a := 1 to |vocab|
        invariant ByCount(tail) && |tail| == a - 1 && multiset(tail) == multiset(vocab[1..a])
      {
        TailComparable(vocab, a, tail);
        var p := PlaceFor(tail, vocab[a]);
        assert vocab[1..a + 1] == vocab[1..a] + [vocab[a]];
        InsertedItems(tail, p, vocab[a]);
        tail := tail[..p] + [vocab[a]] + tail[p..];
      }
      assert vocab == [vocab[0]] + vocab[1..|vocab|];
      sorted := [vocab[0]] + tail;
    }

    /** Where an entry goes among entries by falling count. */
    method PlaceFor(tail: seq<Entry>, x: Entry) returns (p: nat)
      requires ByCount(tail)
      requires forall e :: e in tail ==> -0x8000_0000 < x.cn - e.cn < 0x8000_0000
      ensures p <= |tail| && (forall i :: 0 <= i < p ==> tail[i].cn >= x.cn)
      ensures forall i :: p <= i < |tail| ==> x.cn >= tail[i].cn
    {
      p := |tail|;
      while p > 0 && Compare(tail[p - 1], x) > 0
        invariant p <= |tail| && forall i :: p <= i < |tail| ==> x.cn >= tail[i].cn
      {
        CompareIsExact(tail[p - 1], x);
        p := p - 1;
      }
      if p > 0 {
        CompareIsExact(tail[p - 1], x);
      }
    }

    /** Sorts all entries but the first by falling count, drops as many from the end as are too rare, and
        indexes the frequent ones. The index fits the list exactly when the first entry is frequent enough
        or nothing is left: otherwise it is an unindexed rare word that stays and a frequent one that goes. */
    method SortVocab(minCount: nat) returns (trainWords: nat, ghost sorted: seq<Entry>)
      requires Valid() && |vocab| >= 1 && Comparable(vocab[1..])
      modifies `vocab, hash
      ensures TailSorted(old(vocab), sorted)
      ensures var lo, p := FirstFrequent(sorted, minCount), CutFrom(sorted, minCount, 1);
        && vocab == sorted[..p - lo] && trainWords == Total(sorted[lo..p])
        && IndexedFrom(raw, Words(sorted[lo..p]), hash[..], lo)
      ensures Valid() <==> old(vocab)[0].cn >= minCount || vocab == []
    {
      hide Indexed, IndexedFrom, TailSorted, DistinctWords, Words, Total, CutFrom;
      IndexedIsDistinct(raw, vocab, hash[..]);
      var all := SortTail();
      sorted := all;
      SortedSize(vocab, sorted);
      SortedDistinct(vocab, sorted);
      ghost var lo, p := FirstFrequent(sorted, minCount), CutFrom(sorted, minCount, 1);
      Clear();
      var size := |all|;
      trainWords := 0;
      ghost var end := lo;
      NoWords(sorted, lo);
      for a := 0 to |all|
        invariant end == (if a < lo then lo else if a <= p then a else p) && size == |all| - (a - (end - lo))
        invariant IndexedFrom(raw, Words(sorted[lo..end]), hash[..], lo) && trainWords == Total(sorted[lo..end])
      {
        if a >= 1 {
          PastTheCut(old(vocab), sorted, minCount, a);
        }
        if all[a].cn < minCount {
          size := size - 1;
        } else {
          NextWord(sorted, lo, a);
          StoreIndex(all[a].word, a, Words(sorted[lo..a]), lo);
          trainWords := trainWords + all[a].cn;
          end := a + 1;
        }
      }
      vocab := all[..size];
      SortedIsIndexed(sorted, lo, p);
    }

    /** When what was indexed is the list itself. */
    lemma SortedIsIndexed(sorted: seq<Entry>, lo: nat, p: nat)
      requires lo <= 1 <= p <= |sorted| < hash.Length && hash.Length >= 4 && vocab == sorted[..p - lo]
      requires IndexedFrom(raw, Words(sorted[lo..p]), hash[..], lo)
      ensures Valid() <==> lo == 0 || vocab == []
    {
      if lo == 0 {
        FromZero(raw, Words(vocab), hash[..]);
      } else if vocab == [] {
        assert Words(sorted[lo..p]) == Words(vocab) == [];
        forall h | 0 <= h < hash.Length
          ensures hash[h] == -1
        {
          assert Placed(raw, [], Lowered(hash[..], lo), h);
        }
      } else {
        FirstNotIndexed(raw, Words(sorted[lo..p]), hash[..], vocab);
      }
    }

    /** The vocabulary of a file: counted, sorted and cut. */
    method LearnVocab(input: seq<string>, minCount: nat) returns (trainWords: nat, ghost sorted: seq<Entry>)
      requires Valid() && vocab == [] && minReduce == 1
      requires Comparable(AfterWords(Plain([Entry("</s>", 0)], 1), input, hash.Length).vocab)
      modifies `vocab, `minReduce, hash
      ensures var counted := AfterWords(Plain([Entry("</s>", 0)], 1), input, hash.Length).vocab;
        if counted == [] then vocab == [] && Valid()
        else
          && TailSorted(counted, sorted)
          && var lo, p := FirstFrequent(sorted, minCount), CutFrom(sorted, minCount, 1);
             && vocab == sorted[..p - lo] && trainWords == Total(sorted[lo..p])
             && (Valid() <==> counted[0].cn >= minCount || vocab == [])
    {
      CountWords(input);
      trainWords, sorted := 0, [];
      if vocab != [] {
        hide Indexed, IndexedFrom, AfterWords, TailSorted;
        trainWords, sorted := SortVocab(minCount);
      }
    }
  }

  lemma SortedDistinct(was: seq<Entry>, now: seq<Entry>)
    requires TailSorted(was, now) && DistinctWords(was)
    ensures DistinctWords(now)
  {
    SameItemsDistinct(was, now);
    forall i, j | 0 <= i < j < |now|
      ensures now[i].word != now[j].word
    {
      assert now[i] in multiset(was) && now[j] in multiset(was);
      var a :| 0 <= a < |was| && was[a] == now[i];
      var b :| 0 <= b < |was| && was[b] == now[j];
    }
  }

  lemma TailComparable(vocab: seq<Entry>, a: nat, tail: seq<Entry>)
    requires 1 <= a < |vocab| && Comparable(vocab[1..]) && multiset(tail) == multiset(vocab[1..a])
    ensures forall e :: e in tail ==> -0x8000_0000 < vocab[a].cn - e.cn < 0x8000_0000
  {
    forall e | e in tail
      ensures -0x8000_0000 < vocab[a].cn - e.cn < 0x8000_0000
    {
      assert e in multiset(vocab[1..a]);
      var i :| 0 <= i < a - 1 && vocab[1..a][i] == e;
      assert vocab[1..][i] == e && vocab[1..][a - 1] == vocab[a];
    }
  }

  lemma NoWords(vocab: seq<Entry>, lo: nat)
    requires lo <= |vocab|
    ensures Words(vocab[lo..lo]) == [] && Total(vocab[lo..lo]) == 0
  {
  }

  lemma NextWord(vocab: seq<Entry>, lo: nat, a: nat)
    requires lo <= a < |vocab| && DistinctWords(vocab)
    ensures vocab[a].word !in Words(vocab[lo..a]) && Words(vocab[lo..a + 1]) == Words(vocab[lo..a]) + [vocab[a].word]
    ensures Total(vocab[lo..a + 1]) == Total(vocab[lo..a]) + vocab[a].cn
  {
    assert vocab[lo..a + 1][..a - lo] == vocab[lo..a];
  }

  lemma SearchIsPosition(vocab: seq<Entry>, w: string, i: int)
    requires DistinctWords(vocab) && -1 <= i < |vocab|
    requires i == -1 ==> w !in Words(vocab)
    requires i != -1 ==> vocab[i].word == w
    ensures Position(vocab, w) == if i == -1 then |vocab| else i
  {
    var p := Position(vocab, w);
    assert p < |vocab| ==> Words(vocab)[p] == w;
  }

  lemma CountedIs(vocab: seq<Entry>, w: string, i: int)
    requires -1 <= i < |vocab| && Position(vocab, w) == (if i == -1 then |vocab| else i)
    requires i >= 0 ==> vocab[i].word == w
    ensures Counted(vocab, w)
            == if i == -1 then vocab + [Entry(w, 1)] else vocab[i := Entry(vocab[i].word, vocab[i].cn + 1)]
  {
    hide Position;
  }

  lemma WordCounted(p: Plain, w: string, n: nat)
    ensures var v := Counted(p.vocab, w);
            AfterWord(p, w, n)
            == if TooFull(|v|, n) then Plain(Kept(v, p.minReduce), p.minReduce + 1) else Plain(v, p.minReduce)
  {
    hide Counted, Kept;
  }

  lemma SameWords(a: seq<Entry>, b: seq<Entry>)
    requires |a| == |b| && forall i :: 0 <= i < |a| ==> a[i].word == b[i].word
    ensures Words(a) == Words(b)
  {
  }
}
