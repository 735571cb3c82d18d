/** The sketch index: sketches are filed under their low bits, and a search visits only the buckets whose
    number differs from the query's in at most three bits. It finds what a scan over all sketches finds. */
module SketchSearch {
  import opened Sequences
  import opened Powers
  import opened FpBits
  import opened Fingerprints
  import opened Combinations
  import opened BitFlips

  /** Words per sketch. */
  const SKETCH_SIZE := 2

  type Sketch = s: SimHash | |s| == SKETCH_SIZE witness [0, 0]

  /** The search radius Parameter::h. */
  const RADIUS := 3

  predicate Near(x: Sketch, q: Sketch)
  {
    Hamming(q, x) <= RADIUS
  }

  /** The bucket of a sketch: the low p bits of its first word. */
  function Home(x: Sketch, p: nat): (id: nat)
    requires p < WORD
  {
    And(x[0], Ones(p))
  }

  lemma HomeFits(x: Sketch, p: nat)
    requires p < WORD
    ensures Home(x, p) < Pow2(p)
  {
  }

  // ---- nearby sketches live in nearby buckets ----

  lemma HomeBit(x: Sketch, p: nat, b: nat)
    requires p < WORD
    ensures Bit(Home(x, p), b) <==> b < p && Bit(x[0], b)
  {
    AndBit(x[0], Ones(p), b);
    OnesBit(p, b);
  }

  lemma {:induction false} SameCount(v: nat, w: nat, n: nat)
    requires forall b :: 0 <= b < n ==> (Bit(v, b) <==> Bit(w, b))
    ensures BitCount(v, n) == BitCount(w, n)
  {
    if n > 0 {
      SameCount(v, w, n - 1);
    }
  }

  lemma {:induction false} CountGrows(w: nat, m: nat, n: nat)
    requires m <= n
    ensures BitCount(w, m) <= BitCount(w, n)
    decreases n
  {
    if m < n {
      CountGrows(w, m, n - 1);
    }
  }

  lemma {:induction false} DistanceGrows(x: SimHash, y: SimHash, m: nat, n: nat)
    requires m <= n <= |x| == |y|
    ensures DistanceTo(x, y, m) <= DistanceTo(x, y, n)
    decreases n
  {
    hide BitCount, Xor;
    if m < n {
      DistanceGrows(x, y, m, n - 1);
    }
  }

  /** The bucket numbers of two sketches differ in no more bits than the sketches. */
  lemma HomesAreClose(q: Sketch, x: Sketch, p: nat)
    requires p < WORD
    ensures BitCount(Xor(Home(q, p), Home(x, p)), p) <= Hamming(q, x)
  {
    var w := Xor(q[0], x[0]);
    forall b | 0 <= b < p
      ensures Bit(Xor(Home(q, p), Home(x, p)), b) <==> Bit(w, b)
    {
      HomeBit(q, p, b);
      HomeBit(x, p, b);
      XorBit(Home(q, p), Home(x, p), b);
      XorBit(q[0], x[0], b);
    }
    hide Bit, Xor, And, Ones;
    SameCount(Xor(Home(q, p), Home(x, p)), w, p);
    CountGrows(w, p, WORD);
    DistanceGrows(q, x, 1, SKETCH_SIZE);
    assert DistanceTo(q, x, 1) == BitCount(w, WORD);
  }

  /** The positions of the set bits among the lowest n. */
  ghost function SetBits(w: nat, n: nat): seq<nat>
  {
    if n == 0 then [] else SetBits(w, n - 1) + if Bit(w, n - 1) then [n - 1] else []
  }

  lemma {:induction false} SetBitsIncrease(w: nat, n: nat)
    ensures Increasing(SetBits(w, n), n) && |SetBits(w, n)| == BitCount(w, n)
    ensures forall b: nat :: b in SetBits(w, n) <==> b < n && Bit(w, b)
  {
    if n > 0 {
      SetBitsIncrease(w, n - 1);
      hide Bit;
    }
  }

  lemma SetBitsMask(w: nat, p: nat)
    requires w < Pow2(p)
    ensures MaskFor(SetBits(w, p), w, p)
  {
    SetBitsIncrease(w, p);
    forall b: nat | Bit(w, b)
      ensures b < p
    {
      if b >= p {
        HighBitsClear(w, p, b);
      }
    }
    hide Bit, SetBits;
  }

  /** Every difference of one to three bits is in the flip table. */
  lemma FlipListed(sets: seq<seq<nat>>, flips: seq<nat>, p: nat, w: nat)
    requires AllFlips(sets, flips, p) && w < Pow2(p) && 1 <= BitCount(w, p) <= RADIUS
    ensures w in flips
  {
    var vec := SetBits(w, p);
    SetBitsIncrease(w, p);
    SetBitsMask(w, p);
    hide MaskFor, Increasing, SetBits, BitCount, Different;
    var t :| 0 <= t < |sets| && sets[t] == vec;
    MaskIsUnique(vec, w, flips[t], p);
  }

  lemma XorBack(v: nat, w: nat, p: nat)
    requires v < Pow2(p) && w < Pow2(p)
    ensures Xor(v, w) < Pow2(p) && Xor(v, Xor(v, w)) == w && (Xor(v, w) == 0 <==> v == w)
  {
    XorFits(v, w, p);
    XorFits(v, Xor(v, w), p);
    forall b | 0 <= b < p
      ensures Bit(Xor(v, Xor(v, w)), b) <==> Bit(w, b)
      ensures Bit(Xor(v, w), b) <==> Bit(v, b) != Bit(w, b)
    {
      XorBit(v, w, b);
      XorBit(v, Xor(v, w), b);
    }
    SameBits(Xor(v, Xor(v, w)), w, p);
    forall b | 0 <= b < p
      ensures !Bit(0, b)
    {
      ZeroHasNoBits(b);
    }
    hide Bit, Xor;
    if Xor(v, w) == 0 {
      SameBits(v, w, p);
    }
    if v == w {
      SameBits(Xor(v, w), 0, p);
    }
  }

  lemma {:induction false} NoBitsIsZero(w: nat, p: nat)
    requires w < Pow2(p) && BitCount(w, p) == 0
    ensures w == 0
  {
    forall b | 0 <= b < p
      ensures Bit(w, b) <==> Bit(0, b)
    {
      ZeroHasNoBits(b);
      CountGrows(w, b + 1, p);
    }
    SameBits(w, 0, p);
  }

  // ---- the bucket numbers of a query ----

  ghost predicate IdsFor(ids: seq<nat>, id: nat, flips: seq<nat>, n: nat)
    requires n <= |flips|
  {
    |ids| == n + 1 && ids[0] == id && forall i :: 0 <= i < n ==> ids[i + 1] == Xor(id, flips[i])
  }

  /** The last entry of an increasing vector is its largest, and the others are its smaller members. */
  lemma LastIsLargest(a: seq<nat>, p: nat)
    requires Increasing(a, p) && |a| > 0
    ensures Increasing(a[..|a| - 1], p) && forall v: nat :: v in a ==> v <= a[|a| - 1]
    ensures forall v: nat :: v in a[..|a| - 1] <==> v in a && v != a[|a| - 1]
  {
    assert a == a[..|a| - 1] + [a[|a| - 1]];
  }

  /** Equal increasing vectors are told apart by their members. */
  lemma {:induction false} MembersDecide(a: seq<nat>, b: seq<nat>, p: nat)
    requires Increasing(a, p) && Increasing(b, p) && forall v: nat :: v in a <==> v in b
    ensures a == b
  {
    assert |b| > 0 ==> b[0] in b;
    if |a| > 0 {
      assert a[0] in b;
      LastIsLargest(b, p);
      LastIsLargest(a, p);
      var x, c, d := a[|a| - 1], a[..|a| - 1], b[..|b| - 1];
      assert x in a && b[|b| - 1] in b;
      assert x in b && b[|b| - 1] in a;
      assert x == b[|b| - 1] && b == d + [x];
      forall v: nat
        ensures v in c <==> v in d
      {
        assert (v in c <==> v in a && v != x) && (v in d <==> v in b && v != x);
      }
      MembersDecide(c, d, p);
    }
  }

  lemma FlipsDiffer(sets: seq<seq<nat>>, flips: seq<nat>, p: nat, s: nat, t: nat)
    requires AllFlips(sets, flips, p) && s < t < |flips|
    ensures flips[s] != flips[t] && flips[s] < Pow2(p) && flips[t] < Pow2(p)
  {
    if flips[s] == flips[t] {
      assert forall v: nat :: v in sets[s] <==> Bit(flips[s], v);
      assert forall v: nat :: v in sets[t] <==> Bit(flips[t], v);
      MembersDecide(sets[s], sets[t], p);
    }
  }

  lemma FlipNotZero(sets: seq<seq<nat>>, flips: seq<nat>, p: nat, t: nat)
    requires AllFlips(sets, flips, p) && t < |flips|
    ensures 0 < flips[t] < Pow2(p)
  {
    var b := sets[t][0];
    assert b in sets[t] && Bit(flips[t], b);
    ZeroHasNoBits(b);
  }

  ghost predicate InRange(ids: seq<nat>, p: nat)
  {
    forall i :: 0 <= i < |ids| ==> ids[i] < Pow2(p)
  }

  lemma XorApart(id: nat, v: nat, w: nat, p: nat)
    requires id < Pow2(p) && v < Pow2(p) && w < Pow2(p) && v != w
    ensures Xor(id, v) != Xor(id, w)
  {
    XorBack(id, v, p);
    XorBack(id, w, p);
  }

  /** No bucket is visited twice, and all visited buckets exist. */
  lemma IdsAreDistinct(sets: seq<seq<nat>>, flips: seq<nat>, p: nat, id: nat, ids: seq<nat>)
    requires AllFlips(sets, flips, p) && id < Pow2(p) && IdsFor(ids, id, flips, |flips|)
    ensures InRange(ids, p) && Distinct(ids)
  {
    hide AllFlips, Xor, Pow2;
    forall i | 0 <= i < |ids|
      ensures ids[i] < Pow2(p) && (i > 0 ==> ids[i] != id)
    {
      if i > 0 {
        FlipNotZero(sets, flips, p, i - 1);
        XorBack(id, flips[i - 1], p);
        if ids[i] == id {
          XorBack(id, id, p);
        }
      }
    }
    forall i, j | 0 <= i < j < |ids|
      ensures ids[i] != ids[j]
    {
      if i > 0 {
        FlipsDiffer(sets, flips, p, i - 1, j - 1);
        XorApart(id, flips[i - 1], flips[j - 1], p);
      }
    }
  }

  /** The bucket of every sketch within the radius is visited. */
  lemma NearIsVisited(sets: seq<seq<nat>>, flips: seq<nat>, p: nat, q: Sketch, x: Sketch, ids: seq<nat>)
    requires p < WORD && AllFlips(sets, flips, p) && IdsFor(ids, Home(q, p), flips, |flips|) && Near(x, q)
    ensures Home(x, p) in ids
  {
    var id, w := Home(q, p), Xor(Home(q, p), Home(x, p));
    HomeFits(q, p);
    HomeFits(x, p);
    HomesAreClose(q, x, p);
    XorBack(id, Home(x, p), p);
    hide AllFlips, Xor, Pow2, Home, BitCount, Hamming;
    if BitCount(w, p) == 0 {
      NoBitsIsZero(w, p);
      assert ids[0] == Home(x, p);
    } else {
      FlipListed(sets, flips, p, w);
      var t :| 0 <= t < |flips| && flips[t] == w;
      assert ids[t + 1] == Home(x, p);
    }
  }

  // ---- the linear scan ----

  /** The stored sketches within the radius of q, in order. */
  function Scan(stored: seq<Sketch>, q: Sketch): seq<Sketch>
  {
    if stored == [] then [] else
      Scan(stored[..|stored| - 1], q) + if Near(stored[|stored| - 1], q) then [stored[|stored| - 1]] else []
  }

  /** The scans of several queries, one after the other. */
  function ScanAll(stored: seq<Sketch>, queries: seq<Sketch>): seq<Sketch>
  {
    if queries == [] then [] else ScanAll(stored, queries[..|queries| - 1]) + Scan(stored, queries[|queries| - 1])
  }

  lemma PushCount(s: seq<Sketch>, y: Sketch, x: Sketch)
    ensures multiset(s + [y])[x] == multiset(s)[x] + if x == y then 1 else 0
  {
  }

  /** How often a scan reports a sketch. */
  lemma {:induction false} ScanCount(stored: seq<Sketch>, q: Sketch, x: Sketch)
    ensures multiset(Scan(stored, q))[x] == if Near(x, q) then multiset(stored)[x] else 0
    ensures Near(x, q) <==> Hamming(q, x) <= 3
  {
    if stored != [] {
      hide Near, Hamming;
      var n := |stored| - 1;
      ScanCount(stored[..n], q, x);
      PushCount(stored[..n], stored[n], x);
      PushCount(Scan(stored[..n], q), stored[n], x);
      assert stored == stored[..n] + [stored[n]];
      assert Scan(stored[..n], q) + [] == Scan(stored[..n], q);
    }
  }

  /** The images of the sketches found, as often as they are found. */
  function Images(drum: map<Sketch, set<nat>>, found: seq<Sketch>): multiset<nat>
  {
    if found == [] then multiset{} else
      Images(drum, found[..|found| - 1]) + multiset(GetValue(drum, found[|found| - 1]))
  }

  /** The drum's answer; an unknown sketch leaves the set empty. */
  function GetValue(drum: map<Sketch, set<nat>>, x: Sketch): set<nat>
  {
    if x in drum then drum[x] else {}
  }

  lemma ImagesPush(drum: map<Sketch, set<nat>>, found: seq<Sketch>, x: Sketch)
    ensures Images(drum, found + [x]) == Images(drum, found) + multiset(GetValue(drum, x))
  {
    assert (found + [x])[..|found|] == found;
  }

  lemma {:induction false} ImagesSplit(drum: map<Sketch, set<nat>>, a: seq<Sketch>, b: seq<Sketch>)
    ensures Images(drum, a + b) == Images(drum, a) + Images(drum, b)
    decreases b
  {
    if b == [] {
      assert a + b == a;
    } else {
      var n := |b| - 1;
      ImagesSplit(drum, a, b[..n]);
      assert a + b == (a + b[..n]) + [b[n]];
      ImagesPush(drum, a + b[..n], b[n]);
      hide GetValue;
    }
  }

  lemma TakeOut(s: seq<Sketch>, i: nat)
    requires i < |s|
    ensures multiset(s[..i] + s[i + 1..]) == multiset(s) - multiset{s[i]}
  {
    assert s == s[..i] + [s[i]] + s[i + 1..];
  }

  /** The images do not depend on the order in which sketches are found. */
  lemma {:induction false} OrderDoesNotMatter(drum: map<Sketch, set<nat>>, a: seq<Sketch>, b: seq<Sketch>)
    requires multiset(a) == multiset(b)
    ensures Images(drum, a) == Images(drum, b)
    decreases a
  {
    hide Images, GetValue;
    if a == [] {
      assert |multiset(b)| == 0;
      assert b == [];
    } else {
      var n := |a| - 1;
      assert a[n] in multiset(a);
      assert a[n] in b;
      var i :| 0 <= i < |b| && b[i] == a[n];
      TakeOut(a, n);
      TakeOut(b, i);
      assert a[..n] + a[n + 1..] == a[..n];
      OrderDoesNotMatter(drum, a[..n], b[..i] + b[i + 1..]);
      ImagesWithout(drum, a, n);
      ImagesWithout(drum, b, i);
    }
  }

  lemma ImagesWithout(drum: map<Sketch, set<nat>>, s: seq<Sketch>, i: nat)
    requires i < |s|
    ensures Images(drum, s) == Images(drum, s[..i] + s[i + 1..]) + multiset(GetValue(drum, s[i]))
  {
    hide *;
    assert s == (s[..i] + [s[i]]) + s[i + 1..];
    ImagesPush(drum, s[..i], s[i]);
    ImagesSplit(drum, s[..i] + [s[i]], s[i + 1..]);
    ImagesSplit(drum, s[..i], s[i + 1..]);
  }

  // ---- the index ----

  /** Every bucket holds exactly the stored sketches whose home it is. */
  ghost predicate Filed(buckets: seq<seq<Sketch>>, stored: seq<Sketch>, p: nat)
    requires p < WORD
  {
    && |buckets| == Pow2(p)
    && forall t, x: Sketch :: 0 <= t < |buckets|
         ==> multiset(buckets[t])[x] == if Home(x, p) == t then multiset(stored)[x] else 0
  }

  lemma FilePush(buckets: seq<seq<Sketch>>, stored: seq<Sketch>, p: nat, x: Sketch)
    requires p < WORD && Filed(buckets, stored, p)
    ensures Home(x, p) < |buckets|
    ensures Filed(buckets[Home(x, p) := buckets[Home(x, p)] + [x]], stored + [x], p)
  {
    HomeFits(x, p);
    hide Home, Pow2;
  }

  /** The buckets visited so far have reported exactly their part of the scan. */
  ghost predicate Reported(found: seq<Sketch>, stored: seq<Sketch>, q: Sketch, p: nat, ids: seq<nat>)
    requires p < WORD
  {
    forall x: Sketch :: multiset(found)[x] == if Near(x, q) && Home(x, p) in ids then multiset(stored)[x] else 0
  }

  lemma ReportBucket(buckets: seq<seq<Sketch>>, found: seq<Sketch>, stored: seq<Sketch>, q: Sketch, p: nat,
                     ids: seq<nat>, t: nat)
    requires p < WORD && Filed(buckets, stored, p) && Reported(found, stored, q, p, ids) && t < |buckets| && t !in ids
    ensures Reported(found + Scan(buckets[t], q), stored, q, p, ids + [t])
  {
    forall x: Sketch
      ensures multiset(found + Scan(buckets[t], q))[x]
              == if Near(x, q) && Home(x, p) in ids + [t] then multiset(stored)[x] else 0
    {
      ScanCount(buckets[t], q, x);
      hide Near, Home, Scan;
    }
  }

  /** The buckets of all ids together report what the scan reports. */
  lemma AllReported(sets: seq<seq<nat>>, flips: seq<nat>, found: seq<Sketch>, stored: seq<Sketch>, q: Sketch, p: nat,
                    ids: seq<nat>)
    requires p < WORD && AllFlips(sets, flips, p) && IdsFor(ids, Home(q, p), flips, |flips|)
    requires Reported(found, stored, q, p, ids)
    ensures multiset(found) == multiset(Scan(stored, q))
  {
    forall x: Sketch
      ensures multiset(found)[x] == multiset(Scan(stored, q))[x]
    {
      ScanCount(stored, q, x);
      if Near(x, q) {
        NearIsVisited(sets, flips, p, q, x, ids);
      }
      hide Near, Home, Scan, AllFlips, IdsFor;
    }
  }

  /** The keys of sketches in the drum after Insert. */
  ghost predicate Appended(was: map<Sketch, set<nat>>, now: map<Sketch, set<nat>>, sketches: seq<Sketch>, key: nat)
  {
    forall x: Sketch :: GetValue(now, x) == if x in sketches then GetValue(was, x) + {key} else GetValue(was, x)
  }

  class BruteForce {
    const p: nat
    var buckets: seq<seq<Sketch>>
    var drum: map<Sketch, set<nat>>
    var flips: seq<nat>
    ghost var masks: seq<seq<nat>>

    /** All sketches inserted so far, in order. */
    ghost var stored: seq<Sketch>

    ghost predicate Valid()
      reads this
    {
      3 <= p < 32 && Filed(buckets, stored, p) && AllFlips(masks, flips, p)
    }

    constructor (p: nat)
      requires 3 <= p < 32
      ensures Valid() && this.p == p && stored == [] && drum == map[]
    {
      this.p := p;
      buckets, drum, stored := seq(Pow2(p), _ => []), map[], [];
      new;
      hide AllFlips, Home, Pow2;
      flips, masks := BitFlipTable(p);
    }

    method Insert(key: nat, sketches: seq<Sketch>)
      requires Valid()
      modifies this`buckets, this`drum, this`stored
      ensures Valid() && stored == old(stored) + sketches
      ensures Appended(old(drum), drum, sketches, key)
    {
      hide AllFlips, Home, Pow2, Filed;
      for i := 0 to |sketches|
        invariant Valid() && stored == old(stored) + sketches[..i]
        invariant Appended(old(drum), drum, sketches[..i], key)
      {
        var x := sketches[i];
        var id := Home(x, p);
        FilePush(buckets, stored, p, x);
        buckets := buckets[id := buckets[id] + [x]];
        drum := drum[x := GetValue(drum, x) + {key}];
        stored := stored + [x];
      }
      assert sketches[..|sketches|] == sketches;
    }

    method GenTableIds(sketch: Sketch) returns (ids: seq<nat>)
      requires Valid()
      ensures IdsFor(ids, Home(sketch, p), flips, |flips|)
      ensures InRange(ids, p) && Distinct(ids) && |buckets| == Pow2(p)
    {
      hide AllFlips, Home, Pow2, Filed, InRange, Distinct;
      var id := Home(sketch, p);
      ids := [id];
      for i := 0 to |flips|
        invariant IdsFor(ids, id, flips, i)
      {
        ids := ids + [Xor(id, flips[i])];
      }
      HomeFits(sketch, p);
      IdsAreDistinct(masks, flips, p, id, ids);
      FiledSize(buckets, stored, p);
    }

    /** One bucket: the images of every sketch near the query. */
    method SearchBucket(q: Sketch, table: seq<Sketch>, known: multiset<nat>) returns (results: multiset<nat>)
      ensures results == known + Images(drum, Scan(table, q))
    {
      results := known;
      hide GetValue, Images, Scan, Near, Hamming;
      NoImages(q);
      for k := 0 to |table|
        invariant results == known + Images(drum, Scan(table[..k], q))
      {
        ScanPush(table, q, k);
        ImagesPush(drum, Scan(table[..k], q), table[k]);
        var distance := CalcHammingDist(q, table[k]);
        NearMeans(table[k], q);
        if distance <= RADIUS {
          results := results + multiset(GetValue(drum, table[k]));
        }
      }
      assert table[..|table|] == table;
    }

    lemma NoImages(q: Sketch)
      ensures Images(drum, Scan([], q)) == multiset{}
    {
    }

    /** One query: all its buckets in turn. */
    method SearchSketch(q: Sketch, known: multiset<nat>) returns (results: multiset<nat>)
      requires Valid()
      ensures results == known + Images(drum, Scan(stored, q))
    {
      hide *;
      var ids := GenTableIds(q);
      results := known;
      ghost var found: seq<Sketch> := [];
      ValidParts();
      NoneReported(stored, q, p);
      ImagesOfNone(drum);
      for j := 0 to |ids|
        invariant results == known + Images(drum, found) && Reported(found, stored, q, p, ids[..j])
      {
        NextId(ids, p, j);
        var bucket := buckets[ids[j]];
        ghost var was := results;
        results := SearchBucket(q, bucket, results);
        assert Reported(found + Scan(bucket, q), stored, q, p, ids[..j + 1]) by {
          ReportBucket(buckets, found, stored, q, p, ids[..j], ids[j]);
          assert ids[..j + 1] == ids[..j] + [ids[j]];
        }
        AddImages(drum, found, Scan(bucket, q), known, was, results);
        found := found + Scan(bucket, q);
      }
      assert ids[..|ids|] == ids;
      AllReported(masks, flips, found, stored, q, p, ids);
      OrderDoesNotMatter(drum, found, Scan(stored, q));
    }

    lemma ValidParts()
      requires Valid()
      ensures p < WORD && Filed(buckets, stored, p) && AllFlips(masks, flips, p) && |buckets| == Pow2(p)
    {
    }

    /** The search reports what a scan over all inserted sketches reports, query by query. */
    method Search(sketches: seq<Sketch>) returns (results: multiset<nat>)
      requires Valid()
      ensures results == Images(drum, ScanAll(stored, sketches))
    {
      hide *;
      results := multiset{};
      ImagesOfNone(drum);
      ScanNone(stored);
      for i := 0 to |sketches|
        invariant results == Images(drum, ScanAll(stored, sketches[..i]))
      {
        ScanAllPush(stored, sketches, i);
        ImagesSplit(drum, ScanAll(stored, sketches[..i]), Scan(stored, sketches[i]));
        results := SearchSketch(sketches[i], results);
      }
      assert sketches[..|sketches|] == sketches;
    }
  }

  lemma AddImages(drum: map<Sketch, set<nat>>, found: seq<Sketch>, more: seq<Sketch>, known: multiset<nat>,
                  was: multiset<nat>, now: multiset<nat>)
    requires was == known + Images(drum, found) && now == was + Images(drum, more)
    ensures now == known + Images(drum, found + more)
  {
    hide *;
    ImagesSplit(drum, found, more);
  }

  lemma FiledSize(buckets: seq<seq<Sketch>>, stored: seq<Sketch>, p: nat)
    requires p < WORD && Filed(buckets, stored, p)
    ensures |buckets| == Pow2(p)
  {
  }

  lemma ScanPush(table: seq<Sketch>, q: Sketch, k: nat)
    requires k < |table|
    ensures Near(table[k], q) ==> Scan(table[..k + 1], q) == Scan(table[..k], q) + [table[k]]
    ensures !Near(table[k], q) ==> Scan(table[..k + 1], q) == Scan(table[..k], q)
  {
    assert Scan(table[..k], q) + [] == Scan(table[..k], q);
    assert table[..k + 1][..k] == table[..k];
    hide Near;
  }

  lemma ScanAllPush(stored: seq<Sketch>, queries: seq<Sketch>, k: nat)
    requires k < |queries|
    ensures ScanAll(stored, queries[..k + 1]) == ScanAll(stored, queries[..k]) + Scan(stored, queries[k])
  {
    assert queries[..k + 1][..k] == queries[..k];
    hide Scan;
  }

  lemma ScanNone(stored: seq<Sketch>)
    ensures ScanAll(stored, []) == []
  {
  }

  lemma ImagesOfNone(drum: map<Sketch, set<nat>>)
    ensures Images(drum, []) == multiset{}
  {
  }

  lemma NearMeans(x: Sketch, q: Sketch)
    ensures Near(x, q) <==> Hamming(q, x) <= RADIUS
  {
  }

  lemma NoneReported(stored: seq<Sketch>, q: Sketch, p: nat)
    requires p < WORD
    ensures Reported([], stored, q, p, [])
  {
  }

  lemma NextId(ids: seq<nat>, p: nat, j: nat)
    requires InRange(ids, p) && Distinct(ids) && j < |ids|
    ensures ids[j] < Pow2(p) && ids[j] !in ids[..j]
  {
  }
}
