/** How much of the true top the product returned, with ties counted fairly. */
module Recall {

  const TOP := 20

  datatype Scored = Scored(id: nat, score: int)

  function Min(a: nat, b: nat): nat {
    if a < b then a else b
  }

  /** `items[:TOP]` */
  function Top(items: seq<Scored>): seq<Scored> {
    items[..Min(TOP, |items|)]
  }

  function Ids(items: seq<Scored>): set<nat> {
    set i | 0 <= i < |items| :: items[i].id
  }

  function CountAtLeast(items: seq<Scored>, floor: int): nat {
    if items == [] then 0
    else CountAtLeast(items[..|items| - 1], floor) + if items[|items| - 1].score >= floor then 1 else 0
  }

  /** The score of the last entry of the true top. */
  function Floor(truth: seq<Scored>): int {
    if truth == [] then 0 else truth[Min(TOP, |truth|) - 1].score
  }

  /** Shared ids, entries at or above the floor, what that is divided by, and the points missed. */
  datatype Figures = Figures(overlap: nat, atLeast: nat, denom: nat, regret: int)

  function RecallOf(returned: seq<Scored>, truth: seq<Scored>): Figures {
    Figures(
      |Ids(Top(truth)) * Ids(Top(returned))|,
      CountAtLeast(Top(returned), Floor(truth)),
      if Min(TOP, |truth|) > 1 then Min(TOP, |truth|) else 1,
      if truth != [] && returned != [] then truth[0].score - returned[0].score else 0)
  }

  /** The tie-aware share. */
  function Share(f: Figures): real
    requires f.denom > 0
  {
    f.atLeast as real / f.denom as real
  }

  // ------------------------------------------------------------------ what the figures assume

  ghost predicate Sorted(items: seq<Scored>) {
    forall i, j :: 0 <= i < j < |items| ==> items[i].score >= items[j].score
  }

  ghost predicate Distinct(items: seq<Scored>) {
    forall i, j :: 0 <= i < j < |items| ==> items[i].id != items[j].id
  }

  /** The truth scores everything, best first; what was returned is drawn from it, each entry once. */
  ghost predicate Comparable(returned: seq<Scored>, truth: seq<Scored>) {
    Sorted(truth) && Distinct(truth) && Distinct(returned) && forall x :: x in returned ==> x in truth
  }

  lemma DistinctPart(items: seq<Scored>, n: nat)
    requires Distinct(items) && n <= |items|
    ensures Distinct(items[..n])
  {
  }

  /** Distinct entries have as many ids. */
  lemma {:induction false} IdsCount(items: seq<Scored>)
    requires Distinct(items)
    ensures |Ids(items)| == |items|
  {
    if items != [] {
      var k := |items| - 1;
      DistinctPart(items, k);
      IdsCount(items[..k]);
      assert Ids(items) == Ids(items[..k]) + {items[k].id};
      assert items[k].id !in Ids(items[..k]);
    }
  }

  /** The ids of the entries at or above the floor, counted. */
  function IdsAtLeast(items: seq<Scored>, floor: int): set<nat> {
    set i | 0 <= i < |items| && items[i].score >= floor :: items[i].id
  }

  lemma IdsStep(items: seq<Scored>, floor: int)
    requires items != [] && Distinct(items)
    ensures var k := |items| - 1;
      && items[k].id !in IdsAtLeast(items[..k], floor)
      && IdsAtLeast(items, floor) == IdsAtLeast(items[..k], floor) + if items[k].score >= floor then {items[k].id} else {}
  {
    var k := |items| - 1;
    assert forall i :: 0 <= i < k ==> items[..k][i] == items[i];
  }

  lemma {:induction false} CountsIds(items: seq<Scored>, floor: int)
    requires Distinct(items)
    ensures CountAtLeast(items, floor) == |IdsAtLeast(items, floor)|
  {
    if items != [] {
      var k := |items| - 1;
      DistinctPart(items, k);
      CountsIds(items[..k], floor);
      hide IdsAtLeast;
      IdsStep(items, floor);
    }
  }

  lemma SubsetCount<T>(a: set<T>, b: set<T>)
    requires a <= b
    ensures |a| <= |b|
  {
    assert b == a + (b - a);
  }

  /** A returned entry that is in the true top scores at least the floor. */
  lemma SharedScoresAtLeast(returned: seq<Scored>, truth: seq<Scored>)
    requires Comparable(returned, truth)
    ensures Ids(Top(truth)) * Ids(Top(returned)) <= IdsAtLeast(Top(returned), Floor(truth))
  {
    forall id | id in Ids(Top(truth)) * Ids(Top(returned))
      ensures id in IdsAtLeast(Top(returned), Floor(truth))
    {
      var i :| 0 <= i < |Top(truth)| && Top(truth)[i].id == id;
      var j :| 0 <= j < |Top(returned)| && Top(returned)[j].id == id;
      assert Top(returned)[j] == returned[j] && returned[j] in truth && Top(truth)[i] == truth[i];
      var k :| 0 <= k < |truth| && truth[k] == returned[j];
      assert k == i;
    }
  }

  /** The tie-aware count is at least the overlap. */
  lemma OverlapIsAtLeast(returned: seq<Scored>, truth: seq<Scored>)
    requires Comparable(returned, truth)
    ensures RecallOf(returned, truth).overlap <= RecallOf(returned, truth).atLeast
  {
    SharedScoresAtLeast(returned, truth);
    DistinctPart(returned, Min(TOP, |returned|));
    CountsIds(Top(returned), Floor(truth));
    SubsetCount(Ids(Top(truth)) * Ids(Top(returned)), IdsAtLeast(Top(returned), Floor(truth)));
  }

  lemma {:induction false} CountBound(items: seq<Scored>, floor: int)
    ensures CountAtLeast(items, floor) <= |items|
  {
    if items != [] { CountBound(items[..|items| - 1], floor); }
  }

  /** No more can be returned than there is. */
  lemma ReturnedFits(returned: seq<Scored>, truth: seq<Scored>)
    requires Comparable(returned, truth)
    ensures |returned| <= |truth|
  {
    IdsCount(returned);
    IdsCount(truth);
    forall id | id in Ids(returned)
      ensures id in Ids(truth)
    {
      var i :| 0 <= i < |returned| && returned[i].id == id;
      assert returned[i] in truth;
      var j :| 0 <= j < |truth| && truth[j] == returned[i];
    }
    SubsetCount(Ids(returned), Ids(truth));
  }

  /** The tie-aware share is between 0 and 1. */
  lemma ShareIsAShare(returned: seq<Scored>, truth: seq<Scored>)
    requires Comparable(returned, truth)
    ensures 0.0 <= Share(RecallOf(returned, truth)) <= 1.0
  {
    var f := RecallOf(returned, truth);
    ReturnedFits(returned, truth);
    CountBound(Top(returned), Floor(truth));
    assert f.atLeast <= f.denom;
    RatioBound(f.atLeast, f.denom);
  }

  lemma RatioBound(a: nat, b: nat)
    requires a <= b && b > 0
    ensures 0.0 <= a as real / b as real <= 1.0
  {
  }

  lemma RatioOfEquals(a: nat, b: nat)
    requires a == b && b > 0
    ensures a as real / b as real == 1.0
  {
  }

  /** Regret is never negative. */
  lemma RegretIsNotNegative(returned: seq<Scored>, truth: seq<Scored>)
    requires Comparable(returned, truth)
    ensures RecallOf(returned, truth).regret >= 0
  {
    if truth != [] && returned != [] {
      assert returned[0] in truth;
      var k :| 0 <= k < |truth| && truth[k] == returned[0];
    }
  }

  /** Sharing the whole top forces a tie-aware share of 1, and with the results best first, no regret. */
  lemma FullOverlapIsPerfect(returned: seq<Scored>, truth: seq<Scored>)
    requires Comparable(returned, truth) && truth != []
    requires RecallOf(returned, truth).overlap == Min(TOP, |truth|)
    ensures Share(RecallOf(returned, truth)) == 1.0
    ensures Sorted(returned) ==> RecallOf(returned, truth).regret == 0
  {
    hide CountAtLeast, Ids, Floor, Sorted, Distinct;
    var f := RecallOf(returned, truth);
    OverlapIsAtLeast(returned, truth);
    ReturnedFits(returned, truth);
    CountBound(Top(returned), Floor(truth));
    assert f.atLeast == f.denom;
    RatioOfEquals(f.atLeast, f.denom);
    if Sorted(returned) {
      BestComesFirst(returned, truth);
    }
  }

  lemma BestComesFirst(returned: seq<Scored>, truth: seq<Scored>)
    requires Comparable(returned, truth) && truth != [] && Sorted(returned)
    requires RecallOf(returned, truth).overlap == Min(TOP, |truth|)
    ensures returned != [] && returned[0].score == truth[0].score
  {
    BestIsShared(returned, truth);
    var j :| 0 <= j < |Top(returned)| && Top(returned)[j].id == truth[0].id;
    assert Top(returned)[j] == returned[j] && returned[j] in truth;
    var k :| 0 <= k < |truth| && truth[k] == returned[j];
    assert k == 0;
    RegretIsNotNegative(returned, truth);
  }

  lemma BestIsShared(returned: seq<Scored>, truth: seq<Scored>)
    requires Comparable(returned, truth) && truth != []
    requires RecallOf(returned, truth).overlap == Min(TOP, |truth|)
    ensures truth[0].id in Ids(Top(returned))
  {
    var want, got := Ids(Top(truth)), Ids(Top(returned));
    DistinctPart(truth, Min(TOP, |truth|));
    IdsCount(Top(truth));
    assert Top(truth)[0] == truth[0] && truth[0].id in want;
    if truth[0].id !in got {
      SubsetCount(want * got, want - {truth[0].id});
    }
  }

  // ------------------------------------------------------------------ what each figure counts

  /** The places of the truth that score more. */
  function Above(truth: seq<Scored>, score: int): set<int> {
    set k | 0 <= k < |truth| && truth[k].score > score
  }

  /** The first `n` places. */
  function Places(n: nat): (r: set<int>)
    ensures |r| == n && forall k :: k in r <==> 0 <= k < n
  {
    if n == 0 then {} else Places(n - 1) + {n - 1}
  }

  /** An entry reaches the floor exactly when fewer entries of the truth score more than it than the top has
      places: a tie with the last place counts. */
  lemma AtTheFloor(truth: seq<Scored>, score: int)
    requires Sorted(truth) && truth != []
    ensures score >= Floor(truth) <==> |Above(truth, score)| < if |truth| < 20 then |truth| else 20
  {
    var m := if |truth| < 20 then |truth| else 20;
    if score >= truth[m - 1].score {
      assert forall k :: m <= k < |truth| ==> truth[k].score <= truth[m - 1].score;
      SubsetCount(Above(truth, score), Places(m - 1));
    } else {
      assert forall k :: 0 <= k < m - 1 ==> truth[k].score >= truth[m - 1].score;
      SubsetCount(Places(m), Above(truth, score));
    }
  }

  lemma {:induction false} CountsPlaces(items: seq<Scored>, floor: int)
    ensures CountAtLeast(items, floor) == |set j | 0 <= j < |items| && items[j].score >= floor|
  {
    if items != [] {
      var k := |items| - 1;
      CountsPlaces(items[..k], floor);
      var before := set j | 0 <= j < |items[..k]| && items[..k][j].score >= floor;
      assert (set j | 0 <= j < |items| && items[j].score >= floor) == before + if items[k].score >= floor then {k} else {};
    }
  }

  /** Of the first twenty returned: how many ids are among the first twenty of the truth, and how many entries
      no twenty of the truth, or not all of a shorter truth, score more than. The regret is what the first
      returned scores less than the best there is. */
  lemma FiguresExactly(returned: seq<Scored>, truth: seq<Scored>)
    requires Sorted(truth) && truth != []
    ensures var f, m := RecallOf(returned, truth), if |truth| < 20 then |truth| else 20;
      && f.overlap == |(set i | 0 <= i < |truth| && i < 20 :: truth[i].id) * (set j | 0 <= j < |returned| && j < 20 :: returned[j].id)|
      && f.atLeast == |set j | 0 <= j < |returned| && j < 20 && |Above(truth, returned[j].score)| < m|
      && f.denom == m
      && (returned != [] ==> exists best :: best in truth && (forall x :: x in truth ==> x.score <= best.score)
                                            && f.regret == best.score - returned[0].score)
      && (returned == [] ==> f.regret == 0)
  {
    var f, m := RecallOf(returned, truth), if |truth| < 20 then |truth| else 20;
    TopIds(truth);
    TopIds(returned);
    TiesCount(returned, truth);
    hide Ids, CountAtLeast, Floor, Top, Above;
    if returned != [] {
      assert truth[0] in truth && forall x :: x in truth ==> x.score <= truth[0].score;
    }
  }

  lemma TopIds(items: seq<Scored>)
    ensures Ids(Top(items)) == (set i | 0 <= i < |items| && i < 20 :: items[i].id)
  {
    assert forall i :: 0 <= i < |items| && i < 20 ==> Top(items)[i] == items[i];
    forall i | 0 <= i < |items| && i < 20
      ensures items[i].id in Ids(Top(items))
    {
      assert Top(items)[i].id == items[i].id;
    }
  }

  lemma TiesCount(returned: seq<Scored>, truth: seq<Scored>)
    requires Sorted(truth) && truth != []
    ensures var m := if |truth| < 20 then |truth| else 20;
      CountAtLeast(Top(returned), Floor(truth)) == |set j | 0 <= j < |returned| && j < 20 && |Above(truth, returned[j].score)| < m|
  {
    hide Above, Floor;
    var m := if |truth| < 20 then |truth| else 20;
    CountsPlaces(Top(returned), Floor(truth));
    forall j | 0 <= j < |returned| && j < 20
      ensures Top(returned)[j] == returned[j]
      ensures returned[j].score >= Floor(truth) <==> |Above(truth, returned[j].score)| < m
    {
      AtTheFloor(truth, returned[j].score);
    }
    assert (set j | 0 <= j < |Top(returned)| && Top(returned)[j].score >= Floor(truth)) ==
           (set j | 0 <= j < |returned| && j < 20 && |Above(truth, returned[j].score)| < m);
  }

  // ------------------------------------------------------------------ chunks

  /** The pieces of a list, each of `n` items but the last. */
  method Chunks<T>(items: seq<T>, n: nat) returns (chunks: seq<seq<T>>)
    requires n > 0
    ensures Flatten(chunks) == items
    ensures forall k :: 0 <= k < |chunks| ==> 0 < |chunks[k]| <= n && (k < |chunks| - 1 ==> |chunks[k]| == n)
  {
    chunks := [];
    var i := 0;
    while i < |items|
      invariant i <= |items| ==> Flatten(chunks) == items[..i]
      invariant i > |items| ==> Flatten(chunks) == items
      invariant forall k :: 0 <= k < |chunks| ==> 0 < |chunks[k]| <= n && (i < |items| || k < |chunks| - 1 ==> |chunks[k]| == n)
    {
      var end := if i + n < |items| then i + n else |items|;
      ghost var before := chunks;
      chunks := chunks + [items[i..end]];
      assert chunks[..|chunks| - 1] == before;
      assert items[..i] + items[i..end] == items[..end];
      i := i + n;
    }
  }

  function Flatten<T>(chunks: seq<seq<T>>): seq<T> {
    if chunks == [] then [] else Flatten(chunks[..|chunks| - 1]) + chunks[|chunks| - 1]
  }
}
