/** The lines a loop over a dictionary appends, as a bag: one bag of lines for each key, gathered. */
module Bags {

  ghost function Gather<K(!new), V(!new)>(bags: map<K, multiset<V>>): multiset<V>
    decreases |bags|
  {
    if bags == map[] then multiset{}
    else
      var k :| k in bags;
      assert |(bags - {k}).Keys| < |bags.Keys| by { assert (bags - {k}).Keys == bags.Keys - {k}; }
      bags[k] + Gather(bags - {k})
  }

  /** Any key may be gathered first: the order of a dictionary does not matter. */
  lemma {:induction false} GatherPick<K(!new), V(!new)>(bags: map<K, multiset<V>>, k: K)
    requires k in bags
    ensures Gather(bags) == bags[k] + Gather(bags - {k})
    decreases |bags|
  {
    var first :| first in bags && Gather(bags) == bags[first] + Gather(bags - {first});
    if first != k {
      var rest := bags - {first};
      assert rest.Keys == bags.Keys - {first};
      GatherPick(rest, k);
      var other := bags - {k};
      assert other.Keys == bags.Keys - {k};
      GatherPick(other, first);
      assert rest - {k} == other - {first};
    }
  }

  /** Every key's bag is part of the whole. */
  lemma GatherHolds<K(!new), V(!new)>(bags: map<K, multiset<V>>, k: K)
    requires k in bags
    ensures bags[k] <= Gather(bags)
  {
    GatherPick(bags, k);
  }

  /** What is gathered is what some key gives. */
  lemma {:induction false} GatherMember<K(!new), V(!new)>(bags: map<K, multiset<V>>, v: V)
    ensures v in Gather(bags) <==> exists k :: k in bags && v in bags[k]
    decreases |bags|
  {
    if bags != map[] {
      var first :| first in bags;
      GatherPick(bags, first);
      assert (bags - {first}).Keys == bags.Keys - {first};
      GatherMember(bags - {first}, v);
      if k :| k in bags && v in bags[k] && k != first {
        assert k in bags - {first};
      }
    }
  }

  lemma {:induction false} GatherEmpty<K(!new), V(!new)>(bags: map<K, multiset<V>>)
    ensures Gather(bags) == multiset{} <==> forall k :: k in bags ==> bags[k] == multiset{}
    decreases |bags|
  {
    if bags != map[] {
      var k :| k in bags;
      GatherPick(bags, k);
      assert (bags - {k}).Keys == bags.Keys - {k};
      GatherEmpty(bags - {k});
      forall j | j in bags && Gather(bags) == multiset{}
        ensures bags[j] == multiset{}
      {
        GatherHolds(bags, j);
        assert bags[j] <= multiset{};
      }
      if forall j :: j in bags ==> bags[j] == multiset{} {
        assert forall j :: j in bags - {k} ==> (bags - {k})[j] == bags[j];
      }
    }
  }

  lemma MergeWithout<K(!new), V(!new)>(left: map<K, V>, right: map<K, V>, k: K)
    requires k in left && k !in right
    ensures (left + right)[k] == left[k]
    ensures (left + right) - {k} == (left - {k}) + right
  {
  }

  /** Two dictionaries over different keys gather separately. */
  lemma {:induction false} GatherSplit<K(!new), V(!new)>(left: map<K, multiset<V>>, right: map<K, multiset<V>>)
    requires forall k :: k in left ==> k !in right
    ensures Gather(left + right) == Gather(left) + Gather(right)
    decreases |left|
  {
    if left == map[] {
      assert left + right == right;
    } else {
      var k :| k in left;
      assert (left - {k}).Keys == left.Keys - {k};
      MergeWithout(left, right, k);
      calc {
        Gather(left + right);
      ==  { GatherPick(left + right, k); }
        left[k] + Gather((left - {k}) + right);
      ==  { GatherSplit(left - {k}, right); }
        left[k] + (Gather(left - {k}) + Gather(right));
      ==
        (left[k] + Gather(left - {k})) + Gather(right);
      ==  { GatherPick(left, k); }
        Gather(left) + Gather(right);
      }
    }
  }

  /** One step of a loop over a dictionary: `k` is taken from the keys still to do. */
  lemma GatherNext<K(!new), V(!new)>(bags: map<K, multiset<V>>, todo: set<K>, k: K)
    requires k in todo && k in bags
    ensures Gather(bags - (todo - {k})) == Gather(bags - todo) + bags[k]
  {
    var grown := bags - (todo - {k});
    assert grown - {k} == bags - todo;
    GatherPick(grown, k);
  }
}
