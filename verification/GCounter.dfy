/** The grow-only counter: one slot per node, merged by taking maxima. */
module GCounter {
  import opened Basics
  import opened GossipWire

  type Counter = map<NodeId, nat>

  function Slot(c: Counter, n: NodeId): nat {
    if n in c then c[n] else 0
  }

  function Merge(c: Counter, d: Counter): (r: Counter) {
    map n | n in c.Keys + d.Keys :: Max(Slot(c, n), Slot(d, n)) as nat
  }

  function Incr(c: Counter, n: NodeId, amount: nat): Counter {
    c[n := Slot(c, n) + amount]
  }

  ghost function AnyOwner(c: Counter): (n: NodeId)
    requires |c| != 0
    ensures n in c
  {
    var n :| n in c;
    n
  }

  /** The merged total. */
  ghost function Value(c: Counter): nat
    decreases |c|
  {
    if |c| == 0 then 0 else c[AnyOwner(c)] + Value(c - {AnyOwner(c)})
  }

  /** The total may be taken apart at any slot. */
  lemma {:induction false} ValueSplit(c: Counter, n: NodeId)
    requires n in c
    ensures Value(c) == c[n] + Value(c - {n})
    decreases |c|
  {
    var m := AnyOwner(c);
    if m != n {
      ValueSplit(c - {m}, n);
      ValueSplit(c - {n}, m);
      assert c - {m} - {n} == c - {n} - {m};
    }
  }

  /** Slot-wise smaller counters have smaller totals. */
  lemma {:induction false} ValueMonotone(c: Counter, d: Counter)
    requires forall n :: n in c ==> n in d && c[n] <= d[n]
    ensures Value(c) <= Value(d)
    decreases |c|
  {
    if |c| == 0 {
    } else {
      var n :| n in c;
      ValueSplit(c, n);
      ValueSplit(d, n);
      ValueMonotone(c - {n}, d - {n});
    }
  }

  /** Exchanging counters in any order, any number of times, reaches the same counter. */
  lemma {:induction false} MergeIsJoin(c: Counter, d: Counter, e: Counter)
    ensures Merge(c, d) == Merge(d, c)
    ensures Merge(c, Merge(d, e)) == Merge(Merge(c, d), e)
    ensures Merge(c, Merge(d, c)) == Merge(d, c)
  {
    MergeCommutes(c, d);
    MergeAssociates(c, d, e);
    MergeAbsorbs(c, d);
  }

  lemma {:induction false} MergeCommutes(c: Counter, d: Counter)
    ensures Merge(c, d) == Merge(d, c)
  {
    assert Merge(c, d).Keys == Merge(d, c).Keys;
  }

  lemma {:induction false} MergeAbsorbs(c: Counter, d: Counter)
    ensures Merge(c, Merge(d, c)) == Merge(d, c)
  {
    var m := Merge(d, c);
    assert Merge(c, m).Keys == m.Keys;
    forall n | n in m
      ensures Merge(c, m)[n] == m[n]
    {
      assert m[n] == Max(Slot(d, n), Slot(c, n));
    }
  }

  lemma {:induction false} MergeAssociates(c: Counter, d: Counter, e: Counter)
    ensures Merge(c, Merge(d, e)) == Merge(Merge(c, d), e)
  {
    var l, r := Merge(c, Merge(d, e)), Merge(Merge(c, d), e);
    assert l.Keys == r.Keys;
    forall n | n in l
      ensures l[n] == r[n]
    {
      MergeAssociatesAt(c, d, e, n);
    }
  }

  lemma {:induction false} SlotOfMerge(c: Counter, d: Counter, n: NodeId)
    ensures Slot(Merge(c, d), n) == Max(Slot(c, n), Slot(d, n))
  {}

  lemma {:induction false} MergeAssociatesAt(c: Counter, d: Counter, e: Counter, n: NodeId)
    ensures Slot(Merge(c, Merge(d, e)), n) == Slot(Merge(Merge(c, d), e), n)
  {
    SlotOfMerge(d, e, n);
    SlotOfMerge(c, d, n);
    SlotOfMerge(c, Merge(d, e), n);
    SlotOfMerge(Merge(c, d), e, n);
  }

  /** Merging never loses count, and never counts an increment twice. */
  lemma {:induction false} MergeBounds(c: Counter, d: Counter, top: Counter)
    requires forall n :: n in c || n in d ==> n in top && Slot(c, n) <= top[n] && Slot(d, n) <= top[n]
    ensures Value(c) <= Value(Merge(c, d)) <= Value(top) && Value(d) <= Value(Merge(c, d))
  {
    ValueMonotone(c, Merge(c, d));
    ValueMonotone(d, Merge(c, d));
    ValueMonotone(Merge(c, d), top);
  }

  /** A counter starts at zero, and an increment adds exactly its amount to the total. */
  lemma {:induction false} IncrCounts(c: Counter, n: NodeId, amount: nat)
    ensures Value(map[]) == 0 && Value(Incr(c, n, amount)) == Value(c) + amount
  {
    assert Value(map[]) == 0;
    hide Value;
    var d := Incr(c, n, amount);
    ValueSplit(d, n);
    if n in c {
      ValueSplit(c, n);
      assert d - {n} == c - {n};
    } else {
      assert d - {n} == c;
    }
  }

  /** The source's slot-by-slot merge loop, in whatever order the entries come. */
  method MergeInto(c: Counter, d: Counter) returns (r: Counter)
    ensures r == Merge(c, d)
  {
    r := c;
    var todo := d.Keys;
    while todo != {}
      invariant Merging(c, d, r, todo)
      decreases |todo|
    {
      var n :| n in todo;
      MergesOne(c, d, r, todo, n);
      var slot := Slot(r, n);
      r := r[n := Max(slot, d[n])];
      todo := todo - {n};
    }
  }

  /** `r` is `c` with every slot of `d` merged in but those of `todo`. */
  predicate Merging(c: Counter, d: Counter, r: Counter, todo: set<NodeId>) {
    && todo <= d.Keys && r.Keys == c.Keys + (d.Keys - todo)
    && forall n :: n in r ==> r[n] == if n in todo then Slot(c, n) else Max(Slot(c, n), Slot(d, n))
  }

  lemma {:induction false} MergesOne(c: Counter, d: Counter, r: Counter, todo: set<NodeId>, n: NodeId)
    requires Merging(c, d, r, todo) && n in todo
    ensures Merging(c, d, r[n := Max(Slot(r, n), d[n])], todo - {n})
  {
    assert Slot(r, n) == Slot(c, n);
  }

  /** Summing the slots one by one gives the merged total. */
  method Sum(c: Counter) returns (total: nat)
    ensures total == Value(c)
  {
    total := 0;
    var rest := c;
    while |rest| != 0
      invariant forall n :: n in rest ==> n in c
      invariant total + Value(rest) == Value(c)
      decreases |rest|
    {
      var n :| n in rest;
      ValueSplit(rest, n);
      total := total + rest[n];
      rest := rest - {n};
    }
  }
}
