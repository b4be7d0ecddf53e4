/** The store as the code keeps it: a map and a byte total updated in place under one lock. */
module CacheMemory {
  import opened Basics
  import opened CacheKey
  import opened CachePolicy
  import opened CacheStore

  lemma {:induction false} EvictOneMore(s: Store, incoming: nat, budget: nat, victims: seq<string>, t: Store, v: string)
    requires Evicting(s, incoming, budget, victims, t) && t.bytes + incoming > budget && Oldest(t.entries, v)
    ensures Evicting(s, incoming, budget, victims + [v], Remove(t, v))
    decreases |victims|
  {
    if victims != [] {
      EvictOneMore(Remove(s, victims[0]), incoming, budget, victims[1..], t, v);
      assert (victims + [v])[1..] == victims[1..] + [v];
    } else {
      assert ([v])[1..] == [];
    }
  }

  // ---------- the purge pass ----------

  /** Of `all`, what is kept so far: everything still to visit, and of the rest the untagged. */
  ghost predicate Sweeping(all: Entries, kept: Entries, rest: set<string>, tag: string, freed: nat) {
    && rest <= kept.Keys <= all.Keys
    && (forall k :: k in kept ==> kept[k] == all[k])
    && (forall k :: k in all ==> (k in kept <==> k in rest || !Tagged(all[k], tag)))
    && freed == Total(all - kept.Keys)
  }

  lemma {:induction false} SweepStarts(all: Entries, tag: string)
    ensures Sweeping(all, all, all.Keys, tag, 0)
  {
    assert all - all.Keys == map[];
  }

  /** Moving `k` out of `kept` grows what is gone by its body. */
  lemma {:induction false} Moves(all: Entries, kept: Entries, k: string)
    requires kept.Keys <= all.Keys && k in kept && kept[k] == all[k]
    ensures Total(all - (kept - {k}).Keys) == Total(all - kept.Keys) + |kept[k].body|
  {
    var gone := all - (kept - {k}).Keys;
    TotalSplit(gone, k);
    assert gone - {k} == all - kept.Keys;
  }

  lemma {:induction false} SweepDrops(all: Entries, kept: Entries, rest: set<string>, tag: string, freed: nat, k: string)
    requires Sweeping(all, kept, rest, tag, freed) && k in rest && Tagged(kept[k], tag)
    ensures Sweeping(all, kept - {k}, rest - {k}, tag, freed + |kept[k].body|)
  {
    Moves(all, kept, k);
  }

  lemma {:induction false} SweepEnds(all: Entries, kept: Entries, tag: string, freed: nat)
    requires Sweeping(all, kept, {}, tag, freed)
    ensures kept == map k | k in all && !Tagged(all[k], tag) :: all[k]
    ensures freed == Freed(all, tag)
  {
    assert all - kept.Keys == map k | k in all && Tagged(all[k], tag) :: all[k];
  }

  lemma {:induction false} SweepShrinks(all: Entries, kept: Entries)
    requires kept.Keys <= all.Keys
    ensures |kept| <= |all|
  {
    CardinalityOfSubset(kept.Keys, all.Keys);
    assert |kept| == |kept.Keys| && |all| == |all.Keys|;
  }

  class MemoryStore {
    var entries: Entries
    var bytes: nat

    ghost function View(): Store
      reads this
    {
      Store(entries, bytes)
    }

    constructor ()
      ensures View() == Store(map[], 0)
    {
      entries, bytes := map[], 0;
    }

    method Remove(k: string)
      modifies this
      ensures View() == CacheStore.Remove(old(View()), k)
    {
      if k in entries {
        bytes := SatSub(bytes, |entries[k].body|);
        entries := entries - {k};
      }
    }

    /** The retain pass: entries leave one by one, their bytes summed and taken off once at the end. */
    method Purge(tag: string) returns (removed: nat)
      modifies this
      ensures View() == PurgeTag(old(View()), tag)
      ensures removed == |old(entries)| - |entries|
    {
      var freed: nat := 0;
      var before, rest := |entries|, entries.Keys;
      ghost var all := entries;
      SweepStarts(all, tag);
      while rest != {}
        invariant Sweeping(all, entries, rest, tag, freed) && bytes == old(bytes)
        decreases |rest|
      {
        var k :| k in rest;
        if Tagged(entries[k], tag) {
          SweepDrops(all, entries, rest, tag, freed, k);
          freed := freed + |entries[k].body|;
          entries := entries - {k};
        }
        rest := rest - {k};
      }
      SweepEnds(all, entries, tag, freed);
      SweepShrinks(all, entries);
      bytes := SatSub(bytes, freed);
      removed := before - |entries|;
    }

    method Clear()
      modifies this
      ensures View() == Store(map[], 0)
    {
      entries, bytes := map[], 0;
    }

    method Lookup(k: string, now: Time) returns (hit: Option<Hit>)
      modifies this
      ensures (View(), hit) == CacheStore.Lookup(old(View()), k, now)
    {
      if k !in entries {
        return None;
      }
      var e := entries[k];
      var age := Age(e, now);
      if age <= e.ttl {
        return Some(Hit(e.status, e.headers, e.body, age / SECOND, Fresh));
      } else if age <= e.ttl + e.staleWindow {
        return Some(Hit(e.status, e.headers, e.body, age / SECOND, Stale));
      }
      Remove(k);
      return None;
    }

    /** The minimum by storage time, scanning the map in any order. */
    method OldestKey() returns (k: string)
      requires entries != map[]
      ensures Oldest(entries, k)
    {
      assert entries.Keys != {};
      k :| k in entries.Keys;
      var rest := entries.Keys - {k};
      while rest != {}
        invariant rest <= entries.Keys && k in entries
        invariant forall j :: j in entries && j !in rest ==> entries[k].storedAt <= entries[j].storedAt
        decreases |rest|
      {
        var j :| j in rest;
        rest := rest - {j};
        if entries[j].storedAt < entries[k].storedAt {
          k := j;
        }
      }
    }

    method EvictUntilFits(incoming: nat, budget: nat) returns (ghost victims: seq<string>)
      modifies this
      ensures Evicts(old(View()), incoming, budget, victims, View())
      ensures View() == Evicted(old(View()), victims)
    {
      victims := [];
      while bytes + incoming > budget && entries != map[]
        invariant Evicting(old(View()), incoming, budget, victims, View())
        decreases |entries|
      {
        var k := OldestKey();
        EvictOneMore(old(View()), incoming, budget, victims, View(), k);
        victims := victims + [k];
        Remove(k);
      }
      EvictsIsEvicted(old(View()), incoming, budget, victims, View());
    }

    method MaybeStore(cfg: Config, k: string, r: Response, now: Time)
      returns (stored: bool, ghost victims: seq<string>)
      modifies this
      ensures Stores(cfg, old(View()), k, r, now, victims, View(), stored)
    {
      victims := [];
      var ttl := CacheableTtl(cfg, r);
      if ttl.None? || |r.body| > cfg.maxBodyBytes {
        return false, [];
      }
      Remove(k);
      if |entries| >= cfg.maxEntries {
        return false, [];
      }
      victims := EvictUntilFits(|r.body|, cfg.maxTotalBytes);
      if bytes + |r.body| > cfg.maxTotalBytes {
        return false, victims;
      }
      bytes := bytes + |r.body|;
      entries := entries[k := Entry(r.status, r.headers, r.body, now, ttl.value, cfg.staleWindow, TagsOf(r.headers))];
      return true, victims;
    }
  }

  /** A body over the whole budget empties the store and is then refused. */
  lemma {:induction false} TooBigEmptiesTheStore(s: Store, incoming: nat, budget: nat, victims: seq<string>, t: Store)
    requires Evicts(s, incoming, budget, victims, t) && incoming > budget
    ensures t.entries == map[] && t.bytes + incoming > budget
    decreases |victims|
  {
    if victims == [] {
    } else {
      TooBigEmptiesTheStore(CacheStore.Remove(s, victims[0]), incoming, budget, victims[1..], t);
    }
  }
}
