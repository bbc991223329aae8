/**
 * The node-wide registry of summaries: the node's own (local) summaries and
 * the newest Bloomier summary received for every other id, with the rule
 * that decides whether an incoming summary replaces the stored one and the
 * selection of what to send.
 */
module Handler {
  import opened Common
  import opened Summary

  /** Summaries that have travelled this many hops are no longer forwarded. */
  const Tau: int := 3

  /** The received-summary store, keyed by summary id. */
  type Store = map<int, BloomierContextSummary>

  /** Every entry of the store is filed under its own id. */
  ghost predicate Keyed(store: Store) {
    forall id :: id in store ==> store[id].id == id
  }

  /**
   * The acceptance rule of addOrUpdateReceivedSummaries: a summary is taken
   * when its id is not one of the node's own and nothing is stored for it
   * or the stored one has a strictly older timestamp.
   */
  predicate Accepts(local: set<int>, store: Store, s: BloomierContextSummary) {
    s.id !in local && (s.id !in store || store[s.id].timestamp < s.timestamp)
  }

  /** The store after a batch, and the summaries accepted along the way. */
  datatype MergeResult = MergeResult(store: Store, accepted: set<BloomierContextSummary>)

  /** The batch applied in order, one summary at a time. */
  function Merge(local: set<int>, store: Store, accepted: set<BloomierContextSummary>,
                 batch: seq<BloomierContextSummary>): MergeResult
    decreases |batch|
  {
    if batch == [] then MergeResult(store, accepted)
    else
      var s := batch[0];
      if Accepts(local, store, s) then Merge(local, store[s.id := s], accepted + {s}, batch[1..])
      else Merge(local, store, accepted, batch[1..])
  }

  /** The ids of a set of summaries: what the observers are notified with. */
  function Ids(summaries: set<BloomierContextSummary>): set<int> {
    set s | s in summaries :: s.id
  }

  /** The ids whose stored summary differs between two stores (new or replaced). */
  function ChangedIds(before: Store, after: Store): set<int> {
    set id | id in after && (id !in before || after[id] != before[id])
  }

  /** A local id is never stored or replaced by a merge. */
  lemma {:induction false} MergeIgnoresLocal(local: set<int>, store: Store, acc: set<BloomierContextSummary>,
                                             batch: seq<BloomierContextSummary>, id: int)
    requires id in local
    ensures id in Merge(local, store, acc, batch).store <==> id in store
    ensures id in store ==> Merge(local, store, acc, batch).store[id] == store[id]
    decreases |batch|
  {
    if batch != [] {
      var s := batch[0];
      if Accepts(local, store, s) {
        MergeIgnoresLocal(local, store[s.id := s], acc + {s}, batch[1..], id);
      } else {
        MergeIgnoresLocal(local, store, acc, batch[1..], id);
      }
    }
  }

  /**
   * Stored timestamps never go backwards: an id stays stored, and a replaced
   * entry is replaced by a strictly newer one.
   */
  lemma {:induction false} MergeNeverOlder(local: set<int>, store: Store, acc: set<BloomierContextSummary>,
                                           batch: seq<BloomierContextSummary>, id: int)
    requires id in store
    ensures var r := Merge(local, store, acc, batch).store;
      && id in r
      && r[id].timestamp >= store[id].timestamp
      && (r[id] != store[id] ==> r[id].timestamp > store[id].timestamp)
    decreases |batch|
  {
    if batch != [] {
      var s := batch[0];
      if Accepts(local, store, s) {
        MergeNeverOlder(local, store[s.id := s], acc + {s}, batch[1..], id);
      } else {
        MergeNeverOlder(local, store, acc, batch[1..], id);
      }
    }
  }

  /**
   * The notification is exact: the ids of the accepted summaries are the
   * ids whose stored summary is new or replaced.
   */
  lemma {:induction false} MergeNotifiesChanged(local: set<int>, store: Store, acc: set<BloomierContextSummary>,
                                                batch: seq<BloomierContextSummary>)
    ensures var r := Merge(local, store, acc, batch);
      Ids(r.accepted) == Ids(acc) + ChangedIds(store, r.store)
    decreases |batch|
  {
    var r := Merge(local, store, acc, batch);
    if batch != [] {
      var s := batch[0];
      if Accepts(local, store, s) {
        var store' := store[s.id := s];
        MergeNotifiesChanged(local, store', acc + {s}, batch[1..]);
        MergeNeverOlder(local, store', acc + {s}, batch[1..], s.id);
        assert Ids(acc + {s}) == Ids(acc) + {s.id};
        forall id ensures id in ChangedIds(store, r.store) <==> id in {s.id} + ChangedIds(store', r.store) {
          if id == s.id {
            assert id in r.store;
          }
        }
      } else {
        MergeNotifiesChanged(local, store, acc, batch[1..]);
      }
    }
  }

  /** Entries stay filed under their own ids, and come from the old store or the batch. */
  lemma {:induction false} MergeKeyed(local: set<int>, store: Store, acc: set<BloomierContextSummary>,
                                      batch: seq<BloomierContextSummary>)
    requires Keyed(store)
    ensures var r := Merge(local, store, acc, batch).store;
      && Keyed(r)
      && forall id :: id in r ==> (id in store && r[id] == store[id]) || r[id] in batch
    decreases |batch|
  {
    if batch != [] {
      var s := batch[0];
      if Accepts(local, store, s) {
        MergeKeyed(local, store[s.id := s], acc + {s}, batch[1..]);
      } else {
        MergeKeyed(local, store, acc, batch[1..]);
      }
    }
  }

  /**
   * After a merge every summary of the batch that is not local is covered
   * by the store: its id is stored with a timestamp at least its own.
   */
  lemma {:induction false} MergeCovers(local: set<int>, store: Store, acc: set<BloomierContextSummary>,
                                       batch: seq<BloomierContextSummary>, i: int)
    requires 0 <= i < |batch| && batch[i].id !in local
    ensures var r := Merge(local, store, acc, batch).store;
      batch[i].id in r && r[batch[i].id].timestamp >= batch[i].timestamp
    decreases |batch|
  {
    var s := batch[0];
    var next := if Accepts(local, store, s) then store[s.id := s] else store;
    var acc' := if Accepts(local, store, s) then acc + {s} else acc;
    assert Merge(local, store, acc, batch) == Merge(local, next, acc', batch[1..]);
    if i == 0 {
      MergeNeverOlder(local, next, acc', batch[1..], s.id);
    } else {
      MergeCovers(local, next, acc', batch[1..], i - 1);
    }
  }

  /** A batch none of whose summaries is accepted leaves the store as it was. */
  lemma {:induction false} MergeNothingAccepted(local: set<int>, store: Store, acc: set<BloomierContextSummary>,
                                                batch: seq<BloomierContextSummary>)
    requires forall s :: s in batch ==> !Accepts(local, store, s)
    ensures Merge(local, store, acc, batch) == MergeResult(store, acc)
    decreases |batch|
  {
    if batch != [] {
      MergeNothingAccepted(local, store, acc, batch[1..]);
    }
  }

  /** Delivering the same batch a second time accepts nothing and changes nothing. */
  lemma RedeliveryChangesNothing(local: set<int>, store: Store, batch: seq<BloomierContextSummary>)
    ensures var r := Merge(local, store, {}, batch).store;
      Merge(local, r, {}, batch) == MergeResult(r, {})
  {
    var r := Merge(local, store, {}, batch).store;
    forall s | s in batch ensures !Accepts(local, r, s) {
      var i :| 0 <= i < |batch| && batch[i] == s;
      if s.id !in local {
        MergeCovers(local, store, {}, batch, i);
      }
    }
    MergeNothingAccepted(local, r, {}, batch);
  }

  /**
   * Order matters within a batch: a later summary for the same id that is
   * not strictly newer than an earlier accepted one is skipped.
   */
  lemma LaterStaleDuplicateSkipped(local: set<int>, store: Store, a: BloomierContextSummary, b: BloomierContextSummary)
    requires a.id == b.id && Accepts(local, store, a)
    requires b.timestamp <= a.timestamp
    ensures Merge(local, store, {}, [a, b]) == MergeResult(store[a.id := a], {a})
  {
    var after := store[a.id := a];
    var none: set<BloomierContextSummary> := {};
    assert [a, b][0] == a && [a, b][1..] == [b];
    assert none + {a} == {a};
    assert Merge(local, store, none, [a, b]) == Merge(local, after, {a}, [b]);
    assert !Accepts(local, after, b);
    assert [b][1..] == [];
    assert Merge(local, after, {a}, [b]) == Merge(local, after, {a}, []);
  }

  /** No two summaries of s share an id. */
  predicate DistinctIds(s: seq<BloomierContextSummary>) {
    forall j, k :: 0 <= j < k < |s| ==> s[j].id != s[k].id
  }

  /** What get(id) finds: one of the node's own summaries, or a received one. */
  datatype Found =
    | LocalSummary(local: HashMapContextSummary)
    | ReceivedSummary(received: BloomierContextSummary)

  function FoundId(f: Found): int {
    match f
    case LocalSummary(s) => s.id
    case ReceivedSummary(b) => b.id
  }

  class ContextHandler {
    var localSummaries: map<int, HashMapContextSummary>
    var receivedSummaries: Store

    /** Both maps file every summary under its own id. */
    ghost predicate Valid()
      reads this
    {
      && (forall id :: id in localSummaries ==> localSummaries[id].id == id)
      && Keyed(receivedSummaries)
    }

    constructor ()
      ensures Valid()
      ensures localSummaries == map[] && receivedSummaries == map[]
    {
      localSummaries := map[];
      receivedSummaries := map[];
    }

    /** `addLocalContextSummary(summary)`: filed (by reference) under its id. */
    method AddLocalContextSummary(summary: HashMapContextSummary)
      requires Valid()
      modifies this
      ensures Valid()
      ensures localSummaries == old(localSummaries)[summary.id := summary]
      ensures receivedSummaries == old(receivedSummaries)
    {
      localSummaries := localSummaries[summary.id := summary];
    }

    /**
     * `addOrUpdateReceivedSummaries(summaries)`: the batch is merged in
     * order by the acceptance rule; every accepted summary has its hop count
     * bumped before it is stored. The result is the notification sent to
     * the observers: the ids updated, or `None` when there were none.
     */
    method AddOrUpdateReceivedSummaries(batch: seq<BloomierContextSummary>)
      returns (notification: Option<set<int>>)
      requires Valid()
      modifies this, batch
      ensures Valid()
      ensures localSummaries == old(localSummaries)
      ensures var r := Merge(old(localSummaries).Keys, old(receivedSummaries), {}, batch);
        && receivedSummaries == r.store
        && (forall s :: s in batch ==> s.hops == old(s.hops) + (if s in r.accepted then 1 else 0))
        && notification == (if Ids(r.accepted) == {} then None else Some(Ids(r.accepted)))
    {
      ghost var local := localSummaries.Keys;
      var idsUpdated: set<int> := {};
      ghost var accepted: set<BloomierContextSummary> := {};
      for i := 0 to |batch|
        invariant Valid()
        invariant localSummaries == old(localSummaries)
        invariant Merge(local, receivedSummaries, accepted, batch[i..])
               == Merge(local, old(receivedSummaries), {}, batch)
        invariant idsUpdated == Ids(accepted)
        invariant forall a :: a in accepted ==>
          a.id in receivedSummaries && receivedSummaries[a.id].timestamp >= a.timestamp
        invariant forall s :: s in batch ==> s.hops == old(s.hops) + (if s in accepted then 1 else 0)
      {
        var summary := batch[i];
        var id := summary.id;
        assert batch[i..][1..] == batch[i + 1..];
        if id in localSummaries {
          continue;
        }
        if id in receivedSummaries && summary.timestamp <= receivedSummaries[id].timestamp {
          continue;
        }
        var _ := summary.IncrementHops();
        receivedSummaries := receivedSummaries[id := summary];
        idsUpdated := idsUpdated + {id};
        accepted := accepted + {summary};
      }
      if idsUpdated != {} {
        notification := Some(idsUpdated);
      } else {
        notification := None;
      }
    }

    /** `get(id)`: the local summary for id, else the received one, else null. */
    function Get(id: int): (r: Option<Found>)
      reads this
      ensures id in localSummaries ==> r == Some(LocalSummary(localSummaries[id]))
      ensures id !in localSummaries && id in receivedSummaries ==> r == Some(ReceivedSummary(receivedSummaries[id]))
      ensures r.None? <==> id !in localSummaries && id !in receivedSummaries
      ensures Valid() && r.Some? ==> FoundId(r.value) == id
    {
      if id in localSummaries then Some(LocalSummary(localSummaries[id]))
      else if id in receivedSummaries then Some(ReceivedSummary(receivedSummaries[id]))
      else None
    }

    /**
     * `get(id, key)`: null when no summary is known for id, else the found
     * summary's answer for key (a map lookup, or the filter's lookup).
     */
    function GetValue(id: int, key: string, lookup: FilterLookup): (r: Option<int>)
      reads this, localSummaries.Values
      ensures id !in localSummaries && id !in receivedSummaries ==> r.None?
      ensures id in localSummaries ==> r == Lookup(Entries(localSummaries[id].entries), key)
      ensures id !in localSummaries && id in receivedSummaries ==>
        r == lookup(receivedSummaries[id].filter, key)
    {
      match Get(id)
      case None => None
      case Some(LocalSummary(s)) => s.Get(key)
      case Some(ReceivedSummary(b)) => lookup(b.filter, key)
    }

    /** The ids of the received summaries still young enough to forward. */
    function ForwardIds(): set<int>
      reads this, receivedSummaries.Values
    {
      set id | id in receivedSummaries && receivedSummaries[id].hops < Tau
    }

    /** The ids of the local summaries whose Bloomier copy the library can build. */
    function CopyIds(build: FilterBuilder): set<int>
      reads this, localSummaries.Values
    {
      set id | id in localSummaries &&
        build(RequestFor(localSummaries[id].entries, localSummaries[id].hashSeedHint)).Some?
    }

    /**
     * c is the Bloomier copy of the local summary filed under c.id, built
     * by `build` at time `now`, and that build did not time out.
     */
    ghost predicate IsCopyOf(c: BloomierContextSummary, build: FilterBuilder, now: int)
      reads this, localSummaries.Values, c
    {
      && c.id in CopyIds(build)
      && c.hops == 0 && c.timestamp == now
      && var local := localSummaries[c.id];
         var req := RequestFor(local.entries, local.hashSeedHint);
         c.filter == BloomierFilter(req.m, req.k, req.q, build(req).value.hashSeed, build(req).value.table)
    }

    /** cs holds one Bloomier copy of every local summary whose build succeeds, and nothing else. */
    ghost predicate CopiesAll(cs: seq<BloomierContextSummary>, build: FilterBuilder, now: int)
      reads this, localSummaries.Values, cs
    {
      && (forall c :: c in cs ==> IsCopyOf(c, build, now))
      && (forall id :: id in CopyIds(build) ==> exists c :: c in cs && c.id == id)
      && DistinctIds(cs)
    }

    /** fs holds every received summary young enough to forward, once, and nothing else. */
    ghost predicate ForwardsAll(fs: seq<BloomierContextSummary>)
      reads this, receivedSummaries.Values
    {
      && (forall f :: f in fs ==> f.id in ForwardIds() && f == receivedSummaries[f.id])
      && (forall id :: id in ForwardIds() ==> receivedSummaries[id] in fs)
      && DistinctIds(fs)
    }

    /** The first loop of getSummariesToSend: a Bloomier copy of each local summary. */
    method LocalCopies(build: FilterBuilder, now: int) returns (cs: seq<BloomierContextSummary>)
      requires Valid()
      ensures forall c :: c in cs ==> fresh(c)
      ensures CopiesAll(cs, build, now)
    {
      cs := [];
      var remaining := localSummaries.Keys;
      while remaining != {}
        invariant remaining <= localSummaries.Keys
        invariant forall c :: c in cs ==> fresh(c) && IsCopyOf(c, build, now) && c.id !in remaining
        invariant forall id :: id in CopyIds(build) && id !in remaining ==> exists c :: c in cs && c.id == id
        invariant DistinctIds(cs)
        decreases |remaining|
      {
        ghost var _ := Pick(remaining);
        var id :| id in remaining;
        var copy := BloomierCopy(localSummaries[id], build, now);
        if copy.Some? {
          cs := cs + [copy.value];
        }
        remaining := remaining - {id};
      }
    }

    /** The second loop of getSummariesToSend: the received summaries with fewer than Tau hops. */
    method Forwarded() returns (fs: seq<BloomierContextSummary>)
      requires Valid()
      ensures ForwardsAll(fs)
    {
      fs := [];
      var remaining := receivedSummaries.Keys;
      while remaining != {}
        invariant remaining <= receivedSummaries.Keys
        invariant forall f :: f in fs ==>
          f.id in ForwardIds() && f.id !in remaining && f == receivedSummaries[f.id]
        invariant forall id :: id in ForwardIds() && id !in remaining ==> receivedSummaries[id] in fs
        invariant DistinctIds(fs)
        decreases |remaining|
      {
        ghost var _ := Pick(remaining);
        var id :| id in remaining;
        var summary := receivedSummaries[id];
        if summary.hops < Tau {
          fs := fs + [summary];
        }
        remaining := remaining - {id};
      }
    }

    /**
     * `getSummariesToSend()`: first a fresh Bloomier copy of every local
     * summary (those whose filter build times out are skipped), then every
     * received summary with fewer than Tau hops, itself rather than a copy.
     * `copies` is where the first part ends.
     */
    method GetSummariesToSend(build: FilterBuilder, now: int)
      returns (toSend: seq<BloomierContextSummary>, ghost copies: nat)
      requires Valid()
      ensures copies <= |toSend|
      ensures forall c :: c in toSend[..copies] ==> fresh(c)
      ensures CopiesAll(toSend[..copies], build, now)
      ensures ForwardsAll(toSend[copies..])
    {
      var cs := LocalCopies(build, now);
      var fs := Forwarded();
      toSend := cs + fs;
      copies := |cs|;
      assert toSend[..copies] == cs && toSend[copies..] == fs;
    }

    /** `getReceivedSummaries()`: every received summary, each exactly once. */
    method GetReceivedSummaries() returns (summaries: seq<BloomierContextSummary>)
      requires Valid()
      ensures forall s :: s in summaries ==> s.id in receivedSummaries && receivedSummaries[s.id] == s
      ensures forall id :: id in receivedSummaries ==> receivedSummaries[id] in summaries
      ensures DistinctIds(summaries)
      ensures |summaries| == |receivedSummaries|
    {
      summaries := [];
      var remaining := receivedSummaries.Keys;
      while remaining != {}
        invariant remaining <= receivedSummaries.Keys
        invariant forall s :: s in summaries ==> s.id in receivedSummaries && s.id !in remaining && receivedSummaries[s.id] == s
        invariant forall id :: id in receivedSummaries && id !in remaining ==> receivedSummaries[id] in summaries
        invariant |summaries| + |remaining| == |receivedSummaries|
        invariant DistinctIds(summaries)
        decreases |remaining|
      {
        ghost var _ := Pick(remaining);
        var id :| id in remaining;
        summaries := summaries + [receivedSummaries[id]];
        remaining := remaining - {id};
      }
    }
  }
}
