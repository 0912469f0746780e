/** The SDK's bounded id-to-type cache (sdk/go/graph.go) and the unbounded history it stands in for. */
module IdTypeMap {
  import opened Prelude

  datatype Entry = Entry(entityType: string, insertedAt: int)

  /** A call that reached the map: store with the clock it read, or remove. */
  datatype Call = Store(id: string, entityType: string, at: int) | Remove(id: string)

  const MAX_SIZE := 1000
  const TTL := 600  // seconds

  /** The cache without a bound: the last call for each id decides. */
  ghost function Unbounded(history: seq<Call>): map<string, Entry> {
    if history == [] then map[]
    else Effect(Unbounded(history[..|history| - 1]), history[|history| - 1])
  }

  function Effect(entries: map<string, Entry>, call: Call): map<string, Entry> {
    if call.Store? then entries[call.id := Entry(call.entityType, call.at)] else entries - {call.id}
  }

  /** The other ids stored at time t or later. */
  ghost function StoredSince(history: seq<Call>, id: string, t: int): set<string> {
    set i | 0 <= i < |history| && history[i].Store? && history[i].id != id && history[i].at >= t :: history[i].id
  }

  ghost predicate Monotone(history: seq<Call>, now: int) {
    forall i :: 0 <= i < |history| && history[i].Store? ==> history[i].at <= now
  }

  function Lookup(entries: map<string, Entry>, id: string, now: int, ttl: int): Option<string> {
    if id in entries && now - entries[id].insertedAt <= ttl then Some(entries[id].entityType) else None
  }

  /** The bounded map agrees with the unbounded one wherever it has an entry. */
  ghost predicate Sound(entries: map<string, Entry>, history: seq<Call>) {
    forall id :: id in entries ==>
      id in Unbounded(history) && Unbounded(history)[id] == entries[id] && id != "" && entries[id].entityType != ""
  }

  /** An entry is missing only if maxSize other ids were stored no earlier than it. */
  ghost predicate Retains(entries: map<string, Entry>, history: seq<Call>, maxSize: int) {
    forall id :: id in Unbounded(history) && |StoredSince(history, id, Unbounded(history)[id].insertedAt)| < maxSize ==> id in entries
  }

  ghost predicate IsOldest(entries: map<string, Entry>, id: string) {
    id in entries && forall other :: other in entries ==> entries[id].insertedAt <= entries[other].insertedAt
  }

  class Cache {
    var entries: map<string, Entry>
    const ttl: int
    const maxSize: int
    ghost var history: seq<Call>
    ghost var clock: int

    ghost predicate Valid()
      reads this
    {
      && maxSize >= 1 && |entries| <= maxSize
      && Monotone(history, clock)
      && Sound(entries, history)
      && Retains(entries, history, maxSize)
    }

    constructor ()
      ensures Valid() && history == [] && entries == map[] && ttl == 600 && maxSize == 1000
    {
      entries, ttl, maxSize, history, clock := map[], TTL, MAX_SIZE, [], 0;
    }

    /** Records the mapping at time now; an empty id or type is ignored, a new id in a full map evicts the oldest. */
    method Put(id: string, entityType: string, now: int) returns (ghost victims: set<string>)
      requires Valid() && now >= clock
      modifies this
      ensures Valid() && clock == now
      ensures history == if id == "" || entityType == "" then old(history) else old(history) + [Store(id, entityType, now)]
      ensures |victims| <= 1 && forall v :: v in victims ==> IsOldest(old(entries), v)
      ensures victims != {} <==> id != "" && entityType != "" && id !in old(entries) && |old(entries)| >= maxSize
      ensures id != "" && entityType != "" ==> entries == (old(entries) - victims)[id := Entry(entityType, now)]
      ensures id == "" || entityType == "" ==> entries == old(entries)
    {
      clock, victims := now, {};
      if id == "" || entityType == "" { return; }
      ghost var before := entries;
      if id !in entries && |entries| >= maxSize {
        victims := EvictOldest();
      }
      ghost var after := (before - victims)[id := Entry(entityType, now)];
      PutKeepsSound(before, history, victims, id, entityType, now);
      PutRetains(before, history, victims, id, entityType, now, maxSize);
      assert entries == before - victims;
      entries := entries[id := Entry(entityType, now)];
      assert entries == after;
      history := history + [Store(id, entityType, now)];
    }

    /** Removes an entry with the earliest insertion time, in whatever order the map is walked. */
    method EvictOldest() returns (ghost victims: set<string>)
      requires entries != map[]
      modifies this`entries
      ensures |victims| == 1 && forall v :: v in victims ==> IsOldest(old(entries), v)
      ensures entries == old(entries) - victims && |entries| == |old(entries)| - 1
    {
      var rest := entries.Keys;
      var oldest :| oldest in rest;
      var oldestAt := entries[oldest].insertedAt;
      rest := rest - {oldest};
      while rest != {}
        invariant rest <= entries.Keys && oldest in entries && oldestAt == entries[oldest].insertedAt
        invariant forall other :: other in entries.Keys - rest ==> oldestAt <= entries[other].insertedAt
      {
        var id :| id in rest;
        if entries[id].insertedAt < oldestAt {
          oldest, oldestAt := id, entries[id].insertedAt;
        }
        rest := rest - {id};
      }
      victims := {oldest};
      assert (entries - {oldest}).Keys == entries.Keys - {oldest};
      entries := entries - {oldest};
    }

    method Delete(id: string)
      requires Valid()
      modifies this`entries, this`history
      ensures Valid() && entries == old(entries) - {id} && history == old(history) + [Remove(id)]
    {
      DeleteKeeps(entries, history, id, maxSize);
      assert (entries - {id}).Keys == entries.Keys - {id};
      entries := entries - {id};
      history := history + [Remove(id)];
    }

    /**
     * A type is returned only if the last call for the id stored it no longer than the TTL ago; and such a
     * store is remembered while fewer than maxSize other ids have been stored since. An older one is not.
     */
    method Resolve(id: string, now: int) returns (r: Option<string>)
      requires Valid()
      ensures r == Lookup(entries, id, now, ttl)
      ensures r.Some? ==> r.value != "" && exists i, at :: LastStore(history, id, i, r.value, at) && now - at <= ttl
      ensures forall i, t, at :: LastStore(history, id, i, t, at) && now - at <= ttl && |StoredSince(history, id, at)| < maxSize ==>
                r == Some(t)
      ensures forall i, t, at :: LastStore(history, id, i, t, at) && now - at > ttl ==> r == None
    {
      LastStoreDecides(history, id);
      if id !in entries { return None; }
      if now - entries[id].insertedAt > ttl { return None; }
      return Some(entries[id].entityType);
    }

    /** The type for a capability annotation: never empty. */
    method ResolveOrWildcard(id: string, now: int) returns (t: string)
      requires Valid()
      ensures t != ""
      ensures t != "*" ==> exists i, at :: LastStore(history, id, i, t, at) && now - at <= ttl
      ensures forall i, u, at :: LastStore(history, id, i, u, at) && now - at <= ttl && |StoredSince(history, id, at)| < maxSize ==>
                t == u
      ensures forall i, u, at :: LastStore(history, id, i, u, at) && now - at > ttl ==> t == "*"
      ensures (forall i, u, at :: !LastStore(history, id, i, u, at)) ==> t == "*"
    {
      var r := Resolve(id, now);
      return if r.None? then "*" else r.value;
    }
  }

  // ---------------------------------------------------------------------- lemmas

  lemma UnboundedAppend(history: seq<Call>, call: Call)
    ensures Unbounded(history + [call]) == Effect(Unbounded(history), call)
  {
    assert (history + [call])[..|history|] == history;
  }

  lemma StoredSinceAppend(history: seq<Call>, call: Call, id: string, t: int)
    ensures StoredSince(history + [call], id, t)
         == StoredSince(history, id, t) + if call.Store? && call.id != id && call.at >= t then {call.id} else {}
  {
    var h := history + [call];
    forall x | x in StoredSince(history, id, t) ensures x in StoredSince(h, id, t) {
      var i :| 0 <= i < |history| && history[i].Store? && history[i].id != id && history[i].at >= t && history[i].id == x;
      assert h[i] == history[i];
    }
    assert h[|history|] == call;
  }

  lemma {:induction false} EntryWasStored(history: seq<Call>, id: string)
    requires id in Unbounded(history)
    ensures exists i :: 0 <= i < |history| && history[i] == Store(id, Unbounded(history)[id].entityType, Unbounded(history)[id].insertedAt)
  {
    var n := |history| - 1;
    if !(history[n].Store? && history[n].id == id) {
      EntryWasStored(history[..n], id);
      var i :| 0 <= i < n && history[..n][i] == Store(id, Unbounded(history)[id].entityType, Unbounded(history)[id].insertedAt);
      assert history[i] == history[..n][i];
    }
  }

  lemma SubsetSize<T>(a: set<T>, b: set<T>)
    requires a <= b
    ensures |a| <= |b|
  {
    assert b == a + (b - a);
  }

  lemma PutKeepsSound(entries: map<string, Entry>, history: seq<Call>, victims: set<string>, id: string, entityType: string, now: int)
    requires Sound(entries, history) && id != "" && entityType != ""
    ensures Sound((entries - victims)[id := Entry(entityType, now)], history + [Store(id, entityType, now)])
  {
    UnboundedAppend(history, Store(id, entityType, now));
  }

  /** An evicted entry really was followed by maxSize others: everything left in the full map, and the newcomer. */
  lemma PutRetains(entries: map<string, Entry>, history: seq<Call>, victims: set<string>, id: string, entityType: string, now: int, maxSize: int)
    requires maxSize >= 1 && |entries| <= maxSize
    requires Sound(entries, history) && Retains(entries, history, maxSize) && Monotone(history, now)
    requires forall v :: v in victims ==> IsOldest(entries, v)
    requires victims != {} ==> id !in entries && |entries| >= maxSize
    ensures Retains((entries - victims)[id := Entry(entityType, now)], history + [Store(id, entityType, now)], maxSize)
  {
    var call := Store(id, entityType, now);
    var later, after := history + [call], (entries - victims)[id := Entry(entityType, now)];
    UnboundedAppend(history, call);
    forall x | x in Unbounded(later) && |StoredSince(later, x, Unbounded(later)[x].insertedAt)| < maxSize
      ensures x in after
    {
      if x != id {
        var t := Unbounded(later)[x].insertedAt;
        StoredSinceAppend(history, call, x, t);
        SubsetSize(StoredSince(history, x, t), StoredSince(later, x, t));
        assert x in entries;
        EntryWasStored(history, x);
        assert now >= t;
        if x in victims {
          EvictionMeansCrowd(entries, history, x, call);
        }
      }
    }
  }

  lemma EvictionMeansCrowd(entries: map<string, Entry>, history: seq<Call>, x: string, call: Call)
    requires Sound(entries, history) && IsOldest(entries, x)
    requires call.Store? && call.id !in entries && Monotone(history, call.at)
    ensures |StoredSince(history + [call], x, entries[x].insertedAt)| >= |entries|
  {
    var t := entries[x].insertedAt;
    forall other | other in entries && other != x ensures other in StoredSince(history, x, t) {
      EntryWasStored(history, other);
    }
    EntryWasStored(history, x);
    StoredSinceAppend(history, call, x, t);
    SubsetSize(entries.Keys - {x} + {call.id}, StoredSince(history + [call], x, t));
    assert |entries.Keys - {x} + {call.id}| == |entries.Keys|;
  }

  lemma DeleteKeeps(entries: map<string, Entry>, history: seq<Call>, id: string, maxSize: int)
    requires Sound(entries, history) && Retains(entries, history, maxSize)
    ensures Sound(entries - {id}, history + [Remove(id)]) && Retains(entries - {id}, history + [Remove(id)], maxSize)
  {
    UnboundedAppend(history, Remove(id));
    forall x | x in Unbounded(history) && x != id
      ensures StoredSince(history + [Remove(id)], x, Unbounded(history)[x].insertedAt)
           == StoredSince(history, x, Unbounded(history)[x].insertedAt)
    {
      StoredSinceAppend(history, Remove(id), x, Unbounded(history)[x].insertedAt);
    }
  }

  /** The unbounded cache answers t exactly when the last call for the id stored t, within the TTL. */
  lemma {:induction false} UnboundedIsLastCall(history: seq<Call>, id: string)
    ensures id in Unbounded(history) <==>
              exists i :: 0 <= i < |history| && history[i].Store? && history[i].id == id && LastFor(history, id, i)
    ensures forall i :: 0 <= i < |history| && history[i].Store? && history[i].id == id && LastFor(history, id, i) ==>
              id in Unbounded(history) && Unbounded(history)[id] == Entry(history[i].entityType, history[i].at)
  {
    if history != [] {
      var n := |history| - 1;
      UnboundedIsLastCall(history[..n], id);
      if history[n].id == id {
        assert LastFor(history, id, n);
      } else {
        forall i | 0 <= i < n ensures LastFor(history, id, i) <==> LastFor(history[..n], id, i) {
          assert history[..n][i] == history[i];
          assert forall j :: i < j < n ==> history[..n][j] == history[j];
        }
        assert forall i :: 0 <= i < n ==> history[..n][i] == history[i];
      }
    }
  }

  /** The last call for the id is a store of t at the given time. */
  ghost predicate LastStore(history: seq<Call>, id: string, i: int, t: string, at: int) {
    0 <= i < |history| && history[i] == Store(id, t, at) && forall j :: i < j < |history| ==> history[j].id != id
  }

  lemma LastStoreDecides(history: seq<Call>, id: string)
    ensures forall i, t, at :: LastStore(history, id, i, t, at) ==> id in Unbounded(history) && Unbounded(history)[id] == Entry(t, at)
    ensures id in Unbounded(history) ==>
              exists i :: LastStore(history, id, i, Unbounded(history)[id].entityType, Unbounded(history)[id].insertedAt)
  {
    UnboundedIsLastCall(history, id);
    forall i, t, at | LastStore(history, id, i, t, at)
      ensures id in Unbounded(history) && Unbounded(history)[id] == Entry(t, at)
    {
      assert LastFor(history, id, i);
    }
    if id in Unbounded(history) {
      var i :| 0 <= i < |history| && history[i].Store? && history[i].id == id && LastFor(history, id, i);
      assert LastStore(history, id, i, Unbounded(history)[id].entityType, Unbounded(history)[id].insertedAt);
    }
  }

  ghost predicate LastFor(history: seq<Call>, id: string, i: int)
    requires 0 <= i < |history|
  {
    forall j :: i < j < |history| ==> history[j].id != id
  }
}
