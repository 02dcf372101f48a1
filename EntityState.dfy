/** The store's state snapshot and the pure transition each mutation performs on it.
    The `Store` class in EntityStore.dfy applies these transitions to its fields. */
module EntityState {
  import opened Wrappers
  import opened Todos

  /** One snapshot of the store: the ordered id list, the id-to-entity map, the active id,
      and the `loading` and `error` flags. */
  datatype State = State(
    ids: seq<Id>,
    entities: map<Id, Todo>,
    active: Option<Id>,
    loading: bool,
    error: Option<string>)

  /** The entity-collection part of a snapshot, which pristine tracking compares. */
  datatype Collection = Collection(ids: seq<Id>, entities: map<Id, Todo>)

  function CollectionOf(s: State): Collection {
    Collection(s.ids, s.entities)
  }

  ghost predicate NoDup<T>(xs: seq<T>) {
    forall i, j :: 0 <= i < j < |xs| ==> xs[i] != xs[j]
  }

  /** The normalized-store invariant: `ids` has no duplicates and holds exactly the keys of
      `entities`, every entity is stored under its own id, and the active id is stored. */
  ghost predicate Valid(s: State) {
    && NoDup(s.ids)
    && (forall k :: k in s.ids <==> k in s.entities)
    && (forall k :: k in s.entities ==> s.entities[k].id == k)
    && (s.active.Some? ==> s.active.value in s.entities)
  }

  /** Every listed id is stored. */
  lemma IdsStored(s: State)
    requires Valid(s)
    ensures forall i :: 0 <= i < |s.ids| ==> s.ids[i] in s.entities
  {
    forall i | 0 <= i < |s.ids| ensures s.ids[i] in s.entities {
      assert s.ids[i] in s.ids;
      StoredIff(s, s.ids[i]);
    }
  }

  /** Under the invariant, an id is listed exactly when it is stored. */
  lemma StoredIff(s: State, k: Id)
    requires Valid(s)
    ensures k in s.ids <==> k in s.entities
  {
  }

  /** The ids of a list of entities, in list order. */
  function IdsOf(ts: seq<Todo>): (r: seq<Id>)
    ensures |r| == |ts|
    ensures forall i :: 0 <= i < |ts| ==> r[i] == ts[i].id
  {
    seq(|ts|, i requires 0 <= i < |ts| => ts[i].id)
  }

  /** The state of a fresh store and of a store after `remove()`. */
  function Initial(): (s: State)
    ensures Valid(s)
    ensures CollectionOf(s) == Collection([], map[])
  {
    State([], map[], None, true, None)
  }

  /** Adds one entity: a new id goes to the end of `ids`; an existing id keeps its place and
      its entity is replaced. */
  function AddOne(s: State, t: Todo): (r: State)
    ensures Valid(s) ==> Valid(r)
  {
    var ids := if t.id in s.entities then s.ids else s.ids + [t.id];
    s.(ids := ids, entities := s.entities[t.id := t])
  }

  /** `add(entities)`: the entities are added one after the other, in list order. */
  function AddAll(s: State, ts: seq<Todo>): (r: State)
    ensures Valid(s) ==> Valid(r)
    ensures r.active == s.active && r.loading == s.loading && r.error == s.error
    ensures s.ids <= r.ids
    ensures forall k :: k in r.entities <==> k in s.entities || k in IdsOf(ts)
    decreases |ts|
  {
    if ts == [] then s
    else
      var init := ts[..|ts| - 1];
      assert IdsOf(ts) == IdsOf(init) + [ts[|ts| - 1].id];
      AddOne(AddAll(s, init), ts[|ts| - 1])
  }

  /** The ids of all but the last entity are all but the last id. */
  lemma IdsOfInit(ts: seq<Todo>)
    requires ts != []
    ensures IdsOf(ts[..|ts| - 1]) == IdsOf(ts)[..|ts| - 1]
    ensures IdsOf(ts) == IdsOf(ts[..|ts| - 1]) + [ts[|ts| - 1].id]
  {
  }

  /** An id that is neither stored nor among the added entities is still not stored. */
  lemma FreshAfterAddAll(s: State, ts: seq<Todo>, t: Todo)
    requires t.id !in s.entities && t.id !in IdsOf(ts)
    ensures t.id !in AddAll(s, ts).entities
  {
  }

  /** Adding an entity with a fresh id appends that id. */
  lemma AddOneFresh(s: State, t: Todo)
    requires t.id !in s.entities
    ensures AddOne(s, t).ids == s.ids + [t.id]
  {
  }

  /** Adding the first `i + 1` entities is adding the first `i`, then entity `i`. */
  lemma AddAllPrefix(s: State, ts: seq<Todo>, i: nat)
    requires i < |ts|
    ensures AddAll(s, ts[..i + 1]) == AddOne(AddAll(s, ts[..i]), ts[i])
  {
    assert ts[..i + 1][..i] == ts[..i];
  }

  /** Dropping the last element of a duplicate-free list keeps it duplicate-free, and that
      element does not occur in the rest. */
  lemma NoDupInit(xs: seq<Id>)
    requires NoDup(xs) && xs != []
    ensures NoDup(xs[..|xs| - 1]) && xs[|xs| - 1] !in xs[..|xs| - 1]
  {
    var init := xs[..|xs| - 1];
    forall i | 0 <= i < |init| ensures init[i] != xs[|xs| - 1] {
      assert xs[i] != xs[|xs| - 1];
    }
  }

  /** Each entity's id is neither stored in `m` nor the id of an earlier entity. */
  ghost predicate FreshIds(m: map<Id, Todo>, ts: seq<Todo>)
    decreases |ts|
  {
    ts == [] ||
    (var init := ts[..|ts| - 1];
     FreshIds(m, init) && ts[|ts| - 1].id !in m && ts[|ts| - 1].id !in IdsOf(init))
  }

  lemma {:induction false} NoDupFresh(m: map<Id, Todo>, ts: seq<Todo>)
    requires NoDup(IdsOf(ts))
    requires forall i :: 0 <= i < |ts| ==> ts[i].id !in m
    ensures FreshIds(m, ts)
    decreases |ts|
  {
    if ts != [] {
      var init := ts[..|ts| - 1];
      IdsOfInit(ts);
      NoDupInit(IdsOf(ts));
      assert forall i :: 0 <= i < |init| ==> init[i] == ts[i];
      NoDupFresh(m, init);
    }
  }

  lemma {:induction false} AppendsFresh(s: State, ts: seq<Todo>)
    requires FreshIds(s.entities, ts)
    ensures AddAll(s, ts).ids == s.ids + IdsOf(ts)
    decreases |ts|
  {
    if ts != [] {
      var init := ts[..|ts| - 1];
      var last := ts[|ts| - 1];
      IdsOfInit(ts);
      AppendsFresh(s, init);
      FreshAfterAddAll(s, init, last);
      AddOneFresh(AddAll(s, init), last);
    }
  }

  /** Adding entities with fresh, distinct ids appends exactly their ids, in order. */
  lemma {:induction false} AddAllAppends(s: State, ts: seq<Todo>)
    requires NoDup(IdsOf(ts))
    requires forall i :: 0 <= i < |ts| ==> ts[i].id !in s.entities
    ensures AddAll(s, ts).ids == s.ids + IdsOf(ts)
  {
    NoDupFresh(s.entities, ts);
    AppendsFresh(s, ts);
  }

  /** Under duplicate ids in one call, the last entity with a given id is the one stored. */
  lemma {:induction false} AddAllLastWins(s: State, ts: seq<Todo>, i: nat)
    requires i < |ts|
    requires forall j :: i < j < |ts| ==> ts[j].id != ts[i].id
    ensures ts[i].id in AddAll(s, ts).entities
    ensures AddAll(s, ts).entities[ts[i].id] == ts[i]
    decreases |ts|
  {
    if i < |ts| - 1 {
      AddAllLastWins(s, ts[..|ts| - 1], i);
    }
  }

  /** An entity whose id is not among the added ones is left as it was. */
  lemma {:induction false} AddAllKeeps(s: State, ts: seq<Todo>, k: Id)
    requires k in s.entities && k !in IdsOf(ts)
    ensures k in AddAll(s, ts).entities
    ensures AddAll(s, ts).entities[k] == s.entities[k]
    decreases |ts|
  {
    if ts != [] {
      var init := ts[..|ts| - 1];
      assert IdsOf(ts) == IdsOf(init) + [ts[|ts| - 1].id];
      AddAllKeeps(s, init, k);
    }
  }

  /** `set(entities)`: the collection is replaced wholesale and `loading` is cleared. The
      active id survives only when it is still present, which keeps `Valid`. */
  function SetAll(s: State, ts: seq<Todo>): (r: State)
    requires Valid(s)
    ensures Valid(r)
    ensures !r.loading && r.error == s.error
    ensures forall k :: k in r.entities <==> k in IdsOf(ts)
    ensures r.active.Some? ==> r.active == s.active
    ensures s.active.Some? && s.active.value in IdsOf(ts) ==> r.active == s.active
  {
    SetActive(AddAll(State([], map[], None, false, s.error), ts), s.active)
  }

  /** With distinct ids, `set` makes `ids` exactly the given ids in the given order and
      stores every given entity under its id. */
  lemma SetAllReplaces(s: State, ts: seq<Todo>)
    requires Valid(s)
    requires NoDup(IdsOf(ts))
    ensures SetAll(s, ts).ids == IdsOf(ts)
    ensures forall i :: 0 <= i < |ts| ==> SetAll(s, ts).entities[ts[i].id] == ts[i]
  {
    var base := State([], map[], None, false, s.error);
    AddAllAppends(base, ts);
    AddAllStoresEach(base, ts);
  }

  /** With distinct ids, `add` stores every given entity under its id. */
  lemma AddAllStoresEach(s: State, ts: seq<Todo>)
    requires NoDup(IdsOf(ts))
    ensures forall i :: 0 <= i < |ts| ==> ts[i].id in AddAll(s, ts).entities
    ensures forall i :: 0 <= i < |ts| ==> AddAll(s, ts).entities[ts[i].id] == ts[i]
  {
    forall i | 0 <= i < |ts|
      ensures ts[i].id in AddAll(s, ts).entities && AddAll(s, ts).entities[ts[i].id] == ts[i]
    {
      forall j | i < j < |ts| ensures ts[j].id != ts[i].id {
        assert IdsOf(ts)[i] != IdsOf(ts)[j];
      }
      AddAllLastWins(s, ts, i);
    }
  }

  /** `update(id, partial)`: merges the patch into the entity stored under `id`; an absent id
      leaves the state untouched. Order, membership and the active id never change. */
  function Update(s: State, id: Id, p: Patch): (r: State)
    requires Valid(s)
    ensures Valid(r)
    ensures r.ids == s.ids && r.active == s.active && r.loading == s.loading && r.error == s.error
    ensures r.entities.Keys == s.entities.Keys
    ensures forall k :: k in s.entities && k != id ==> r.entities[k] == s.entities[k]
    ensures id in s.entities ==> r.entities[id] == Apply(s.entities[id], p)
    ensures id !in s.entities ==> r == s
  {
    if id in s.entities then s.(entities := s.entities[id := Apply(s.entities[id], p)]) else s
  }

  /** `update(ids, partial)`: the same patch applied to each listed id in turn. */
  function UpdateMany(s: State, req: seq<Id>, p: Patch): (r: State)
    requires Valid(s)
    ensures Valid(r)
    ensures r.ids == s.ids && r.active == s.active && r.loading == s.loading && r.error == s.error
    ensures r.entities.Keys == s.entities.Keys
    decreases |req|
  {
    if req == [] then s else Update(UpdateMany(s, req[..|req| - 1], p), req[|req| - 1], p)
  }

  /** Updating the first `i + 1` listed ids is updating the first `i`, then id `i`. */
  lemma UpdateManyPrefix(s: State, req: seq<Id>, p: Patch, i: nat)
    requires Valid(s)
    requires i < |req|
    ensures UpdateMany(s, req[..i + 1], p) == Update(UpdateMany(s, req[..i], p), req[i], p)
  {
    assert req[..i + 1][..i] == req[..i];
  }

  /** After `update(ids, partial)` each listed entity carries the patch (once, however often
      it is listed) and every other entity is unchanged. */
  lemma {:induction false} UpdateManyEffect(s: State, req: seq<Id>, p: Patch, k: Id)
    requires Valid(s)
    requires k in s.entities
    ensures UpdateMany(s, req, p).entities[k] ==
            if k in req then Apply(s.entities[k], p) else s.entities[k]
    decreases |req|
  {
    if req != [] {
      var init := req[..|req| - 1];
      assert req == init + [req[|req| - 1]];
      UpdateManyEffect(s, init, p, k);
    }
  }

  /** `ids` with every occurrence of `x` spliced out; the others keep their relative order. */
  function Without(xs: seq<Id>, x: Id): (r: seq<Id>)
    ensures x !in r
    ensures forall i :: 0 <= i < |r| ==> r[i] != x && r[i] in xs
    ensures forall y :: y != x ==> (y in r <==> y in xs)
    ensures |r| <= |xs|
  {
    if xs == [] then []
    else if xs[0] == x then Without(xs[1..], x)
    else [xs[0]] + Without(xs[1..], x)
  }

  /** Splicing an id out of a duplicate-free list leaves it duplicate-free. */
  lemma {:induction false} WithoutNoDup(xs: seq<Id>, x: Id)
    requires NoDup(xs)
    ensures NoDup(Without(xs, x))
  {
    if xs != [] {
      NoDupTail(xs);
      WithoutNoDup(xs[1..], x);
      var rest := Without(xs[1..], x);
      if xs[0] != x {
        assert xs[0] !in rest;
        var r := [xs[0]] + rest;
        forall i, j | 0 <= i < j < |r| ensures r[i] != r[j] {
          if i == 0 {
            assert r[j] == rest[j - 1];
          } else {
            assert r[i] == rest[i - 1] && r[j] == rest[j - 1];
          }
        }
      }
    }
  }

  lemma {:induction false} WithoutAbsent(xs: seq<Id>, x: Id)
    requires x !in xs
    ensures Without(xs, x) == xs
  {
    if xs != [] {
      WithoutAbsent(xs[1..], x);
    }
  }

  /** Removing an id that sits at position `k` of a duplicate-free list is the splice
      `xs[..k] + xs[k+1..]`. */
  lemma WithoutSplices(xs: seq<Id>, k: nat)
    requires NoDup(xs)
    requires k < |xs|
    ensures Without(xs, xs[k]) == xs[..k] + xs[k + 1..]
  {
    SplicesAt(xs, k);
  }

  /** In a duplicate-free list, removing an id splices it out where it sits, and removing an
      absent id changes nothing. */
  lemma WithoutInPlace(xs: seq<Id>, x: Id)
    requires NoDup(xs)
    ensures forall k :: 0 <= k < |xs| && xs[k] == x ==> Without(xs, x) == xs[..k] + xs[k + 1..]
    ensures x !in xs ==> Without(xs, x) == xs
  {
    forall k | 0 <= k < |xs| && xs[k] == x
      ensures Without(xs, x) == xs[..k] + xs[k + 1..]
    {
      WithoutSplices(xs, k);
    }
    if x !in xs {
      WithoutAbsent(xs, x);
    }
  }

  /** An id that occurs only at position `k` is spliced out at `k`. */
  lemma {:induction false} SplicesAt(xs: seq<Id>, k: nat)
    requires k < |xs|
    requires forall i :: 0 <= i < |xs| && i != k ==> xs[i] != xs[k]
    ensures Without(xs, xs[k]) == xs[..k] + xs[k + 1..]
  {
    var tail := xs[1..];
    if k == 0 {
      assert xs[0] !in tail by {
        forall j | 0 <= j < |tail| ensures tail[j] != xs[0] {
          assert tail[j] == xs[j + 1];
        }
      }
      WithoutAbsent(tail, xs[0]);
    } else {
      assert tail[k - 1] == xs[k];
      forall i | 0 <= i < |tail| && i != k - 1 ensures tail[i] != tail[k - 1] {
        assert tail[i] == xs[i + 1];
      }
      SplicesAt(tail, k - 1);
      assert Without(xs, xs[k]) == [xs[0]] + Without(tail, xs[k]);
      assert xs[..k] == [xs[0]] + tail[..k - 1];
      assert xs[k + 1..] == tail[k..];
    }
  }

  lemma NoDupTail(xs: seq<Id>)
    requires NoDup(xs) && xs != []
    ensures NoDup(xs[1..]) && xs[0] !in xs[1..]
  {
    forall i, j | 0 <= i < j < |xs| - 1 ensures xs[1..][i] != xs[1..][j] {
      assert xs[i + 1] != xs[j + 1];
    }
    forall i | 0 <= i < |xs| - 1 ensures xs[1..][i] != xs[0] {
      assert xs[0] != xs[i + 1];
    }
  }

  /** `remove(id)`: the id leaves both `ids` and `entities` and, if it was active, `active`.
      Every other entity stays, unchanged. */
  function Remove(s: State, id: Id): (r: State)
    requires Valid(s)
    ensures Valid(r)
    ensures id !in r.ids && id !in r.entities
    ensures forall k :: k in s.entities && k != id ==> k in r.entities && r.entities[k] == s.entities[k]
    ensures r.entities.Keys == s.entities.Keys - {id}
    ensures forall k :: 0 <= k < |s.ids| && s.ids[k] == id ==> r.ids == s.ids[..k] + s.ids[k + 1..]
    ensures id !in s.ids ==> r.ids == s.ids
    ensures r.active.Some? ==> r.active == s.active
    ensures s.active != Some(id) ==> r.active == s.active
    ensures r.loading == s.loading && r.error == s.error
  {
    WithoutNoDup(s.ids, id);
    WithoutInPlace(s.ids, id);
    s.(ids := Without(s.ids, id),
       entities := s.entities - {id},
       active := if s.active == Some(id) then None else s.active)
  }

  /** `setActive(id)`: adopts a stored id or `null`; an id that is not stored is ignored. */
  function SetActive(s: State, id: Option<Id>): (r: State)
    requires Valid(s)
    ensures Valid(r)
    ensures r.(active := s.active) == s
    ensures (id.None? || id.value in s.entities) ==> r.active == id
    ensures id.Some? && id.value !in s.entities ==> r == s
  {
    if id.Some? && id.value !in s.entities then s else s.(active := id)
  }
}
