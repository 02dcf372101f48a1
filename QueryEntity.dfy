/** The query layer: read-only projections of a store snapshot (`getAll`, `getEntity`,
    `getCount`, `hasEntity`, `getActive`, `selectMany`), pristine/dirty tracking, and the
    change suppression that decides whether a view re-emits. */
module QueryEntity {
  import opened Wrappers
  import opened Todos
  import opened EntityState

  // ---------------------------------------------------------------------------
  // Entities in `ids` order

  /** The entities stored under `ks`, in the order of `ks`. */
  function Lookup(m: map<Id, Todo>, ks: seq<Id>): (r: seq<Todo>)
    requires forall i :: 0 <= i < |ks| ==> ks[i] in m
    ensures |r| == |ks|
    ensures forall i :: 0 <= i < |ks| ==> r[i] == m[ks[i]]
  {
    if ks == [] then [] else [m[ks[0]]] + Lookup(m, ks[1..])
  }

  /** Every stored entity, in `ids` order. */
  function All(s: State): (r: seq<Todo>)
    requires Valid(s)
    ensures |r| == |s.ids|
    ensures forall i :: 0 <= i < |r| ==> r[i].id == s.ids[i]
    ensures forall i :: 0 <= i < |r| ==> s.ids[i] in s.entities && r[i] == s.entities[s.ids[i]]
  {
    IdsStored(s);
    Lookup(s.entities, s.ids)
  }

  ghost predicate DistinctIds(xs: seq<Todo>) {
    forall i, j :: 0 <= i < j < |xs| ==> xs[i].id != xs[j].id
  }

  /** The ordered view holds each stored entity exactly once, and nothing else. */
  lemma AllContents(s: State)
    requires Valid(s)
    ensures DistinctIds(All(s))
    ensures forall t :: t in All(s) <==> t.id in s.entities && s.entities[t.id] == t
  {
    var all := All(s);
    forall t: Todo | t.id in s.entities && s.entities[t.id] == t ensures t in all {
      var i :| 0 <= i < |s.ids| && s.ids[i] == t.id;
      assert all[i] == t;
    }
    forall t | t in all ensures t.id in s.entities && s.entities[t.id] == t {
      var i :| 0 <= i < |all| && all[i] == t;
      var k := s.ids[i];
      assert k in s.entities;
      assert all[i] == s.entities[k];
      assert s.entities[k].id == k;
    }
    forall i, j | 0 <= i < j < |all| ensures all[i].id != all[j].id {
      assert all[i].id == s.ids[i] && all[j].id == s.ids[j];
    }
  }

  /** The entities of `xs` that satisfy `p`, in their order in `xs`. */
  function Filter(xs: seq<Todo>, p: Todo -> bool): (r: seq<Todo>)
    ensures |r| <= |xs|
    ensures forall t :: t in r <==> t in xs && p(t)
  {
    if xs == [] then [] else (if p(xs[0]) then [xs[0]] else []) + Filter(xs[1..], p)
  }

  /** Filtering keeps order: it distributes over concatenation. */
  lemma {:induction false} FilterConcat(a: seq<Todo>, b: seq<Todo>, p: Todo -> bool)
    ensures Filter(a + b, p) == Filter(a, p) + Filter(b, p)
  {
    if a != [] {
      assert (a + b)[1..] == a[1..] + b;
      FilterConcat(a[1..], b, p);
    } else {
      assert a + b == b;
    }
  }

  lemma {:induction false} FilterDistinct(xs: seq<Todo>, p: Todo -> bool)
    requires DistinctIds(xs)
    ensures DistinctIds(Filter(xs, p))
  {
    if xs != [] {
      FilterDistinct(xs[1..], p);
      var rest := Filter(xs[1..], p);
      forall t | t in rest ensures t.id != xs[0].id {
        var k :| 0 <= k < |xs[1..]| && xs[1..][k] == t;
        assert xs[k + 1] == t;
      }
    }
  }

  /** Over duplicate-free keys, the number of looked-up entities satisfying `p` is the
      number of keys whose entity satisfies `p`. */
  lemma {:induction false} CountLookup(m: map<Id, Todo>, ks: seq<Id>, p: Todo -> bool)
    requires NoDup(ks)
    requires forall i :: 0 <= i < |ks| ==> ks[i] in m
    ensures |Filter(Lookup(m, ks), p)| == |set k | k in ks && p(m[k])|
  {
    if ks != [] {
      var rest := ks[1..];
      NoDupTail(ks);
      CountLookup(m, rest, p);
      var looked := Lookup(m, ks);
      assert looked[0] == m[ks[0]] && looked[1..] == Lookup(m, rest);
      SplitMatching(m, ks, p);
    }
  }

  /** The matching keys of `ks` are its head, when that matches, and the matching keys of
      its tail, which does not hold the head again. */
  lemma SplitMatching(m: map<Id, Todo>, ks: seq<Id>, p: Todo -> bool)
    requires ks != [] && ks[0] !in ks[1..]
    requires forall i :: 0 <= i < |ks| ==> ks[i] in m
    ensures |set k | k in ks && p(m[k])| ==
            |set k | k in ks[1..] && p(m[k])| + (if p(m[ks[0]]) then 1 else 0)
  {
    var rest := ks[1..];
    var tail := set k | k in rest && p(m[k]);
    assert forall k :: k in ks <==> k == ks[0] || k in rest by {
      assert ks == [ks[0]] + rest;
    }
    if p(m[ks[0]]) {
      assert (set k | k in ks && p(m[k])) == tail + {ks[0]};
    } else {
      assert (set k | k in ks && p(m[k])) == tail;
    }
  }

  // ---------------------------------------------------------------------------
  // getAll / selectAll

  /** The options of `getAll` and `selectAll`; `None` means the option is not given. */
  datatype AllOptions = AllOptions(filterBy: Option<Todo -> bool>, limitTo: Option<nat>, asObject: bool)

  function DefaultOptions(): AllOptions {
    AllOptions(None, None, false)
  }

  /** The result of `getAll`: an array, or (under `asObject`) an object keyed by id. */
  datatype View = ArrayView(items: seq<Todo>) | ObjectView(byId: map<Id, Todo>)

  /** The first `limit` elements of `xs` (all of them when no limit is given). */
  function Take(xs: seq<Todo>, limit: Option<nat>): (r: seq<Todo>)
    ensures r <= xs
    ensures limit.None? ==> r == xs
    ensures limit.Some? ==> |r| == if limit.value < |xs| then limit.value else |xs|
  {
    if limit.Some? && limit.value < |xs| then xs[..limit.value] else xs
  }

  /** The entities `getAll(o)` returns, as an ordered list: filter first, then limit. */
  function Selected(s: State, o: AllOptions): seq<Todo>
    requires Valid(s)
  {
    var all := All(s);
    Take(if o.filterBy.Some? then Filter(all, o.filterBy.value) else all, o.limitTo)
  }

  /** The object built from a list by inserting its entities in order under their ids. */
  function ToObject(xs: seq<Todo>): (m: map<Id, Todo>)
    ensures forall k :: k in m <==> k in IdsOf(xs)
  {
    if xs == [] then map[]
    else
      var init := xs[..|xs| - 1];
      assert IdsOf(xs) == IdsOf(init) + [xs[|xs| - 1].id];
      ToObject(init)[xs[|xs| - 1].id := xs[|xs| - 1]]
  }

  /** `getAll(options)`. */
  function GetAll(s: State, o: AllOptions): (r: View)
    requires Valid(s)
    ensures r.ObjectView? <==> o.asObject
  {
    if o.asObject then ObjectView(ToObject(Selected(s, o))) else ArrayView(Selected(s, o))
  }

  lemma SelectedDistinct(s: State, o: AllOptions)
    requires Valid(s)
    ensures DistinctIds(Selected(s, o))
  {
    AllContents(s);
    if o.filterBy.Some? {
      FilterDistinct(All(s), o.filterBy.value);
    }
  }

  /** With no options, `getAll()` is every stored entity in `ids` order. */
  lemma GetAllDefault(s: State)
    requires Valid(s)
    ensures GetAll(s, DefaultOptions()) == ArrayView(All(s))
    ensures |GetAll(s, DefaultOptions()).items| == |s.entities|
  {
    CountIsEntityCount(s);
  }

  /** `filterBy` keeps exactly the stored entities that satisfy the predicate. */
  lemma GetAllFilterBy(s: State, p: Todo -> bool)
    requires Valid(s)
    ensures forall t :: t in GetAll(s, AllOptions(Some(p), None, false)).items <==>
                        t.id in s.entities && s.entities[t.id] == t && p(t)
  {
    AllContents(s);
  }

  /** `limitTo n` yields the first `n` entities of the unlimited result, or all of them when
      there are fewer; under `asObject` the object has as many keys. */
  lemma GetAllLimitTo(s: State, o: AllOptions, n: nat)
    requires Valid(s)
    requires o.limitTo == Some(n)
    ensures var full := Selected(s, o.(limitTo := None));
            && Selected(s, o) <= full
            && |Selected(s, o)| == (if n < |full| then n else |full|)
    ensures |GetAll(s, o.(asObject := true)).byId| <= n
  {
    GetAllObjectMatchesArray(s, o);
  }

  /** A store listing the ids of `ts`, each stored as the matching element, has `ts` as
      its `selectAll()` array. */
  lemma AllIsList(s: State, ts: seq<Todo>)
    requires Valid(s)
    requires s.ids == IdsOf(ts)
    requires forall i :: 0 <= i < |ts| ==> s.entities[ts[i].id] == ts[i]
    ensures All(s) == ts
  {
    forall i | 0 <= i < |ts| ensures All(s)[i] == ts[i] {
      assert s.ids[i] == ts[i].id;
    }
  }

  /** After `set` of entities with distinct ids, `selectAll()` is exactly that list. */
  lemma AllAfterSet(s: State, ts: seq<Todo>)
    requires Valid(s)
    requires NoDup(IdsOf(ts))
    ensures All(SetAll(s, ts)) == ts
  {
    SetAllReplaces(s, ts);
    AllIsList(SetAll(s, ts), ts);
  }

  /** After `add` of entities with distinct ids to an empty store, `ids` lists their ids
      and `selectAll()` is exactly that list. */
  lemma AllAfterAddToEmpty(ts: seq<Todo>)
    requires NoDup(IdsOf(ts))
    ensures AddAll(Initial(), ts).ids == IdsOf(ts)
    ensures All(AddAll(Initial(), ts)) == ts
  {
    AddAllAppends(Initial(), ts);
    AddAllStoresEach(Initial(), ts);
    AllIsList(AddAll(Initial(), ts), ts);
  }

  lemma {:induction false} ToObjectAt(xs: seq<Todo>, i: nat)
    requires DistinctIds(xs)
    requires i < |xs|
    ensures xs[i].id in ToObject(xs) && ToObject(xs)[xs[i].id] == xs[i]
  {
    if i < |xs| - 1 {
      ToObjectAt(xs[..|xs| - 1], i);
    }
  }

  lemma {:induction false} ToObjectSize(xs: seq<Todo>)
    requires DistinctIds(xs)
    ensures |ToObject(xs)| == |xs|
  {
    if xs != [] {
      var init := xs[..|xs| - 1];
      ToObjectSize(init);
      assert xs[|xs| - 1].id !in IdsOf(init) by {
        forall i | 0 <= i < |init| ensures IdsOf(init)[i] != xs[|xs| - 1].id {
          assert xs[i].id != xs[|xs| - 1].id;
        }
      }
    }
  }

  /** Reads the entities of an object back in the given key order. */
  function Reconstruct(m: map<Id, Todo>, order: seq<Id>): (r: seq<Todo>)
    requires forall i :: 0 <= i < |order| ==> order[i] in m
    ensures |r| == |order|
    ensures forall i :: 0 <= i < |order| ==> r[i] == m[order[i]]
  {
    seq(|order|, i requires 0 <= i < |order| => m[order[i]])
  }

  /** `asObject` yields an object whose keys are exactly the ids of the array result, each
      mapped to the entity at that place, with one key per array element; reading the
      object back in the array's id order gives the array again. */
  lemma GetAllObjectMatchesArray(s: State, o: AllOptions)
    requires Valid(s)
    ensures var items := GetAll(s, o.(asObject := false)).items;
            var byId := GetAll(s, o.(asObject := true)).byId;
            && (forall k :: k in byId <==> k in IdsOf(items))
            && |byId| == |items|
            && Reconstruct(byId, IdsOf(items)) == items
  {
    var items := Selected(s, o);
    SelectedDistinct(s, o);
    ToObjectSize(items);
    var byId := ToObject(items);
    forall i | 0 <= i < |items| ensures byId[items[i].id] == items[i] {
      ToObjectAt(items, i);
    }
    assert Reconstruct(byId, IdsOf(items)) == items;
  }

  // ---------------------------------------------------------------------------
  // getEntity / selectEntity / hasEntity

  /** `getEntity(id)`: the stored entity, or `undefined`. */
  function GetEntity(s: State, id: Id): (r: Option<Todo>)
    requires Valid(s)
    ensures r.Some? <==> id in s.ids
    ensures r.Some? ==> r.value.id == id && r.value == s.entities[id]
  {
    if id in s.entities then Some(s.entities[id]) else None
  }

  /** `selectEntity(id, project)`: the projected entity, or `undefined`; never an error. */
  function SelectEntity<T>(s: State, id: Id, project: Todo -> T): (r: Option<T>)
    requires Valid(s)
    ensures r.Some? <==> id in s.ids
    ensures r.Some? ==> r.value == project(s.entities[id])
  {
    match GetEntity(s, id)
    case Some(t) => Some(project(t))
    case None => None
  }

  /** `hasEntity(id)`. */
  function HasEntity(s: State, id: Id): (b: bool)
    requires Valid(s)
    ensures b <==> id in s.ids
  {
    id in s.entities
  }

  /** Whether some element of `xs` satisfies `p` (JavaScript's `some`). */
  function Any(xs: seq<Todo>, p: Todo -> bool): (b: bool)
    ensures b <==> exists i :: 0 <= i < |xs| && p(xs[i])
  {
    if xs == [] then false
    else if p(xs[0]) then true
    else
      var b := Any(xs[1..], p);
      assert forall i :: 1 <= i < |xs| ==> xs[i] == xs[1..][i - 1];
      b
  }

  /** `hasEntity(predicate)`: some stored entity satisfies the predicate. */
  function HasEntityWhere(s: State, p: Todo -> bool): (b: bool)
    requires Valid(s)
    ensures b <==> exists k :: k in s.entities && p(s.entities[k])
  {
    AnyAll(s, p);
    Any(All(s), p)
  }

  lemma AnyAll(s: State, p: Todo -> bool)
    requires Valid(s)
    ensures Any(All(s), p) <==> exists k :: k in s.entities && p(s.entities[k])
  {
    var all := All(s);
    if k :| k in s.entities && p(s.entities[k]) {
      StoredIff(s, k);
      var i :| 0 <= i < |s.ids| && s.ids[i] == k;
      assert p(all[i]);
      assert Any(all, p);
    }
    if i :| 0 <= i < |all| && p(all[i]) {
      var k := s.ids[i];
      assert k in s.entities && p(s.entities[k]);
    }
  }

  // ---------------------------------------------------------------------------
  // getCount / selectCount

  lemma {:induction false} NoDupCard(xs: seq<Id>)
    requires NoDup(xs)
    ensures |set k | k in xs| == |xs|
  {
    if xs != [] {
      var rest := xs[1..];
      assert NoDup(rest) by {
        forall i, j | 0 <= i < j < |rest| ensures rest[i] != rest[j] {
          assert xs[i + 1] != xs[j + 1];
        }
      }
      NoDupCard(rest);
      assert xs[0] !in rest by {
        forall k | 0 <= k < |rest| ensures rest[k] != xs[0] {
          assert xs[k + 1] != xs[0];
        }
      }
      assert (set k | k in xs) == (set k | k in rest) + {xs[0]};
    }
  }

  /** `getCount()` is the length of `ids`, which is also the number of stored entities. */
  lemma CountIsEntityCount(s: State)
    requires Valid(s)
    ensures GetCount(s) == |s.entities|
  {
    NoDupCard(s.ids);
    forall k ensures k in (set k | k in s.ids) <==> k in s.entities.Keys {
      assert k in s.ids <==> k in s.entities;
    }
    assert (set k | k in s.ids) == s.entities.Keys;
  }

  /** `getCount()`. */
  function GetCount(s: State): (n: nat)
    requires Valid(s)
    ensures n == |All(s)|
  {
    |s.ids|
  }

  /** `getCount(predicate)`: the number of distinct stored entities satisfying it. */
  function CountWhere(s: State, p: Todo -> bool): (n: nat)
    requires Valid(s)
    ensures n <= GetCount(s)
    ensures n == |set k | k in s.entities && p(s.entities[k])|
    ensures n > 0 <==> HasEntityWhere(s, p)
  {
    CountWhereMatching(s, p);
    CountWhereExists(s, p);
    |Filter(All(s), p)|
  }

  lemma CountWhereMatching(s: State, p: Todo -> bool)
    requires Valid(s)
    ensures |Filter(All(s), p)| == |set k | k in s.entities && p(s.entities[k])|
  {
    IdsStored(s);
    CountLookup(s.entities, s.ids, p);
    SameMatching(s.entities, s.ids, p);
  }

  /** When `ks` lists exactly the keys of `m`, its matching keys are the matching keys of `m`. */
  lemma SameMatching(m: map<Id, Todo>, ks: seq<Id>, p: Todo -> bool)
    requires forall k :: k in ks <==> k in m
    ensures (set k | k in ks && p(m[k])) == (set k | k in m && p(m[k]))
  {
    forall k ensures (k in ks && p(m[k])) <==> (k in m && p(m[k])) {
      assert k in ks <==> k in m;
    }
  }

  lemma CountWhereExists(s: State, p: Todo -> bool)
    requires Valid(s)
    ensures |Filter(All(s), p)| > 0 <==> HasEntityWhere(s, p)
  {
    var all := All(s);
    if HasEntityWhere(s, p) {
      var i :| 0 <= i < |all| && p(all[i]);
      assert all[i] in Filter(all, p);
    }
    if |Filter(all, p)| > 0 {
      assert Filter(all, p)[0] in all;
    }
  }

  // ---------------------------------------------------------------------------
  // getActive / selectActive

  /** The error `selectActive`/`getActive` raise when no entity is active. */
  datatype QueryError = NoActiveEntity

  /** `getActiveId()`: never an error; a present id is always stored. */
  function GetActiveId(s: State): (r: Option<Id>)
    requires Valid(s)
    ensures r == s.active
    ensures r.Some? ==> r.value in s.ids
  {
    if s.active.Some? then StoredIff(s, s.active.value); s.active else None
  }

  /** `getActiveId()` hands back the id given to `setActive` when it is stored, and null
      after `setActive(null)`; an id that is not stored leaves it as it was. */
  lemma ActiveIdRoundTrip(s: State, k: Id)
    requires Valid(s)
    ensures k in s.entities ==> GetActiveId(SetActive(s, Some(k))) == Some(k)
    ensures k !in s.entities ==> GetActiveId(SetActive(s, Some(k))) == GetActiveId(s)
    ensures GetActiveId(SetActive(s, None)) == None
  {
  }

  /** `getActive()`: the entity at the active id, or the no-active error when `active` is null. */
  function GetActive(s: State): (r: Result<Todo, QueryError>)
    requires Valid(s)
    ensures r.Err? <==> s.active.None?
    ensures r.Ok? ==> r.value.id == s.active.value && r.value == s.entities[s.active.value]
  {
    match s.active
    case None => Err(NoActiveEntity)
    case Some(id) => Ok(s.entities[id])
  }

  /** `selectActive(project)`: the projected active entity, or the no-active error. */
  function SelectActive<T>(s: State, project: Todo -> T): (r: Result<T, QueryError>)
    requires Valid(s)
    ensures r.Err? <==> s.active.None?
    ensures r.Ok? ==> GetActive(s).Ok? && r.value == project(GetActive(s).value)
  {
    match GetActive(s)
    case Err(e) => Err(e)
    case Ok(t) => Ok(project(t))
  }

  // ---------------------------------------------------------------------------
  // selectMany

  /** The options of `selectMany`; by default undefined slots are dropped and the result is
      an array. */
  datatype ManyOptions = ManyOptions(filterUndefined: bool, asObject: bool)

  function DefaultManyOptions(): ManyOptions {
    ManyOptions(true, false)
  }

  /** The value of `selectMany`: an array of slots or an object keyed by id. */
  datatype ManyView = ManyArray(slots: seq<Option<Todo>>) | ManyObject(byId: map<Id, Option<Todo>>)

  /** One slot per requested id, in request order: the entity, or `undefined`. */
  function Slots(s: State, req: seq<Id>): (r: seq<Option<Todo>>)
    requires Valid(s)
    ensures |r| == |req|
    ensures forall i :: 0 <= i < |req| ==> r[i] == GetEntity(s, req[i])
  {
    if req == [] then [] else [GetEntity(s, req[0])] + Slots(s, req[1..])
  }

  /** The defined slots, in order. */
  function Defined(xs: seq<Option<Todo>>): (r: seq<Option<Todo>>)
    ensures forall x :: x in r <==> x in xs && x.Some?
  {
    if xs == [] then [] else (if xs[0].Some? then [xs[0]] else []) + Defined(xs[1..])
  }

  /** The requested ids that are stored, in request order. */
  function PresentIds(s: State, req: seq<Id>): (r: seq<Id>)
    requires Valid(s)
    ensures forall k :: k in r <==> k in req && k in s.ids
  {
    if req == [] then []
    else (if req[0] in s.entities then [req[0]] else []) + PresentIds(s, req[1..])
  }

  /** Keeping the present ids keeps request order: it distributes over concatenation. */
  lemma {:induction false} PresentIdsConcat(s: State, a: seq<Id>, b: seq<Id>)
    requires Valid(s)
    ensures PresentIds(s, a + b) == PresentIds(s, a) + PresentIds(s, b)
  {
    if a != [] {
      assert (a + b)[1..] == a[1..] + b;
      PresentIdsConcat(s, a[1..], b);
    } else {
      assert a + b == b;
    }
  }

  /** `selectMany(ids, options)`, the value of one (batched) emission. */
  function SelectMany(s: State, req: seq<Id>, o: ManyOptions): (r: ManyView)
    requires Valid(s)
    ensures r.ManyObject? <==> o.asObject
    ensures o.asObject && !o.filterUndefined ==>
              forall k :: k in r.byId <==> k in req
    ensures o.asObject && o.filterUndefined ==>
              forall k :: k in r.byId <==> k in req && k in s.ids
    ensures o.asObject ==> forall k :: k in r.byId ==> r.byId[k] == GetEntity(s, k)
  {
    if o.asObject then
      if o.filterUndefined then ManyObject(map k | k in req && k in s.entities :: Some(s.entities[k]))
      else ManyObject(map k | k in req :: GetEntity(s, k))
    else ManyArray(if o.filterUndefined then Defined(Slots(s, req)) else Slots(s, req))
  }

  /** Dropping the undefined slots is the same as asking only for the stored ids: the
      default `selectMany` returns the stored entities of the request, in request order. */
  lemma {:induction false} DefinedSlots(s: State, req: seq<Id>)
    requires Valid(s)
    ensures Defined(Slots(s, req)) == Slots(s, PresentIds(s, req))
  {
    if req != [] {
      DefinedSlots(s, req[1..]);
      assert Slots(s, req) == [GetEntity(s, req[0])] + Slots(s, req[1..]);
      if req[0] in s.entities {
        assert PresentIds(s, req) == [req[0]] + PresentIds(s, req[1..]);
        assert Slots(s, PresentIds(s, req)) == [GetEntity(s, req[0])] + Slots(s, PresentIds(s, req[1..]));
      } else {
        assert PresentIds(s, req) == PresentIds(s, req[1..]);
      }
    }
  }

  /** The default `selectMany(ids)`: every slot is defined, one per stored requested id in
      request order; missing ids are dropped. With `filterUndefined: false` there is one
      slot per requested id, `undefined` for a missing one. */
  lemma SelectManyArray(s: State, req: seq<Id>)
    requires Valid(s)
    ensures var r := SelectMany(s, req, DefaultManyOptions()).slots;
            var present := PresentIds(s, req);
            && |r| == |present|
            && forall i :: 0 <= i < |r| ==> r[i].Some? && r[i] == GetEntity(s, present[i])
    ensures var r := SelectMany(s, req, ManyOptions(false, false)).slots;
            && |r| == |req|
            && forall i :: 0 <= i < |r| ==> (r[i].Some? <==> req[i] in s.ids)
  {
    DefinedSlots(s, req);
  }

  // ---------------------------------------------------------------------------
  // Pristine / dirty

  /** `isPristine`: the collection is the one remembered at the last reset. */
  function IsPristine(current: Collection, baseline: Collection): (b: bool)
    ensures b <==> current.ids == baseline.ids && current.entities == baseline.entities
  {
    current == baseline
  }

  /** `isDirty`, the negation of `isPristine`. */
  function IsDirty(current: Collection, baseline: Collection): (b: bool)
    ensures b <==> current.ids != baseline.ids || current.entities != baseline.entities
  {
    !IsPristine(current, baseline)
  }

  /** After a reset, `set` of a non-empty list makes the store dirty, while `set` of an empty
      list leaves it pristine. */
  lemma SetMakesDirty(s: State, ts: seq<Todo>)
    requires Valid(s)
    requires ts != []
    ensures IsDirty(CollectionOf(SetAll(s, ts)), CollectionOf(Initial()))
    ensures IsPristine(CollectionOf(SetAll(s, [])), CollectionOf(Initial()))
  {
    assert ts[0].id in IdsOf(ts);
    assert ts[0].id in SetAll(s, ts).entities;
  }

  // ---------------------------------------------------------------------------
  // Change suppression

  /** The emissions of a change-suppressed view over successive values: the first value,
      then each value that differs from the one before it (`distinctUntilChanged`). */
  function Distinct<T(==)>(xs: seq<T>): (r: seq<T>)
    ensures |r| <= |xs|
    ensures xs != [] ==> r != [] && r[0] == xs[0] && r[|r| - 1] == xs[|xs| - 1]
    ensures forall i :: 0 <= i < |r| - 1 ==> r[i] != r[i + 1]
    ensures forall x :: x in r ==> x in xs
    ensures xs != [] ==> |r| == 1 + |Changes(xs)|
  {
    if |xs| <= 1 then
      assert Changes(xs) == {};
      xs
    else
      var init := Distinct(xs[..|xs| - 1]);
      ChangesInit(xs);
      if xs[|xs| - 1] == xs[|xs| - 2] then init else init + [xs[|xs| - 1]]
  }

  /** The positions after which the value changes: each one is a re-emission. */
  ghost function Changes<T>(xs: seq<T>): set<int> {
    set i {:trigger xs[i]} | 0 <= i < |xs| - 1 && xs[i] != xs[i + 1]
  }

  lemma ChangesInit<T>(xs: seq<T>)
    requires |xs| >= 2
    ensures |xs| - 2 !in Changes(xs[..|xs| - 1])
    ensures xs[|xs| - 1] == xs[|xs| - 2] ==> Changes(xs) == Changes(xs[..|xs| - 1])
    ensures xs[|xs| - 1] != xs[|xs| - 2] ==> Changes(xs) == Changes(xs[..|xs| - 1]) + {|xs| - 2}
  {
    var init := xs[..|xs| - 1];
    forall i ensures i in Changes(xs) <==> i in Changes(init) || (i == |xs| - 2 && xs[i] != xs[i + 1]) {
      if 0 <= i < |init| - 1 {
        assert init[i] == xs[i] && init[i + 1] == xs[i + 1];
      }
    }
  }

  /** One step of `distinctUntilChanged`: a new value is emitted exactly when it differs
      from the value before it. */
  lemma DistinctStep<T>(xs: seq<T>, x: T)
    ensures Distinct(xs + [x]) == if xs != [] && x == xs[|xs| - 1] then Distinct(xs) else Distinct(xs) + [x]
  {
    var ys := xs + [x];
    if xs == [] {
      assert ys == [x];
    } else {
      var n := |ys|;
      assert ys[..n - 1] == xs;
      assert ys[n - 1] == x && ys[n - 2] == xs[|xs| - 1];
      assert Distinct(ys) == if ys[n - 1] == ys[n - 2] then Distinct(ys[..n - 1])
                             else Distinct(ys[..n - 1]) + [ys[n - 1]];
    }
  }

  /** When every value differs from the one before it, every value is emitted. */
  lemma {:induction false} DistinctKeepsEveryChange<T>(xs: seq<T>)
    requires forall i :: 0 <= i < |xs| - 1 ==> xs[i] != xs[i + 1]
    ensures Distinct(xs) == xs
  {
    if |xs| > 1 {
      var init := xs[..|xs| - 1];
      forall i | 0 <= i < |init| - 1 ensures init[i] != init[i + 1] {
        assert init[i] == xs[i] && init[i + 1] == xs[i + 1];
      }
      DistinctKeepsEveryChange(init);
      assert init + [xs[|xs| - 1]] == xs;
    }
  }

  /** A view of one entity's title does not re-emit after an update that leaves the title
      alone, whichever entity it touches. */
  lemma TitleViewSuppressed(s: State, id: Id, p: Patch, k: Id)
    requires Valid(s)
    requires p.title.None?
    ensures Distinct([SelectEntity(s, k, TitleOf), SelectEntity(Update(s, id, p), k, TitleOf)])
            == [SelectEntity(s, k, TitleOf)]
  {
  }

  /** The same view re-emits when the update changes that entity's title. */
  lemma TitleViewReEmits(s: State, id: Id, title: string)
    requires Valid(s)
    requires id in s.ids && s.entities[id].title != title
    ensures |Distinct([SelectEntity(s, id, TitleOf), SelectEntity(Update(s, id, TitlePatch(title)), id, TitleOf)])| == 2
  {
    assert SelectEntity(Update(s, id, TitlePatch(title)), id, TitleOf) == Some(title);
  }

  /** An update to an id outside the request leaves every `selectMany` value as it was, so
      the view does not re-emit. */
  lemma {:induction false} ManyViewUnaffected(s: State, id: Id, p: Patch, req: seq<Id>, o: ManyOptions)
    requires Valid(s)
    requires id !in req
    ensures SelectMany(Update(s, id, p), req, o) == SelectMany(s, req, o)
  {
    var s' := Update(s, id, p);
    assert Slots(s', req) == Slots(s, req);
    if o.asObject {
      if o.filterUndefined {
        assert (map k | k in req && k in s'.entities :: Some(s'.entities[k]))
            == (map k | k in req && k in s.entities :: Some(s.entities[k]));
      } else {
        assert (map k | k in req :: GetEntity(s', k)) == (map k | k in req :: GetEntity(s, k));
      }
    }
  }

  /** A view of the whole `entities` map re-emits when an entity with a fresh id is added:
      the new map is the old one extended by that entity. */
  lemma EntitiesViewReEmits(s: State, t: Todo)
    requires Valid(s)
    requires t.id !in s.entities
    ensures Distinct([s.entities, AddAll(s, [t]).entities]) == [s.entities, s.entities[t.id := t]]
  {
    AddAllLastWins(s, [t], 0);
    assert AddAll(s, [t]).entities == s.entities[t.id := t];
  }

  /** The `selectAll()` view re-emits after an update that changes the entity it touches. */
  lemma AllViewReEmitsOnUpdate(s: State, id: Id, p: Patch)
    requires Valid(s)
    requires id in s.entities && Apply(s.entities[id], p) != s.entities[id]
    ensures |Distinct([All(s), All(Update(s, id, p))])| == 2
  {
    StoredIff(s, id);
    var i :| 0 <= i < |s.ids| && s.ids[i] == id;
    assert All(Update(s, id, p))[i] != All(s)[i];
  }

  /** Adding an entity with a fresh id raises `getCount(predicate)` by one exactly when the
      entity satisfies the predicate. */
  lemma CountAfterAdd(s: State, t: Todo, p: Todo -> bool)
    requires Valid(s)
    requires t.id !in s.entities
    ensures CountWhere(AddAll(s, [t]), p) == CountWhere(s, p) + (if p(t) then 1 else 0)
  {
    assert [t][..0] == [];
    assert AddAll(s, [t]).entities == s.entities[t.id := t];
    MatchingAfterInsert(s.entities, t.id, t, p);
  }

  /** An update changes `getCount(predicate)` only by whether the updated entity matched
      before and whether it matches after. */
  lemma CountAfterUpdate(s: State, id: Id, patch: Patch, p: Todo -> bool)
    requires Valid(s)
    requires id in s.entities
    ensures CountWhere(Update(s, id, patch), p) ==
            CountWhere(s, p) - (if p(s.entities[id]) then 1 else 0)
                             + (if p(Apply(s.entities[id], patch)) then 1 else 0)
  {
    assert Update(s, id, patch).entities == s.entities[id := Apply(s.entities[id], patch)];
    MatchingAfterReplace(s.entities, id, Apply(s.entities[id], patch), p);
  }

  lemma MatchingAfterReplace(m: map<Id, Todo>, id: Id, t: Todo, p: Todo -> bool)
    requires id in m
    ensures var m' := m[id := t];
            |set k | k in m' && p(m'[k])| ==
            |set k | k in m && p(m[k])| - (if p(m[id]) then 1 else 0) + (if p(t) then 1 else 0)
  {
    var rest := m - {id};
    assert m == rest[id := m[id]];
    assert m[id := t] == rest[id := t];
    MatchingAfterInsert(rest, id, m[id], p);
    MatchingAfterInsert(rest, id, t, p);
  }

  lemma MatchingAfterInsert(m: map<Id, Todo>, key: Id, t: Todo, p: Todo -> bool)
    requires key !in m
    ensures var m' := m[key := t];
            |set k | k in m' && p(m'[k])| == |set k | k in m && p(m[k])| + (if p(t) then 1 else 0)
  {
    var m' := m[key := t];
    var before := set k | k in m && p(m[k]);
    if p(t) {
      assert (set k | k in m' && p(m'[k])) == before + {key};
    } else {
      assert (set k | k in m' && p(m'[k])) == before;
    }
  }
}
