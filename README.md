# Akita entity store and entity query, modelled in Dafny

This project models akita's normalized entity store and the query layer over it. It
follows the behaviour that the test suite `akita/__tests__/query-entity.spec.ts` pins down.
Where the tests do not exercise a case, the model follows the store's intended semantics
(see "## Left out").

- **The store.** A store holds one snapshot: an ordered `ids` list, an `entities` map from
  id to entity, the `active` id, and the `loading` and `error` flags.
- **Mutations.** The store is changed by:
  - `add`, which appends new ids and overwrites existing ones in place;
  - `set`, which replaces the collection and clears `loading`;
  - `update(id, partial)` and `update(ids, partial)`, which shallow-merge the partial;
  - `remove(id)`, which splices the id out;
  - `remove()`, which resets the store;
  - `setActive`.
- **Queries.** Read-only projections of the current snapshot:
  - `getAll`/`selectAll` with `filterBy`, `limitTo` and `asObject`;
  - `getEntity`/`selectEntity`, `getCount`/`selectCount`, `hasEntity` by id or predicate;
  - `getActive`/`getActiveId`/`selectActive`;
  - `selectMany` with `filterUndefined` and `asObject`;
  - the `isPristine`/`isDirty` tracker.
- **Change suppression.** Reactive views re-emit only when their value changes. This is
  modelled as `Distinct` (`distinctUntilChanged`) over the sequence of view values.

Modules:

- `Wrappers`: `Option` and `Result`.
- `Todos`: the `Todo` entity of the tests, the partial update `Patch`, and `Apply`, the
  shallow merge.
- `EntityState`: the snapshot value and the normalized-store invariant `Valid`:
  - `ids` has no duplicates and lists exactly the keys of `entities`;
  - every entity is stored under its own id;
  - the active id is stored.

  It also holds each mutation as a pure transition on snapshots, with its lemmas.
- `EntityStore`: the class `Store`, whose fields hold the snapshot and the pristine
  baseline. Each method changes the fields in place. Its contract ties the new snapshot to
  the matching `EntityState` transition of the old one, and keeps `Valid`.
- `QueryEntity`: the query projections as functions of a snapshot, with their lemmas. It
  also holds the pristine/dirty comparison and the change-suppression facts.
- `Scenarios`: the test fixtures (`createTodos`), the concrete outcomes the tests expect,
  proved as lemmas, and short client methods that replay the tests against a `Store`.
  Among them, `InitialState` replays lines 26-28 (a fresh or reset store holds the initial
  state) and `PristineLifecycle` replays lines 411-426 (pristine, dirty after `set`,
  pristine after `remove()`). Both state their expectations as assertions, and so have no
  row below.

## Model

| member | source | states |
|---|---|---|
| Todos.Apply | akita/__tests__/query-entity.spec.ts:118 | Shallow merge of a partial update. The id is kept, each field the patch names takes the patch's value, and every other field keeps its old value. |
| EntityState.Initial | akita/__tests__/query-entity.spec.ts:259-266 | The initial state has no ids, no entities, `loading` true, no error and nothing active. It satisfies the store invariant. |
| EntityState.AddAll | akita/__tests__/query-entity.spec.ts:43-50 | `add` keeps the invariant and leaves `active`, `loading` and `error` alone. Old ids stay a prefix of `ids`. An id is stored afterwards exactly when it was stored before or is among the added entities. |
| EntityState.AddAllAppends | akita/__tests__/query-entity.spec.ts:542-553 | Adding entities with fresh, distinct ids appends exactly their ids to `ids`, in the order given. |
| EntityState.AddAllLastWins | akita/__tests__/query-entity.spec.ts:43-50 | After `add`, an added entity whose id does not recur later in the list is the one stored under that id. |
| EntityState.AddAllKeeps | akita/__tests__/query-entity.spec.ts:542-553 | An entity already stored whose id is not among the added ones is still stored, unchanged. |
| EntityState.SetAll | akita/__tests__/query-entity.spec.ts:533-540 | `set` keeps the invariant and clears `loading`. Afterwards exactly the given ids are stored. An active id that is among the given ids is kept; otherwise `active` is cleared. |
| EntityState.SetAllReplaces | akita/__tests__/query-entity.spec.ts:533-540 | With distinct ids, after `set` the `ids` are exactly the given ids in the given order, and each given entity is stored under its id. |
| EntityState.Update | akita/__tests__/query-entity.spec.ts:555-565 | `update(id, partial)` applies the merge to the entity under `id` only. Ids, keys, active and flags are unchanged, and an absent id leaves the whole state unchanged. |
| EntityState.UpdateMany | akita/__tests__/query-entity.spec.ts:465 | `update(ids, partial)` keeps the invariant, the ids, the keys, the active id and the flags. |
| EntityState.UpdateManyEffect | akita/__tests__/query-entity.spec.ts:465 | After `update(ids, partial)` each listed entity carries the patch, whether listed once or more, and every other entity is unchanged. |
| EntityState.Without | akita/__tests__/query-entity.spec.ts:574-577 | Splicing an id out of `ids`: the id is gone, all other ids stay, and nothing new appears. |
| EntityState.WithoutInPlace | akita/__tests__/query-entity.spec.ts:574-577 | In a duplicate-free list, removing the id at position k leaves `xs[..k] + xs[k+1..]`, and removing an absent id leaves the list unchanged. |
| EntityState.WithoutNoDup | akita/__tests__/query-entity.spec.ts:574-577 | Splicing an id out of a duplicate-free `ids` list introduces no duplicates. |
| EntityState.WithoutSplices | akita/__tests__/query-entity.spec.ts:574-577 | Removing the id at position k of a duplicate-free list yields `xs[..k] + xs[k+1..]`, so the remaining ids keep their order. |
| EntityState.Remove | akita/__tests__/query-entity.spec.ts:567-578 | `remove(id)` takes the id out of both `ids` and `entities`: the keys become the old keys minus `id`, and every other entity is unchanged. The id is spliced out of `ids` where it sat, so the other ids keep their order, and an absent id leaves `ids` unchanged. It clears `active` only when the removed id was active, and keeps the invariant. |
| EntityState.SetActive | akita/__tests__/query-entity.spec.ts:152-157 | `setActive` adopts a stored id or null, ignores an id that is not stored, and changes nothing else. |
| EntityStore.Store.Snapshot | akita/__tests__/query-entity.spec.ts:534-552 | `getSnapshot()` carries exactly the store's ids, entities, active id and flags. |
| EntityStore.Store.IsPristine | akita/__tests__/query-entity.spec.ts:411-426 | The store is pristine exactly when its ids, in order, and its entities equal the baseline's. The active id and the flags play no part. |
| EntityStore.Store.constructor | akita/__tests__/query-entity.spec.ts:8-9 | A new store holds the initial state, satisfies the invariant and is pristine. |
| EntityStore.Store.Insert | akita/__tests__/query-entity.spec.ts:43-50 | Adding one entity leaves the fields equal to the one-entity add of the old snapshot: a new id is appended, and an existing id keeps its place. The invariant and the baseline are kept. |
| EntityStore.Store.Add | akita/__tests__/query-entity.spec.ts:43-50 | The loop leaves the fields equal to `AddAll` of the old snapshot. It keeps the invariant and the baseline. |
| EntityStore.Store.Set | akita/__tests__/query-entity.spec.ts:533-540 | The fields become `SetAll` of the old snapshot. The invariant and the baseline are kept. |
| EntityStore.Store.Update | akita/__tests__/query-entity.spec.ts:555-565 | The fields become `Update` of the old snapshot. The invariant and the baseline are kept. |
| EntityStore.Store.UpdateMany | akita/__tests__/query-entity.spec.ts:465 | The loop leaves the fields equal to `UpdateMany` of the old snapshot. It keeps the invariant and the baseline. |
| EntityStore.Store.Remove | akita/__tests__/query-entity.spec.ts:574-577 | The fields become `Remove` of the old snapshot. The invariant and the baseline are kept. |
| EntityStore.Store.Clear | akita/__tests__/query-entity.spec.ts:19-22 | `remove()` restores the initial state and makes the store pristine. |
| EntityStore.Store.SetActive | akita/__tests__/query-entity.spec.ts:152-157 | The fields become `SetActive` of the old snapshot. The invariant and the baseline are kept. |
| QueryEntity.All | akita/__tests__/query-entity.spec.ts:54-64 | The `selectAll()` array has one element per listed id, and the element at position i is the entity stored under `ids[i]`, whose id is `ids[i]`. |
| QueryEntity.FilterConcat | akita/__tests__/query-entity.spec.ts:291-324 | Filtering keeps order: the filter of a concatenation is the concatenation of the filters, so `filterBy` then `limitTo` takes the first matches in `ids` order. |
| QueryEntity.AllContents | akita/__tests__/query-entity.spec.ts:54-64 | The `selectAll()` array holds each stored entity exactly once, and nothing else. |
| QueryEntity.AllAfterSet | akita/__tests__/query-entity.spec.ts:533-540 | After `set` of entities with distinct ids, `selectAll()` is exactly that list, in order. |
| QueryEntity.AllAfterAddToEmpty | akita/__tests__/query-entity.spec.ts:278-281 | Adding entities with distinct ids to the initial state makes `ids` their ids, and `selectAll()` that list, in order. |
| QueryEntity.GetAll | akita/__tests__/query-entity.spec.ts:78-94 | `getAll` returns an object exactly when `asObject` is set. |
| QueryEntity.GetAllDefault | akita/__tests__/query-entity.spec.ts:278-281 | With default options, `getAll` is the array of entities in `ids` order, as long as the collection. |
| QueryEntity.GetAllFilterBy | akita/__tests__/query-entity.spec.ts:291-298 | With `filterBy`, the array holds exactly the stored entities that satisfy the predicate. |
| QueryEntity.GetAllLimitTo | akita/__tests__/query-entity.spec.ts:310-324 | `limitTo n` gives the first `min(n, length)` entities of the unlimited result. The object form has at most n keys. |
| QueryEntity.GetAllObjectMatchesArray | akita/__tests__/query-entity.spec.ts:283-308 | The `asObject` result has exactly the ids of the array result as keys, with one key per element. Each key maps to that element, and reading the keys in array order gives back the array. |
| QueryEntity.GetEntity | akita/__tests__/query-entity.spec.ts:137-143 | `getEntity(id)` is defined exactly when `id` is listed, and is then the entity stored under `id`. |
| QueryEntity.SelectEntity | akita/__tests__/query-entity.spec.ts:97-135 | `selectEntity(id, project)` is undefined for an absent id rather than an error. Otherwise it is the projection of the stored entity. |
| QueryEntity.HasEntity | akita/__tests__/query-entity.spec.ts:233-254 | `hasEntity(id)` holds exactly when `id` is listed. |
| QueryEntity.HasEntityWhere | akita/__tests__/query-entity.spec.ts:240-250 | `hasEntity(predicate)` holds exactly when some stored entity satisfies the predicate. |
| QueryEntity.GetCount | akita/__tests__/query-entity.spec.ts:214-219 | `getCount()` is the length of the `selectAll()` array. |
| QueryEntity.CountIsEntityCount | akita/__tests__/query-entity.spec.ts:214-219 | `getCount()` (the length of `ids`) equals the number of stored entities. |
| QueryEntity.CountWhere | akita/__tests__/query-entity.spec.ts:221-230 | `getCount(predicate)` is the number of stored entities that satisfy the predicate. It is at most `getCount()`, and positive exactly when `hasEntity(predicate)` holds. |
| QueryEntity.CountAfterAdd | akita/__tests__/query-entity.spec.ts:201-207 | Adding an entity with a fresh id raises `getCount(predicate)` by one when the entity satisfies the predicate, and leaves it unchanged otherwise. |
| QueryEntity.CountAfterUpdate | akita/__tests__/query-entity.spec.ts:208-210 | An update changes `getCount(predicate)` only by whether the updated entity matched before and after. |
| QueryEntity.GetActiveId | akita/__tests__/query-entity.spec.ts:174-180 | `getActiveId()` is exactly the active id, so it is null when nothing is active, and a present id is always listed. |
| QueryEntity.ActiveIdRoundTrip | akita/__tests__/query-entity.spec.ts:174-180 | After `setActive(id)` of a stored id, `getActiveId()` is that id; after `setActive(null)` it is null; an id that is not stored leaves it as it was. |
| QueryEntity.GetActive | akita/__tests__/query-entity.spec.ts:145-150 | `getActive()` is the no-active error exactly when nothing is active. Otherwise it is the entity stored under the active id. |
| QueryEntity.SelectActive | akita/__tests__/query-entity.spec.ts:159-171 | `selectActive(project)` fails exactly when nothing is active. Otherwise it is the projection of `getActive()`. |
| QueryEntity.Slots | akita/__tests__/query-entity.spec.ts:469-474 | One slot per requested id, in request order: `getEntity` of that id, which is undefined when the id is missing. |
| QueryEntity.SelectMany | akita/__tests__/query-entity.spec.ts:476-519 | Under `asObject`, the keys are exactly the requested ids, or only the present ones when undefined slots are filtered. Each key maps to `getEntity` of that id. |
| QueryEntity.PresentIdsConcat | akita/__tests__/query-entity.spec.ts:460-464 | Keeping the present ids keeps request order: it distributes over concatenation. |
| QueryEntity.DefinedSlots | akita/__tests__/query-entity.spec.ts:460-464 | Dropping the undefined slots is the same as asking only for the requested ids that are present, in request order. |
| QueryEntity.SelectManyArray | akita/__tests__/query-entity.spec.ts:460-474 | By default there is one defined slot per present requested id, in request order. With `filterUndefined: false` there is one slot per requested id, defined exactly when the id is listed. |
| QueryEntity.ManyViewUnaffected | akita/__tests__/query-entity.spec.ts:449-458 | An update to an id outside the request leaves every `selectMany` value unchanged, so the view does not re-emit. |
| QueryEntity.SetMakesDirty | akita/__tests__/query-entity.spec.ts:411-426 | Against the reset baseline, `set` of a non-empty list is dirty, and `set` of an empty list is pristine. |
| QueryEntity.IsPristine | akita/__tests__/query-entity.spec.ts:411-426 | `isPristine` holds exactly when the ids, in order, and the entities equal the baseline's. |
| QueryEntity.IsDirty | akita/__tests__/query-entity.spec.ts:415-419 | `isDirty` holds exactly when the ids or the entities differ from the baseline's. |
| QueryEntity.Distinct | akita/__tests__/query-entity.spec.ts:114-128 | The emissions of a change-suppressed view start with the first value and end with the last. No two neighbours are equal, and nothing is emitted that was not a value. There is one emission for the first value and one for each change between neighbouring values. |
| QueryEntity.DistinctStep | akita/__tests__/query-entity.spec.ts:114-128 | Appending a value to the sequence of view values appends it to the emissions exactly when it differs from the previous value; an equal value emits nothing. |
| QueryEntity.DistinctKeepsEveryChange | akita/__tests__/query-entity.spec.ts:114-128 | When every value differs from the one before it, every value is emitted. |
| QueryEntity.TitleViewSuppressed | akita/__tests__/query-entity.spec.ts:114-120 | A title view emits once across an update that does not touch titles. |
| QueryEntity.TitleViewReEmits | akita/__tests__/query-entity.spec.ts:122-128 | A title view emits twice across an update that changes that entity's title. |
| QueryEntity.EntitiesViewReEmits | akita/__tests__/query-entity.spec.ts:43-51 | A view of `entities` emits the empty map and then the map holding the added entity. |
| QueryEntity.AllViewReEmitsOnUpdate | akita/__tests__/query-entity.spec.ts:555-565 | The `selectAll()` view re-emits after an update that changes the entity it touches. |
| Scenarios.SetThreeTodos | akita/__tests__/query-entity.spec.ts:533-540 | After `set(createTodos(3))` the ids are `[0, 1, 2]`, and `selectAll()` is the fixture list. |
| Scenarios.SetThenAddIds | akita/__tests__/query-entity.spec.ts:542-553 | Then `add({id: 3, ...})` gives ids `[0, 1, 2, 3]`, and entity 3 is defined. |
| Scenarios.SetThenUpdateCompleted | akita/__tests__/query-entity.spec.ts:555-565 | Then `update(1, {completed: true})` leaves entity 1 completed, with its id and title unchanged. |
| Scenarios.SetThenRemoveIds | akita/__tests__/query-entity.spec.ts:567-578 | Then `remove(1)` gives ids `[0, 2]`, and entity 1 is undefined. |
| Scenarios.CountCompletedSequence | akita/__tests__/query-entity.spec.ts:201-211 | `getCount(completed)` is 0 after the first add, 0 after the second add and 1 after the update: the three values `selectCount` reports. |
| Scenarios.GetAllOptionsCounts | akita/__tests__/query-entity.spec.ts:272-324 | Over todos 'aaa' and 'bbb', `getAll()` has 2 entities and `filterBy` title 'aaa' gives exactly todo 1. `limitTo: 1` gives 1 entity, and `limitTo: 1, asObject` gives 1 key. |
| Scenarios.SelectManyDropsMissing | akita/__tests__/query-entity.spec.ts:460-464 | `selectMany([0, 1, 743])` over `createTodos(3)` is todos 0 and 1. |
| Scenarios.SelectManyKeepsUndefined | akita/__tests__/query-entity.spec.ts:469-474 | `selectMany([0, 1], {filterUndefined: false})` over an empty store is `[undefined, undefined]`. |
| Scenarios.ActiveAfterSetActive | akita/__tests__/query-entity.spec.ts:145-187 | `getActive()` is the no-active error on the initial state. After `add(todo)` and `setActive(1)`, the active id is 1 and the active entity is that todo. |

## Left out

- Notification plumbing: `subscribe`, `unsubscribe`, replay to new subscribers and the
  callback counts. A view is modelled by its successive values; `Distinct` gives what a
  change-suppressed view would emit.
- `selectMany` batching under timers (lines 430-467). The single emission after several
  mutations is timer scheduling, not data logic.
- Object identity (`toBe`). Entities are compared by value.
- Store construction, the `metadata` entry of the state, and the test helpers' classes.
  Bootstrapping is a thin wrapper. A store is always created empty, so the pristine
  baseline is always the empty collection and `isPristine` amounts to "the collection is
  empty". Seeding a store at construction would make the baseline non-empty.
- Cases the tests do not exercise, where the model follows the store's intended semantics
  and a real store could differ without failing a test:
  - `add` of an id that is already stored: it is overwritten in place.
  - `set` clears `loading` and keeps `error`.
  - `set` keeps an active id that is still stored.
  - `remove(id)` of the active id clears it.
  - `setActive` of an id that is not stored is ignored.
  - `update` of an id that is not stored changes nothing.
- The `AkitaNoActiveError` class. It is modelled as `Err(NoActiveEntity)`.
- `setLoading`, `setError` and `sortBy`. The tests do not exercise them.
- The predicate and array forms of `remove`, the predicate form of `update`, several
  active ids, and `filterBy` given as a list of predicates. The tests do not exercise them.
- `limitTo` is modelled as an optional count: `limitTo: Some(0)` yields an empty result.
  The tests do not show how a limit of 0 is treated.
- JavaScript object key order. `asObject` results are maps.
- `createTodos` evidently builds `{id, title, complete: false}`: lines 481-492 and 507-518
  compare its output with such objects. The model's `CreateTodos` uses `completed: false`
  instead. No test reads that field of a fixture todo before an update sets it, so the
  results are the same.
- EntityState.SetAll: an active id that the new collection no longer holds is cleared.
  Keeping an active id that is no longer stored would break the invariant that the active
  id is stored. An active id that is still stored is kept.
- Scenarios.CountCompletedSequence: `selectCount(predicate)` is modelled without change
  suppression. Lines 201-211 expect three emissions (0, 0, 1) for the three mutations,
  which includes a re-emission with an unchanged count of 0. A count view that re-emits
  only when the count changes is not modelled.
- EntityStore.Store.Clear: the pristine baseline is captured when the store is created or
  reset, not lazily on the first query. Snapshots are delivered synchronously, so no other
  collection can be observed first. Lazy capture at the first query would make line 417
  see the `set` collection as its baseline, and so pristine.
- QueryEntity.IsPristine: a collection is pristine when it equals the baseline. `set` of
  an empty list on a reset store therefore stays pristine. The tests only `set` non-empty
  lists.
- EntityState.AddAll: duplicate ids inside one `add` or `set` keep the first position and
  the last entity. The tests do not exercise duplicates.
