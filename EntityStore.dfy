/** The entity store: one mutable snapshot, changed in place by each mutation. Every method
    is proved to leave the fields equal to the matching transition of EntityState applied to
    the old snapshot, and to keep the normalized-store invariant. */
module EntityStore {
  import opened Wrappers
  import opened Todos
  import EntityState
  import QueryEntity

  class Store {
    var ids: seq<Id>
    var entities: map<Id, Todo>
    var active: Option<Id>
    var loading: bool
    var error: Option<string>
    /** The collection seen at the last full reset, against which pristine/dirty is judged.
        Snapshots are delivered synchronously, so the first snapshot observed after a reset
        is the reset snapshot itself. A store is created empty and a reset empties it, so the
        baseline is always the empty collection. */
    var baseline: EntityState.Collection

    /** `getSnapshot()` / `_value()`: the current state as a value. */
    function Snapshot(): (s: EntityState.State)
      reads this
      ensures s.ids == ids && s.entities == entities && s.active == active
      ensures s.loading == loading && s.error == error
    {
      EntityState.State(ids, entities, active, loading, error)
    }

    ghost predicate Valid()
      reads this
    {
      EntityState.Valid(Snapshot())
    }

    /** `isPristine`: the collection equals the baseline. */
    function IsPristine(): (b: bool)
      reads this
      ensures b <==> ids == baseline.ids && entities == baseline.entities
    {
      QueryEntity.IsPristine(EntityState.CollectionOf(Snapshot()), baseline)
    }

    /** A new store holds the initial state and is pristine. */
    constructor ()
      ensures Valid()
      ensures Snapshot() == EntityState.Initial()
      ensures IsPristine()
    {
      ids, entities, active, loading, error := [], map[], None, true, None;
      baseline := EntityState.Collection([], map[]);
    }

    /** Adds one entity: a new id goes to the end of `ids`, an existing one keeps its place
        and its entity is overwritten. */
    method Insert(t: Todo)
      requires Valid()
      modifies this
      ensures Valid()
      ensures Snapshot() == EntityState.AddOne(old(Snapshot()), t)
      ensures baseline == old(baseline)
    {
      if t.id !in entities {
        ids := ids + [t.id];
      }
      entities := entities[t.id := t];
    }

    /** `add(entities)`: one entity after the other, new ids appended to `ids`. */
    method Add(todos: seq<Todo>)
      requires Valid()
      modifies this
      ensures Valid()
      ensures Snapshot() == EntityState.AddAll(old(Snapshot()), todos)
      ensures baseline == old(baseline)
    {
      ghost var start := Snapshot();
      var i := 0;
      while i < |todos|
        invariant 0 <= i <= |todos|
        invariant Snapshot() == EntityState.AddAll(start, todos[..i])
        invariant baseline == old(baseline)
      {
        Insert(todos[i]);
        EntityState.AddAllPrefix(start, todos, i);
        i := i + 1;
      }
      assert todos[..|todos|] == todos;
    }

    /** `set(entities)`: the collection is replaced and `loading` cleared. */
    method Set(todos: seq<Todo>)
      requires Valid()
      modifies this
      ensures Valid()
      ensures Snapshot() == EntityState.SetAll(old(Snapshot()), todos)
      ensures baseline == old(baseline)
    {
      var previous := active;
      ids, entities, active, loading := [], map[], None, false;
      Add(todos);
      SetActive(previous);
    }

    /** `update(id, partial)`: a no-op when `id` is not stored. */
    method Update(id: Id, patch: Patch)
      requires Valid()
      modifies this
      ensures Valid()
      ensures Snapshot() == EntityState.Update(old(Snapshot()), id, patch)
      ensures baseline == old(baseline)
    {
      if id in entities {
        entities := entities[id := Apply(entities[id], patch)];
      }
    }

    /** `update(ids, partial)`: the patch applied to each listed id in turn. */
    method UpdateMany(req: seq<Id>, patch: Patch)
      requires Valid()
      modifies this
      ensures Valid()
      ensures Snapshot() == EntityState.UpdateMany(old(Snapshot()), req, patch)
      ensures baseline == old(baseline)
    {
      ghost var start := Snapshot();
      var i := 0;
      while i < |req|
        invariant 0 <= i <= |req|
        invariant Snapshot() == EntityState.UpdateMany(start, req[..i], patch)
        invariant baseline == old(baseline)
      {
        Update(req[i], patch);
        EntityState.UpdateManyPrefix(start, req, patch, i);
        i := i + 1;
      }
      assert req[..|req|] == req;
    }

    /** `remove(id)`: the id is spliced out of `ids`, dropped from `entities` and, when it
        was active, cleared from `active`. */
    method Remove(id: Id)
      requires Valid()
      modifies this
      ensures Valid()
      ensures Snapshot() == EntityState.Remove(old(Snapshot()), id)
      ensures baseline == old(baseline)
    {
      ghost var after := EntityState.Remove(Snapshot(), id);
      ids := EntityState.Without(ids, id);
      entities := entities - {id};
      if active == Some(id) {
        active := None;
      }
      assert Snapshot() == after;
    }

    /** `remove()` with no argument: back to the initial state, and pristine again. */
    method Clear()
      modifies this
      ensures Valid()
      ensures Snapshot() == EntityState.Initial()
      ensures IsPristine()
    {
      ids, entities, active, loading, error := [], map[], None, true, None;
      baseline := EntityState.CollectionOf(Snapshot());
    }

    /** `setActive(id)`: an id that is not stored is not adopted. */
    method SetActive(id: Option<Id>)
      requires Valid()
      modifies this
      ensures Valid()
      ensures Snapshot() == EntityState.SetActive(old(Snapshot()), id)
      ensures baseline == old(baseline)
    {
      if id.None? || id.value in entities {
        active := id;
      }
    }
  }
}
