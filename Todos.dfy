/** The entity kept in the store: a todo item, and the partial updates applied to it. */
module Todos {
  import opened Wrappers

  /** Entity ids are numbers in the store under test. */
  type Id = int

  datatype Todo = Todo(id: Id, title: string, completed: bool)

  /** A partial `Todo` as passed to `update(id, partial)`: a field left `None` is not touched.
      The id is never part of a partial update. */
  datatype Patch = Patch(title: Option<string>, completed: Option<bool>)

  /** A patch that only sets `completed`. */
  function CompletedPatch(done: bool): Patch {
    Patch(None, Some(done))
  }

  /** A patch that only sets `title`. */
  function TitlePatch(title: string): Patch {
    Patch(Some(title), None)
  }

  /** Shallow merge of a partial update into an entity: the fields the patch names take
      the patch's value, every other field keeps its old value. */
  function Apply(t: Todo, p: Patch): (r: Todo)
    ensures r.id == t.id
    ensures p.title.None? ==> r.title == t.title
    ensures p.title.Some? ==> r.title == p.title.value
    ensures p.completed.None? ==> r.completed == t.completed
    ensures p.completed.Some? ==> r.completed == p.completed.value
  {
    Todo(t.id, p.title.GetOr(t.title), p.completed.GetOr(t.completed))
  }

  /** The `entity => entity.title` projection used by the views under test. */
  function TitleOf(t: Todo): string {
    t.title
  }
}
