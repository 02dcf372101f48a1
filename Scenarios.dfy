/** Clients of the store and the query layer that replay the repository's test cases; each
    `assert` is an expectation of the corresponding test, proved from the contracts alone. */
module Scenarios {
  import opened Wrappers
  import opened Todos
  import opened EntityState
  import opened QueryEntity
  import opened EntityStore

  function DigitChar(d: nat): char
    requires d < 10
  {
    "0123456789"[d]
  }

  function NatToString(n: nat): string {
    if n < 10 then [DigitChar(n)] else NatToString(n / 10) + [DigitChar(n % 10)]
  }

  /** The test fixture `createTodos(n)`: ids `0 .. n-1`, titles `Todo <id>`, not completed. */
  function CreateTodos(n: nat): seq<Todo> {
    seq(n, i requires 0 <= i => Todo(i, "Todo " + NatToString(i), false))
  }

  function Completed(t: Todo): bool {
    t.completed
  }

  /** A fresh store, and a store after `remove()`, hold the initial state. */
  method InitialState() {
    var store := new Store();
    assert store.Snapshot() == State([], map[], None, true, None);
    store.Add(CreateTodos(2));
    store.Clear();
    assert store.Snapshot() == State([], map[], None, true, None);
  }

  /** `set(createTodos(3))` lists ids `[0, 1, 2]`, stores each fixture under its id, and the
      `selectAll()` view is the fixture list itself. */
  lemma SetThreeTodos()
    ensures SetAll(Initial(), CreateTodos(3)).ids == [0, 1, 2]
    ensures All(SetAll(Initial(), CreateTodos(3))) == CreateTodos(3)
  {
    var todos := CreateTodos(3);
    assert IdsOf(todos) == [0, 1, 2];
    SetAllReplaces(Initial(), todos);
    AllAfterSet(Initial(), todos);
  }

  /** In the store after `set(createTodos(3))`, entity 1 is the fixture's second todo. */
  lemma SetThreeTodosEntity()
    ensures 1 in SetAll(Initial(), CreateTodos(3)).entities
    ensures SetAll(Initial(), CreateTodos(3)).entities[1] == CreateTodos(3)[1]
  {
    var s := SetAll(Initial(), CreateTodos(3));
    SetThreeTodos();
    assert All(s)[1] == s.entities[s.ids[1]];
  }

  /** Removing the middle id of `[0, 1, 2]` leaves `[0, 2]` and the entity undefined. */
  lemma RemoveMiddle(s: State)
    requires Valid(s) && s.ids == [0, 1, 2]
    ensures Remove(s, 1).ids == [0, 2] && GetEntity(Remove(s, 1), 1) == None
  {
    WithoutSplices(s.ids, 1);
    assert s.ids[..1] + s.ids[2..] == [0, 2];
  }

  /** `set(createTodos(3))` then `remove(1)`: ids become `[0, 2]` and entity 1 is undefined. */
  lemma SetThenRemoveIds()
    ensures var s := Remove(SetAll(Initial(), CreateTodos(3)), 1);
            s.ids == [0, 2] && GetEntity(s, 1) == None
  {
    SetThreeTodos();
    RemoveMiddle(SetAll(Initial(), CreateTodos(3)));
  }

  method SetThenRemove() {
    var store := new Store();
    store.Set(CreateTodos(3));
    store.Remove(1);
    SetThenRemoveIds();
    assert store.ids == [0, 2];
  }

  /** Adding todo 3 to a store listing `[0, 1, 2]` appends its id and stores it. */
  lemma AddToThree(s: State)
    requires Valid(s) && s.ids == [0, 1, 2]
    ensures var r := AddAll(s, [Todo(3, "3", false)]);
            r.ids == [0, 1, 2, 3] && GetEntity(r, 3) == Some(Todo(3, "3", false))
  {
    StoredIff(s, 3);
    assert IdsOf([Todo(3, "3", false)]) == [3];
    AddAllAppends(s, [Todo(3, "3", false)]);
  }

  /** `set(createTodos(3))` then `add({id: 3, ...})`: ids become `[0, 1, 2, 3]` and entity 3
      is defined. */
  lemma SetThenAddIds()
    ensures var s := AddAll(SetAll(Initial(), CreateTodos(3)), [Todo(3, "3", false)]);
            s.ids == [0, 1, 2, 3] && GetEntity(s, 3) == Some(Todo(3, "3", false))
  {
    SetThreeTodos();
    AddToThree(SetAll(Initial(), CreateTodos(3)));
  }

  method SetThenAdd() {
    var store := new Store();
    store.Set(CreateTodos(3));
    store.Add([Todo(3, "3", false)]);
    SetThenAddIds();
    assert store.ids == [0, 1, 2, 3];
  }

  /** `set(createTodos(3))` then `update(1, {completed: true})`: entity 1 is completed and keeps
      its id and title. */
  lemma SetThenUpdateCompleted()
    ensures var s := Update(SetAll(Initial(), CreateTodos(3)), 1, CompletedPatch(true));
            GetEntity(s, 1) == Some(CreateTodos(3)[1].(completed := true))
  {
    SetThreeTodosEntity();
  }

  method SetThenUpdate() {
    var store := new Store();
    store.Set(CreateTodos(3));
    store.Update(1, CompletedPatch(true));
    SetThenUpdateCompleted();
    assert GetEntity(store.Snapshot(), 1).value.completed;
  }

  /** Pristine after `remove()`, dirty after `set` of two todos, pristine after `remove()`. */
  method PristineLifecycle() {
    var store := new Store();
    store.Clear();
    assert store.IsPristine();
    var todos := [Todo(1, "aaa", false), Todo(2, "bbb", false)];
    ghost var s0 := store.Snapshot();
    store.Set(todos);
    SetMakesDirty(s0, todos);
    assert !store.IsPristine();
    store.Clear();
    assert store.IsPristine();
  }

  /** `getCount(completed)` is 0 after the first todo, still 0 after the second, and 1 once
      todo 1 is completed; `selectCount(completed)` reports each of the three values. */
  lemma CountCompletedSequence()
    ensures var s1 := AddAll(Initial(), [Todo(1, "Todo 1", false)]);
            var s2 := AddAll(s1, [Todo(2, "Todo 2", false)]);
            var s3 := Update(s2, 1, CompletedPatch(true));
            [CountWhere(s1, Completed), CountWhere(s2, Completed), CountWhere(s3, Completed)] == [0, 0, 1]
  {
    var s1 := AddAll(Initial(), [Todo(1, "Todo 1", false)]);
    CountAfterAdd(Initial(), Todo(1, "Todo 1", false), Completed);
    CountAfterSecond(s1);
  }

  /** From one open todo 1, adding open todo 2 keeps the count at 0, and completing todo 1
      raises it to 1. */
  lemma CountAfterSecond(s1: State)
    requires Valid(s1) && s1.entities == map[1 := Todo(1, "Todo 1", false)]
    ensures var s2 := AddAll(s1, [Todo(2, "Todo 2", false)]);
            CountWhere(s2, Completed) == 0 &&
            CountWhere(Update(s2, 1, CompletedPatch(true)), Completed) == 1
  {
    SecondAddKeepsZero(s1);
    CompletingRaises(AddAll(s1, [Todo(2, "Todo 2", false)]));
  }

  lemma SecondAddKeepsZero(s1: State)
    requires Valid(s1) && s1.entities == map[1 := Todo(1, "Todo 1", false)]
    ensures var s2 := AddAll(s1, [Todo(2, "Todo 2", false)]);
            CountWhere(s2, Completed) == 0 && 1 in s2.entities && s2.entities[1] == Todo(1, "Todo 1", false)
  {
    var t2 := Todo(2, "Todo 2", false);
    assert IdsOf([t2]) == [2];
    AddAllKeeps(s1, [t2], 1);
    NoneCompleted(s1);
    CountAfterAdd(s1, t2, Completed);
  }

  lemma NoneCompleted(s1: State)
    requires Valid(s1) && s1.entities == map[1 := Todo(1, "Todo 1", false)]
    ensures CountWhere(s1, Completed) == 0
  {
    assert (set k | k in s1.entities && Completed(s1.entities[k])) == {};
  }

  lemma CompletingRaises(s2: State)
    requires Valid(s2) && 1 in s2.entities && s2.entities[1] == Todo(1, "Todo 1", false)
    requires CountWhere(s2, Completed) == 0
    ensures CountWhere(Update(s2, 1, CompletedPatch(true)), Completed) == 1
  {
    CountAfterUpdate(s2, 1, CompletedPatch(true), Completed);
  }

  method CountCompleted() {
    var store := new Store();
    store.Add([Todo(1, "Todo 1", false)]);
    var c0 := CountWhere(store.Snapshot(), Completed);
    store.Add([Todo(2, "Todo 2", false)]);
    var c1 := CountWhere(store.Snapshot(), Completed);
    store.Update(1, CompletedPatch(true));
    var c2 := CountWhere(store.Snapshot(), Completed);
    CountCompletedSequence();
    assert [c0, c1, c2] == [0, 0, 1];
  }

  /** A title view does not re-emit on `update(1, {completed: true})` and re-emits on
      `update(1, {title: 'changed'})`. */
  method TitleView() {
    var store := new Store();
    var todo := Todo(1, "Todo 1", false);
    store.Add([todo]);
    ghost var s0 := store.Snapshot();
    TitleViewSuppressed(s0, 1, CompletedPatch(true), 1);
    store.Update(1, CompletedPatch(true));
    ghost var s1 := store.Snapshot();
    assert s1.entities[1].title == "Todo 1";
    TitleViewReEmits(s1, 1, "changed");
  }

  function IsAaa(t: Todo): bool {
    t.title == "aaa"
  }

  /** The two todos the `getAll` and `selectAll` tests add. */
  function AaaBbb(): seq<Todo> {
    [Todo(1, "aaa", false), Todo(2, "bbb", false)]
  }

  /** Over a store whose `selectAll()` is todos 'aaa' and 'bbb': `getAll()` has two entities,
      `filterBy` title 'aaa' gives todo 1, `limitTo: 1` one entity and, with `asObject`, one
      key. */
  lemma GetAllOverAaaBbb(s: State)
    requires Valid(s) && All(s) == AaaBbb()
    ensures |GetAll(s, DefaultOptions()).items| == 2
    ensures GetAll(s, AllOptions(Some(IsAaa), None, false)).items == [Todo(1, "aaa", false)]
    ensures |GetAll(s, AllOptions(None, Some(1), false)).items| == 1
    ensures |GetAll(s, AllOptions(None, Some(1), true)).byId| == 1
  {
    assert Filter(AaaBbb(), IsAaa) == [AaaBbb()[0]];
    GetAllObjectMatchesArray(s, AllOptions(None, Some(1), false));
  }

  /** `add` of todos 'aaa' and 'bbb' to a reset store, then the `getAll` options. */
  lemma GetAllOptionsCounts()
    ensures var s := AddAll(Initial(), AaaBbb());
            && |GetAll(s, DefaultOptions()).items| == 2
            && GetAll(s, AllOptions(Some(IsAaa), None, false)).items == [Todo(1, "aaa", false)]
            && |GetAll(s, AllOptions(None, Some(1), false)).items| == 1
            && |GetAll(s, AllOptions(None, Some(1), true)).byId| == 1
  {
    assert IdsOf(AaaBbb()) == [1, 2];
    AllAfterAddToEmpty(AaaBbb());
    GetAllOverAaaBbb(AddAll(Initial(), AaaBbb()));
  }

  /** Over a store listing `[0, 1, 2]`, `selectMany([0, 1, 743])` yields entities 0 and 1. */
  lemma SelectManyOverThree(s: State)
    requires Valid(s) && s.ids == [0, 1, 2]
    ensures SelectMany(s, [0, 1, 743], DefaultManyOptions()).slots ==
            [Some(s.entities[0]), Some(s.entities[1])]
  {
    StoredIff(s, 743);
    assert [0, 1, 743][1..] == [1, 743] && [1, 743][1..] == [743] && [743][1..] == [];
    assert PresentIds(s, [743]) == [];
    assert PresentIds(s, [1, 743]) == [1];
    assert PresentIds(s, [0, 1, 743]) == [0, 1];
    SelectManyArray(s, [0, 1, 743]);
  }

  /** `add(createTodos(3))` then `selectMany([0, 1, 743])` yields todos 0 and 1. */
  lemma SelectManyDropsMissing()
    ensures var s := AddAll(Initial(), CreateTodos(3));
            SelectMany(s, [0, 1, 743], DefaultManyOptions()).slots ==
            [Some(CreateTodos(3)[0]), Some(CreateTodos(3)[1])]
  {
    var todos := CreateTodos(3);
    assert IdsOf(todos) == [0, 1, 2];
    AllAfterAddToEmpty(todos);
    var s := AddAll(Initial(), todos);
    assert All(s)[0] == s.entities[0] && All(s)[1] == s.entities[1];
    SelectManyOverThree(s);
  }

  /** With `filterUndefined: false` over an empty store, `selectMany([0, 1])` is
      `[undefined, undefined]`. */
  lemma SelectManyKeepsUndefined()
    ensures SelectMany(Initial(), [0, 1], ManyOptions(false, false)).slots == [None, None]
  {
    SelectManyArray(Initial(), [0, 1]);
  }

  /** `getActive()` fails on the initial state; after `add(todo)` and `setActive(1)` the active
      id is 1 and the active entity is the todo. */
  lemma ActiveAfterSetActive()
    ensures GetActive(Initial()) == Err(NoActiveEntity)
    ensures var s := SetActive(AddAll(Initial(), [Todo(1, "Todo 1", false)]), Some(1));
            GetActiveId(s) == Some(1) && GetActive(s) == Ok(Todo(1, "Todo 1", false))
  {
    AddAllLastWins(Initial(), [Todo(1, "Todo 1", false)], 0);
  }

  method Active() {
    var store := new Store();
    store.Add([Todo(1, "Todo 1", false)]);
    store.SetActive(Some(1));
    ActiveAfterSetActive();
    assert GetActive(store.Snapshot()) == Ok(Todo(1, "Todo 1", false));
  }
}
