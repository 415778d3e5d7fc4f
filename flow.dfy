/** How the action creators and the todos reducer work together: feeding the
    counter's ADD_TODO actions into the reducer keeps the todo ids pairwise
    distinct, so a later TOGGLE_TODO flips exactly one entry. */
module TodoFlow {
  import opened Actions
  import opened Todos

  predicate DistinctIds(todos: seq<Todo>)
  {
    forall i, j :: 0 <= i < j < |todos| ==> todos[i].id != todos[j].id
  }

  /** Every id lies among the first n ids the counter hands out. */
  predicate IdsIssued(todos: seq<Todo>, n: int)
  {
    forall i :: 0 <= i < |todos| ==> 1 <= todos[i].id <= n
  }

  /** The invariant linking the counter value n and the reducer's state. */
  predicate Consistent(n: int, state: State)
  {
    0 <= n && DistinctIds(state.todos) && IdsIssued(state.todos, n)
  }

  /** A fresh counter and the initial state are consistent. */
  lemma InitialConsistent()
    ensures Consistent(0, InitialState())
  {
  }

  /** The invariant survives every dispatch, provided an ADD_TODO carries an id
      the counter issued after all ids in the state (n + 1 when each `addTodo`
      result is dispatched at once, larger when some results were discarded). */
  lemma StepPreservesConsistent(n: int, state: State, action: Action)
    requires Consistent(n, state)
    requires action.AddTodo? ==> action.id > n
    ensures Consistent(if action.AddTodo? then action.id else n, Reduce(state, action))
  {
  }

  /** With distinct ids, toggling the id of entry j flips entry j and no other. */
  lemma ToggleFlipsExactlyOne(state: State, j: int)
    requires DistinctIds(state.todos)
    requires 0 <= j < |state.todos|
    ensures var r := Reduce(state, ToggleTodo(state.todos[j].id));
      |r.todos| == |state.todos| &&
      r.todos[j] == state.todos[j].(completed := !state.todos[j].completed) &&
      forall i :: 0 <= i < |state.todos| && i != j ==> r.todos[i] == state.todos[i]
  {
  }

  /** `dispatch(addTodo(content))`: draws the next id and reduces with it; the
      new todo is appended and the invariant is kept. */
  method DispatchAddTodo(counter: IdCounter, state: State, content: string) returns (r: State)
    requires counter.Valid() && Consistent(counter.nextTodoId, state)
    modifies counter
    ensures counter.Valid() && counter.nextTodoId == old(counter.nextTodoId) + 1
    ensures r.todos == state.todos + [Todo(content, false, counter.nextTodoId)]
    ensures Consistent(counter.nextTodoId, r)
  {
    var a := counter.AddTodoAction(content);
    StepPreservesConsistent(counter.nextTodoId - 1, state, a);
    r := Reduce(state, a);
    assert r.todos == state.todos + [Todo(content, false, counter.nextTodoId)];
  }

  /** From a fresh counter, the first two todos get ids 1 and 2, and toggling
      the first one's id flips only the first. */
  method AddTwoThenToggleFirst(first: string, second: string) returns (r: State)
    ensures r.todos == [Todo(first, true, 1), Todo(second, false, 2)]
  {
    var counter := new IdCounter();
    InitialConsistent();
    var s := DispatchAddTodo(counter, InitialState(), first);
    s := DispatchAddTodo(counter, s, second);
    ToggleFlipsExactlyOne(s, 0);
    r := Reduce(s, ToggleTodoAction(1));
    assert r.todos[0] == Todo(first, true, 1);
  }
}
