/** The todos reducer: a pure function from the current state and an action
    to the next state. */
module Todos {
  import opened Actions

  /** One todo record, with the fields in the order the reducer builds them. */
  datatype Todo = Todo(content: string, completed: bool, id: int)

  /** The reducer's slice of the store. */
  datatype State = State(todos: seq<Todo>)

  /** A state that may be undefined, as it is on the store's first call. */
  datatype Option<T> = None | Some(value: T)

  /** `initialState`: no todos. */
  function InitialState(): (s: State)
    ensures |s.todos| == 0
  {
    State([])
  }

  /** The callback TOGGLE_TODO maps over the todos: a copy with `completed`
      inverted if the id matches, the record itself otherwise. */
  function Toggled(t: Todo, id: int): (r: Todo)
    ensures r.id == t.id && r.content == t.content
    ensures r.completed == (if t.id == id then !t.completed else t.completed)
    ensures t.id != id ==> r == t
  {
    if t.id == id then t.(completed := !t.completed) else t
  }

  /** `todos.map(Toggled)`: every entry whose id matches is toggled, not just the first. */
  function ToggleAll(todos: seq<Todo>, id: int): (r: seq<Todo>)
    ensures |r| == |todos|
  {
    if todos == [] then [] else [Toggled(todos[0], id)] + ToggleAll(todos[1..], id)
  }

  /** ToggleAll keeps the order: its i-th entry is the callback applied to the i-th entry. */
  lemma {:induction false} ToggleAllAt(todos: seq<Todo>, id: int, i: int)
    requires 0 <= i < |todos|
    ensures ToggleAll(todos, id)[i] == Toggled(todos[i], id)
  {
    if i > 0 {
      ToggleAllAt(todos[1..], id, i - 1);
    }
  }

  lemma ToggleAllPointwise(todos: seq<Todo>, id: int)
    ensures |ToggleAll(todos, id)| == |todos|
    ensures forall i :: 0 <= i < |todos| ==> ToggleAll(todos, id)[i] == Toggled(todos[i], id)
  {
    forall i | 0 <= i < |todos|
      ensures ToggleAll(todos, id)[i] == Toggled(todos[i], id)
    {
      ToggleAllAt(todos, id, i);
    }
  }

  /** The reducer. ADD_TODO appends a new, not completed record built from the
      payload and keeps the old todos as a prefix; TOGGLE_TODO applies the map
      callback to every entry in place; every other action leaves the state as it is. */
  function Reduce(state: State, action: Action): (r: State)
    ensures action.AddTodo? ==>
      |r.todos| == |state.todos| + 1 &&
      r.todos[..|state.todos|] == state.todos &&
      r.todos[|state.todos|] == Todo(action.content, false, action.id)
    ensures action.ToggleTodo? ==>
      |r.todos| == |state.todos| &&
      forall i :: 0 <= i < |state.todos| ==> r.todos[i] == Toggled(state.todos[i], action.id)
    ensures !action.AddTodo? && !action.ToggleTodo? ==> r == state
  {
    match action
    case AddTodo(id, content) =>
      State(state.todos + [Todo(content, false, id)])
    case ToggleTodo(id) =>
      ToggleAllPointwise(state.todos, id);
      State(ToggleAll(state.todos, id))
    case _ =>
      state
  }

  /** The exported reducer, whose state parameter defaults to the initial state. */
  function TodosReducer(state: Option<State>, action: Action): (r: State)
    ensures state.Some? ==> r == Reduce(state.value, action)
  {
    Reduce(if state.Some? then state.value else InitialState(), action)
  }

  /** Called without a state, the reducer starts from no todos: the result holds
      only the record an ADD_TODO appends, and nothing for any other action. */
  lemma UndefinedStateStartsEmpty(action: Action)
    ensures TodosReducer(None, action).todos ==
      if action.AddTodo? then [Todo(action.content, false, action.id)] else []
  {
  }

  /** TOGGLE_TODO(k) inverts `completed` on each entry with id k, leaves every
      other entry unchanged, and never changes length, order, ids or contents. */
  lemma ToggleFlipsMatches(state: State, k: int)
    ensures var r := Reduce(state, ToggleTodo(k));
      |r.todos| == |state.todos| &&
      forall i :: 0 <= i < |state.todos| ==>
        r.todos[i].id == state.todos[i].id &&
        r.todos[i].content == state.todos[i].content &&
        (state.todos[i].id == k ==> r.todos[i].completed == !state.todos[i].completed) &&
        (state.todos[i].id != k ==> r.todos[i] == state.todos[i])
  {
  }

  lemma {:induction false} ToggleAllAbsent(todos: seq<Todo>, k: int)
    requires forall i :: 0 <= i < |todos| ==> todos[i].id != k
    ensures ToggleAll(todos, k) == todos
  {
    if todos != [] {
      ToggleAllAbsent(todos[1..], k);
    }
  }

  /** TOGGLE_TODO(k) with no entry of id k yields an equal state. */
  lemma ToggleAbsentIsIdentity(state: State, k: int)
    requires forall i :: 0 <= i < |state.todos| ==> state.todos[i].id != k
    ensures Reduce(state, ToggleTodo(k)) == state
  {
    ToggleAllAbsent(state.todos, k);
  }

  lemma {:induction false} ToggleAllTwice(todos: seq<Todo>, k: int)
    ensures ToggleAll(ToggleAll(todos, k), k) == todos
  {
    if todos != [] {
      ToggleAllTwice(todos[1..], k);
      assert ToggleAll(todos, k)[1..] == ToggleAll(todos[1..], k);
    }
  }

  /** TOGGLE_TODO(k) is an involution: dispatching it twice restores the state. */
  lemma ToggleTwiceIsIdentity(state: State, k: int)
    ensures Reduce(Reduce(state, ToggleTodo(k)), ToggleTodo(k)) == state
  {
    ToggleAllTwice(state.todos, k);
  }
}
