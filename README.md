# Redux todo demo: the todos reducer and its action creators

This project models the state logic of a small Redux demo application: the
action creators of `src/redux/actions.ts` and the todos reducer of
`src/redux/reducer/todos.ts`.

- `actions.dfy` (module `Actions`): the action records as one closed datatype
  `Action` (constructors `AddTodo`, `ToggleTodo`, `SetFilter`, `GetUsersFetch`,
  and `Other` for any action type the todos reducer does not handle); the pure creators
  `toggleTodo`, `setFilter` and `getUsersFetch` as functions; and the
  module-level counter `nextTodoId` as the field of a class `IdCounter` whose
  method `AddTodoAction` pre-increments it and returns an ADD_TODO action. A
  ghost field `issued` records every id handed out; the class invariant says
  the n-th id is n.
- `todos.dfy` (module `Todos`): `Todo` and `State` records, the initial state,
  the toggle callback `Toggled`, the `.map` over the todos as the recursive
  `ToggleAll`, the reducer `Reduce`, and `TodosReducer`, whose state argument
  may be undefined and then defaults to the initial state. Lemmas state what
  TOGGLE_TODO does in general, when no id matches, and that it is an involution.
- `flow.dfy` (module `TodoFlow`): the invariant that connects the counter and
  the reducer (ids pairwise distinct, all among the ids issued so far), its
  preservation by every dispatch, and the consequence that a toggle of an
  existing id flips exactly one entry.

TOGGLE_TODO maps over all entries and toggles every match, not only the
first (`ToggleAll`, `ToggleFlipsMatches`). The toggled entry is unique only
under the `TodoFlow.Consistent` invariant (`ToggleFlipsExactlyOne`).

Since neither the creators nor the reducer can reach `IdCounter`, their
functions cannot touch the counter; only `AddTodoAction` modifies it.

## Model

| member | source | states |
|---|---|---|
| Actions.ToggleTodoAction | src/redux/actions.ts:20-27 | the result is a TOGGLE_TODO action whose payload id is exactly the argument |
| Actions.SetFilterAction | src/redux/actions.ts:29-36 | the result is a SET_FILTER action whose payload filter is exactly the argument |
| Actions.GetUsersFetchAction | src/redux/actions.ts:38-40 | the result is a GET_USERS_FETCH action, which has no payload |
| Actions.IdCounter.constructor | src/redux/actions.ts:9 | the counter starts at 0 with no id issued |
| Actions.IdCounter.AddTodoAction | src/redux/actions.ts:9-18 | the counter grows by one and the returned ADD_TODO action carries the new counter value as id and the content unchanged; that id is appended to the issued ids, is larger than every id issued before, and the n-th issued id is n |
| Actions.IssuedIncreasing | src/redux/actions.ts:9-18 | the ids a counter has issued are strictly increasing, hence pairwise distinct |
| Todos.InitialState | src/redux/reducer/todos.ts:3-5 | the initial state has no todos |
| Todos.Toggled | src/redux/reducer/todos.ts:26 | the callback never changes id or content, inverts completed exactly when the id matches, and returns the entry untouched otherwise |
| Todos.ToggleAll | src/redux/reducer/todos.ts:25-27 | mapping the callback keeps the number of todos |
| Todos.ToggleAllAt | src/redux/reducer/todos.ts:25-27 | the i-th entry of the mapped sequence is the callback applied to the i-th entry, so order is kept |
| Todos.Reduce | src/redux/reducer/todos.ts:7-34 | ADD_TODO yields one more todo, the old todos as an unchanged prefix and a last entry with the payload's content and id and completed false; TOGGLE_TODO keeps the length and applies the callback at every position; every other action returns the state unchanged |
| Todos.TodosReducer | src/redux/reducer/todos.ts:7 | given a state, the exported reducer behaves as `Reduce` on it; the undefined-state default is stated by `Todos.UndefinedStateStartsEmpty` |
| Todos.UndefinedStateStartsEmpty | src/redux/reducer/todos.ts:3-7 | called with no state, the reducer starts from the empty initial state: only the appended record for ADD_TODO, no todos for any other action |
| Todos.ToggleFlipsMatches | src/redux/reducer/todos.ts:23-29 | TOGGLE_TODO(k) keeps length, order, ids and contents, inverts completed on every entry with id k and leaves every entry with another id unchanged |
| Todos.ToggleAllAbsent | src/redux/reducer/todos.ts:25-27 | mapping the callback for an id no entry has returns an equal sequence (by induction on the sequence) |
| Todos.ToggleAllTwice | src/redux/reducer/todos.ts:25-27 | mapping the callback for the same id twice returns the original sequence (by induction on the sequence) |
| Todos.ToggleAbsentIsIdentity | src/redux/reducer/todos.ts:23-29 | TOGGLE_TODO(k) with no entry of id k returns an equal state |
| Todos.ToggleTwiceIsIdentity | src/redux/reducer/todos.ts:23-29 | dispatching TOGGLE_TODO(k) twice restores the original state |
| TodoFlow.InitialConsistent | src/redux/reducer/todos.ts:3-5 | a counter at 0 and the initial state satisfy the invariant (ids distinct and among those issued) |
| TodoFlow.StepPreservesConsistent | src/redux/reducer/todos.ts:8-33 | every dispatch keeps the ids pairwise distinct and among those issued, when an ADD_TODO carries an id larger than every id issued before it (the counter value then moves to that id); this covers creator results that were discarded and never dispatched |
| TodoFlow.ToggleFlipsExactlyOne | src/redux/reducer/todos.ts:25-27 | with pairwise distinct ids, toggling the id of entry j inverts completed on entry j and changes no other entry |
| TodoFlow.DispatchAddTodo | src/redux/actions.ts:10-17 | dispatching `addTodo(content)` advances the counter by one, appends a not completed todo with that content and the new id, and keeps the invariant |
| TodoFlow.AddTwoThenToggleFirst | src/redux/actions.ts:9-14 | from a fresh counter the first two todos get ids 1 and 2, and toggling id 1 completes the first and leaves the second |

## Left out

- Actions.IdCounter.AddTodoAction: ids are unbounded integers; JavaScript numbers lose integer precision above 2^53, which the model does not capture.
- `content` and `filter` are untyped in the source; the model fixes them to strings and ids to integers.
- Malformed actions (a missing `payload`, which makes the destructuring throw, or a missing `state.todos`, which makes the optional chaining yield undefined todos) are not modelled: only well-typed actions and states exist here.
- The store, the SET_FILTER reducer, the users fetch and its saga, and the action type constants are not part of this model; action tags are datatype constructors.
- Reference identity and copy-on-write: Dafny sequences are values, so "the previous state is not mutated" holds by construction and is not stated.
- The UI (`src/App.tsx`) and the hook-based form with its validation rules (`src/components/reactHookForm/index.tsx`) are not part of this model: they are UI composition and configuration of a form library whose behaviour is not shown.
