/** Actions dispatched to the store, and the creators that build them.
    Each action type tag of the application is one constructor of `Action`. */
module Actions {

  /** A well-typed action record: the constructor is the `type` tag and its
      fields are the `payload`. `Other` stands for any action of a type the
      todos reducer does not handle (another reducer's, the store's own init action). */
  datatype Action =
    | AddTodo(id: int, content: string)
    | ToggleTodo(id: int)
    | SetFilter(filter: string)
    | GetUsersFetch
    | Other

  /** `toggleTodo(id)`: a TOGGLE_TODO action carrying exactly `id`. */
  function ToggleTodoAction(id: int): (a: Action)
    ensures a.ToggleTodo? && a.id == id
  {
    ToggleTodo(id)
  }

  /** `setFilter(filter)`: a SET_FILTER action carrying exactly `filter`. */
  function SetFilterAction(filter: string): (a: Action)
    ensures a.SetFilter? && a.filter == filter
  {
    SetFilter(filter)
  }

  /** `getUsersFetch()`: a GET_USERS_FETCH action, which has no payload. */
  function GetUsersFetchAction(): (a: Action)
    ensures a.GetUsersFetch?
  {
    GetUsersFetch
  }

  /** The module-level counter `nextTodoId` that `addTodo` pre-increments.
      `issued` records, in order, every id handed out so far. */
  class IdCounter {
    var nextTodoId: int
    ghost var issued: seq<int>

    /** The counter started at 0 and has been pre-incremented once per id
        issued, so the n-th id handed out (counting from 1) is n. */
    ghost predicate Valid()
      reads this
    {
      nextTodoId == |issued| &&
      forall i :: 0 <= i < |issued| ==> issued[i] == i + 1
    }

    constructor ()
      ensures Valid() && nextTodoId == 0 && issued == []
    {
      nextTodoId := 0;
      issued := [];
    }

    /** `addTodo(content)`: increments the counter, then returns an ADD_TODO
        action whose id is the new counter value. The id is larger than, hence
        different from, every id issued before. */
    method AddTodoAction(content: string) returns (a: Action)
      requires Valid()
      modifies this
      ensures Valid()
      ensures nextTodoId == old(nextTodoId) + 1
      ensures a == AddTodo(nextTodoId, content)
      ensures issued == old(issued) + [a.id]
      ensures forall j :: 0 <= j < |old(issued)| ==> old(issued)[j] < a.id
    {
      nextTodoId := nextTodoId + 1;
      issued := issued + [nextTodoId];
      a := AddTodo(nextTodoId, content);
    }
  }

  /** Ids issued by a valid counter are strictly increasing, hence pairwise distinct. */
  lemma IssuedIncreasing(c: IdCounter)
    requires c.Valid()
    ensures forall i, j :: 0 <= i < j < |c.issued| ==> c.issued[i] < c.issued[j]
  {
  }
}
