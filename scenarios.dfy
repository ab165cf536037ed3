/**
  Callers of the store and the record: the behaviour the unit tests and the
  demonstration script check, derived statically. The store is used only
  through its methods' contracts; the record checks also use the definitions
  of `Strip`, `NewTodo` and `Render`.
 */
module Scenarios {
  import opened Wrappers
  import opened PyText
  import opened Models
  import opened Services

  /** The id is checked before the description, and blank text is refused. */
  lemma ConstructorRejections()
    ensures NewTodo(-1, "Test description") == Err(InvalidId)
    ensures NewTodo(0, "   ") == Err(InvalidId)
    ensures NewTodo(1, "   ") == Err(InvalidDescription)
    ensures NewTodo(1, "") == Err(InvalidDescription)
  {
    assert AllWhitespace("   ");
  }

  /** Exactly 500 characters are accepted and 501 are refused. */
  lemma DescriptionLengthBoundary()
    ensures NewTodo(1, seq(500, _ => 'a')) == Ok(Todo(1, seq(500, _ => 'a'), false))
    ensures NewTodo(1, seq(501, _ => 'a')) == Err(InvalidDescription)
  {
    StripStripped(seq(500, _ => 'a'));
    StripStripped(seq(501, _ => 'a'));
  }

  /** Surrounding whitespace is dropped from the stored description. */
  lemma ConstructorStrips(inner: string)
    requires IsStoredDescription(inner)
    ensures NewTodo(1, "  " + inner + "  ") == Ok(Todo(1, inner, false))
  {
    StripSurrounded("  ", inner, "  ");
  }

  /** The rendering of record 1 in either state. */
  lemma RenderExamples(d: string)
    ensures Render(Todo(1, d, false)) == "[1] " + d + " - Incomplete"
    ensures Render(Todo(1, d, true)) == "[1] " + d + " - Complete"
  {
    assert IntToString(1) == "1";
    assert "[" + "1" + "] " == "[1] ";
    assert " - " + "Incomplete" == " - Incomplete";
    assert " - " + "Complete" == " - Complete";
  }

  /** A fresh store after two successful creations. */
  method StoreWithTwo(d1: string, d2: string) returns (store: TodoService)
    requires IsStoredDescription(d1) && IsStoredDescription(d2)
    ensures fresh(store) && store.Valid()
    ensures store.todos == [Todo(1, d1, false)] + [Todo(2, d2, false)] && store.nextId == 3
  {
    StripStripped(d1);
    StripStripped(d2);
    store := new TodoService();
    var first := store.CreateTodo(d1);
    assert first == Ok(Todo(1, d1, false));
    assert store.todos == [Todo(1, d1, false)];
    var second := store.CreateTodo(d2);
    assert second == Ok(Todo(2, d2, false));
  }

  /** A fresh store after one successful creation. */
  method StoreWithOne(d: string) returns (store: TodoService)
    requires IsStoredDescription(d)
    ensures fresh(store) && store.Valid()
    ensures store.todos == [Todo(1, d, false)] && store.nextId == 2
  {
    StripStripped(d);
    store := new TodoService();
    var first := store.CreateTodo(d);
  }

  /** A fresh store after three successful creations. */
  method StoreWithThree(d1: string, d2: string, d3: string) returns (store: TodoService)
    requires IsStoredDescription(d1) && IsStoredDescription(d2) && IsStoredDescription(d3)
    ensures fresh(store) && store.Valid() && store.nextId == 4 && |store.todos| == 3
    ensures store.todos[0] == Todo(1, d1, false) && store.todos[1] == Todo(2, d2, false)
    ensures store.todos[2] == Todo(3, d3, false)
  {
    store := StoreWithTwo(d1, d2);
    StripStripped(d3);
    var third := store.CreateTodo(d3);
  }

  /** The first half of the session below: reword the second record, then
      complete the first. */
  method RewordThenComplete(store: TodoService, groceries: string, dog: string, project: string, cat: string)
    requires store.Valid() && |store.todos| == 3 && IsStoredDescription(cat)
    requires store.todos[0] == Todo(1, groceries, false) && store.todos[1] == Todo(2, dog, false)
    requires store.todos[2] == Todo(3, project, false)
    modifies store
    ensures store.Valid() && |store.todos| == 3
    ensures store.todos[0] == Todo(1, groceries, true) && store.todos[1] == Todo(2, cat, false)
    ensures store.todos[2] == Todo(3, project, false)
  {
    StripStripped(cat);
    FirstIndexUnique(store.todos, 1);
    var updated := store.UpdateTodo(2, cat);
    assert |store.todos| == 3 && store.todos[1] == Todo(2, cat, false);
    FirstIndexUnique(store.todos, 0);
    var done := store.MarkComplete(1);
  }

  /** Three records; the second is reworded, the first completed, the third
      marked incomplete and the second deleted: the first and third remain,
      in order. */
  method EndToEnd(groceries: string, dog: string, project: string, cat: string) returns (all: seq<Todo>)
    requires IsStoredDescription(groceries) && IsStoredDescription(dog)
    requires IsStoredDescription(project) && IsStoredDescription(cat)
    ensures |all| == 2 && all[0] == Todo(1, groceries, true) && all[1] == Todo(3, project, false)
  {
    var store := StoreWithThree(groceries, dog, project);
    RewordThenComplete(store, groceries, dog, project, cat);

    FirstIndexUnique(store.todos, 2);
    var undone := store.MarkIncomplete(3);
    assert |store.todos| == 3 && store.todos[2] == Todo(3, project, false);
    assert store.todos[0] == Todo(1, groceries, true) && store.todos[1].id == 2;

    FirstIndexUnique(store.todos, 1);
    var deleted := store.DeleteTodo(2);
    all := store.GetAllTodos();
  }

  /** Looking up an absent id, positive or negative, gives `None`. */
  method LookupMisses(d: string) returns (five: Option<Todo>, negative: Option<Todo>)
    requires IsStoredDescription(d)
    ensures five == None && negative == None
  {
    var store := StoreWithOne(d);
    five := store.GetTodoById(5);
    negative := store.GetTodoById(-1);
  }

  /** Updating an absent id with acceptable text gives `None` and changes nothing. */
  method UpdateMiss(d: string, text: string) returns (result: Result<Option<Todo>, TodoError>, all: seq<Todo>)
    requires IsStoredDescription(d) && DescriptionAccepted(text)
    ensures result == Ok(None) && all == [Todo(1, d, false)]
  {
    var store := StoreWithOne(d);
    result := store.UpdateTodo(5, text);
    all := store.GetAllTodos();
  }

  /** Marking an absent id complete reports false. */
  method MarkCompleteMiss(d: string) returns (result: bool, all: seq<Todo>)
    requires IsStoredDescription(d)
    ensures !result && all == [Todo(1, d, false)]
  {
    var store := StoreWithOne(d);
    result := store.MarkComplete(5);
    all := store.GetAllTodos();
  }

  /** Marking an absent id incomplete reports false. */
  method MarkIncompleteMiss(d: string) returns (result: bool, all: seq<Todo>)
    requires IsStoredDescription(d)
    ensures !result && all == [Todo(1, d, false)]
  {
    var store := StoreWithOne(d);
    result := store.MarkIncomplete(5);
    all := store.GetAllTodos();
  }

  /** Deleting an absent id reports false and keeps the one record. */
  method DeleteMiss(d: string) returns (result: bool, all: seq<Todo>)
    requires IsStoredDescription(d)
    ensures !result && all == [Todo(1, d, false)]
  {
    var store := StoreWithOne(d);
    result := store.DeleteTodo(5);
    all := store.GetAllTodos();
  }

  /** Deleting the first of two records leaves the second, now at the front. */
  method DeleteFirstOfTwo(d1: string, d2: string) returns (result: bool, all: seq<Todo>)
    requires IsStoredDescription(d1) && IsStoredDescription(d2)
    ensures result && |all| == 1 && all[0].id == 2
  {
    var store := StoreWithTwo(d1, d2);
    FirstIndexUnique(store.todos, 0);
    result := store.DeleteTodo(1);
    all := store.GetAllTodos();
  }

  /** Rejected text changes nothing, whether or not the target exists. */
  method RejectedText(kept: string, blank: string) returns (bad: Result<Todo, TodoError>, present: Result<Option<Todo>, TodoError>, absent: Result<Option<Todo>, TodoError>, all: seq<Todo>)
    requires IsStoredDescription(kept) && AllWhitespace(blank)
    ensures bad == Err(InvalidDescription) && present == Err(InvalidDescription) && absent == Err(InvalidDescription)
    ensures all == [Todo(1, kept, false)]
  {
    StripStripped(kept);
    var store := new TodoService();
    var made := store.CreateTodo(kept);
    assert store.todos == [Todo(1, kept, false)] && store.nextId == 2;
    bad := store.CreateTodo(blank);
    present := store.UpdateTodo(1, blank);
    absent := store.UpdateTodo(7, blank);
    all := store.GetAllTodos();
  }

  /** A deleted identifier is not handed out again. */
  method NoReuseAfterDelete(d1: string, d2: string, d3: string) returns (found: Option<Todo>, third: Result<Todo, TodoError>)
    requires IsStoredDescription(d1) && IsStoredDescription(d2) && IsStoredDescription(d3)
    ensures found == None && third == Ok(Todo(3, d3, false))
  {
    var store := StoreWithTwo(d1, d2);
    FirstIndexUnique(store.todos, 1);
    var deleted := store.DeleteTodo(2);
    assert deleted;
    found := store.GetTodoById(2);
    StripStripped(d3);
    third := store.CreateTodo(d3);
  }

  /** Completing and then un-completing a record restores its flag, and the
      completed list holds the completed record only. */
  method StatusRoundTrip(d1: string, d2: string) returns (complete: seq<Todo>, restored: Todo)
    requires IsStoredDescription(d1) && IsStoredDescription(d2)
    ensures Todo(2, d2, true) in complete && Todo(1, d1, false) !in complete
    ensures restored == Todo(2, d2, false)
  {
    var store := StoreWithTwo(d1, d2);
    FirstIndexUnique(store.todos, 1);
    var marked := store.MarkComplete(2);
    assert marked && store.todos[1] == Todo(2, d2, true);
    complete := store.GetTodosByStatus(true);
    FirstIndexUnique(store.todos, 1);
    var unmarked := store.MarkIncomplete(2);
    assert unmarked;
    restored := store.todos[1];
  }
}
