/**
  The in-memory task store (src/services/todo_service.py): an ordered list of
  records and the counter that hands out identifiers. Records are held as
  values, so they change only through the store's own operations.
 */
module Services {
  import opened Wrappers
  import opened PyText
  import opened Models

  /** The position of the first record carrying `id`, if there is one. */
  function FirstIndex(ts: seq<Todo>, id: int): (r: Option<nat>)
    ensures r.Some? ==> r.value < |ts| && ts[r.value].id == id
    ensures r.Some? ==> forall j :: 0 <= j < r.value ==> ts[j].id != id
    ensures r.None? <==> forall j :: 0 <= j < |ts| ==> ts[j].id != id
  {
    if ts == [] then None
    else if ts[0].id == id then Some(0)
    else match FirstIndex(ts[1..], id)
      case None => None
      case Some(k) => Some(k + 1)
  }

  /** Identifiers strictly increase along the list, so no two records share one. */
  predicate IdsIncreasing(ts: seq<Todo>)
  {
    forall i, j :: 0 <= i < j < |ts| ==> ts[i].id < ts[j].id
  }

  /** `a` is `b` with some elements left out and the rest kept in order. */
  predicate SubsequenceOf<T(==)>(a: seq<T>, b: seq<T>)
    decreases |b|
  {
    if a == [] then true
    else if b == [] then false
    else (a[0] == b[0] && SubsequenceOf(a[1..], b[1..])) || SubsequenceOf(a, b[1..])
  }

  /** The records whose flag equals `completed`, in list order. */
  function WithStatus(ts: seq<Todo>, completed: bool): (r: seq<Todo>)
    ensures forall t :: t in r <==> t in ts && t.completed == completed
    ensures SubsequenceOf(r, ts)
  {
    if ts == [] then []
    else if ts[0].completed == completed then [ts[0]] + WithStatus(ts[1..], completed)
    else WithStatus(ts[1..], completed)
  }

  lemma {:induction false} SubsequenceMembers<T>(a: seq<T>, b: seq<T>)
    requires SubsequenceOf(a, b)
    ensures forall x :: x in a ==> x in b
    decreases |b|
  {
    if a != [] {
      assert b != [];
      if a[0] == b[0] && SubsequenceOf(a[1..], b[1..]) {
        SubsequenceMembers(a[1..], b[1..]);
        assert a == [a[0]] + a[1..];
      } else {
        SubsequenceMembers(a, b[1..]);
      }
    }
  }

  /** Taking a subsequence keeps identifiers in increasing order. */
  lemma {:induction false} SubsequenceKeepsIncreasing(a: seq<Todo>, b: seq<Todo>)
    requires SubsequenceOf(a, b)
    ensures IdsIncreasing(b) ==> IdsIncreasing(a)
    decreases |b|
  {
    if a != [] && IdsIncreasing(b) {
      assert b != [];
      assert IdsIncreasing(b[1..]);
      if a[0] == b[0] && SubsequenceOf(a[1..], b[1..]) {
        SubsequenceKeepsIncreasing(a[1..], b[1..]);
        SubsequenceMembers(a[1..], b[1..]);
        forall j | 0 < j < |a|
          ensures a[0].id < a[j].id
        {
          assert a[j] in a[1..];
        }
      } else {
        SubsequenceKeepsIncreasing(a, b[1..]);
      }
    }
  }

  /** The records with each status split the list: together they hold every
      record exactly once, and no record is in both. */
  lemma {:induction false} StatusPartition(ts: seq<Todo>)
    ensures |WithStatus(ts, true)| + |WithStatus(ts, false)| == |ts|
    ensures multiset(WithStatus(ts, true)) + multiset(WithStatus(ts, false)) == multiset(ts)
    ensures forall t :: t in WithStatus(ts, true) ==> t !in WithStatus(ts, false)
  {
    if ts != [] {
      StatusPartition(ts[1..]);
      assert ts == [ts[0]] + ts[1..];
    }
  }

  /** With increasing identifiers the first record carrying an identifier is the only one. */
  lemma FirstIndexUnique(ts: seq<Todo>, k: nat)
    requires IdsIncreasing(ts) && k < |ts|
    ensures FirstIndex(ts, ts[k].id) == Some(k)
  {
    var r := FirstIndex(ts, ts[k].id);
    assert r.Some?;
  }

  /** Removing one record keeps the identifiers of the others increasing. */
  lemma RemoveKeepsIncreasing(ts: seq<Todo>, k: nat)
    requires k < |ts| && IdsIncreasing(ts)
    ensures IdsIncreasing(ts[..k] + ts[k + 1..])
    ensures forall t :: t in ts[..k] + ts[k + 1..] ==> t.id != ts[k].id
  {
    var rest := ts[..k] + ts[k + 1..];
    forall i | 0 <= i < |rest|
      ensures rest[i] == ts[if i < k then i else i + 1]
    {
    }
  }

  /** Appending a record whose identifier exceeds every held one keeps identifiers increasing. */
  lemma AppendKeepsIncreasing(ts: seq<Todo>, t: Todo)
    requires IdsIncreasing(ts)
    requires forall i :: 0 <= i < |ts| ==> ts[i].id < t.id
    ensures IdsIncreasing(ts + [t])
  {
  }

  /** What the store keeps true of its list and counter: every record is
      valid, identifiers increase along the list and all lie below the counter,
      which is at least 1. */
  predicate StoreInvariant(ts: seq<Todo>, nextId: int)
  {
    nextId >= 1 &&
    (forall i :: 0 <= i < |ts| ==> ts[i].Valid() && ts[i].id < nextId) &&
    IdsIncreasing(ts)
  }

  /** Appending a valid record that carries the counter, and advancing the
      counter, keeps the store invariant; the new identifier exceeds every held one. */
  lemma InvariantAfterAppend(ts: seq<Todo>, nextId: int, t: Todo)
    requires StoreInvariant(ts, nextId) && t.Valid() && t.id == nextId
    ensures StoreInvariant(ts + [t], nextId + 1)
    ensures forall u :: u in ts ==> u.id < t.id
  {
    AppendKeepsIncreasing(ts, t);
    var ts' := ts + [t];
    forall i | 0 <= i < |ts'|
      ensures ts'[i].Valid() && ts'[i].id < nextId + 1
    {
      if i < |ts| {
        assert ts'[i] == ts[i];
      }
    }
  }

  /** Replacing a record by a valid one with the same identifier keeps the store invariant. */
  lemma InvariantAfterReplace(ts: seq<Todo>, nextId: int, k: nat, t: Todo)
    requires StoreInvariant(ts, nextId) && k < |ts| && t.Valid() && t.id == ts[k].id
    ensures StoreInvariant(ts[k := t], nextId)
  {
  }

  /** Removing a record keeps the store invariant, and no remaining record
      carries the removed identifier. */
  lemma InvariantAfterRemove(ts: seq<Todo>, nextId: int, k: nat)
    requires StoreInvariant(ts, nextId) && k < |ts|
    ensures StoreInvariant(ts[..k] + ts[k + 1..], nextId)
    ensures forall t :: t in ts[..k] + ts[k + 1..] ==> t.id != ts[k].id
  {
    RemoveKeepsIncreasing(ts, k);
    var rest := ts[..k] + ts[k + 1..];
    forall i | 0 <= i < |rest|
      ensures rest[i].Valid() && rest[i].id < nextId
    {
      assert rest[i] == ts[if i < k then i else i + 1];
    }
  }

  class TodoService {
    /** The records, in the order they were created. */
    var todos: seq<Todo>
    /** The identifier the next created record receives. */
    var nextId: int

    /** Every held record is valid, identifiers increase along the list and all
        lie below `nextId`, which is at least 1. */
    ghost predicate Valid()
      reads this
    {
      StoreInvariant(todos, nextId)
    }

    /** A fresh store: no records, and the first identifier is 1. */
    constructor ()
      ensures Valid()
      ensures todos == [] && nextId == 1
    {
      todos := [];
      nextId := 1;
    }

    /** Adds a record with the stripped description and the current counter as
        its identifier, then advances the counter. A rejected description is an
        error and changes nothing. */
    method CreateTodo(description: string) returns (r: Result<Todo, TodoError>)
      requires Valid()
      modifies this
      ensures Valid()
      ensures r.Ok? <==> DescriptionAccepted(description)
      ensures r.Err? ==> r.error == InvalidDescription && todos == old(todos) && nextId == old(nextId)
      ensures r.Ok? ==> r.value == Todo(old(nextId), Strip(description), false)
      ensures r.Ok? ==> todos == old(todos) + [r.value] && nextId == old(nextId) + 1
      ensures r.Ok? ==> forall t :: t in old(todos) ==> t.id < r.value.id
    {
      if !DescriptionAccepted(description) {
        return Err(InvalidDescription);
      }
      StrippedDescriptionBuilds(nextId, description);
      var made := NewTodo(nextId, Strip(description));
      var todo := made.value;
      InvariantAfterAppend(todos, nextId, todo);
      todos := todos + [todo];
      nextId := nextId + 1;
      r := Ok(todo);
    }

    /** A copy of the list of records. */
    function GetAllTodos(): (r: seq<Todo>)
      reads this
      ensures r == todos
      ensures Valid() ==> IdsIncreasing(r) && forall t :: t in r ==> t.Valid()
    {
      todos
    }

    /** The scan behind lookups: the position of the first record with `id`. */
    method FindIndex(id: int) returns (k: Option<nat>)
      ensures k == FirstIndex(todos, id)
    {
      var i := 0;
      while i < |todos|
        invariant 0 <= i <= |todos|
        invariant forall j :: 0 <= j < i ==> todos[j].id != id
      {
        if todos[i].id == id {
          return Some(i);
        }
        i := i + 1;
      }
      return None;
    }

    /** The first record with `id`, or `None` when no record has it (any
        integer may be asked for, including zero and negatives). */
    method GetTodoById(id: int) returns (r: Option<Todo>)
      ensures r.None? <==> forall t :: t in todos ==> t.id != id
      ensures r.Some? ==> r.value.id == id && r.value in todos
      ensures r.Some? ==> r == Some(todos[FirstIndex(todos, id).value])
    {
      var k := FindIndex(id);
      if k.Some? {
        r := Some(todos[k.value]);
      } else {
        r := None;
      }
    }

    /** Replaces the description of the record with `id` by the stripped text.
        The text is checked before the record is looked up. */
    method UpdateTodo(id: int, description: string) returns (r: Result<Option<Todo>, TodoError>)
      requires Valid()
      modifies this
      ensures Valid() && nextId == old(nextId)
      ensures r.Err? <==> !DescriptionAccepted(description)
      ensures r.Err? ==> r.error == InvalidDescription && todos == old(todos)
      ensures r.Ok? && FirstIndex(old(todos), id).None? ==> r.value == None && todos == old(todos)
      ensures r.Ok? && FirstIndex(old(todos), id).Some? ==>
        var k := FirstIndex(old(todos), id).value;
        todos == old(todos)[k := old(todos)[k].(description := Strip(description))] &&
        r.value == Some(todos[k])
    {
      if !DescriptionAccepted(description) {
        return Err(InvalidDescription);
      }
      var k := FindIndex(id);
      if k.Some? {
        var i := k.value;
        InvariantAfterReplace(todos, nextId, i, todos[i].(description := Strip(description)));
        todos := todos[i := todos[i].(description := Strip(description))];
        r := Ok(Some(todos[i]));
      } else {
        r := Ok(None);
      }
    }

    /** Sets the flag of the record with `id`; false, and no change, when there is none. */
    method SetCompleted(id: int, completed: bool) returns (found: bool)
      requires Valid()
      modifies this
      ensures Valid() && nextId == old(nextId)
      ensures found <==> FirstIndex(old(todos), id).Some?
      ensures !found ==> todos == old(todos)
      ensures found ==>
        var k := FirstIndex(old(todos), id).value;
        todos == old(todos)[k := old(todos)[k].(completed := completed)]
    {
      var k := FindIndex(id);
      if k.Some? {
        var i := k.value;
        InvariantAfterReplace(todos, nextId, i, todos[i].(completed := completed));
        todos := todos[i := todos[i].(completed := completed)];
        found := true;
      } else {
        found := false;
      }
    }

    method MarkComplete(id: int) returns (found: bool)
      requires Valid()
      modifies this
      ensures Valid() && nextId == old(nextId)
      ensures found <==> FirstIndex(old(todos), id).Some?
      ensures !found ==> todos == old(todos)
      ensures found ==>
        var k := FirstIndex(old(todos), id).value;
        todos == old(todos)[k := old(todos)[k].(completed := true)]
    {
      found := SetCompleted(id, true);
    }

    method MarkIncomplete(id: int) returns (found: bool)
      requires Valid()
      modifies this
      ensures Valid() && nextId == old(nextId)
      ensures found <==> FirstIndex(old(todos), id).Some?
      ensures !found ==> todos == old(todos)
      ensures found ==>
        var k := FirstIndex(old(todos), id).value;
        todos == old(todos)[k := old(todos)[k].(completed := false)]
    {
      found := SetCompleted(id, false);
    }

    /** Removes the first record with `id`, keeping the others in order. The
        counter is untouched, so the removed identifier is never handed out again. */
    method DeleteTodo(id: int) returns (found: bool)
      requires Valid()
      modifies this
      ensures Valid() && nextId == old(nextId)
      ensures found <==> FirstIndex(old(todos), id).Some?
      ensures !found ==> todos == old(todos)
      ensures found ==>
        var k := FirstIndex(old(todos), id).value;
        todos == old(todos)[..k] + old(todos)[k + 1..]
      ensures found ==> id < nextId
      ensures forall t :: t in todos ==> t.id != id
    {
      var i := 0;
      while i < |todos|
        invariant 0 <= i <= |todos|
        invariant todos == old(todos) && nextId == old(nextId)
        invariant forall j :: 0 <= j < i ==> todos[j].id != id
      {
        if todos[i].id == id {
          InvariantAfterRemove(todos, nextId, i);
          todos := todos[..i] + todos[i + 1..];
          return true;
        }
        i := i + 1;
      }
      return false;
    }

    /** The records with the given flag, in list order. */
    function GetTodosByStatus(completed: bool): (r: seq<Todo>)
      reads this
      ensures forall t :: t in r <==> t in todos && t.completed == completed
      ensures SubsequenceOf(r, todos)
      ensures Valid() ==> IdsIncreasing(r)
    {
      var r := WithStatus(todos, completed);
      SubsequenceKeepsIncreasing(r, todos);
      r
    }
  }
}
