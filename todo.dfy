/**
  The task record of the todo application (src/models/todo.py): an identifier,
  a description and a completion flag. Construction validates its arguments in
  a fixed order and stores the stripped description; the record renders as
  `[id] description - Complete` or `[id] description - Incomplete`.
 */
module Models {
  import opened Wrappers
  import opened PyText

  /** The longest description, in code points, after stripping. */
  const MaxDescriptionLength := 500

  /** Why a record could not be built: the two `ValueError` messages a caller can provoke. */
  datatype TodoError = InvalidId | InvalidDescription

  datatype Todo = Todo(id: int, description: string, completed: bool)
  {
    /** What every constructed record satisfies. */
    predicate Valid()
    {
      id >= 1 && IsStoredDescription(description)
    }
  }

  /** A description as it is held: already stripped, 1 to 500 code points. */
  predicate IsStoredDescription(d: string)
  {
    1 <= |d| <= MaxDescriptionLength && IsStripped(d)
  }

  /** The description check shared by the record constructor and the service:
      the stripped text is non-empty and at most 500 code points long. */
  predicate DescriptionAccepted(description: string): (ok: bool)
    ensures ok <==> !AllWhitespace(description) && |Strip(description)| <= MaxDescriptionLength
    ensures ok <==> IsStoredDescription(Strip(description))
  {
    1 <= |Strip(description)| <= MaxDescriptionLength
  }

  /** The record constructor. It checks the id first and the description second,
      so an invalid id is the error reported whenever it is present. */
  function NewTodo(id: int, description: string, completed: bool := false): (r: Result<Todo, TodoError>)
    ensures id <= 0 ==> r == Err(InvalidId)
    ensures id > 0 && !DescriptionAccepted(description) ==> r == Err(InvalidDescription)
    ensures r.Ok? <==> id > 0 && DescriptionAccepted(description)
    ensures r.Ok? ==> r.value.Valid()
    ensures r.Ok? ==> r.value.id == id && r.value.description == Strip(description) && r.value.completed == completed
  {
    if id <= 0 then Err(InvalidId)
    else if !DescriptionAccepted(description) then Err(InvalidDescription)
    else Ok(Todo(id, Strip(description), completed))
  }

  /** A stored description passes the constructor's check again unchanged, so
      rebuilding a valid record from its own fields gives the same record. */
  lemma StoredDescriptionAccepted(t: Todo)
    requires t.Valid()
    ensures NewTodo(t.id, t.description, t.completed) == Ok(t)
  {
    StripStripped(t.description);
  }

  /** Text that passed the description check builds a record once stripped:
      the store's pre-check and the constructor's check agree. */
  lemma StrippedDescriptionBuilds(id: int, description: string)
    requires id >= 1 && DescriptionAccepted(description)
    ensures NewTodo(id, Strip(description)) == Ok(Todo(id, Strip(description), false))
  {
    StripIdempotent(description);
  }

  /** The status word of a rendering. */
  function StatusText(completed: bool): (r: string)
    ensures completed <==> r == "Complete"
    ensures !completed <==> r == "Incomplete"
  {
    if completed then "Complete" else "Incomplete"
  }

  /** The human-readable rendering of a record. Reading it back with
      `ParseRender` recovers the record, so no two records render alike. */
  function Render(t: Todo): (r: string)
    ensures ParseRender(r) == Some(t)
  {
    RenderParses(t.id, t.description, t.completed);
    "[" + IntToString(t.id) + "] " + t.description + " - " + StatusText(t.completed)
  }

  /** Reads a rendering back: `[`, an integer, `] `, then the description and status. */
  function ParseRender(s: string): Option<Todo>
  {
    if s == [] || s[0] != '[' then None
    else match IndexOf(s, ']')
      case None => None
      case Some(k) =>
        if k + 1 >= |s| || s[k + 1] != ' ' then None
        else match (ParseInt(s[1..k]), ParseStatus(s[k + 2..]))
          case (Some(id), Some((d, completed))) => Some(Todo(id, d, completed))
          case _ => None
  }

  /** Splits `description - Complete` or `description - Incomplete` at its status suffix. */
  function ParseStatus(rest: string): Option<(string, bool)>
  {
    if EndsWith(rest, " - Complete") then Some((rest[..|rest| - 11], true))
    else if EndsWith(rest, " - Incomplete") then Some((rest[..|rest| - 13], false))
    else None
  }

  lemma ParseStatusText(d: string, completed: bool)
    ensures ParseStatus(d + " - " + StatusText(completed)) == Some((d, completed))
  {
    var suffix := if completed then " - Complete" else " - Incomplete";
    assert d + " - " + StatusText(completed) == d + suffix;
    SuffixSplit(d, suffix);
    if !completed {
      var rest := d + suffix;
      assert rest[|rest| - 11..][1] == 'I';
      assert !EndsWith(rest, " - Complete");
    }
  }

  lemma SuffixSplit(d: string, suffix: string)
    ensures EndsWith(d + suffix, suffix) && (d + suffix)[..|d|] == d
  {
    assert (d + suffix)[|d|..] == suffix;
  }

  /** In `[` + the text of an integer + a tail starting with `]`, the first `]` is the tail's. */
  lemma IndexAfterNumber(digits: string, tail: string)
    requires digits != [] && (digits[0] == '-' || IsDigit(digits[0])) && AllDigits(digits[1..])
    requires tail != [] && tail[0] == ']'
    ensures IndexOf("[" + digits + tail, ']') == Some(|digits| + 1)
  {
    var s := "[" + digits + tail;
    var k := |digits| + 1;
    assert s[k] == tail[0];
    forall j | 1 <= j < k
      ensures s[j] != ']'
    {
      var c := digits[j - 1];
      assert s[j] == c;
      assert c == '-' || IsDigit(c) by {
        if j > 1 {
          assert c == digits[1..][j - 2];
        }
      }
    }
    assert s[0] == '[';
    var r := IndexOf(s, ']');
    assert r.Some? && r.value == k;
  }

  lemma RenderParses(id: int, d: string, completed: bool)
    ensures ParseRender("[" + IntToString(id) + "] " + d + " - " + StatusText(completed)) == Some(Todo(id, d, completed))
  {
    ParseIntToString(id);
    ParseStatusText(d, completed);
    BracketedParses(IntToString(id), d + " - " + StatusText(completed), id, d, completed);
    Regroup("[", IntToString(id), "] ", d, " - ", StatusText(completed));
  }

  /** `[`, the text of an integer, `] ` and a status-suffixed description read back as a record. */
  lemma BracketedParses(digits: string, rest: string, id: int, d: string, completed: bool)
    requires digits != [] && (digits[0] == '-' || IsDigit(digits[0])) && AllDigits(digits[1..])
    requires ParseInt(digits) == Some(id)
    requires ParseStatus(rest) == Some((d, completed))
    ensures ParseRender("[" + digits + ("] " + rest)) == Some(Todo(id, d, completed))
  {
    var s := "[" + digits + ("] " + rest);
    var k := |digits| + 1;
    IndexAfterNumber(digits, "] " + rest);
    assert s[k + 1] == ' ';
    assert s[1..k] == digits;
    assert s[k + 2..] == rest;
    ParseRenderSplit(s, k, id, d, completed);
  }

  lemma Regroup(a: string, b: string, c: string, d: string, e: string, f: string)
    ensures a + b + c + d + e + f == a + b + (c + (d + e + f))
  {
  }

  lemma ParseRenderSplit(s: string, k: nat, id: int, d: string, completed: bool)
    requires k + 1 < |s| && s[0] == '[' && s[k + 1] == ' '
    requires IndexOf(s, ']') == Some(k)
    requires ParseInt(s[1..k]) == Some(id)
    requires ParseStatus(s[k + 2..]) == Some((d, completed))
    ensures ParseRender(s) == Some(Todo(id, d, completed))
  {
  }

  /** Distinct records never render to the same text. */
  lemma RenderInjective(a: Todo, b: Todo)
    requires Render(a) == Render(b)
    ensures a == b
  {
  }
}
