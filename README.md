# Todo store: a Dafny model

This project models the core of a small command-line todo application.

- **The task record** (`Todo`, src/models/todo.py) holds an identifier, a description and a completion flag.
  - Its constructor checks its arguments in a fixed order: the id must be positive, then the stripped description must be 1 to 500 characters long.
  - It stores the stripped description.
  - It renders as `[id] description - Complete` or `[id] description - Incomplete`.
- **The in-memory store** (`TodoService`, src/services/todo_service.py) keeps an ordered list of records and a counter, `next_id`, that starts at 1.
  - Creating a record validates the text, appends a record carrying the counter, and then advances the counter.
  - Lookup is a linear scan that returns the first match or `None`.
  - Update checks the text before it looks the record up, then overwrites the description.
  - Marking complete or incomplete sets the flag of the first match.
  - Delete removes the first match.
  - Listing by status is an order-preserving filter.

The files:

- `wrappers.dfy` (module `Wrappers`): `Option` stands for Python's `None` returns, `Result` for raised `ValueError`s.
- `text.dfy` (module `PyText`) models two pieces of Python's string machinery:
  - `str.strip()` with no argument, over Python's own whitespace set: the code points for which `str.isspace()` holds, written out in `IsWhitespace`.
  - `str(n)` for integers, as used by the record's f-string, together with a reader `ParseInt` that inverts it.
- `todo.dfy` (module `Models`): the record as a datatype with a `Valid` predicate, and the constructor as `NewTodo`, a function that returns a `Result`.
  - `Render` is `__str__`.
  - `ParseRender` reads a rendering back. It exists only to state that rendering loses nothing.
- `todo_service.dfy` (module `Services`): the store as a class with fields `todos: seq<Todo>` and `nextId: int`, and the invariant `Valid`. Every method keeps `Valid`, which requires that:
  - every record is valid;
  - identifiers strictly increase along the list, so they are pairwise distinct;
  - all identifiers lie between 1 and `nextId - 1`.

  Pure reference definitions sit beside the class: `FirstIndex` (the first position carrying an id), `WithStatus` (the records with a given flag) and `SubsequenceOf`. Each method is proved against them.
- `scenarios.dfy` (module `Scenarios`): the behaviour the unit tests and the demonstration script check, restated as contracts. The store is used only through its methods' contracts. The record checks also use the definitions of `Strip`, `NewTodo` and `Render`: `Render`'s contract alone does not fix the exact text, since it would also admit `[01]` for id 1.

Where the code and its unit tests disagree, the model follows the code. For a non-integer id the code raises `ValueError` (src/models/todo.py:20-21), while the test at tests/unit/test_todo.py:53-56 expects `TypeError`. In the model, static types rule this case out, so it has no error value of its own.

## Model

| member | source | states |
|---|---|---|
| PyText.IsWhitespace | src/models/todo.py:23 | The whitespace set of `str.strip()`: space, tab, newline, carriage return, vertical tab and form feed are whitespace, while digits and ASCII letters are not. |
| PyText.Strip | src/models/todo.py:23 | `strip()` returns a text that has no whitespace at either end and is no longer than its input. It is empty exactly when the input is empty or all whitespace. |
| PyText.StripIsSlice | src/models/todo.py:30 | The stripped text is a contiguous slice of the input, and only whitespace lies before and after it. |
| PyText.StripStripped | src/models/todo.py:30 | Stripping a text that is already stripped returns it unchanged. |
| PyText.StripSurrounded | src/models/todo.py:30 | Stripping whitespace + text + whitespace, where the text is stripped and non-empty, returns exactly that text. |
| PyText.StripIdempotent | src/models/todo.py:30 | `strip()` is idempotent, so re-stripping a stored description changes nothing. |
| PyText.SkipLeading | src/models/todo.py:23 | Returns the first position at or after the start that does not hold whitespace. Everything skipped is whitespace. |
| PyText.SkipTrailing | src/models/todo.py:23 | Returns the end of a range after its trailing whitespace is dropped. Everything dropped is whitespace. |
| PyText.NatToString | src/models/todo.py:42 | The decimal text of a natural number is non-empty, all digits, and has no leading zero. |
| PyText.IntToString | src/models/todo.py:42 | `str(n)` is an optional minus sign followed by digits. |
| PyText.ParseInt | src/models/todo.py:42 | Whatever the reader accepts starts with a minus sign or a digit and continues with digits only. |
| PyText.ParseNatToString | src/models/todo.py:42 | Reading back the decimal text of a natural number gives that number. |
| PyText.ParseIntToString | src/models/todo.py:42 | Reading back `str(n)` gives `n`, for every integer. |
| PyText.IndexOf | src/models/todo.py:42 | Returns the first occurrence of a character, or `None` exactly when the character does not occur. |
| Models.DescriptionAccepted | src/models/todo.py:23 | A description is accepted exactly when it is not all whitespace and its stripped form has at most 500 characters, which is exactly when the stripped form is a valid stored description. The service repeats the same check at src/services/todo_service.py:48 and :97. |
| Models.NewTodo | src/models/todo.py:10-31 | `id <= 0` is rejected first. Otherwise a description whose stripped form is empty or longer than 500 is rejected. Construction succeeds exactly when both checks pass. The built record is valid and holds the given id, the stripped description and the given flag. |
| Models.StoredDescriptionAccepted | src/models/todo.py:20-31 | Rebuilding a valid record from its own fields succeeds and gives the same record. |
| Models.StrippedDescriptionBuilds | src/services/todo_service.py:48-54 | Text that passes the store's pre-check always builds a record once it is stripped, so the pre-check and the constructor's check agree. |
| Models.StatusText | src/models/todo.py:41 | The status word is `Complete` exactly for a completed record and `Incomplete` exactly for an open one. |
| Models.Render | src/models/todo.py:34-42 | Reading a rendering back recovers the record: the id, the description and the flag. |
| Models.RenderParses | src/models/todo.py:42 | `[` + `str(id)` + `] ` + description + ` - ` + status reads back as that record. |
| Models.BracketedParses | src/models/todo.py:42 | A bracketed integer, then `] `, then a status-suffixed description, reads back as the record with those fields. |
| Models.IndexAfterNumber | src/models/todo.py:42 | The first `]` in a rendering is the one just after the id, since the text of an integer holds no `]`. |
| Models.ParseStatusText | src/models/todo.py:41 | ` - Complete` and ` - Incomplete` split off unambiguously and give back the flag. |
| Models.RenderInjective | src/models/todo.py:42 | Distinct records never render to the same text. |
| Services.FirstIndex | src/services/todo_service.py:78-81 | Returns the first position whose record carries the id, or `None` exactly when no record does. |
| Services.WithStatus | src/services/todo_service.py:164 | A record is in the result exactly when it is in the list with that flag. The result is an order-preserving subsequence of the list. |
| Services.SubsequenceMembers | src/services/todo_service.py:164 | Every element of a subsequence is an element of the list. |
| Services.SubsequenceKeepsIncreasing | src/services/todo_service.py:164 | A subsequence of a list with increasing ids has increasing ids. |
| Services.StatusPartition | src/services/todo_service.py:164 | The complete and incomplete lists together hold every record exactly once, as multisets. Their lengths sum to the total, and they share no record. |
| Services.FirstIndexUnique | src/services/todo_service.py:78-81 | With increasing ids, the record at position k is the one a lookup of its id finds. |
| Services.AppendKeepsIncreasing | src/services/todo_service.py:55 | Appending an id above every held id keeps ids increasing. |
| Services.RemoveKeepsIncreasing | src/services/todo_service.py:150 | Removing one record keeps ids increasing, and no remaining record carries the removed id. |
| Services.InvariantAfterAppend | src/services/todo_service.py:51-56 | Appending a valid record that carries the counter, then advancing the counter, keeps the store invariant. The new id exceeds every held id. |
| Services.InvariantAfterReplace | src/services/todo_service.py:102 | Replacing a record by a valid one with the same id keeps the store invariant. |
| Services.InvariantAfterRemove | src/services/todo_service.py:150 | Removing a record keeps the store invariant, and the removed id no longer occurs. |
| Services.TodoService.constructor | src/services/todo_service.py:28-33 | A fresh store is empty, has counter 1, and satisfies the invariant. |
| Services.TodoService.CreateTodo | src/services/todo_service.py:35-57 | Succeeds exactly when the description is accepted; a rejection leaves the list and the counter unchanged. On success it appends exactly `(old next_id, strip(d), false)`, keeps the earlier records, advances the counter by 1, and the new id exceeds every earlier one. |
| Services.TodoService.GetAllTodos | src/services/todo_service.py:66 | Returns the list itself, whose ids increase and whose records are all valid. |
| Services.TodoService.FindIndex | src/services/todo_service.py:78-81 | The scan loop returns the first position carrying the id, as `FirstIndex` defines it. |
| Services.TodoService.GetTodoById | src/services/todo_service.py:68-81 | Returns `None` exactly when no record has the id, for any integer including negatives. Otherwise it returns the first record with that id. |
| Services.TodoService.UpdateTodo | src/services/todo_service.py:83-104 | Invalid text is an error whether or not the id exists, and nothing changes. A missing id gives `None` and nothing changes. Otherwise only that record's description becomes `strip(d)`, and the updated record is returned. The counter is untouched. |
| Services.TodoService.SetCompleted | src/services/todo_service.py:116-120 | Returns true exactly when the id is present. Only that record's flag is set, and a missing id changes nothing. |
| Services.TodoService.MarkComplete | src/services/todo_service.py:106-120 | Returns true exactly when the id is present. Only that record's flag becomes true, and a missing id changes nothing. |
| Services.TodoService.MarkIncomplete | src/services/todo_service.py:122-136 | Returns true exactly when the id is present. Only that record's flag becomes false, and a missing id changes nothing. |
| Services.TodoService.DeleteTodo | src/services/todo_service.py:138-152 | Returns true exactly when the id is present, and removes exactly its first record while keeping the rest in order. A missing id changes nothing. The counter is untouched and lies above the removed id, so that id is never issued again. |
| Services.TodoService.GetTodosByStatus | src/services/todo_service.py:154-164 | Returns exactly the records with the flag, as an order-preserving subsequence with increasing ids. |
| Scenarios.ConstructorRejections | tests/unit/test_todo.py:43-66 | Ids -1 and 0 are rejected as invalid ids, even alongside blank text. Empty or blank text with a valid id is rejected as an invalid description. |
| Scenarios.DescriptionLengthBoundary | tests/unit/test_todo.py:68-78 | A 500-character description is accepted and a 501-character one rejected. |
| Scenarios.ConstructorStrips | tests/unit/test_todo.py:118-121 | A padded description is stored without its padding. |
| Scenarios.RenderExamples | tests/unit/test_todo.py:85-95 | Record 1 renders as `[1] d - Incomplete`, or `[1] d - Complete` once completed. |
| Scenarios.StoreWithOne | tests/unit/test_todo_service.py:18-27 | One creation on a fresh store gives record 1 with the stripped text and the flag false, and the counter becomes 2. |
| Scenarios.StoreWithTwo | tests/unit/test_todo_service.py:29-40 | Two creations on a fresh store give ids 1 and 2, and the counter becomes 3. |
| Scenarios.StoreWithThree | tests/unit/test_todo_service.py:29-40 | Three creations on a fresh store give ids 1, 2 and 3, and the counter becomes 4. |
| Scenarios.LookupMisses | tests/unit/test_todo_service.py:114-132 | With one record held, looking up id 5 or id -1 gives `None`. |
| Scenarios.UpdateMiss | tests/unit/test_todo_service.py:147-154 | With one record held, updating id 5 with acceptable text gives `None`, and the list is unchanged. |
| Scenarios.MarkCompleteMiss | tests/unit/test_todo_service.py:185-192 | With one record held, marking id 5 complete reports false, and the list is unchanged. |
| Scenarios.MarkIncompleteMiss | tests/unit/test_todo_service.py:207-214 | With one record held, marking id 5 incomplete reports false, and the list is unchanged. |
| Scenarios.DeleteMiss | tests/unit/test_todo_service.py:228-236 | With one record held, deleting id 5 reports false, and the one record stays. |
| Scenarios.DeleteFirstOfTwo | tests/unit/test_todo_service.py:216-226 | Deleting record 1 of two reports true and leaves only record 2. |
| Scenarios.RejectedText | tests/unit/test_todo_service.py:156-173 | Blank text is refused by create and by update, for a present or an absent id, and the list stays as it was. |
| Scenarios.RewordThenComplete | manual_test_script.py:48-60 | With records 1 to 3 held, rewording record 2 and then completing record 1 changes exactly those two records. |
| Scenarios.EndToEnd | manual_test_script.py:30-80 | The demonstration session creates three records, rewords the second, completes the first, marks the third incomplete and deletes the second. Afterwards record 1 (completed) and record 3 (open) remain, in that order. |
| Scenarios.NoReuseAfterDelete | src/services/todo_service.py:138-152 | After record 2 is deleted, lookup of 2 misses, and the next creation receives id 3, not 2. |
| Scenarios.StatusRoundTrip | tests/unit/test_todo_service.py:194-205 | The completed list holds the completed record and not the other one. Marking it incomplete again restores its flag. |

## Left out

- `created_at`, `__repr__` and `to_dict`: they depend on the clock (`datetime.now()`) and on ISO date formatting, and no other operation reads them.
- Runtime type checks (`isinstance` on the id, the description and the flag): Dafny's static types discharge them. The "completed must be a boolean" error therefore cannot arise. Python's `bool` being a subclass of `int`, so that `True` passes as id 1, is not modelled.
- The unit test at tests/unit/test_todo.py:53-56 expects `TypeError` for a non-integer id. The code raises `ValueError`, and the model has no non-integer ids at all.
- Shared references: the source returns the stored record objects themselves, so a caller could change a record outside the store. The model holds records as values, so records change only through the store's operations, and `GetAllTodos` returns the list value.
- The check `if todo:` in update and mark always holds for a found record, since a record object is always truthy. The model branches on found or not found.
- PyText.IntToString: does not model CPython's default limit of 4300 digits for converting an integer to decimal text. Under that limit `str(n)` raises `ValueError` for longer numbers, while the model renders every integer.
- Models.Render: renders every record, including ids of more than 4300 digits, for which `__str__` raises `ValueError` under CPython's default conversion limit. The store cannot reach such ids, since its counter grows by one per creation, but the record constructor accepts them.
- `ParseRender`, `ParseStatus` and `ParseInt` are not operations of the application. They are readers used only to state that `__str__` and `str(n)` lose no information.
- Python strings can hold lone surrogate code points (U+D800 to U+DFFF, for example from `surrogateescape`-decoded command-line arguments). Dafny's `char` cannot, so descriptions containing them are outside the model.
- The command-line interface, the interactive menu, `main` and the demonstration scripts: console I/O around the store.
