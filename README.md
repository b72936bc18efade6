# Student roster and to-do list stores, in Dafny

Two small REST services keep their data in process memory. Each keeps an ordered array of
records and an integer counter `nextId`, which starts at 1:

- The student roster (`day11.js`) stores `{ id, name, age, course }`. It serves list, get by id,
  create, partial update and delete by id.
- The to-do list (`day12.js`) stores `{ id, text }`. It serves list, create and delete by id.

This project models the state and the route handlers. Express and the HTTP layer are stripped
away.

- `js_value.dfy` (`JsValues`): the values a JSON body can carry, plus `Undefined` for an absent
  key, and JavaScript truthiness over them.
- `http.dfy` (`Http`): the outcome of a handler. `Ok`, `Created`, `BadRequest` and `NotFound`
  carry status codes 200, 201, 400 and 404.
- `records.dfy` (`Records`): the record array. It holds the store invariant `WellNumbered`: ids
  strictly ascend, and each id lies in `[1, nextId)`. It also holds
  `findIndex(r => r.id === id)`, modelled as the loop `FindIndex` proved against the function
  `IndexOf`, and `splice(i, 1)`, modelled as `RemoveAt`. When ids ascend, splicing out the
  position that holds an id is proved equal to the reference definition `WithoutId`, which keeps
  every record except those with that id. (With repeated ids the two would differ.)
- `students.dfy` (`Students`): the class `StudentStore` with the five handlers. Its fields
  `students` and `nextId` are updated in place by create, update and delete; list and get only
  read them.
- `todos.dfy` (`Todos`): the class `TodoList` with the three handlers. Its fields `todos` and
  `nextId` are updated in place by create and delete; list only reads them.

Each class also keeps a ghost set `issued` of every id it has handed out, including ids of
deleted records. `Valid()` ties this set to `[1, nextId)`. A successful create returns an id that
is not in the old `issued` set, so a freed id is never handed out again.

Two details of the handlers are easy to misread, and the model follows the code on both:

- A create request is rejected when a required field is falsy in JavaScript's sense. Missing
  fields and `""` are rejected, and so are `null`, `false` and `0`.
- An update overwrites every field that is not `undefined`. That includes `null` and `""`.

## Model

| member | source | states |
|---|---|---|
| Records.IndexOf | day11.js:71-73 | the position `findIndex` reports: -1 exactly when no record carries the id, otherwise a record with that id and no earlier one |
| Records.FindIndex | day12.js:128 | the front-to-back scan returns exactly `IndexOf` of the sequence and id |
| Records.WithoutId | day11.js:77 | deleting by id keeps exactly the ids other than the deleted one; every record of the result is a record of the input, and the result is never longer |
| Records.WithoutAbsentId | day12.js:128-129 | deleting an id that no record carries leaves the sequence unchanged |
| Records.RemoveAtIsWithoutId | day11.js:71-77 | when ids ascend, splicing out the found position equals deleting that id: the other records stay in their order |
| Records.FoundIsUnique | day11.js:23 | when ids ascend, the record found for an id is the only record with that id |
| Records.WithoutIdKeepsAscending | day12.js:131 | a deletion keeps ids strictly ascending |
| Records.WithoutIdKeepsNumbering | day11.js:77 | a deletion keeps the store invariant (ascending ids, all in `[1, nextId)`) |
| Records.AppendKeepsNumbering | day11.js:40-47 | appending a record numbered `nextId` and advancing the counter keeps the store invariant |
| Records.ReplaceKeepsNumbering | day11.js:61-63 | rewriting a record's fields in place, id unchanged, keeps the store invariant |
| JsValues.Truthy | day11.js:36 | JavaScript truthiness, the test behind `!name` and `!text` (day12.js:118): `undefined`, `null`, `false`, `0` and `""` are falsy, every other value is truthy |
| Records.RemoveAt | day11.js:77 | `splice(index, 1)` on the array (also day12.js:131): the record at `index` is cut out and the records before and after it close up in their order |
| Students.Complete | day11.js:36 | a create body is accepted exactly when `name`, `age` and `course` are all truthy |
| Students.Patch | day11.js:61-63 | a body field that is not undefined replaces the stored one; an undefined one keeps it |
| Students.PatchIdempotent | day11.js:61-63 | sending the same partial update twice gives the same fields as sending it once |
| Students.PatchTouchesNamedFieldsOnly | day11.js:61-63 | a field changes only when the body defines it, and then it takes exactly the body's value; an empty body changes nothing |
| Students.StudentStore.constructor | day11.js:12-13 | the roster starts empty with the counter at 1 and no id issued |
| Students.StudentStore.List | day11.js:16-18 | returns the whole roster in insertion order without changing it |
| Students.StudentStore.Get | day11.js:21-30 | `Ok` exactly when some student has the id, and then it is that student; otherwise 404 "Student not found"; the status is 200 or 404 accordingly; no state changes |
| Students.StudentStore.Create | day11.js:33-49 | a falsy name, age or course gives 400 "All fields are required" and changes nothing; otherwise 201 with the student numbered by the old counter, appended at the end, the counter up by 1, and the id never issued before |
| Students.StudentStore.Update | day11.js:52-66 | an unknown id gives 404 and changes nothing; otherwise only that student changes, its id is kept, each defined body field overwrites its field, others keep theirs; the counter is unchanged |
| Students.StudentStore.Delete | day11.js:69-79 | an unknown id gives 404 and changes nothing; otherwise the student is returned and removed, the rest keep their order, the id is gone, the counter is unchanged |
| Students.PartialUpdateScenario | day11.js:33-66 | an update on an empty roster is 404; a name-only update of a created student keeps its age and course, and a later get returns it |
| Todos.TodoList.constructor | day12.js:8-9 | the list starts empty with the counter at 1 and no id issued |
| Todos.TodoList.List | day12.js:111-113 | returns every item in insertion order without changing it |
| Todos.TodoList.Create | day12.js:116-123 | a falsy text gives 400 "Text is required" and changes nothing; otherwise 201 with `{ id: old nextId, text }` appended at the end, the counter up by 1, and the id never issued before |
| Todos.TodoList.Delete | day12.js:126-133 | an unknown id gives 404 "Todo not found" and changes nothing; otherwise the item is returned and removed, the rest keep their order, the counter is unchanged |
| Todos.CreateTwoDeleteFirst | day12.js:116-133 | two creates on a fresh list issue ids 1 and 2; deleting id 1 leaves only item 2 and the counter at 3 |
| Todos.DeletedIdNotReissued | day12.js:116-133 | create, create, delete id 1, create gives ids 1, 2, 3; the list then holds exactly ids 2 and 3, in that order; deleting id 1 again is 404 |

## Left out

- Students.StudentStore.Create: stores `age` exactly as the request sent it. The source stores
  `Number(age)`. JavaScript's number conversion (string parsing, `NaN`, floating point) is not
  modelled.
- Students.StudentStore.Update: stores a defined `age` as sent, not as `Number(age)`, for the same
  reason.
- The `:id` route parameter arrives as an `int`. `parseInt` string parsing is not modelled. A
  parameter that parses to `NaN` matches no record, just like any id that is absent.
- Numbers are unbounded. `nextId` is an unbounded integer. A body number `Num(x)` carries the
  value as it stands after JSON parsing, that is an already-rounded double (a literal such as
  `1e-400` arrives as 0, which is falsy). The rounding itself, and counter precision past 2^53,
  are not modelled.
- Records are values. The source returns the same object it stores, but the response is
  serialised at once and no other reference survives, so value semantics gives the same results.
  An update is modelled as replacing the element at the position `findIndex` gives, which is the
  object `find` returns.
- A request without a parsed body (`req.body` undefined) makes the destructuring throw. The
  resulting 500 response is not modelled.
- The Express app, CORS and JSON middleware, `app.listen` and the port are HTTP plumbing and are
  left out. The inline HTML/JavaScript front end served at `/` by `day12.js` is left out too.
- `day13.js` (the notes service) is not part of this model. Every operation there is a call into
  a document database driver.
- `Day 5.js` is not part of this model.
