/** The student roster service: an in-memory array of students and an id
    counter, with list, get, create, partial update and delete by id. */
module Students {
  import opened JsValues
  import opened Http
  import opened Records

  /** The fields of a student besides its id, and equally the three
      properties a POST or PUT body is read for. */
  datatype Fields = Fields(name: JsValue, age: JsValue, course: JsValue)

  type Student = Record<Fields>

  const NotFoundMessage := "Student not found"
  const MissingFieldsMessage := "All fields are required"

  /** A create request is accepted when every required field is truthy. */
  predicate Complete(body: Fields) {
    Truthy(body.name) && Truthy(body.age) && Truthy(body.course)
  }

  /** The fields a partial update leaves behind: each property the body
      defines replaces the stored one; an `undefined` property keeps it. */
  function Patch(f: Fields, body: Fields): Fields {
    Fields(
      if body.name.Undefined? then f.name else body.name,
      if body.age.Undefined? then f.age else body.age,
      if body.course.Undefined? then f.course else body.course)
  }

  /** Sending the same update twice has the effect of sending it once. */
  lemma PatchIdempotent(f: Fields, body: Fields)
    ensures Patch(Patch(f, body), body) == Patch(f, body)
  {
  }

  /** A field changes only when the body names it, and then it takes the
      body's value. */
  lemma PatchTouchesNamedFieldsOnly(f: Fields, body: Fields)
    ensures Patch(f, body).name == f.name || Patch(f, body).name == body.name != Undefined
    ensures Patch(f, body).age == f.age || Patch(f, body).age == body.age != Undefined
    ensures Patch(f, body).course == f.course || Patch(f, body).course == body.course != Undefined
    ensures body.name != Undefined ==> Patch(f, body).name == body.name
    ensures body.age != Undefined ==> Patch(f, body).age == body.age
    ensures body.course != Undefined ==> Patch(f, body).course == body.course
    ensures body == Fields(Undefined, Undefined, Undefined) ==> Patch(f, body) == f
  {
  }

  class StudentStore {
    /** The roster, in insertion order. */
    var students: seq<Student>
    /** The id the next created student receives. */
    var nextId: int
    /** Every id the store has handed out, including those of deleted students. */
    ghost var issued: set<int>

    ghost predicate Valid()
      reads this
    {
      WellNumbered(students, nextId) &&
      forall k :: k in issued <==> 1 <= k < nextId
    }

    /** The state at start-up: no students, and the counter at 1. */
    constructor ()
      ensures Valid()
      ensures students == [] && nextId == 1 && issued == {}
    {
      students := [];
      nextId := 1;
      issued := {};
    }

    /** GET /students: the whole roster in insertion order. */
    method List() returns (all: seq<Student>)
      ensures all == students
    {
      all := students;
    }

    /** GET /students/:id: the student carrying `id`, or 404. */
    method Get(id: int) returns (out: Outcome<Student>)
      requires Valid()
      ensures HasId(students, id) <==> out.Ok?
      ensures Status(out) == if HasId(students, id) then 200 else 404
      ensures forall i :: 0 <= i < |students| && students[i].id == id ==> out == Ok(students[i])
      ensures !HasId(students, id) ==> out == NotFound(NotFoundMessage)
    {
      var index := FindIndex(students, id);
      if index == -1 {
        out := NotFound(NotFoundMessage);
      } else {
        out := Ok(students[index]);
      }
      forall i | 0 <= i < |students| && students[i].id == id ensures out == Ok(students[i]) {
        FoundIsUnique(students, i);
      }
    }

    /** POST /students: rejects a body with a falsy required field; otherwise
        numbers a new student with the counter, advances the counter and
        appends the student. */
    method Create(body: Fields) returns (out: Outcome<Student>)
      requires Valid()
      modifies this
      ensures Valid()
      ensures !Complete(body) ==>
        out == BadRequest(MissingFieldsMessage) &&
        students == old(students) && nextId == old(nextId) && issued == old(issued)
      ensures Complete(body) ==>
        out == Created(Record(old(nextId), body)) &&
        students == old(students) + [out.body] &&
        nextId == old(nextId) + 1 && issued == old(issued) + {old(nextId)}
      ensures out.Created? ==> out.body.id !in old(issued)
    {
      if !Truthy(body.name) || !Truthy(body.age) || !Truthy(body.course) {
        return BadRequest(MissingFieldsMessage);
      }
      var student := Record(nextId, body);
      AppendKeepsNumbering(students, nextId, body);
      nextId := nextId + 1;
      issued := issued + {student.id};
      students := students + [student];
      out := Created(student);
    }

    /** PUT /students/:id: 404 for an unknown id; otherwise each property the
        body defines overwrites that field of the student, in place. */
    method Update(id: int, body: Fields) returns (out: Outcome<Student>)
      requires Valid()
      modifies this
      ensures Valid()
      ensures nextId == old(nextId) && issued == old(issued)
      ensures !old(HasId(students, id)) ==>
        out == NotFound(NotFoundMessage) && students == old(students)
      ensures old(HasId(students, id)) ==>
        var i := old(IndexOf(students, id));
        out == Ok(Record(id, Patch(old(students[i].fields), body))) &&
        students == old(students)[i := out.body]
    {
      var index := FindIndex(students, id);
      if index == -1 {
        return NotFound(NotFoundMessage);
      }
      var student := students[index];
      if !body.name.Undefined? {
        student := student.(fields := student.fields.(name := body.name));
      }
      if !body.age.Undefined? {
        student := student.(fields := student.fields.(age := body.age));
      }
      if !body.course.Undefined? {
        student := student.(fields := student.fields.(course := body.course));
      }
      ReplaceKeepsNumbering(students, nextId, index, student.fields);
      students := students[index := student];
      out := Ok(student);
    }

    /** DELETE /students/:id: 404 for an unknown id; otherwise the student is
        spliced out and returned, and the others keep their order. */
    method Delete(id: int) returns (out: Outcome<Student>)
      requires Valid()
      modifies this
      ensures Valid()
      ensures nextId == old(nextId) && issued == old(issued)
      ensures students == WithoutId(old(students), id)
      ensures !HasId(students, id)
      ensures !old(HasId(students, id)) ==>
        out == NotFound(NotFoundMessage) && students == old(students)
      ensures old(HasId(students, id)) ==>
        var i := old(IndexOf(students, id));
        out == Ok(old(students[i])) && students == old(students[..i] + students[i + 1..])
    {
      var index := FindIndex(students, id);
      if index == -1 {
        WithoutAbsentId(students, id);
        return NotFound(NotFoundMessage);
      }
      out := Ok(students[index]);
      RemoveAtIsWithoutId(students, index, id);
      WithoutIdKeepsNumbering(students, id, nextId);
      students := RemoveAt(students, index);
    }
  }

  /** An update on an empty roster finds nothing; after one student is added,
      an update that names only `name` changes the name and keeps `age` and
      `course`, and a later get returns the updated student. */
  method PartialUpdateScenario() returns (missing: Outcome<Student>, updated: Outcome<Student>, fetched: Outcome<Student>)
    ensures missing == NotFound(NotFoundMessage)
    ensures updated == Ok(Record(1, Fields(Str("B"), Num(20.0), Str("CS"))))
    ensures fetched == updated
  {
    var store := new StudentStore();
    missing := store.Update(99, Fields(Str("X"), Undefined, Undefined));
    var created := store.Create(Fields(Str("A"), Num(20.0), Str("CS")));
    assert store.students[0].id == 1;
    updated := store.Update(1, Fields(Str("B"), Undefined, Undefined));
    assert store.students[0].id == 1;
    fetched := store.Get(1);
  }
}
