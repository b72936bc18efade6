/** The to-do list service: an in-memory array of `{ id, text }` items and an
    id counter, with list, create and delete by id. */
module Todos {
  import opened JsValues
  import opened Http
  import opened Records

  /** A to-do item: its id and its `text` property. */
  type Todo = Record<JsValue>

  const NotFoundMessage := "Todo not found"
  const MissingTextMessage := "Text is required"

  class TodoList {
    /** The items, in insertion order. */
    var todos: seq<Todo>
    /** The id the next created item receives. */
    var nextId: int
    /** Every id the list has handed out, including those of deleted items. */
    ghost var issued: set<int>

    ghost predicate Valid()
      reads this
    {
      WellNumbered(todos, nextId) &&
      forall k :: k in issued <==> 1 <= k < nextId
    }

    /** The state at start-up: no items, and the counter at 1. */
    constructor ()
      ensures Valid()
      ensures todos == [] && nextId == 1 && issued == {}
    {
      todos := [];
      nextId := 1;
      issued := {};
    }

    /** GET /todos: every item in insertion order. */
    method List() returns (all: seq<Todo>)
      ensures all == todos
    {
      all := todos;
    }

    /** POST /todos: rejects a falsy `text`; otherwise numbers a new item with
        the counter, advances the counter and appends the item. */
    method Create(text: JsValue) returns (out: Outcome<Todo>)
      requires Valid()
      modifies this
      ensures Valid()
      ensures !Truthy(text) ==>
        out == BadRequest(MissingTextMessage) &&
        todos == old(todos) && nextId == old(nextId) && issued == old(issued)
      ensures Truthy(text) ==>
        out == Created(Record(old(nextId), text)) &&
        todos == old(todos) + [out.body] &&
        nextId == old(nextId) + 1 && issued == old(issued) + {old(nextId)}
      ensures out.Created? ==> out.body.id !in old(issued)
    {
      if !Truthy(text) {
        return BadRequest(MissingTextMessage);
      }
      var todo := Record(nextId, text);
      AppendKeepsNumbering(todos, nextId, text);
      nextId := nextId + 1;
      issued := issued + {todo.id};
      todos := todos + [todo];
      out := Created(todo);
    }

    /** DELETE /todos/:id: 404 for an unknown id; otherwise the item is spliced
        out and returned, and the others keep their order. */
    method Delete(id: int) returns (out: Outcome<Todo>)
      requires Valid()
      modifies this
      ensures Valid()
      ensures nextId == old(nextId) && issued == old(issued)
      ensures todos == WithoutId(old(todos), id)
      ensures !HasId(todos, id)
      ensures !old(HasId(todos, id)) ==>
        out == NotFound(NotFoundMessage) && todos == old(todos)
      ensures old(HasId(todos, id)) ==>
        var i := old(IndexOf(todos, id));
        out == Ok(old(todos[i])) && todos == old(todos[..i] + todos[i + 1..])
    {
      var index := FindIndex(todos, id);
      if index == -1 {
        WithoutAbsentId(todos, id);
        return NotFound(NotFoundMessage);
      }
      out := Ok(todos[index]);
      RemoveAtIsWithoutId(todos, index, id);
      WithoutIdKeepsNumbering(todos, id, nextId);
      todos := RemoveAt(todos, index);
    }
  }

  /** A fresh list receives two items, "A" and "C", and then the first is
      deleted: the ids issued are 1 and 2 and only item 2 remains. */
  method CreateTwoDeleteFirst() returns (list: TodoList, ids: seq<int>)
    ensures fresh(list) && list.Valid()
    ensures ids == [1, 2]
    ensures list.todos == [Record(2, Str("C"))] && list.nextId == 3
  {
    list := new TodoList();
    var a := list.Create(Str("A"));
    var b := list.Create(Str("C"));
    ids := [a.body.id, b.body.id];
    assert IndexOf(list.todos, 1) == 0;
    var d := list.Delete(1);
  }

  /** Two items are added, the first is deleted and a third is added: the
      third gets id 3, not the freed id 1, and the list holds ids 2 and 3 in
      that order. Deleting id 1 a second time finds nothing. */
  method DeletedIdNotReissued() returns (created: seq<int>, listed: seq<int>, again: Outcome<Todo>)
    ensures created == [1, 2, 3]
    ensures listed == [2, 3]
    ensures again == NotFound(NotFoundMessage)
  {
    var list, ids := CreateTwoDeleteFirst();
    var c := list.Create(Str("E"));
    created := ids + [c.body.id];
    var all := list.List();
    listed := seq(|all|, k requires 0 <= k < |all| => all[k].id);
    assert !HasId(list.todos, 1);
    again := list.Delete(1);
  }
}
