/** An ordered in-memory collection of records keyed by an integer id: the
    array both stores keep, and the array operations their handlers use on it
    (`findIndex` by id, `splice` of one element). */
module Records {

  /** One stored record: the id the store assigned and the resource's own fields. */
  datatype Record<F> = Record(id: int, fields: F)

  /** Some record in `s` carries `id`. */
  ghost predicate HasId<F>(s: seq<Record<F>>, id: int) {
    exists i :: 0 <= i < |s| && s[i].id == id
  }

  /** Ids strictly increase along the sequence (so they are also unique). */
  ghost predicate Ascending<F>(s: seq<Record<F>>) {
    forall i, j :: 0 <= i < j < |s| ==> s[i].id < s[j].id
  }

  /** The store invariant: ids strictly increase and every id was handed out
      by a counter that started at 1 and now stands at `next`. */
  ghost predicate WellNumbered<F>(s: seq<Record<F>>, next: int) {
    1 <= next && Ascending(s) && forall i :: 0 <= i < |s| ==> 1 <= s[i].id < next
  }

  /** The position `findIndex((r) => r.id === id)` reports: the first record
      carrying `id`, or -1 when there is none. */
  function IndexOf<F>(s: seq<Record<F>>, id: int): (r: int)
    ensures -1 <= r < |s|
    ensures r == -1 <==> !HasId(s, id)
    ensures 0 <= r ==> s[r].id == id && forall j :: 0 <= j < r ==> s[j].id != id
  {
    if |s| == 0 then -1
    else if s[0].id == id then 0
    else
      var k := IndexOf(s[1..], id);
      assert HasId(s, id) ==> HasId(s[1..], id) by {
        if HasId(s, id) {
          var i :| 0 <= i < |s| && s[i].id == id;
          assert s[1..][i - 1].id == id;
        }
      }
      if k == -1 then -1 else k + 1
  }

  /** `Array.prototype.findIndex` with the predicate `r.id === id`: a linear
      scan from the front. */
  method FindIndex<F>(s: seq<Record<F>>, id: int) returns (index: int)
    ensures index == IndexOf(s, id)
  {
    index := 0;
    while index < |s| && s[index].id != id
      invariant 0 <= index <= |s|
      invariant forall j :: 0 <= j < index ==> s[j].id != id
    {
      index := index + 1;
    }
    if index == |s| {
      index := -1;
    }
  }

  /** `s.splice(i, 1)` applied to the sequence: the record at `i` is cut out
      and the others close up. */
  function RemoveAt<F>(s: seq<Record<F>>, i: int): seq<Record<F>>
    requires 0 <= i < |s|
  {
    s[..i] + s[i + 1..]
  }

  /** Reference definition of deleting by id: keep, in order, every record
      whose id differs from `id`. */
  function WithoutId<F>(s: seq<Record<F>>, id: int): (r: seq<Record<F>>)
    ensures |r| <= |s|
    ensures forall k :: 0 <= k < |r| ==> r[k] in s
    ensures forall x :: HasId(r, x) <==> HasId(s, x) && x != id
  {
    if |s| == 0 then []
    else
      var rest := WithoutId(s[1..], id);
      assert forall x :: HasId(s, x) <==> s[0].id == x || HasId(s[1..], x) by {
        forall x ensures HasId(s, x) <==> s[0].id == x || HasId(s[1..], x) {
          if HasId(s[1..], x) {
            var i :| 0 <= i < |s| - 1 && s[1..][i].id == x;
            assert s[i + 1].id == x;
          }
          if HasId(s, x) && s[0].id != x {
            var i :| 0 <= i < |s| && s[i].id == x;
            assert s[1..][i - 1].id == x;
          }
        }
      }
      if s[0].id == id then rest
      else
        var r := [s[0]] + rest;
        assert forall x :: HasId(r, x) <==> s[0].id == x || HasId(rest, x) by {
          forall x ensures HasId(r, x) <==> s[0].id == x || HasId(rest, x) {
            assert r[0].id == s[0].id;
            if HasId(rest, x) {
              var i :| 0 <= i < |rest| && rest[i].id == x;
              assert r[i + 1].id == x;
            }
            if HasId(r, x) && s[0].id != x {
              var i :| 0 <= i < |r| && r[i].id == x;
              assert rest[i - 1].id == x;
            }
          }
        }
        r
  }

  /** Deleting an id that no record carries leaves the sequence as it was. */
  lemma {:induction false} WithoutAbsentId<F>(s: seq<Record<F>>, id: int)
    requires !HasId(s, id)
    ensures WithoutId(s, id) == s
  {
    if |s| > 0 {
      assert forall k :: 0 <= k < |s| - 1 ==> s[1..][k].id == s[k + 1].id;
      WithoutAbsentId(s[1..], id);
      assert s == [s[0]] + s[1..];
    }
  }

  /** On a sequence with ascending ids, splicing out the record found for `id`
      deletes exactly the records carrying `id`: the others stay, in order. */
  lemma {:induction false} RemoveAtIsWithoutId<F>(s: seq<Record<F>>, i: int, id: int)
    requires Ascending(s)
    requires 0 <= i < |s| && s[i].id == id
    ensures RemoveAt(s, i) == WithoutId(s, id)
  {
    if i == 0 {
      assert forall k :: 0 <= k < |s| - 1 ==> s[1..][k].id == s[k + 1].id > id;
      WithoutAbsentId(s[1..], id);
    } else {
      assert s[0].id < s[i].id;
      RemoveAtIsWithoutId(s[1..], i - 1, id);
      assert RemoveAt(s, i) == [s[0]] + RemoveAt(s[1..], i - 1);
    }
  }

  /** On a sequence with ascending ids, the record carrying `id` is the one
      found for it: there is no earlier record with the same id. */
  lemma FoundIsUnique<F>(s: seq<Record<F>>, i: int)
    requires Ascending(s)
    requires 0 <= i < |s|
    ensures IndexOf(s, s[i].id) == i
  {
  }

  /** Every record of the deleted sequence comes from the original, and the
      original's order is kept: a deletion keeps ids ascending. */
  lemma {:induction false} WithoutIdKeepsAscending<F>(s: seq<Record<F>>, id: int)
    requires Ascending(s)
    ensures Ascending(WithoutId(s, id))
  {
    if |s| > 0 {
      var rest := WithoutId(s[1..], id);
      assert Ascending(s[1..]);
      WithoutIdKeepsAscending(s[1..], id);
      if s[0].id != id {
        var r := [s[0]] + rest;
        forall j | 0 < j < |r| ensures s[0].id < r[j].id {
          assert HasId(rest, r[j].id) by { assert rest[j - 1].id == r[j].id; }
          var k :| 0 <= k < |s| - 1 && s[1..][k].id == r[j].id;
          assert s[k + 1].id == r[j].id;
        }
        assert r == WithoutId(s, id);
      }
    }
  }

  /** A deletion keeps the store invariant: ids ascend and stay below the counter. */
  lemma WithoutIdKeepsNumbering<F>(s: seq<Record<F>>, id: int, next: int)
    requires WellNumbered(s, next)
    ensures WellNumbered(WithoutId(s, id), next)
  {
    WithoutIdKeepsAscending(s, id);
    var r := WithoutId(s, id);
    forall j | 0 <= j < |r| ensures 1 <= r[j].id < next {
      assert HasId(r, r[j].id);
    }
  }

  /** Appending a record numbered with the counter, then advancing the counter,
      keeps the store invariant. */
  lemma AppendKeepsNumbering<F>(s: seq<Record<F>>, next: int, f: F)
    requires WellNumbered(s, next)
    ensures WellNumbered(s + [Record(next, f)], next + 1)
  {
  }

  /** Replacing a record by one with the same id keeps the store invariant. */
  lemma ReplaceKeepsNumbering<F>(s: seq<Record<F>>, next: int, i: int, f: F)
    requires WellNumbered(s, next)
    requires 0 <= i < |s|
    ensures WellNumbered(s[i := Record(s[i].id, f)], next)
  {
  }
}
