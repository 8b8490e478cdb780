/**
 * The to-do task record and the list transformations the App component's
 * handlers are built from: `filter` by id, `map` by id, `filter` by the
 * completion flag and `find` by id (src/App.jsx). Each is a pure function
 * over an immutable sequence, exactly as the JavaScript array methods are.
 */
module Tasks {

  /** One to-do item, as delivered by the seed source and built by the add form. */
  datatype Task = Task(id: int, title: string, completed: bool)

  /** The result of `Array.prototype.find`: a task, or `undefined`. */
  datatype Option<T> = None | Some(value: T)

  /** The ids present in a list, forgetting order and multiplicity. */
  function IdSet(s: seq<Task>): set<int>
  {
    set t | t in s :: t.id
  }

  /** No two tasks of the list share an id. */
  predicate DistinctIds(s: seq<Task>)
  {
    forall i, j :: 0 <= i < j < |s| ==> s[i].id != s[j].id
  }

  /** `state.filter((task) => task.completed)`: the completed tasks, in order. */
  function CompletedOnly(s: seq<Task>): (r: seq<Task>)
    ensures |r| <= |s|
    ensures forall t :: t in r <==> t in s && t.completed
  {
    if s == [] then []
    else if s[0].completed then [s[0]] + CompletedOnly(s[1..])
    else CompletedOnly(s[1..])
  }

  /** `state.filter((item) => item.id !== id)`: every task with that id removed. */
  function RemoveId(s: seq<Task>, id: int): (r: seq<Task>)
    ensures |r| <= |s|
    ensures forall t :: t in r <==> t in s && t.id != id
  {
    if s == [] then []
    else if s[0].id != id then [s[0]] + RemoveId(s[1..], id)
    else RemoveId(s[1..], id)
  }

  /**
   * `state.map((task) => task.id === id ? { ...task, completed: !task.completed } : task)`:
   * ids and titles stay where they were, and the flag is negated exactly on the
   * tasks with that id.
   */
  function FlipId(s: seq<Task>, id: int): (r: seq<Task>)
    ensures |r| == |s|
    ensures forall i :: 0 <= i < |s| ==>
      r[i].id == s[i].id && r[i].title == s[i].title &&
      r[i].completed == (if s[i].id == id then !s[i].completed else s[i].completed)
  {
    if s == [] then []
    else
      var head := if s[0].id == id then s[0].(completed := !s[0].completed) else s[0];
      [head] + FlipId(s[1..], id)
  }

  /**
   * `state.map((task) => task.id === e.id ? e : task)`: every task carrying the
   * id of `e` becomes `e`, every other task stays as it was.
   */
  function ReplaceId(s: seq<Task>, e: Task): (r: seq<Task>)
    ensures |r| == |s|
    ensures forall i :: 0 <= i < |s| ==> r[i] == (if s[i].id == e.id then e else s[i])
  {
    if s == [] then []
    else [if s[0].id == e.id then e else s[0]] + ReplaceId(s[1..], e)
  }

  /** `s.find((task) => task.id === id)`: the first task with that id, if any. */
  function FindId(s: seq<Task>, id: int): (r: Option<Task>)
    ensures r.Some? <==> id in IdSet(s)
    ensures r.Some? ==> r.value in s && r.value.id == id
    ensures r.Some? ==> exists k :: (0 <= k < |s| && s[k] == r.value &&
                                     forall j :: 0 <= j < k ==> s[j].id != id)
  {
    if s == [] then None
    else if s[0].id == id then Some(s[0])
    else FindId(s[1..], id)
  }

  /** `[newTask, ...state]` with the add form's new task: id one past the length, not completed. */
  function WithNewTask(all: seq<Task>, title: string): seq<Task>
  {
    [Task(|all| + 1, title, false)] + all
  }

  /**
   * The completed list after a toggle of `todo`: if `find` locates its id,
   * every task with that id is filtered out; otherwise a copy of `todo` with
   * its flag negated goes in front.
   */
  function ToggleCompletedList(completed: seq<Task>, todo: Task): seq<Task>
  {
    if FindId(completed, todo.id).Some? then RemoveId(completed, todo.id)
    else [todo.(completed := !todo.completed)] + completed
  }

  // ---------------------------------------------------------------------
  // Delete: filter by id

  /** Deleting an id that no task carries leaves the list as it was. */
  lemma {:induction false} RemoveAbsentId(s: seq<Task>, id: int)
    requires id !in IdSet(s)
    ensures RemoveId(s, id) == s
  {
    if s != [] {
      assert s[0] in s;
      assert IdSet(s[1..]) <= IdSet(s) by {
        forall x | x in IdSet(s[1..]) ensures x in IdSet(s) {
          var t :| t in s[1..] && t.id == x;
          assert t in s;
        }
      }
      RemoveAbsentId(s[1..], id);
    }
  }

  /** Deleting the same id twice is the same as deleting it once. */
  lemma RemoveIdIdempotent(s: seq<Task>, id: int)
    ensures RemoveId(RemoveId(s, id), id) == RemoveId(s, id)
  {
  }

  /**
   * The surviving tasks keep their relative order: deleting from a
   * concatenation deletes from each part and concatenates the results.
   */
  lemma {:induction false} RemoveIdAppend(a: seq<Task>, b: seq<Task>, id: int)
    ensures RemoveId(a + b, id) == RemoveId(a, id) + RemoveId(b, id)
  {
    if a == [] {
      assert a + b == b;
    } else {
      assert (a + b)[1..] == a[1..] + b;
      RemoveIdAppend(a[1..], b, id);
    }
  }

  /** The ids left after a delete are the old ids less the deleted one. */
  lemma RemoveIdIds(s: seq<Task>, id: int)
    ensures IdSet(RemoveId(s, id)) == IdSet(s) - {id}
  {
  }

  /** The list shrinks exactly when some task carries the deleted id. */
  lemma {:induction false} RemoveIdShrinks(s: seq<Task>, id: int)
    ensures |RemoveId(s, id)| < |s| <==> id in IdSet(s)
  {
    if s == [] {
    } else {
      RemoveIdShrinks(s[1..], id);
      assert IdSet(s) == {s[0].id} + IdSet(s[1..]) by {
        forall x | x in IdSet(s) ensures x in {s[0].id} + IdSet(s[1..]) {
          var t :| t in s && t.id == x;
          if t != s[0] {
            assert t in s[1..];
          }
        }
        forall x | x in IdSet(s[1..]) ensures x in IdSet(s) {
          var t :| t in s[1..] && t.id == x;
          assert t in s;
        }
      }
    }
  }

  /** Deleting keeps distinct ids distinct (the result is a subsequence). */
  lemma {:induction false} RemoveIdKeepsDistinct(s: seq<Task>, id: int)
    requires DistinctIds(s)
    ensures DistinctIds(RemoveId(s, id))
  {
    if s != [] {
      var tail := s[1..];
      assert DistinctIds(tail) by {
        forall i, j | 0 <= i < j < |tail| ensures tail[i].id != tail[j].id {
          assert tail[i] == s[i + 1] && tail[j] == s[j + 1];
        }
      }
      RemoveIdKeepsDistinct(tail, id);
      if s[0].id != id {
        var r' := RemoveId(tail, id);
        forall j | 0 <= j < |r'| ensures r'[j].id != s[0].id {
          assert r'[j] in r';
          var k :| 0 <= k < |tail| && tail[k] == r'[j];
          assert s[k + 1] == r'[j];
        }
        var r := [s[0]] + r';
        forall i, j | 0 <= i < j < |r| ensures r[i].id != r[j].id {
          if i == 0 {
            assert r[j] == r'[j - 1];
          } else {
            assert r[i] == r'[i - 1] && r[j] == r'[j - 1];
          }
        }
      }
    }
  }

  // ---------------------------------------------------------------------
  // Toggle: map by id, flipping the flag

  /** Toggling the same id twice restores the list. */
  lemma FlipIdInvolution(s: seq<Task>, id: int)
    ensures FlipId(FlipId(s, id), id) == s
  {
  }

  /** Toggling keeps the ids, in order, and hence their distinctness. */
  lemma FlipIdKeepsIds(s: seq<Task>, id: int)
    ensures IdSet(FlipId(s, id)) == IdSet(s)
    ensures DistinctIds(s) ==> DistinctIds(FlipId(s, id))
  {
  }

  // ---------------------------------------------------------------------
  // Edit commit: map by id, replacing with the working copy

  /** Committing the same working copy twice is the same as committing it once. */
  lemma ReplaceIdIdempotent(s: seq<Task>, e: Task)
    ensures ReplaceId(ReplaceId(s, e), e) == ReplaceId(s, e)
  {
  }

  /** Committing an edit keeps the ids, and hence their distinctness. */
  lemma ReplaceIdKeepsIds(s: seq<Task>, e: Task)
    ensures IdSet(ReplaceId(s, e)) == IdSet(s)
    ensures DistinctIds(s) ==> DistinctIds(ReplaceId(s, e))
  {
  }

  // ---------------------------------------------------------------------
  // The completed-only filter against the other transforms

  /** Filtering out completed tasks commutes with deleting an id. */
  lemma {:induction false} CompletedOnlyRemoveId(s: seq<Task>, id: int)
    ensures CompletedOnly(RemoveId(s, id)) == RemoveId(CompletedOnly(s), id)
  {
    if s != [] {
      CompletedOnlyRemoveId(s[1..], id);
    }
  }

  /**
   * The completed-only filter keeps order and repetitions: filtering a
   * concatenation filters each part and concatenates the results.
   */
  lemma {:induction false} CompletedOnlyAppend(a: seq<Task>, b: seq<Task>)
    ensures CompletedOnly(a + b) == CompletedOnly(a) + CompletedOnly(b)
  {
    if a == [] {
      assert a + b == b;
    } else {
      assert (a + b)[1..] == a[1..] + b;
      CompletedOnlyAppend(a[1..], b);
    }
  }
}
