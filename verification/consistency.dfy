/**
 * The invariant that ties the App component's two lists together: the
 * completed list holds exactly the ids of the completed tasks of the full
 * list. It is a statement about sets of ids, not about order, and toggling
 * relies on ids being distinct. The lemmas below show which handlers keep
 * it and which keep ids distinct (src/App.jsx).
 */
module Consistency {
  import opened Tasks

  /** The ids of the completed list are the ids of the completed tasks. */
  predicate Consistent(all: seq<Task>, completed: seq<Task>)
  {
    IdSet(completed) == IdSet(CompletedOnly(all))
  }

  /** Every task of the list with the id of `e` has the completion flag of `e`. */
  predicate FlagAgrees(all: seq<Task>, e: Task)
  {
    forall t :: t in all && t.id == e.id ==> t.completed == e.completed
  }

  /** Every id lies between 1 and the length of the list. */
  predicate DenseIds(s: seq<Task>)
  {
    forall t :: t in s ==> 1 <= t.id <= |s|
  }

  /** An id is a completed id exactly when some completed position carries it. */
  lemma InCompletedIds(s: seq<Task>, x: int)
    ensures x in IdSet(CompletedOnly(s)) <==> exists i :: 0 <= i < |s| && s[i].id == x && s[i].completed
  {
  }

  /** Two lists that agree position by position on ids and flags have the same completed ids. */
  lemma SameCompletedIds(s: seq<Task>, r: seq<Task>)
    requires |s| == |r|
    requires forall i :: 0 <= i < |s| ==> r[i].id == s[i].id && r[i].completed == s[i].completed
    ensures IdSet(CompletedOnly(r)) == IdSet(CompletedOnly(s))
  {
  }

  /** Prepending a task adds its id. */
  lemma PrependIds(t: Task, s: seq<Task>)
    ensures IdSet([t] + s) == {t.id} + IdSet(s)
  {
  }

  /** Toggling one id leaves every other id's membership in the completed ids alone. */
  lemma FlipKeepsOtherCompletedIds(s: seq<Task>, id: int, x: int)
    requires x != id
    ensures x in IdSet(CompletedOnly(FlipId(s, id))) <==> x in IdSet(CompletedOnly(s))
  {
  }

  /** With distinct ids, toggling a present id negates its membership in the completed ids. */
  lemma FlipNegatesCompletedId(s: seq<Task>, id: int, k: nat)
    requires DistinctIds(s) && k < |s| && s[k].id == id
    ensures id in IdSet(CompletedOnly(FlipId(s, id))) <==> id !in IdSet(CompletedOnly(s))
  {
  }

  /**
   * With distinct ids, toggling the flag of a present id moves that id into
   * the completed ids when it was not completed, and out of them when it was.
   */
  lemma CompletedIdsAfterFlip(s: seq<Task>, id: int)
    requires DistinctIds(s) && id in IdSet(s)
    ensures id in IdSet(CompletedOnly(s)) ==>
      IdSet(CompletedOnly(FlipId(s, id))) == IdSet(CompletedOnly(s)) - {id}
    ensures id !in IdSet(CompletedOnly(s)) ==>
      IdSet(CompletedOnly(FlipId(s, id))) == IdSet(CompletedOnly(s)) + {id}
  {
    var t :| t in s && t.id == id;
    var k :| 0 <= k < |s| && s[k] == t;
    FlipNegatesCompletedId(s, id, k);
    forall x | x != id
      ensures x in IdSet(CompletedOnly(FlipId(s, id))) <==> x in IdSet(CompletedOnly(s))
    {
      FlipKeepsOtherCompletedIds(s, id, x);
    }
  }

  // ---------------------------------------------------------------------
  // Each handler keeps the lists consistent

  /** Every completed id is an id of the list: the completed view never shows a stranger. */
  lemma CompletedIdsWithin(s: seq<Task>)
    ensures IdSet(CompletedOnly(s)) <= IdSet(s)
  {
  }

  /** Adding an uncompleted task to the full list alone keeps the lists consistent. */
  lemma AddKeepsConsistent(all: seq<Task>, completed: seq<Task>, title: string)
    requires Consistent(all, completed)
    ensures Consistent(WithNewTask(all, title), completed)
  {
  }

  /** Deleting an id from both lists keeps them consistent. */
  lemma DeleteKeepsConsistent(all: seq<Task>, completed: seq<Task>, id: int)
    requires Consistent(all, completed)
    ensures Consistent(RemoveId(all, id), RemoveId(completed, id))
  {
    CompletedOnlyRemoveId(all, id);
    RemoveIdIds(completed, id);
    RemoveIdIds(CompletedOnly(all), id);
  }

  /**
   * Toggling a task of the full list keeps the lists consistent while ids are
   * distinct: the flag is flipped in the full list, and the completed list
   * either loses the id or gains a flipped copy of the task.
   */
  lemma ToggleKeepsConsistent(all: seq<Task>, completed: seq<Task>, todo: Task)
    requires Consistent(all, completed) && DistinctIds(all) && todo.id in IdSet(all)
    ensures Consistent(FlipId(all, todo.id), ToggleCompletedList(completed, todo))
  {
    CompletedIdsAfterFlip(all, todo.id);
    if todo.id in IdSet(completed) {
      RemoveIdIds(completed, todo.id);
    } else {
      PrependIds(todo.(completed := !todo.completed), completed);
    }
  }

  /**
   * Committing a working copy into both lists keeps them consistent when the
   * copy's flag agrees with the tasks it replaces.
   */
  lemma CommitKeepsConsistent(all: seq<Task>, completed: seq<Task>, e: Task)
    requires Consistent(all, completed) && FlagAgrees(all, e)
    ensures Consistent(ReplaceId(all, e), ReplaceId(completed, e))
  {
    ReplaceIdKeepsIds(completed, e);
    var r := ReplaceId(all, e);
    forall i | 0 <= i < |all| ensures r[i].id == all[i].id && r[i].completed == all[i].completed {
      if all[i].id == e.id {
        assert all[i] in all;
      }
    }
    SameCompletedIds(all, r);
  }

  // ---------------------------------------------------------------------
  // Distinct ids, and where the length-based id breaks them

  /**
   * While every id lies in 1..length and ids are distinct (as in a list built
   * only by adds from empty), the id `length + 1` is fresh, so adding keeps
   * both. A single delete can break the first condition.
   */
  lemma AddKeepsDenseIds(all: seq<Task>, title: string)
    requires DistinctIds(all) && DenseIds(all)
    ensures DistinctIds(WithNewTask(all, title))
    ensures DenseIds(WithNewTask(all, title))
  {
  }

  /**
   * The length-based id is not fresh after a delete: add "a", add "b",
   * delete id 1, add "c" leaves two tasks with id 2.
   */
  lemma AddAfterDeleteDuplicatesId()
    ensures var s2 := WithNewTask(WithNewTask([], "a"), "b");
            var s4 := WithNewTask(RemoveId(s2, 1), "c");
            DistinctIds(s2) && !DistinctIds(s4)
  {
    var s2 := WithNewTask(WithNewTask([], "a"), "b");
    assert s2 == [Task(2, "b", false), Task(1, "a", false)];
    assert s2[1..] == [Task(1, "a", false)] && s2[1..][1..] == [];
    var s3 := RemoveId(s2, 1);
    assert s3 == [Task(2, "b", false)];
    var s4 := WithNewTask(s3, "c");
    assert s4[0].id == s4[1].id;
  }

  /**
   * Only the ids of the completed list follow the full list, not its order:
   * starting from [1, 2] with nothing completed, toggling task 1 and then
   * task 2 gives a completed list [2, 1] while the completed tasks of the
   * full list read [1, 2].
   */
  lemma CompletedOrderDiffers()
    ensures var all := [Task(1, "a", false), Task(2, "b", false)];
            var all1, completed1 := FlipId(all, 1), ToggleCompletedList([], all[0]);
            var all2, completed2 := FlipId(all1, 2), ToggleCompletedList(completed1, all1[1]);
            Consistent(all, []) && Consistent(all2, completed2) && completed2 != CompletedOnly(all2)
  {
    var all := [Task(1, "a", false), Task(2, "b", false)];
    var all1 := FlipId(all, 1);
    assert all1 == [Task(1, "a", true), Task(2, "b", false)];
    var completed1 := ToggleCompletedList([], all[0]);
    assert completed1 == [Task(1, "a", true)];
    var completed2 := ToggleCompletedList(completed1, all1[1]);
    assert FindId(completed1, 2) == None;
    assert completed2 == [Task(2, "b", true), Task(1, "a", true)];
    var all2 := FlipId(all1, 2);
    assert all2 == [Task(1, "a", true), Task(2, "b", true)];
    assert all2[1..][1..] == [];
    assert CompletedOnly(all2) == all2;
    PrependIds(Task(2, "b", true), [Task(1, "a", true)]);
    PrependIds(Task(1, "a", true), [Task(2, "b", true)]);
  }

  // ---------------------------------------------------------------------
  // The whole invariant the handlers keep while ids are distinct

  /** Every task of the list is completed. */
  predicate AllCompleted(s: seq<Task>)
  {
    forall t :: t in s ==> t.completed
  }

  /**
   * The two lists agree by id, the full list has distinct ids, and the
   * completed list holds only completed tasks.
   */
  predicate ListsCoherent(all: seq<Task>, completed: seq<Task>)
  {
    Consistent(all, completed) && DistinctIds(all) && AllCompleted(completed)
  }

  /** The seed load makes the lists coherent when the fetched ids are distinct. */
  lemma SeedIsCoherent(data: seq<Task>)
    requires DistinctIds(data)
    ensures ListsCoherent(data, CompletedOnly(data))
  {
  }

  /** Adding keeps the lists coherent while every id lies in 1..length. */
  lemma AddKeepsCoherent(all: seq<Task>, completed: seq<Task>, title: string)
    requires ListsCoherent(all, completed) && DenseIds(all)
    ensures ListsCoherent(WithNewTask(all, title), completed)
    ensures DenseIds(WithNewTask(all, title))
  {
    AddKeepsConsistent(all, completed, title);
    AddKeepsDenseIds(all, title);
  }

  /** Deleting keeps the lists coherent and keeps a working copy's flag in agreement. */
  lemma DeleteKeepsCoherent(all: seq<Task>, completed: seq<Task>, id: int, e: Task)
    requires ListsCoherent(all, completed)
    ensures ListsCoherent(RemoveId(all, id), RemoveId(completed, id))
    ensures FlagAgrees(all, e) ==> FlagAgrees(RemoveId(all, id), e)
  {
    DeleteKeepsConsistent(all, completed, id);
    RemoveIdKeepsDistinct(all, id);
  }

  /**
   * Toggling a task shown in either list keeps the lists coherent; in
   * particular the copy it may prepend to the completed list is completed.
   */
  lemma ToggleKeepsCoherent(all: seq<Task>, completed: seq<Task>, todo: Task)
    requires ListsCoherent(all, completed) && (todo in all || todo in completed)
    ensures ListsCoherent(FlipId(all, todo.id), ToggleCompletedList(completed, todo))
  {
    if todo in completed {
      assert todo.id in IdSet(completed);
    }
    assert todo.id in IdSet(all) by {
      CompletedIdsWithin(all);
    }
    ToggleKeepsConsistent(all, completed, todo);
    FlipIdKeepsIds(all, todo.id);
  }

  /**
   * Opening the dialog on a task shown in either list yields a working copy
   * whose flag agrees with every task of its id.
   */
  lemma {:induction false} OpenEditAgrees(all: seq<Task>, completed: seq<Task>, todo: Task)
    requires ListsCoherent(all, completed) && (todo in all || todo in completed)
    ensures FlagAgrees(all, todo)
  {
    forall t | t in all && t.id == todo.id ensures t.completed == todo.completed {
      var i :| 0 <= i < |all| && all[i] == t;
      if todo in all {
        var j :| 0 <= j < |all| && all[j] == todo;
        assert i == j;
      } else {
        assert todo.id in IdSet(CompletedOnly(all));
        var u :| u in CompletedOnly(all) && u.id == todo.id;
        var k :| 0 <= k < |all| && all[k] == u;
        assert i == k;
      }
    }
  }

  /** Committing a working copy whose flag agrees keeps the lists coherent. */
  lemma CommitKeepsCoherent(all: seq<Task>, completed: seq<Task>, e: Task)
    requires ListsCoherent(all, completed) && FlagAgrees(all, e)
    ensures ListsCoherent(ReplaceId(all, e), ReplaceId(completed, e))
  {
    CommitKeepsConsistent(all, completed, e);
    ReplaceIdKeepsIds(all, e);
    if e.id in IdSet(completed) {
      var u :| u in CompletedOnly(all) && u.id == e.id;
      assert u in all;
    }
    var r := ReplaceId(completed, e);
    forall t | t in r ensures t.completed {
      var i :| 0 <= i < |r| && r[i] == t;
      if completed[i].id == e.id {
        assert completed[i] in completed;
      } else {
        assert completed[i] in completed;
      }
    }
  }
}
