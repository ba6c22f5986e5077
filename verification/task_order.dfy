/**
 * The order the client renders tasks in: incomplete tasks before completed
 * ones, and within each group High before Medium before Low; then the split
 * of the sorted list into the incomplete list and the completed list.
 */
module TaskOrder {
  import opened Priorities
  import opened ClientModel

  /**
   * The comparator handed to `tasks.sort`: a negative result puts `a` first.
   * Tasks that differ in completion are ordered incomplete first; tasks that
   * agree are ordered by priority rank, and tie only on equal priority.
   */
  function Compare(a: ClientTask, b: ClientTask): (c: int)
    ensures a.isCompleted != b.isCompleted ==> c != 0 && (c < 0 <==> !a.isCompleted)
    ensures a.isCompleted == b.isCompleted ==> (c < 0 <==> Rank(a.priority) < Rank(b.priority))
    ensures a.isCompleted == b.isCompleted ==> (c == 0 <==> a.priority == b.priority)
  {
    if a.isCompleted != b.isCompleted then
      (if a.isCompleted then 1 else -1)
    else
      RankOrder(a.priority, b.priority);
      Rank(a.priority) - Rank(b.priority)
  }

  /** The sort key: completion (incomplete = 0, completed = 1), then priority rank. */
  function Key(t: ClientTask): (int, int) {
    (if t.isCompleted then 1 else 0, Rank(t.priority))
  }

  /** The lexicographic order on keys: `a` may come before `b`. */
  predicate KeyLe(a: ClientTask, b: ClientTask) {
    Key(a).0 < Key(b).0 || (Key(a).0 == Key(b).0 && Key(a).1 <= Key(b).1)
  }

  /**
   * The comparator is antisymmetric and decides exactly the key order: `a`
   * may precede `b` when the comparator is not positive, and must when it is
   * negative.
   */
  lemma CompareIsKeyOrder(a: ClientTask, b: ClientTask)
    ensures Compare(a, b) == -Compare(b, a)
    ensures Compare(a, b) <= 0 <==> KeyLe(a, b)
    ensures Compare(a, b) < 0 <==> KeyLe(a, b) && !KeyLe(b, a)
  {
  }

  /** `s` is in the order the comparator asks for. */
  predicate Sorted(s: seq<ClientTask>) {
    forall i, j :: 0 <= i < j < |s| ==> KeyLe(s[i], s[j])
  }

  /** Inserts `t` into the sorted `s` after every element that does not sort strictly after it. */
  function Insert(t: ClientTask, s: seq<ClientTask>): (r: seq<ClientTask>)
    requires Sorted(s)
    ensures Sorted(r)
    ensures multiset(r) == multiset(s) + multiset{t}
  {
    if s == [] then [t]
    else if Compare(t, s[0]) < 0 then
      [t] + s
    else
      var rest := Insert(t, s[1..]);
      assert s == [s[0]] + s[1..];
      assert forall x :: x in rest ==> x in multiset(s[1..]) + multiset{t};
      assert forall x :: x in rest ==> KeyLe(s[0], x) by {
        forall x | x in rest
          ensures KeyLe(s[0], x)
        {
          assert x in multiset(s[1..]) + multiset{t};
          if x != t {
            assert x in s[1..];
          }
        }
      }
      [s[0]] + rest
  }

  /** `tasks.sort(comparator)`: a permutation of `ts` in comparator order. */
  method SortTasks(ts: seq<ClientTask>) returns (r: seq<ClientTask>)
    ensures Sorted(r)
    ensures multiset(r) == multiset(ts)
  {
    r := [];
    var i := 0;
    while i < |ts|
      invariant 0 <= i <= |ts|
      invariant Sorted(r)
      invariant multiset(r) == multiset(ts[..i])
    {
      assert ts[..i + 1] == ts[..i] + [ts[i]];
      r := Insert(ts[i], r);
      i := i + 1;
    }
    assert ts[..|ts|] == ts;
  }

  /** `sortedTasks.filter(task => !task.is_completed)`. */
  function IncompleteTasks(s: seq<ClientTask>): (r: seq<ClientTask>)
    ensures forall k :: 0 <= k < |r| ==> !r[k].isCompleted
    ensures forall t :: t in r <==> t in s && !t.isCompleted
  {
    if s == [] then []
    else (if !s[0].isCompleted then [s[0]] else []) + IncompleteTasks(s[1..])
  }

  /** `sortedTasks.filter(task => task.is_completed)`. */
  function CompletedTasks(s: seq<ClientTask>): (r: seq<ClientTask>)
    ensures forall k :: 0 <= k < |r| ==> r[k].isCompleted
    ensures forall t :: t in r <==> t in s && t.isCompleted
  {
    if s == [] then []
    else (if s[0].isCompleted then [s[0]] else []) + CompletedTasks(s[1..])
  }

  /** Together the two lists hold every task exactly as often as the input does. */
  lemma {:induction false} PartitionIsPermutation(s: seq<ClientTask>)
    ensures multiset(IncompleteTasks(s)) + multiset(CompletedTasks(s)) == multiset(s)
  {
    if s != [] {
      PartitionIsPermutation(s[1..]);
      assert s == [s[0]] + s[1..];
    }
  }

  /**
   * On a sorted list the split is a cut: the incomplete list is a prefix,
   * the completed list the rest, so each keeps the sorted order.
   */
  lemma {:induction false} SortedSplitsInTwo(s: seq<ClientTask>)
    requires Sorted(s)
    ensures s == IncompleteTasks(s) + CompletedTasks(s)
    ensures Sorted(IncompleteTasks(s)) && Sorted(CompletedTasks(s))
  {
    SortedIsCut(s);
    var inc, comp := IncompleteTasks(s), CompletedTasks(s);
    assert inc == s[..|inc|] && comp == s[|inc|..];
  }

  lemma {:induction false} SortedIsCut(s: seq<ClientTask>)
    requires Sorted(s)
    ensures s == IncompleteTasks(s) + CompletedTasks(s)
  {
    if s != [] {
      var tail := s[1..];
      assert Sorted(tail);
      if s[0].isCompleted {
        CompletedHeadRest(s);
        AllCompleted(s);
      } else {
        SortedIsCut(tail);
        assert IncompleteTasks(s) == [s[0]] + IncompleteTasks(tail);
        assert CompletedTasks(s) == CompletedTasks(tail);
        assert s == [s[0]] + tail;
      }
    }
  }

  /** In a sorted list, a completed first task means every task is completed. */
  lemma CompletedHeadRest(s: seq<ClientTask>)
    requires Sorted(s) && s != [] && s[0].isCompleted
    ensures forall k :: 0 <= k < |s| ==> s[k].isCompleted
  {
    forall k | 0 < k < |s|
      ensures s[k].isCompleted
    {
      assert KeyLe(s[0], s[k]);
    }
  }

  /** A list of completed tasks has no incomplete part and is its own completed part. */
  lemma {:induction false} AllCompleted(s: seq<ClientTask>)
    requires forall k :: 0 <= k < |s| ==> s[k].isCompleted
    ensures IncompleteTasks(s) == [] && CompletedTasks(s) == s
  {
    if s != [] {
      AllCompleted(s[1..]);
    }
  }

  /**
   * What the client renders: the tasks sorted, then split into the
   * incomplete list shown first and the completed list shown after it.
   */
  method Render(tasks: seq<ClientTask>) returns (incomplete: seq<ClientTask>, completed: seq<ClientTask>)
    ensures forall k :: 0 <= k < |incomplete| ==> !incomplete[k].isCompleted
    ensures forall k :: 0 <= k < |completed| ==> completed[k].isCompleted
    ensures multiset(incomplete) + multiset(completed) == multiset(tasks)
    ensures Sorted(incomplete + completed)
  {
    var sorted := SortTasks(tasks);
    incomplete := IncompleteTasks(sorted);
    completed := CompletedTasks(sorted);
    SortedSplitsInTwo(sorted);
    PartitionIsPermutation(sorted);
  }
}
