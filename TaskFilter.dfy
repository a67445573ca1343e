/** Which tasks the page's `Tasks` component shows: in mode `'done'` the tasks whose
    `done` is true, in any other mode those whose `done` is false, in their order. */
module TaskFilter {
  import opened Wrappers
  import opened Records

  const DoneMode := "done"
  const DoneText := "完了"
  const NotDoneText := "未完了"

  /** The `done` value a mode shows: `isDoneDisplay == 'done'` selects finished tasks. */
  function ShownDone(mode: string): bool {
    mode == DoneMode
  }

  /** `tasks.filter((task) => task.done === want)`. */
  function FilterByDone(tasks: seq<Task>, want: bool): (r: seq<Task>)
    ensures |r| <= |tasks|
    ensures forall k :: 0 <= k < |r| ==> r[k].done == want
  {
    if tasks == [] then []
    else (if tasks[0].done == want then [tasks[0]] else []) + FilterByDone(tasks[1..], want)
  }

  /** The tasks the component renders; a `null` task collection renders nothing. */
  function Visible(tasks: Option<seq<Task>>, mode: string): (r: seq<Task>)
    ensures tasks.None? ==> r == []
    ensures forall k :: 0 <= k < |r| ==> r[k].done == (mode == DoneMode)
    ensures tasks.Some? ==> |r| <= |tasks.value|
  {
    match tasks
    case None => []
    case Some(ts) => FilterByDone(ts, ShownDone(mode))
  }

  /** The completion text under a task: `task.done ? '完了' : '未完了'`. */
  function DoneLabel(t: Task): string {
    if t.done then DoneText else NotDoneText
  }

  /** `xs` is `ys` with some elements left out and the rest in their order. */
  ghost predicate IsSubsequence(xs: seq<Task>, ys: seq<Task>)
    decreases |ys|
  {
    xs == [] || (ys != [] && (if xs[0] == ys[0] then IsSubsequence(xs[1..], ys[1..])
                              else IsSubsequence(xs, ys[1..])))
  }

  /** Filtering a concatenation filters each part: the filter is stable. */
  lemma {:induction false} FilterAppend(a: seq<Task>, b: seq<Task>, want: bool)
    ensures FilterByDone(a + b, want) == FilterByDone(a, want) + FilterByDone(b, want)
  {
    if a == [] {
      assert a + b == b;
    } else {
      var head := if a[0].done == want then [a[0]] else [];
      assert (a + b)[0] == a[0] && (a + b)[1..] == a[1..] + b;
      assert FilterByDone(a + b, want) == head + FilterByDone(a[1..] + b, want);
      FilterAppend(a[1..], b, want);
      assert FilterByDone(a, want) == head + FilterByDone(a[1..], want);
    }
  }

  /** The shown tasks keep the order they have in the collection. */
  lemma {:induction false} FilterIsSubsequence(tasks: seq<Task>, want: bool)
    ensures IsSubsequence(FilterByDone(tasks, want), tasks)
  {
    if tasks != [] {
      FilterIsSubsequence(tasks[1..], want);
      var rest := FilterByDone(tasks[1..], want);
      if tasks[0].done == want {
        assert FilterByDone(tasks, want) == [tasks[0]] + rest;
        assert ([tasks[0]] + rest)[1..] == rest;
      } else {
        assert FilterByDone(tasks, want) == rest;
        if rest != [] {
          assert rest[0].done == want;
        }
      }
    }
  }

  /** Every task of the collection is shown exactly as often as it occurs, if its `done`
      is the wanted one, and never otherwise. */
  lemma {:induction false} FilterCounts(tasks: seq<Task>, want: bool, t: Task)
    ensures multiset(FilterByDone(tasks, want))[t] == if t.done == want then multiset(tasks)[t] else 0
  {
    if tasks != [] {
      FilterCounts(tasks[1..], want, t);
      assert tasks == [tasks[0]] + tasks[1..];
    }
  }

  /** Filtering again with the same mode changes nothing. */
  lemma {:induction false} FilterIdempotent(tasks: seq<Task>, want: bool)
    ensures FilterByDone(FilterByDone(tasks, want), want) == FilterByDone(tasks, want)
  {
    if tasks != [] {
      FilterIdempotent(tasks[1..], want);
      var rest := FilterByDone(tasks[1..], want);
      if tasks[0].done == want {
        var kept := [tasks[0]] + rest;
        assert FilterByDone(tasks, want) == kept;
        assert kept[0] == tasks[0] && kept[1..] == rest;
        assert FilterByDone(kept, want) == [tasks[0]] + FilterByDone(rest, want);
      } else {
        assert FilterByDone(tasks, want) == rest;
      }
    }
  }

  /** The finished and the unfinished tasks together are the whole collection, each task
      as often as it occurs: the two modes partition the tasks. */
  lemma {:induction false} FilterPartition(tasks: seq<Task>)
    ensures multiset(FilterByDone(tasks, true)) + multiset(FilterByDone(tasks, false)) == multiset(tasks)
    ensures |FilterByDone(tasks, true)| + |FilterByDone(tasks, false)| == |tasks|
  {
    if tasks != [] {
      FilterPartition(tasks[1..]);
      assert tasks == [tasks[0]] + tasks[1..];
    }
  }

  /** The filter returns the collection unchanged exactly when every task has the wanted `done`. */
  lemma {:induction false} FilterKeepsAll(tasks: seq<Task>, want: bool)
    ensures FilterByDone(tasks, want) == tasks <==> forall k :: 0 <= k < |tasks| ==> tasks[k].done == want
  {
    if tasks != [] {
      FilterKeepsAll(tasks[1..], want);
      if tasks[0].done != want {
        assert |FilterByDone(tasks, want)| < |tasks|;
      }
    }
  }

  /** Every row shown in mode `'done'` reads 完了, every row shown in another mode reads 未完了. */
  lemma VisibleLabels(tasks: Option<seq<Task>>, mode: string)
    ensures forall k :: 0 <= k < |Visible(tasks, mode)| ==>
      DoneLabel(Visible(tasks, mode)[k]) == if mode == DoneMode then DoneText else NotDoneText
  {
  }
}
