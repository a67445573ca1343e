/** The state of the `Home` page: the five `useState` fields, and one method per event
    that sets them. A network request is not made here: a method that would send one
    returns the id of the list whose tasks it asks for, and the answer comes back later
    as a call to `TasksReceived` or `TasksFetchFailed`. */
module HomePage {
  import opened Wrappers
  import opened Records
  import Navigation
  import TaskFilter

  const ListsFetchFailure := "リストの取得に失敗しました。"
  const TasksFetchFailure := "タスクの取得に失敗しました。"

  class Home {
    var isDoneDisplay: string
    var lists: seq<TaskList>
    var selectListId: Option<ListId>
    /** `None` is the `null` an answer may carry in place of a task array. */
    var tasks: Option<seq<Task>>
    var errorMessage: string

    /** Once lists are loaded, the selection is one of them. */
    ghost predicate SelectionInLists()
      reads this
    {
      |lists| > 0 ==> selectListId.Some? && selectListId.value in Ids(lists)
    }

    /** The first render: mode `'todo'`, no lists, no selection, no tasks, no error. */
    constructor ()
      ensures isDoneDisplay == "todo" && lists == [] && selectListId == None
      ensures tasks == Some([]) && errorMessage == ""
      ensures SelectionInLists()
    {
      isDoneDisplay := "todo";
      lists := [];
      selectListId := None;
      tasks := Some([]);
      errorMessage := "";
    }

    /** The tasks the page shows now. */
    function Shown(): seq<Task>
      reads this
    {
      TaskFilter.Visible(tasks, isDoneDisplay)
    }

    /** The display mode picked in the select box; nothing else changes. */
    method HandleIsDoneDisplayChange(value: string)
      modifies this`isDoneDisplay
      ensures isDoneDisplay == value
    {
      isDoneDisplay := value;
    }

    /** The list request answered (`setLists`): the lists are replaced wholesale and
        nothing else changes. The page renders this state before its effect runs, so
        for a moment the selection may not be one of the new lists. */
    method ListsLoaded(data: seq<TaskList>)
      modifies this`lists
      ensures lists == data
    {
      lists := data;
    }

    /** The effect that runs after the lists change: when there is a first list, it is
        selected and its tasks are asked for; otherwise nothing happens. */
    method ListsEffect() returns (fetch: Option<ListId>)
      modifies this`selectListId
      ensures |lists| > 0 ==> selectListId == Some(lists[0].id) && fetch == Some(lists[0].id)
      ensures |lists| == 0 ==> selectListId == old(selectListId) && fetch == None
      ensures SelectionInLists()
    {
      fetch := None;
      if |lists| > 0 {
        var listId := lists[0].id;
        selectListId := Some(listId);
        fetch := Some(listId);
      }
    }

    /** The list request failed: only the error message changes. */
    method ListsFetchFailed(err: string)
      modifies this`errorMessage
      ensures errorMessage == ListsFetchFailure + err
    {
      errorMessage := ListsFetchFailure + err;
    }

    /** `handleSelectList(id)`: select the list and ask for its tasks. */
    method SelectList(id: ListId) returns (fetch: ListId)
      modifies this`selectListId
      ensures selectListId == Some(id) && fetch == id
      ensures id in Ids(lists) ==> SelectionInLists()
    {
      selectListId := Some(id);
      fetch := id;
    }

    /** A task request answered: the tasks are replaced wholesale. */
    method TasksReceived(received: Option<seq<Task>>)
      modifies this`tasks
      ensures tasks == received
    {
      tasks := received;
    }

    /** A task request failed: only the error message changes; the old tasks stay shown. */
    method TasksFetchFailed(err: string)
      modifies this`errorMessage
      ensures errorMessage == TasksFetchFailure + err
    {
      errorMessage := TasksFetchFailure + err;
    }

    /** `handleKeyDown`: an arrow key selects the neighbouring tab in the cycle and asks for
        its tasks. When `lists[newIndex]` is undefined the handler throws before selecting
        anything: the error comes back and the state is as it was. */
    method KeyDown(key: string) returns (outcome: Result<ListId, string>)
      modifies this`selectListId
      ensures outcome.Failure? ==> selectListId == old(selectListId)
      ensures outcome.Success? ==> selectListId == Some(outcome.value) && outcome.value in Ids(lists)
      ensures old(SelectionInLists()) ==> SelectionInLists()
      ensures forall i :: Navigation.FirstMatch(lists, old(selectListId), i) ==>
        outcome == Success(lists[if key == Navigation.ArrowRight then Navigation.Forward(i, |lists|)
                                 else if key == Navigation.ArrowLeft then Navigation.Backward(i, |lists|)
                                 else i].id)
      ensures Navigation.Absent(lists, old(selectListId)) && |lists| > 0 ==>
        outcome == (if key == Navigation.ArrowRight then Success(lists[0].id)
                    else if key == Navigation.ArrowLeft
                    then Success(lists[if |lists| == 1 then 0 else |lists| - 2].id)
                    else Failure(Navigation.ReadIdOfUndefined))
      ensures |lists| == 0 ==> outcome.Failure?
      ensures old(SelectionInLists()) && |lists| > 0 ==> outcome.Success?
    {
      if SelectionInLists() && |lists| > 0 {
        var k :| 0 <= k < |lists| && Ids(lists)[k] == selectListId.value;
        assert Some(lists[k].id) == selectListId;
      }
      outcome := Navigation.KeyTarget(lists, selectListId, key);
      if outcome.Success? {
        var _ := SelectList(outcome.value);
      }
    }
  }

  /** Two lists, the first one selected once the effect has run: the right arrow moves
      to the second and, pressed again, wraps round to the first. A failed task request
      then leaves the tasks as they were. */
  method TwoListsScenario() {
    var page := new Home();
    var a, b := TaskList("1", "A"), TaskList("2", "B");
    page.ListsLoaded([a, b]);
    var fetch := page.ListsEffect();
    assert fetch == Some("1") && page.selectListId == Some("1");
    page.TasksReceived(Some([Task("t", "T", false, "2024-01-01")]));
    assert Navigation.FirstMatch(page.lists, page.selectListId, 0);
    var moved := page.KeyDown(Navigation.ArrowRight);
    assert moved == Success("2") && page.selectListId == Some("2");
    assert Navigation.FirstMatch(page.lists, page.selectListId, 1);
    moved := page.KeyDown(Navigation.ArrowRight);
    assert moved == Success("1") && page.selectListId == Some("1");
    page.TasksFetchFailed("Error: Network Error");
    assert page.tasks == Some([Task("t", "T", false, "2024-01-01")]);
    assert page.Shown() == [Task("t", "T", false, "2024-01-01")];
  }

  /** Three lists loaded while an old selection is still set, before the effect runs:
      the selection is absent from the new lists, so the left arrow picks the list at
      index `n - 2` and a key that is not an arrow throws. */
  method StaleSelectionScenario() {
    var page := new Home();
    page.ListsLoaded([TaskList("a", "A")]);
    var _ := page.ListsEffect();
    page.ListsLoaded([TaskList("1", "X"), TaskList("2", "Y"), TaskList("3", "Z")]);
    assert page.selectListId == Some("a");
    assert Navigation.Absent(page.lists, page.selectListId);
    var other := page.KeyDown("Enter");
    assert other == Failure(Navigation.ReadIdOfUndefined) && page.selectListId == Some("a");
    var moved := page.KeyDown(Navigation.ArrowLeft);
    assert moved == Success("2") && page.selectListId == Some("2");
  }
}
