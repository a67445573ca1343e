/** The two records the page receives from the task API. */
module Records {

  type ListId = string
  type TaskId = string

  /** One entry of `GET /lists`; the order of the collection is the tab order. */
  datatype TaskList = TaskList(id: ListId, title: string)

  /** One entry of `GET /lists/{id}/tasks`; `limit` is the deadline as the API sends it. */
  datatype Task = Task(id: TaskId, title: string, done: bool, limit: string)

  /** The ids of `lists`, in order. */
  function Ids(lists: seq<TaskList>): (ids: seq<ListId>)
    ensures |ids| == |lists|
    ensures forall i :: 0 <= i < |lists| ==> ids[i] == lists[i].id
  {
    seq(|lists|, i requires 0 <= i < |lists| => lists[i].id)
  }
}
