# Home page of the railway todo app, modelled in Dafny

The `Home` page of the todo app shows the user's task lists as tabs, lets the
user move between them by clicking or with the left and right arrow keys,
fetches the tasks of the selected list, and shows either the finished or the
unfinished ones, each with a "time remaining" label such as `　　残り1日と1時間0分`.

This project models the logic of that page and proves what it does:

- `Remaining` — `getDiff`: a signed count of minutes until a deadline is split
  into days, hours and minutes by two guarded steps, and printed with the zero day
  and hour parts left out. The method `GetDiff` keeps the source's step-by-step
  reassignments and is proved equal to a closed-form breakdown `RemainingSpec`.
  About that breakdown the model proves that it is exact for every integer, that
  it is the usual bounded split for counts that are not negative, and that a
  negative count passes both guards untouched. About the label it proves which
  marks appear, and that a reader `ParseLabel` recovers the breakdown from it.
  So two different minute counts never get the same label.
- `Decimal` — how a template literal prints a whole number, and a reader for it.
  The round trip between them is proved.
- `Navigation` — `handleKeyDown`: `findIndex` as a loop, the new index under
  JavaScript's truncating `%`, and the read of `lists[newIndex].id`, which throws
  when no list sits there. It is proved against the cyclic order `Forward` and
  `Backward`, whose steps undo each other. Pressing the right arrow as many times
  as there are tabs comes back to the start.
- `TaskFilter` — the `done` filter of the `Tasks` component: it is stable,
  preserves order, is idempotent, keeps each task exactly as often as it occurs
  when its `done` matches, and the two modes partition the tasks. A `null` task
  collection shows nothing.
- `HomePage` — the page's `useState` fields as a class `Home`, one method per
  event: lists loaded, the effect that then selects the first list, list selected,
  tasks received, a fetch failed, mode changed, arrow key pressed. Each method
  states which fields it changes. Loading lists alone may leave a selection that
  is not among the new lists, until the effect runs. The effect puts the selection
  inside the lists. Selecting an id taken from the lists and pressing a key keep it
  there.
- `Wrappers`, `Records`, `Arith` — Option/Result, the two API records, and
  division facts the proofs need.

Network requests, the cookie store and rendering are not modelled. A method that
would send a request returns the id of the list whose tasks it asks for. The answer
arrives later as a call to `TasksReceived` or `TasksFetchFailed`. The minute count
given to `getDiff`, which moment.js computes from the clock, is a parameter.

Behaviour of the code worth noting:

- Arrow-left with a selection that is not among the lists (index −1) gives index
  `(n − 2) % n` under JavaScript's `%`, so `n − 2`, or `0` when there is one list.
  It does not give `n − 1`.
- A negative minute count is not split into negative days. Neither guard fires,
  so the label is the whole negative count in minutes, for example `　　残り-90分`.
- With no lists, or with a missing selection and a key that is not an arrow,
  `lists[newIndex]` is undefined. The handler throws a `TypeError` before
  selecting anything. It is not a guarded no-op.
- `handleSelectList` does not check that the id belongs to the lists. Its callers
  only pass ids taken from the lists.

## Model

| member | source | states |
|---|---|---|
| `Remaining.GetDiff` | src/pages/Home.jsx:150-166 | the label `getDiff` builds is the label of the closed-form breakdown `RemainingSpec` of its minute count |
| `Remaining.RemainingExact` | src/pages/Home.jsx:150-163 | `day*1440 + hour*60 + minute` equals the minute count, for every integer, negative ones included |
| `Remaining.RemainingBounds` | src/pages/Home.jsx:155-163 | for a count ≥ 0: `day` is the count divided by 1440, `0 ≤ hour < 24`, `0 ≤ minute < 60` |
| `Remaining.RemainingNegative` | src/pages/Home.jsx:155-165 | for a count < 0 neither guard fires: no days, no hours, all of the count in the minutes, and the label is just the negative minute count |
| `Remaining.RemainingUnique` | src/pages/Home.jsx:155-163 | for a count ≥ 0, any exact breakdown with whole days, hours under 24 and minutes under 60 is the one `getDiff` gives |
| `Remaining.LabelMarks` | src/pages/Home.jsx:165 | the label contains the day mark `日` if and only if `day > 0`, the hour mark `時` if and only if `hour > 0`, and always the minute mark `分` |
| `Remaining.LabelExamples` | src/pages/Home.jsx:150-165 | 90 minutes read `　　残り1時間30分`; 1500 minutes read `　　残り1日と1時間0分` |
| `Remaining.ParseLabelText` | src/pages/Home.jsx:165 | reading a label back gives the breakdown it was printed from, for every breakdown with no negative day or hour count |
| `Remaining.LabelDeterminesCount` | src/pages/Home.jsx:150-165 | two minute counts with the same label are equal |
| `Decimal.IntToString` | src/pages/Home.jsx:165 | a printed whole number is non-empty, made of digits and a minus sign, and starts with a digit if and only if it is not negative |
| `Decimal.NatToStringValue` | src/pages/Home.jsx:165 | the digits printed for a natural number denote that number |
| `Decimal.ReadIntToString` | src/pages/Home.jsx:165 | reading a printed number, followed by text that does not start with a digit, gives back the number and exactly that text |
| `Navigation.JsRem` | src/pages/Home.jsx:74-77 | JavaScript's `%`: the remainder is smaller than the divisor in size, has the dividend's sign, and differs from the dividend by a multiple of the divisor |
| `Navigation.Forward` | src/pages/Home.jsx:74 | the next tab is an index of the tabs, and it is the first tab exactly when the current one is the last |
| `Navigation.Backward` | src/pages/Home.jsx:77 | the previous tab is an index of the tabs, and it is the last tab exactly when the current one is the first |
| `Navigation.FindIndex` | src/pages/Home.jsx:69 | the index of the first list whose id is the selected one, or −1 exactly when no list has it |
| `Navigation.NewIndex` | src/pages/Home.jsx:70-78 | right arrow gives the next tab and left arrow the previous one in the cycle; another key keeps the index; with no lists an arrow gives NaN; from index −1 right gives 0 and left gives `n − 2`, or 0 for one list |
| `Navigation.IdAt` | src/pages/Home.jsx:79 | `lists[newIndex].id` succeeds exactly for an index of the lists, and gives that list's id; otherwise it throws |
| `Navigation.KeyTarget` | src/pages/Home.jsx:68-79 | with the selection found at index `i`, the id passed on is that of the next, previous or same tab, and nothing throws; with no lists it throws; with the selection absent, right gives the first list, left the one at `n − 2` (or the first), and another key throws |
| `Navigation.ForwardBackwardInverse` | src/pages/Home.jsx:74-77 | a step right then left, or left then right, returns to the same tab |
| `Navigation.ForwardTimesShift` | src/pages/Home.jsx:74 | `k` presses of the right arrow from tab `i` reach tab `(i + k) mod n` |
| `Navigation.ForwardFullCycle` | src/pages/Home.jsx:74 | `n` presses of the right arrow return to the starting tab |
| `TaskFilter.FilterByDone` | src/pages/Home.jsx:199-202 | the kept tasks all have the wanted `done` value, and there are no more of them than tasks in the collection |
| `TaskFilter.Visible` | src/pages/Home.jsx:168-176 | a `null` task collection shows nothing; in mode `'done'` every shown task is finished, in any other mode every shown task is unfinished |
| `TaskFilter.FilterAppend` | src/pages/Home.jsx:199-202 | filtering a concatenation is the concatenation of the filtered parts |
| `TaskFilter.FilterIsSubsequence` | src/pages/Home.jsx:173-176 | the shown tasks are a subsequence of the collection: their order is kept |
| `TaskFilter.FilterCounts` | src/pages/Home.jsx:173-176 | each task is kept as often as it occurs when its `done` is the wanted one, and never otherwise |
| `TaskFilter.FilterIdempotent` | src/pages/Home.jsx:199-202 | filtering twice with the same mode is filtering once |
| `TaskFilter.FilterPartition` | src/pages/Home.jsx:170-202 | the finished and the unfinished tasks together are the collection, as a multiset and in number |
| `TaskFilter.FilterKeepsAll` | src/pages/Home.jsx:199-202 | the filter returns the collection unchanged if and only if every task has the wanted `done` |
| `TaskFilter.VisibleLabels` | src/pages/Home.jsx:170-215 | every shown row reads `完了` in mode `'done'` and `未完了` in any other mode |
| `HomePage.Home.constructor` | src/pages/Home.jsx:11-15 | the page starts in mode `'todo'` with no lists, no selection, an empty task array and no error |
| `HomePage.Home.HandleIsDoneDisplayChange` | src/pages/Home.jsx:17 | picking a mode changes only the mode |
| `HomePage.Home.ListsLoaded` | src/pages/Home.jsx:25-27 | the answered list request replaces the lists wholesale and changes nothing else |
| `HomePage.Home.ListsEffect` | src/pages/Home.jsx:33-50 | after the lists change, a non-empty list collection has its first list selected and its tasks asked for; an empty one leaves the selection and asks for nothing; afterwards the selection is inside the lists |
| `HomePage.Home.ListsFetchFailed` | src/pages/Home.jsx:28-29 | a failed list request changes only the error message, to the fixed text followed by the error |
| `HomePage.Home.SelectList` | src/pages/Home.jsx:52-53 | selecting a list sets the selection and asks for that list's tasks |
| `HomePage.Home.TasksReceived` | src/pages/Home.jsx:43-44 | an answered task request replaces the tasks wholesale |
| `HomePage.Home.TasksFetchFailed` | src/pages/Home.jsx:46-47 | a failed task request changes only the error message; lists, selection and tasks stay |
| `HomePage.Home.KeyDown` | src/pages/Home.jsx:68-80 | an arrow key selects the neighbouring tab in the cycle; with the selection absent from non-empty lists, right selects the first list, left the one at `n − 2` (or the first), and another key throws; a throw leaves the selection as it was; a selection inside non-empty lists never throws and stays inside them |

## Left out

- HTTP requests with axios, their URLs and the `Bearer` header built from the
  cookie token: requests are the ids the methods return, answers are method calls.
- The order in which overlapping task requests are answered: a late answer for
  an older selection overwrites newer tasks in the page. Each answer is one
  `TasksReceived` call, in whatever order the caller makes them.
- The deadline text `moment(limit).subtract(9, 'hours').format('YYYY-MM-DD-HH-MM')`
  and the minute difference `diff(now, 'minute')`: moment.js works on the wall
  clock, so the difference is the integer parameter of `GetDiff`. The trailing
  `MM` of that format is moment's month token, not minutes. This is not modelled.
- `parseInt` of the printed difference: it gives back the same whole number, so
  `GetDiff` takes the number itself.
- JavaScript numbers are 64-bit floating point: minute counts beyond 2^53 are not
  modelled, and the model's integers are unbounded.
- `Task.done` is a boolean, as the API sends it. With a non-boolean `done`, a task
  passes neither `=== true` nor `=== false` and is shown in no mode. The partition
  lemma holds for boolean `done` only.
- Rendering: JSX, `Link` routes, CSS classes, `aria-pressed`, `tabIndex`, the
  `<select>` element and the `key` of each row.
