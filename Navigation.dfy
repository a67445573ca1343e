/** Arrow-key navigation among the list tabs (`handleKeyDown` of the `Home` page):
    find the selected list, step to the next or previous tab in a cycle, and read
    the id of the list found there. */
module Navigation {
  import opened Wrappers
  import opened Records
  import Arith

  const ArrowRight := "ArrowRight"
  const ArrowLeft := "ArrowLeft"

  /** Stands for the `TypeError` that `lists[newIndex].id` throws when no list sits at
      `newIndex`; the exact message text differs between JavaScript engines. */
  const ReadIdOfUndefined := "TypeError"

  /** An index as JavaScript computes it: `x % 0` gives NaN, which indexes nothing. */
  datatype JsIndex = At(i: int) | NotANumber

  /** JavaScript's `%` for a positive divisor: the remainder keeps the dividend's sign. */
  function JsRem(a: int, n: int): (r: int)
    requires n > 0
    ensures -n < r < n
    ensures a >= 0 ==> r >= 0
    ensures a <= 0 ==> r <= 0
    ensures (a - r) % n == 0
  {
    if a >= 0 then
      assert a - a % n == n * (a / n);
      Arith.MultipleMod(n, a / n);
      a % n
    else
      assert a + (-a) % n == n * -((-a) / n);
      Arith.MultipleMod(n, -((-a) / n));
      -((-a) % n)
  }

  /** The tab after `i`, the first one coming after the last. */
  function Forward(i: nat, n: nat): (j: nat)
    requires i < n
    ensures j < n
    ensures j == 0 <==> i == n - 1
  {
    if i + 1 == n then 0 else i + 1
  }

  /** The tab before `i`, the last one coming before the first. */
  function Backward(i: nat, n: nat): (j: nat)
    requires i < n
    ensures j < n
    ensures j == n - 1 <==> i == 0
  {
    if i == 0 then n - 1 else i - 1
  }

  /** `i` is where `findIndex` stops: the first list whose id is the selected one. */
  ghost predicate FirstMatch(lists: seq<TaskList>, selected: Option<ListId>, i: int) {
    0 <= i < |lists| && Some(lists[i].id) == selected
    && forall j :: 0 <= j < i ==> Some(lists[j].id) != selected
  }

  /** No list has the selected id (an undefined selection matches none). */
  ghost predicate Absent(lists: seq<TaskList>, selected: Option<ListId>) {
    forall j :: 0 <= j < |lists| ==> Some(lists[j].id) != selected
  }

  /** `lists.findIndex((list) => list.id === selectListId)`. */
  method FindIndex(lists: seq<TaskList>, selected: Option<ListId>) returns (index: int)
    ensures index == -1 || FirstMatch(lists, selected, index)
    ensures index == -1 <==> Absent(lists, selected)
  {
    index := 0;
    while index < |lists|
      invariant 0 <= index <= |lists|
      invariant forall j :: 0 <= j < index ==> Some(lists[j].id) != selected
    {
      if Some(lists[index].id) == selected {
        return;
      }
      index := index + 1;
    }
    index := -1;
  }

  /** The `newIndex` of `handleKeyDown`: the current index, replaced by a step right or
      left under JavaScript's `%` when the key is an arrow. */
  method NewIndex(key: string, currentIndex: int, length: nat) returns (newIndex: JsIndex)
    requires -1 <= currentIndex < length
    ensures key != ArrowRight && key != ArrowLeft ==> newIndex == At(currentIndex)
    ensures (key == ArrowRight || key == ArrowLeft) && length == 0 ==> newIndex == NotANumber
    ensures key == ArrowRight && currentIndex >= 0 ==> newIndex == At(Forward(currentIndex, length))
    ensures key == ArrowLeft && currentIndex >= 0 ==> newIndex == At(Backward(currentIndex, length))
    ensures key == ArrowRight && currentIndex == -1 && length > 0 ==> newIndex == At(0)
    ensures key == ArrowLeft && currentIndex == -1 && length > 0
         ==> newIndex == At(if length == 1 then 0 else length - 2)
  {
    newIndex := At(currentIndex);
    if key == ArrowRight {
      if length == 0 {
        newIndex := NotANumber;
      } else {
        var r := JsRem(currentIndex + 1, length);
        if currentIndex + 1 < length {
          Arith.DivModUnique(currentIndex + 1, length, 0, currentIndex + 1);
        } else {
          Arith.DivModUnique(length, length, 1, 0);
        }
        newIndex := At(r);
      }
    } else if key == ArrowLeft {
      if length == 0 {
        newIndex := NotANumber;
      } else {
        var r := JsRem(currentIndex - 1 + length, length);
        if currentIndex >= 1 || length >= 2 {
          var a := currentIndex - 1 + length;
          if a < length {
            Arith.DivModUnique(a, length, 0, a);
          } else {
            Arith.DivModUnique(a, length, 1, a - length);
          }
        }
        newIndex := At(r);
      }
    }
  }

  /** `lists[newIndex].id`, which throws when `newIndex` is not an index of `lists`. */
  function IdAt(lists: seq<TaskList>, index: JsIndex): (r: Result<ListId, string>)
    ensures r.Success? <==> index.At? && 0 <= index.i < |lists|
    ensures r.Success? ==> r.value == lists[index.i].id
    ensures r.Failure? ==> r.error == ReadIdOfUndefined
  {
    match index
    case At(i) => if 0 <= i < |lists| then Success(lists[i].id) else Failure(ReadIdOfUndefined)
    case NotANumber => Failure(ReadIdOfUndefined)
  }

  /** The list id `handleKeyDown` passes on to `handleSelectList`, or the error it throws. */
  method KeyTarget(lists: seq<TaskList>, selected: Option<ListId>, key: string)
    returns (target: Result<ListId, string>)
    ensures |lists| == 0 ==> target == Failure(ReadIdOfUndefined)
    ensures target.Success? ==> target.value in Ids(lists)
    ensures !Absent(lists, selected) ==> target.Success?
    ensures forall i :: FirstMatch(lists, selected, i) ==>
      target == Success(lists[if key == ArrowRight then Forward(i, |lists|)
                              else if key == ArrowLeft then Backward(i, |lists|)
                              else i].id)
    ensures Absent(lists, selected) && |lists| > 0 ==>
      target == (if key == ArrowRight then Success(lists[0].id)
                 else if key == ArrowLeft then Success(lists[if |lists| == 1 then 0 else |lists| - 2].id)
                 else Failure(ReadIdOfUndefined))
  {
    var currentIndex := FindIndex(lists, selected);
    var newIndex := NewIndex(key, currentIndex, |lists|);
    target := IdAt(lists, newIndex);
    if target.Success? {
      assert Ids(lists)[newIndex.i] == target.value;
    }
    forall i | FirstMatch(lists, selected, i) ensures i == currentIndex {
    }
  }

  /** Each arrow undoes the other. */
  lemma ForwardBackwardInverse(i: nat, n: nat)
    requires i < n
    ensures Backward(Forward(i, n), n) == i
    ensures Forward(Backward(i, n), n) == i
  {
  }

  /** `k` presses of the right arrow from tab `i`. */
  function ForwardTimes(i: nat, k: nat, n: nat): (j: nat)
    requires i < n
    ensures j < n
    decreases k
  {
    if k == 0 then i else ForwardTimes(Forward(i, n), k - 1, n)
  }

  /** `k` presses of the right arrow move `k` tabs along the cycle. */
  lemma {:induction false} ForwardTimesShift(i: nat, k: nat, n: nat)
    requires i < n
    ensures ForwardTimes(i, k, n) == (i + k) % n
    decreases k
  {
    if k == 0 {
      Arith.DivModUnique(i, n, 0, i);
    } else {
      ForwardTimesShift(Forward(i, n), k - 1, n);
      if i + 1 == n {
        Arith.ModSubtractDivisor(i + k, n);
      }
    }
  }

  /** As many presses of the right arrow as there are tabs come back to the start. */
  lemma ForwardFullCycle(i: nat, n: nat)
    requires i < n
    ensures ForwardTimes(i, n, n) == i
  {
    ForwardTimesShift(i, n, n);
    Arith.ModSubtractDivisor(i + n, n);
    Arith.DivModUnique(i, n, 0, i);
  }
}
