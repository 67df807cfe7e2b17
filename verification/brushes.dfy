/**
 Brushes of the heatmap painter (static/js/gitfiti.js): the `auto` brush steps a
 cell to the next bracket, a fixed brush paints one count.
 */
module Brushes {
  import opened Wrappers
  import opened Brackets

  datatype Brush = Auto | Fixed(count: int)

  /**
   The count the `auto` brush gives a cell holding `count`: the minimum of the
   bracket after the one holding `count`, wrapping to bracket 0 from the last
   bracket; None (gitfiti.js leaves `newCount` undefined) when no bracket holds it.
   */
  function AutoCount(brackets: seq<Bracket>, count: int): Option<int> {
    match BracketOf(brackets, count)
    case None => None
    case Some(i) =>
      if i == |brackets| - 1 then Some(brackets[0].min) else Some(brackets[i + 1].min)
  }

  /**
   The `auto` brush is defined exactly when some bracket holds the count; it
   yields a bracket minimum: the smallest minimum above the count when there is
   one (in an ascending table), else bracket 0's minimum.
   */
  lemma AutoCountIsNextMinimum(brackets: seq<Bracket>, count: int)
    ensures AutoCount(brackets, count).None? <==> forall j :: 0 <= j < |brackets| ==> count < brackets[j].min
    ensures AutoCount(brackets, count).Some? ==> exists j :: 0 <= j < |brackets| && brackets[j].min == AutoCount(brackets, count).value
    ensures AutoCount(brackets, count).Some? && (forall j :: 0 <= j < |brackets| ==> brackets[j].min <= count) ==>
      AutoCount(brackets, count).value == brackets[0].min
    ensures Ascending(brackets) && AutoCount(brackets, count).Some? && (exists j :: 0 <= j < |brackets| && count < brackets[j].min) ==>
      && count < AutoCount(brackets, count).value
      && forall j :: 0 <= j < |brackets| && count < brackets[j].min ==> AutoCount(brackets, count).value <= brackets[j].min
  {
  }

  /** The count a brush paints over a cell holding `count`. */
  function NewCount(brush: Brush, brackets: seq<Bracket>, count: int): Option<int> {
    match brush
    case Auto => AutoCount(brackets, count)
    case Fixed(n) => Some(n)
  }

  /**
   Clicking a brush holder: an empty `data-brush-index` selects `auto`, an index
   selects that bracket's minimum; an index outside the table makes the handler
   throw, so no brush is selected (None).
   */
  function SelectBrush(index: Option<int>): (r: Option<Brush>)
    ensures index.None? ==> r == Some(Auto)
    ensures index.Some? ==> (r.Some? <==> 0 <= index.value < |Table|)
    ensures index.Some? && 0 <= index.value < |Table| ==> r == Some(Fixed(Table[index.value].min))
    ensures r.Some? && r.value.Fixed? ==> r.value.count == Table[index.value].min
    ensures r.Some? && r.value.Fixed? ==> 0 <= r.value.count <= Table[|Table| - 1].min
  {
    match index
    case None => Some(Auto)
    case Some(i) => if 0 <= i < |Table| then Some(Fixed(Table[i].min)) else None
  }

  /** The page's `auto` step for a count >= 0: the next of the minimums 1, 5, 10, 14, wrapping to 0. */
  function StepNext(count: int): int {
    if count < 1 then 1 else if count < 5 then 5 else if count < 10 then 10 else if count < 14 then 14 else 0
  }

  /** On the page's table the `auto` brush steps 0 -> 1 -> 5 -> 10 -> 14 -> 0. */
  lemma TableAutoCount(count: int)
    ensures count < 0 ==> AutoCount(Table, count).None?
    ensures count >= 0 ==> AutoCount(Table, count) == Some(StepNext(count))
  {
  }

  /**
   The count of a cell after `n` clicks with the `auto` brush, starting from
   `count`; a click on a cell with no bracket leaves it as it is.
   */
  function AutoClicks(brackets: seq<Bracket>, count: int, n: nat): int
    decreases n
  {
    if n == 0 then count
    else
      match AutoCount(brackets, count)
      case None => AutoClicks(brackets, count, n - 1)
      case Some(next) => AutoClicks(brackets, next, n - 1)
  }

  /** Clicking `a` times and then `b` times is clicking `a + b` times. */
  lemma {:induction false} AutoClicksAdd(brackets: seq<Bracket>, count: int, a: nat, b: nat)
    ensures AutoClicks(brackets, AutoClicks(brackets, count, a), b) == AutoClicks(brackets, count, a + b)
    decreases a
  {
    if a > 0 {
      match AutoCount(brackets, count)
      case None => AutoClicksAdd(brackets, count, a - 1, b);
      case Some(next) => AutoClicksAdd(brackets, next, a - 1, b);
    }
  }

  /** Five `auto` clicks bring a cell at 0 back to 0, through 1, 5, 10 and 14. */
  lemma AutoClicksFromZero()
    ensures AutoClicks(Table, 0, 1) == 1 && AutoClicks(Table, 0, 2) == 5 && AutoClicks(Table, 0, 3) == 10
    ensures AutoClicks(Table, 0, 4) == 14 && AutoClicks(Table, 0, 5) == 0
  {
  }

  /** The bracket minimums in the order the `auto` brush visits them from 0. */
  function CycleAt(m: int): int {
    if m == 0 then 0 else if m == 1 then 1 else if m == 2 then 5 else if m == 3 then 10 else 14
  }

  /** Repeated `auto` clicks from 0 give 1, 5, 10, 14, 0, 1, ... */
  lemma {:induction false} AutoClicksCycle(n: nat)
    ensures AutoClicks(Table, 0, n) == CycleAt(n % 5)
  {
    AutoClicksFromZero();
    if n >= 5 {
      AutoClicksCycle(n - 5);
      AutoClicksAdd(Table, 0, 5, n - 5);
      assert n % 5 == (n - 5) % 5;
    }
  }
}
