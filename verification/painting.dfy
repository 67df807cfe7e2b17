/**
 The paint handler `updateElementAndData` (static/js/gitfiti.js): computes the
 brush's new count for a cell, then, if some bracket holds that count, stores the
 count for the cell's day and fills the cell with that bracket's colour.
 */
module Painting {
  import opened Wrappers
  import opened Brackets
  import opened Brushes
  import opened Chart

  /** The chart data after a paint, and the fill given to the cell (None: the cell is left alone). */
  datatype Painted = Painted(data: seq<Day>, fill: Option<int>)

  /** Paints `cell` (the datum the heatmap hands to the handler) with `brush`. */
  function UpdateElementAndData(data: seq<Day>, cell: Day, brush: Brush, brackets: seq<Bracket>, dayOf: int -> int): (r: Painted)
    ensures r.fill.None? ==> r.data == data
    ensures r.fill.Some? <==>
      && NewCount(brush, brackets, cell.count).Some?
      && exists j :: 0 <= j < |brackets| && brackets[j].min <= NewCount(brush, brackets, cell.count).value
    ensures r.fill.Some? ==> r.data == SetNewCount(data, cell.date, NewCount(brush, brackets, cell.count).value, dayOf)
    ensures r.fill.Some? ==>
      exists i :: IsBracketOf(brackets, NewCount(brush, brackets, cell.count).value, i) && r.fill.value == brackets[i].color
  {
    match NewCount(brush, brackets, cell.count)
    case None => Painted(data, None)
    case Some(n) =>
      match BracketOf(brackets, n)
      case None => Painted(data, None)
      case Some(i) => Painted(SetNewCount(data, cell.date, n, dayOf), Some(brackets[i].color))
  }

  /** The count a brush writes on the page's table: a fixed value, or the next bracket's minimum. */
  function PageCount(brush: Brush, count: int): int {
    match brush
    case Fixed(n) => n
    case Auto => StepNext(count)
  }

  /**
   On the page's table, painting a cell with a count >= 0 using the `auto`
   brush or a fixed brush >= 0 always takes effect: the cell's day then reads
   the painted count, every other day reads as before, and the cell is filled
   with the colour of that count's bracket.
   */
  lemma PaintOnPage(data: seq<Day>, cell: Day, brush: Brush, dayOf: int -> int, other: int)
    requires cell.count >= 0
    requires brush.Fixed? ==> brush.count >= 0
    ensures UpdateElementAndData(data, cell, brush, Table, dayOf).fill == Some(Table[StepIndex(PageCount(brush, cell.count))].color)
    ensures CountOn(UpdateElementAndData(data, cell, brush, Table, dayOf).data, cell.date, dayOf) == Some(PageCount(brush, cell.count))
    ensures dayOf(other) != dayOf(cell.date) ==>
      CountOn(UpdateElementAndData(data, cell, brush, Table, dayOf).data, other, dayOf) == CountOn(data, other, dayOf)
  {
    var n := PageCount(brush, cell.count);
    TableAutoCount(cell.count);
    assert NewCount(brush, Table, cell.count) == Some(n);
    TableBracketOf(n);
    SetThenRead(data, cell.date, n, dayOf, other);
  }

  /**
   A paint whose new count has no bracket changes nothing: a negative fixed
   brush, or the `auto` brush on a cell holding a negative count.
   */
  lemma PaintBelowEveryBracket(data: seq<Day>, cell: Day, brush: Brush, dayOf: int -> int)
    requires (brush.Fixed? && brush.count < 0) || (brush.Auto? && cell.count < 0)
    ensures UpdateElementAndData(data, cell, brush, Table, dayOf) == Painted(data, None)
  {
  }

  /** The datum the heatmap hands the handler for the day of `date`: its current count, or 0 without a record. */
  function CellOf(data: seq<Day>, date: int, dayOf: int -> int): Day {
    match CountOn(data, date, dayOf)
    case None => Day(date, 0)
    case Some(c) => Day(date, c)
  }

  /** The chart after `n` paints of the day of `date` with the `auto` brush on the page's table. */
  function AutoPaints(data: seq<Day>, date: int, dayOf: int -> int, n: nat): seq<Day>
    decreases n
  {
    if n == 0 then data
    else AutoPaints(UpdateElementAndData(data, CellOf(data, date, dayOf), Auto, Table, dayOf).data, date, dayOf, n - 1)
  }

  /** One `auto` paint of a day is one `auto` click on its count, which the day then reads. */
  lemma AutoPaintStep(data: seq<Day>, date: int, dayOf: int -> int)
    ensures var data1 := UpdateElementAndData(data, CellOf(data, date, dayOf), Auto, Table, dayOf).data;
      && CountOn(data1, date, dayOf) == Some(AutoClicks(Table, CellOf(data, date, dayOf).count, 1))
      && CellOf(data1, date, dayOf).count == AutoClicks(Table, CellOf(data, date, dayOf).count, 1)
  {
    var cell := CellOf(data, date, dayOf);
    TableAutoCount(cell.count);
    if cell.count >= 0 {
      PaintOnPage(data, cell, Auto, dayOf, date);
    } else {
      PaintBelowEveryBracket(data, cell, Auto, dayOf);
    }
  }

  /**
   Repeated `auto` paints of one day follow the `auto` clicks: after n > 0
   paints the day reads the count n clicks give from its starting count.
   */
  lemma {:induction false} AutoPaintsCycle(data: seq<Day>, date: int, dayOf: int -> int, n: nat)
    ensures n > 0 ==>
      CountOn(AutoPaints(data, date, dayOf, n), date, dayOf) == Some(AutoClicks(Table, CellOf(data, date, dayOf).count, n))
    decreases n
  {
    if n > 0 {
      var c := CellOf(data, date, dayOf).count;
      var data1 := UpdateElementAndData(data, CellOf(data, date, dayOf), Auto, Table, dayOf).data;
      var c1 := AutoClicks(Table, c, 1);
      AutoPaintStep(data, date, dayOf);
      assert AutoPaints(data, date, dayOf, n) == AutoPaints(data1, date, dayOf, n - 1);
      AutoClicksAdd(Table, c, 1, n - 1);
      assert AutoClicks(Table, c1, n - 1) == AutoClicks(Table, c, n);
      if n > 1 {
        AutoPaintsCycle(data1, date, dayOf, n - 1);
      }
    }
  }

  /** From a day at 0, repeated `auto` paints give 1, 5, 10, 14, 0, 1, ... */
  lemma AutoPaintsFromZero(data: seq<Day>, date: int, dayOf: int -> int, n: nat)
    requires CellOf(data, date, dayOf).count == 0
    ensures n > 0 ==> CountOn(AutoPaints(data, date, dayOf, n), date, dayOf) == Some(CycleAt(n % 5))
  {
    AutoPaintsCycle(data, date, dayOf, n);
    AutoClicksCycle(n);
  }
}
