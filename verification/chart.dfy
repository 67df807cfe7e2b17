/**
 The heatmap's backing data (static/js/gitfiti.js): one record per day with a
 contribution count. Dates are milliseconds since the epoch; "same calendar day"
 is a parameter `dayOf` that maps a date to its day number (moment's
 `isSame(..., 'day')` in gitfiti.js, which this model does not fix).
 */
module Chart {
  import opened Wrappers

  const MsPerDay: int := 86400000

  /** Number of days the initial chart covers. */
  const ChartDays: nat := 366

  datatype Day = Day(date: int, count: int)

  /** The chart after `n` rounds of the initialising loop; round i puts the day i days before `time` in front. */
  function Unshifted(time: int, n: nat): (chart: seq<Day>)
    ensures |chart| == n
    ensures forall k :: 0 <= k < n ==> chart[k] == Day(time - (n - 1 - k) * MsPerDay, 0)
  {
    if n == 0 then [] else [Day(time - (n - 1) * MsPerDay, 0)] + Unshifted(time, n - 1)
  }

  /**
   The empty chart shown when the page loads at `time`: 366 days with count 0,
   oldest first, one day apart, ending at `time`.
   */
  function InitialChart(time: int): (chart: seq<Day>)
    ensures |chart| == ChartDays
    ensures forall k :: 0 <= k < |chart| ==> chart[k].count == 0
    ensures forall k :: 0 < k < |chart| ==> chart[k].date == chart[k - 1].date + MsPerDay
    ensures chart[0].date == time - (ChartDays - 1) * MsPerDay
    ensures chart[|chart| - 1].date == time
  {
    Unshifted(time, ChartDays)
  }

  predicate OnDay(d: Day, date: int, dayOf: int -> int) {
    dayOf(d.date) == dayOf(date)
  }

  /** Some record of `data` falls on the calendar day of `date`. */
  predicate HasDay(data: seq<Day>, date: int, dayOf: int -> int) {
    exists i :: 0 <= i < |data| && OnDay(data[i], date, dayOf)
  }

  /** `i` is the first record of `data` on the calendar day of `date`. */
  predicate FirstOnDay(data: seq<Day>, date: int, dayOf: int -> int, i: int) {
    && 0 <= i < |data|
    && OnDay(data[i], date, dayOf)
    && forall j :: 0 <= j < i ==> !OnDay(data[j], date, dayOf)
  }

  /** Array `find` by calendar day: the index of the first record on the day of `date`. */
  function FindDay(data: seq<Day>, date: int, dayOf: int -> int): (r: Option<nat>)
    ensures r.Some? ==> FirstOnDay(data, date, dayOf, r.value)
    ensures r.None? <==> !HasDay(data, date, dayOf)
  {
    if |data| == 0 then None
    else if OnDay(data[0], date, dayOf) then Some(0)
    else
      match FindDay(data[1..], date, dayOf)
      case None => None
      case Some(i) => Some(i + 1)
  }

  /** `find` stops at the first record on the day, whichever index that is. */
  lemma FindDayFindsFirst(data: seq<Day>, date: int, dayOf: int -> int, i: int)
    requires FirstOnDay(data, date, dayOf, i)
    ensures FindDay(data, date, dayOf) == Some(i)
  {
  }

  /** The count the chart holds for the calendar day of `date` (its first record on that day). */
  function CountOn(data: seq<Day>, date: int, dayOf: int -> int): Option<int> {
    match FindDay(data, date, dayOf)
    case None => None
    case Some(i) => Some(data[i].count)
  }

  /**
   Sets the count of the day of `date`: the first record on that day takes
   `newCount` and nothing else changes; with no record on that day, one record
   `{date, newCount}` is appended.
   */
  function SetNewCount(data: seq<Day>, date: int, newCount: int, dayOf: int -> int): (r: seq<Day>)
    ensures HasDay(data, date, dayOf) ==>
      && |r| == |data|
      && exists i :: FirstOnDay(data, date, dayOf, i) && r[i] == Day(data[i].date, newCount)
                  && forall j :: 0 <= j < |data| && j != i ==> r[j] == data[j]
    ensures !HasDay(data, date, dayOf) ==> r == data + [Day(date, newCount)]
  {
    match FindDay(data, date, dayOf)
    case None => data + [Day(date, newCount)]
    case Some(i) => data[i := Day(data[i].date, newCount)]
  }

  /** After setting a day's count, that day reads back the new count and every other day reads as before. */
  lemma SetThenRead(data: seq<Day>, date: int, newCount: int, dayOf: int -> int, other: int)
    ensures CountOn(SetNewCount(data, date, newCount, dayOf), date, dayOf) == Some(newCount)
    ensures dayOf(other) != dayOf(date) ==>
      CountOn(SetNewCount(data, date, newCount, dayOf), other, dayOf) == CountOn(data, other, dayOf)
  {
    var r := SetNewCount(data, date, newCount, dayOf);
    match FindDay(data, date, dayOf)
    case None =>
      FindDayFindsFirst(r, date, dayOf, |data|);
      if dayOf(other) != dayOf(date) {
        match FindDay(data, other, dayOf)
        case None =>
          assert !HasDay(r, other, dayOf);
        case Some(k) =>
          FindDayFindsFirst(r, other, dayOf, k);
      }
    case Some(i) =>
      FindDayFindsFirst(r, date, dayOf, i);
      if dayOf(other) != dayOf(date) {
        match FindDay(data, other, dayOf)
        case None =>
          assert !HasDay(r, other, dayOf);
        case Some(k) =>
          FindDayFindsFirst(r, other, dayOf, k);
      }
  }

  /** Setting the same count twice is setting it once. */
  lemma SetNewCountIdempotent(data: seq<Day>, date: int, newCount: int, dayOf: int -> int)
    ensures SetNewCount(SetNewCount(data, date, newCount, dayOf), date, newCount, dayOf)
         == SetNewCount(data, date, newCount, dayOf)
  {
    var r := SetNewCount(data, date, newCount, dayOf);
    match FindDay(data, date, dayOf)
    case None =>
      FindDayFindsFirst(r, date, dayOf, |data|);
    case Some(i) =>
      FindDayFindsFirst(r, date, dayOf, i);
  }

  /** No two records fall on the same calendar day. */
  predicate UniqueDays(data: seq<Day>, dayOf: int -> int) {
    forall i, j :: 0 <= i < j < |data| ==> dayOf(data[i].date) != dayOf(data[j].date)
  }

  /** Setting a count keeps the chart at one record per calendar day. */
  lemma SetNewCountKeepsUniqueDays(data: seq<Day>, date: int, newCount: int, dayOf: int -> int)
    requires UniqueDays(data, dayOf)
    ensures UniqueDays(SetNewCount(data, date, newCount, dayOf), dayOf)
  {
  }

  /** Calendar days in a time zone at a fixed offset (in ms) from UTC. */
  function ZoneDay(offset: int): int -> int {
    t => (t + offset) / MsPerDay
  }

  /** In any fixed-offset time zone the initial chart has one record per calendar day. */
  lemma InitialChartUniqueDays(time: int, offset: int)
    ensures UniqueDays(InitialChart(time), ZoneDay(offset))
  {
  }
}
