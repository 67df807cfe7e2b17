/**
 Colour brackets of the contributions heatmap (static/js/gitfiti.js).
 A bracket pairs a minimum count with a fill colour; a count is drawn in the
 colour of the bracket found by scanning the table from the darkest bracket down.
 */
module Brackets {
  import opened Wrappers

  /** `color` is the fill as a 24-bit RGB value (`#c6e48b` is 0xc6e48b). */
  datatype Bracket = Bracket(color: int, min: int)

  /** The page's five brackets, lightest first. */
  const Table: seq<Bracket> := [
    Bracket(0xeeeeee, 0),
    Bracket(0xc6e48b, 1),
    Bracket(0x7bc96f, 5),
    Bracket(0x239a3b, 10),
    Bracket(0x196127, 14)
  ]

  /** The top of the heatmap's colour scale. */
  const MaxCount: int := 24

  /** Minimums strictly increase along the table. */
  predicate Ascending(brackets: seq<Bracket>) {
    forall i, j :: 0 <= i < j < |brackets| ==> brackets[i].min < brackets[j].min
  }

  /** `i` is the bracket the downward scan stops at for `count`. */
  predicate IsBracketOf(brackets: seq<Bracket>, count: int, i: int) {
    && 0 <= i < |brackets|
    && brackets[i].min <= count
    && forall j :: i < j < |brackets| ==> count < brackets[j].min
  }

  /** The downward scan over indices k-1, ..., 0. */
  function ScanDown(brackets: seq<Bracket>, count: int, k: nat): (r: Option<nat>)
    requires k <= |brackets|
    ensures r.Some? ==> r.value < k && brackets[r.value].min <= count
    ensures r.Some? ==> forall j :: r.value < j < k ==> count < brackets[j].min
    ensures r.None? ==> forall j :: 0 <= j < k ==> count < brackets[j].min
  {
    if k == 0 then None
    else if count >= brackets[k - 1].min then Some(k - 1)
    else ScanDown(brackets, count, k - 1)
  }

  /**
   The index of the bracket that colours `count`: the highest index whose
   minimum `count` reaches, or None when `count` is below every minimum.
   In an ascending table this is the bracket with the greatest minimum <= count.
   */
  function BracketOf(brackets: seq<Bracket>, count: int): (r: Option<nat>)
    ensures r.Some? ==> IsBracketOf(brackets, count, r.value)
    ensures r.None? <==> forall j :: 0 <= j < |brackets| ==> count < brackets[j].min
    ensures Ascending(brackets) && r.Some? ==>
      forall j :: 0 <= j < |brackets| && brackets[j].min <= count ==> brackets[j].min <= brackets[r.value].min
  {
    ScanDown(brackets, count, |brackets|)
  }

  /** The step function the page's table draws: the bracket index of a count >= 0. */
  function StepIndex(count: int): nat {
    if count < 1 then 0 else if count < 5 then 1 else if count < 10 then 2 else if count < 14 then 3 else 4
  }

  /**
   On the page's table, every count >= 0 has a bracket (bracket 0 starts at 0)
   and every negative count has none; the bracket is the step function of the
   minimums 0, 1, 5, 10, 14.
   */
  lemma TableBracketOf(count: int)
    ensures count < 0 ==> BracketOf(Table, count).None?
    ensures count >= 0 ==> BracketOf(Table, count) == Some(StepIndex(count))
  {
  }
}
