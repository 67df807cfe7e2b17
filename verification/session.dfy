/**
 The page session of static/js/gitfiti.js as one state value: the chart data,
 the selected brush, whether the mouse button is held, the commits staged by the
 last verify step, whether the push button is enabled, and the two message areas.
 Each DOM event handler becomes a function from state to state.
 */
module Session {
  import opened Wrappers
  import opened Brackets
  import opened Brushes
  import opened Chart
  import opened Painting
  import opened Verification

  datatype VerifyMessage = VerifyHidden | ReadyToPush(total: int) | InvalidData

  datatype PushMessage = PushHidden | Processing | PushSucceeded(message: Option<string>) | PushFailed(text: string)

  datatype Painter = Painter(
    data: seq<Day>,
    brush: Brush,
    mouseDown: bool,
    pending: seq<Commit>,
    pushEnabled: bool,
    verifyMessage: VerifyMessage,
    pushMessage: PushMessage)

  /** A response body as `JSON.parse` sees it: not JSON at all, or JSON whose `message` may be missing. */
  datatype Body = Unparsable | Parsed(message: Option<string>)

  /** The generic text shown for a failed push without a message. */
  const ServerError: string := "Server error."

  /** The page as loaded at `time`, with the push button disabled. */
  function Load(time: int): Painter {
    Painter(InitialChart(time), Auto, false, [], false, VerifyHidden, PushHidden)
  }

  function BodyMouseDown(p: Painter): Painter {
    p.(mouseDown := true)
  }

  function BodyMouseUp(p: Painter): Painter {
    p.(mouseDown := false)
  }

  /** A click on a brush holder; a holder whose index is outside the table changes nothing. */
  function BrushClick(p: Painter, index: Option<int>): Painter {
    match SelectBrush(index)
    case None => p
    case Some(b) => p.(brush := b)
  }

  /** A mouse-down on a cell paints it. */
  function CellMouseDown(p: Painter, cell: Day, dayOf: int -> int): Painter {
    p.(data := UpdateElementAndData(p.data, cell, p.brush, Table, dayOf).data)
  }

  /** The mouse entering a cell paints it only while the mouse button is held. */
  function CellMouseEnter(p: Painter, cell: Day, dayOf: int -> int): Painter {
    if !p.mouseDown then p else CellMouseDown(p, cell, dayOf)
  }

  /** The verify button: stage the commits and enable pushing, or clear them and disable it. */
  function Verify(p: Painter): Painter {
    var v := ComputeChanges(p.data);
    if v.maxRangePresent then
      p.(pending := v.commits, pushEnabled := true, verifyMessage := ReadyToPush(v.total), pushMessage := PushHidden)
    else
      p.(pending := [], pushEnabled := false, verifyMessage := InvalidData, pushMessage := PushHidden)
  }

  /**
   The push button: when enabled, it is disabled and the staged commits are the
   request body; a disabled button receives no click.
   */
  function Push(p: Painter): (Painter, Option<seq<Commit>>) {
    if !p.pushEnabled then (p, None)
    else (p.(verifyMessage := VerifyHidden, pushEnabled := false, pushMessage := Processing), Some(p.pending))
  }

  /**
   The response callback: status 200 shows the body's message, any other status
   its message or the generic error text; a body that is not JSON makes the
   callback throw, leaving the page as it was.
   */
  function PushResponse(p: Painter, status: int, body: Body): Painter {
    match body
    case Unparsable => p
    case Parsed(m) =>
      if status == 200 then p.(pushMessage := PushSucceeded(m))
      else p.(pushMessage := PushFailed(if m.Some? && m.value != "" then m.value else ServerError))
  }

  /**
   What holds of every state the handlers reach: an enabled push button stages a
   non-empty list of positive commits containing one at the scale maximum.
   */
  predicate Staged(p: Painter) {
    p.pushEnabled ==>
      && (forall k :: 0 <= k < |p.pending| ==> p.pending[k].count > 0)
      && exists k :: 0 <= k < |p.pending| && p.pending[k].count == MaxCount
  }

  /**
   The verify step decides the push button: enabled exactly when the chart holds
   a placeholder, with the staged commits being the verify step's output; on
   failure nothing is staged.
   */
  lemma VerifyStages(p: Painter)
    ensures Verify(p).pushEnabled <==> HasPlaceholder(p.data)
    ensures Verify(p).pushEnabled ==> Verify(p).pending == ComputeChanges(p.data).commits
    ensures !Verify(p).pushEnabled ==> Verify(p).pending == [] && Verify(p).verifyMessage == InvalidData
    ensures Verify(p).data == p.data && Verify(p).brush == p.brush
    ensures Staged(Verify(p))
  {
    ComputeChangesSucceedsIff(p.data);
    StagedCommits(p.data);
  }

  /** Every handler keeps the staging invariant, starting from the loaded page. */
  lemma HandlersKeepStaged(p: Painter, time: int, index: Option<int>, cell: Day, dayOf: int -> int, status: int, body: Body)
    requires Staged(p)
    ensures Staged(Load(time))
    ensures Staged(BodyMouseDown(p)) && Staged(BodyMouseUp(p))
    ensures Staged(BrushClick(p, index))
    ensures Staged(CellMouseDown(p, cell, dayOf)) && Staged(CellMouseEnter(p, cell, dayOf))
    ensures Staged(Verify(p))
    ensures Staged(Push(p).0)
    ensures Staged(PushResponse(p, status, body))
  {
    VerifyStages(p);
  }

  /**
   Painting changes only the chart: the staged commits and the push button stay
   as the last verify step left them, and the mouse entering a cell with the
   button up changes nothing.
   */
  lemma PaintKeepsStaging(p: Painter, cell: Day, dayOf: int -> int)
    ensures CellMouseDown(p, cell, dayOf).pending == p.pending
    ensures CellMouseDown(p, cell, dayOf).pushEnabled == p.pushEnabled
    ensures CellMouseDown(p, cell, dayOf).brush == p.brush
    ensures !p.mouseDown ==> CellMouseEnter(p, cell, dayOf) == p
    ensures p.mouseDown ==> CellMouseEnter(p, cell, dayOf) == CellMouseDown(p, cell, dayOf)
  {
  }

  /**
   A push sends the commits staged by the last successful verify step, which
   include one at the scale maximum, and disables the button; nothing is sent
   while the button is disabled, and no response re-enables it.
   */
  lemma PushSendsStaged(p: Painter, status: int, body: Body)
    requires Staged(p)
    ensures Push(p).1.Some? <==> p.pushEnabled
    ensures Push(p).1.Some? ==> Push(p).1.value == p.pending
    ensures Push(p).1.Some? ==> exists k :: 0 <= k < |Push(p).1.value| && Push(p).1.value[k].count == MaxCount
    ensures !Push(p).0.pushEnabled
    ensures PushResponse(p, status, body).pushEnabled == p.pushEnabled
  {
  }

  /** A failed push always shows a non-empty text: the server's message, or the generic error. */
  lemma FailedPushShowsText(p: Painter, status: int, message: Option<string>)
    requires status != 200
    ensures PushResponse(p, status, Parsed(message)).pushMessage.PushFailed?
    ensures |PushResponse(p, status, Parsed(message)).pushMessage.text| > 0
    ensures message.Some? && message.value != "" ==> PushResponse(p, status, Parsed(message)).pushMessage.text == message.value
  {
  }
}
