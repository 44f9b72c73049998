/**
  Two places where the component, as written, does not do what it evidently means to do. Each
  is modelled as written beside the intended behaviour that `Lifecycle` uses, with the inputs
  that tell the two apart.
*/
module Findings {
  import opened Wrappers
  import opened Strings
  import opened Hex
  import opened Ledger
  import opened Lifecycle
  import opened Properties

  // ---------------------------------------------------------------- the fallback's stale guard

  /**
    The fallback as written: its closure was created by the render in which `searchTreasure` was
    called, so `isProcessingResult` is the value of that render, not the current one.
  */
  function FallbackAsWritten(v: View): (r: View)
    requires v.timers != [] && InGrid(v.timers[0].x, v.timers[0].y)
    ensures r.timers == v.timers[1..]
    ensures v.timers[0].sawProcessing ==> !r.processing && Cell(v.timers[0].x, v.timers[0].y) in r.wrong
    ensures !v.timers[0].sawProcessing ==> r == v.(timers := v.timers[1..])
  {
    var t := v.timers[0];
    var rest := v.(timers := v.timers[1..]);
    if t.sawProcessing then rest.(processing := false, wrong := v.wrong + {Cell(t.x, t.y)}) else rest
  }

  /**
    An attempt started with no earlier result pending and answered by no event: the fallback as
    written never fires, so the overlay stays open and the cell stays unmarked, where the
    intended fallback closes the overlay and marks the cell.
  */
  lemma StaleGuardKeepsOverlayOpen(v: View, conn: Connection, hx: Encoded, px: Encoded, hy: Encoded, py: Encoded)
    requires Inv(v) && SelectionInGrid(v) && v.timers == [] && !v.processing
    requires Sendable(v, conn, Answered(false), Ciphertexts(hx, px, hy, py))
    requires Cell(v.selX.value, v.selY.value) !in v.wrong
    ensures var a := SearchToCompletion(v, conn, Answered(false), Ciphertexts(hx, px, hy, py), Mined(1)).view;
      FallbackReady(a)
      && FallbackAsWritten(a).processing && Cell(v.selX.value, v.selY.value) !in FallbackAsWritten(a).wrong
      && !OnFallback(a).processing && Cell(v.selX.value, v.selY.value) in OnFallback(a).wrong
  {
    SearchClearsBusyFlags(v, conn, Answered(false), Ciphertexts(hx, px, hy, py), Mined(1));
  }

  /**
    An attempt started while an earlier result was still pending, then answered "found": the
    fallback as written marks the treasure cell as a miss; the intended one leaves it alone.
  */
  lemma StaleGuardMarksTreasureCell(v: View, conn: Connection, hx: Encoded, px: Encoded, hy: Encoded, py: Encoded,
                                    ev: LedgerEvent, account: string)
    requires Inv(v) && SelectionInGrid(v) && v.timers == [] && v.processing
    requires Sendable(v, conn, Answered(false), Ciphertexts(hx, px, hy, py))
    requires Cell(v.selX.value, v.selY.value) !in v.wrong
    requires Dispatched(ev) && ReportsCorrect(ev) && SameAddress(PlayerOf(ev), account)
    ensures var a := SearchToCompletion(v, conn, Answered(false), Ciphertexts(hx, px, hy, py), Mined(1)).view;
      SelectionInGrid(a) && var e := OnEvent(a, ev, account);
      FallbackReady(e)
      && Cell(v.selX.value, v.selY.value) in FallbackAsWritten(e).wrong
      && Cell(v.selX.value, v.selY.value) !in OnFallback(e).wrong
  {
    SearchClearsBusyFlags(v, conn, Answered(false), Ciphertexts(hx, px, hy, py), Mined(1));
  }

  // ---------------------------------------------------------------- listeners that pile up

  predicate CapturesInGrid(listeners: seq<Selection>) {
    forall i :: 0 <= i < |listeners| ==> (listeners[i].x.Some? && listeners[i].y.Some? ==>
      InGrid(listeners[i].x.value, listeners[i].y.value))
  }

  /** One stale listener, with the selection its handlers closed over: the handlers run with its captured selection, the rest of the state is current. */
  function OnEventCaptured(v: View, c: Selection, ev: LedgerEvent, account: string): (r: View)
    requires c.x.Some? && c.y.Some? ==> InGrid(c.x.value, c.y.value)
    ensures r.selX == v.selX && r.selY == v.selY && v.wrong <= r.wrong
  {
    OnEvent(v.(selX := c.x, selY := c.y), ev, account).(selX := v.selX, selY := v.selY)
  }

  /**
    The listener effect as written: every run adds a wildcard listener and its cleanup never
    removes one, so an event reaches one listener per earlier selection, oldest first.
  */
  function DispatchAsWritten(v: View, listeners: seq<Selection>, ev: LedgerEvent, account: string): (r: View)
    requires CapturesInGrid(listeners)
    ensures r.selX == v.selX && r.selY == v.selY && v.wrong <= r.wrong
    decreases |listeners|
  {
    if listeners == [] then v
    else DispatchAsWritten(OnEventCaptured(v, listeners[0], ev, account), listeners[1..], ev, account)
  }

  /** With the one listener the effect means to keep, dispatch is `OnEvent`. */
  lemma SingleListenerIsOnEvent(v: View, ev: LedgerEvent, account: string)
    requires SelectionInGrid(v)
    ensures DispatchAsWritten(v, [Selection(v.selX, v.selY)], ev, account) == OnEvent(v, ev, account)
  {
    assert [Selection(v.selX, v.selY)][1..] == [];
  }

  /**
    A player who clicked one cell and then searched another: the listener left from the first
    click marks the first cell too, though it was never searched.
  */
  lemma StaleListenerMarksUnsearchedCell(v: View, x: int, y: int, ev: LedgerEvent, account: string)
    requires SelectionInGrid(v) && v.selX.Some? && v.selY.Some?
    requires InGrid(x, y) && Cell(x, y) != Cell(v.selX.value, v.selY.value) && Cell(x, y) !in v.wrong
    requires Dispatched(ev) && !ReportsCorrect(ev) && SameAddress(PlayerOf(ev), account)
    ensures var listeners := [Selection(Some(x), Some(y)), Selection(v.selX, v.selY)];
      CapturesInGrid(listeners)
      && Cell(x, y) in DispatchAsWritten(v, listeners, ev, account).wrong
      && Cell(x, y) !in OnEvent(v, ev, account).wrong
  {
    var listeners := [Selection(Some(x), Some(y)), Selection(v.selX, v.selY)];
    var first := OnEventCaptured(v, listeners[0], ev, account);
    assert Cell(x, y) in first.wrong;
    assert listeners[1..] == [Selection(v.selX, v.selY)];
    assert DispatchAsWritten(v, listeners, ev, account) == DispatchAsWritten(first, listeners[1..], ev, account);
  }
}
