/** What the attempt lifecycle guarantees, stated over the transitions of `Lifecycle`. */
module Properties {
  import opened Wrappers
  import opened Strings
  import opened Hex
  import opened Ledger
  import opened Lifecycle

  // ---------------------------------------------------------------- events

  /** The event is one a handler acts on: dispatched, for this account, with a cell selected. */
  predicate Matched(v: View, ev: LedgerEvent, account: string) {
    Dispatched(ev) && SameAddress(PlayerOf(ev), account) && v.selX.Some? && v.selY.Some?
  }

  /** A matched miss marks exactly the selected cell and closes the overlay; nothing else changes. */
  lemma WrongResultMarksSelectedCell(v: View, ev: LedgerEvent, account: string)
    requires SelectionInGrid(v) && Matched(v, ev, account) && !ReportsCorrect(ev)
    ensures var r := OnEvent(v, ev, account);
      r == v.(processing := false, wrong := r.wrong)
      && Cell(v.selX.value, v.selY.value) in r.wrong
      && forall c :: c != Cell(v.selX.value, v.selY.value) ==> (c in r.wrong <==> c in v.wrong)
  {
  }

  /** A matched hit closes the overlay and ends the game, and marks no cell. */
  lemma CorrectResultNeverMarks(v: View, ev: LedgerEvent, account: string)
    requires SelectionInGrid(v) && Matched(v, ev, account) && ReportsCorrect(ev)
    ensures var r := OnEvent(v, ev, account);
      r == v.(processing := false, active := false) && r.wrong == v.wrong
  {
  }

  /** An event for another player, with no selection, or not dispatched at all changes nothing. */
  lemma IgnoredEventChangesNothing(v: View, ev: LedgerEvent, account: string)
    requires SelectionInGrid(v) && !Matched(v, ev, account)
    ensures OnEvent(v, ev, account) == v
  {
  }

  /** Whether the event is taken does not depend on how the two addresses are capitalised. */
  lemma EventMatchIgnoresCase(v: View, ev: LedgerEvent, account: string, account': string)
    requires SelectionInGrid(v) && ToLower(account) == ToLower(account')
    ensures OnEvent(v, ev, account) == OnEvent(v, ev, account')
  {
  }

  /** Two handlers for the same result: the second changes nothing. */
  lemma EventIdempotent(v: View, ev: LedgerEvent, account: string)
    requires SelectionInGrid(v)
    ensures SelectionInGrid(OnEvent(v, ev, account))
    ensures OnEvent(OnEvent(v, ev, account), ev, account) == OnEvent(v, ev, account)
  {
  }

  // ---------------------------------------------------------------- fallback

  predicate FallbackReady(v: View) {
    v.timers != [] && InGrid(v.timers[0].x, v.timers[0].y)
  }

  /** Once the attempt is resolved, the fallback only retires its timer. */
  lemma FallbackNoOpOnceResolved(v: View)
    requires FallbackReady(v) && !v.processing
    ensures OnFallback(v) == v.(timers := v.timers[1..])
  {
  }

  /** While the attempt is open, the fallback resolves it as a miss of the cell clicked for it. */
  lemma FallbackResolvesOpenAttempt(v: View)
    requires FallbackReady(v) && v.processing
    ensures var r := OnFallback(v);
      !r.processing && r.wrong == v.wrong + {Cell(v.timers[0].x, v.timers[0].y)}
      && r == v.(timers := v.timers[1..], processing := false, wrong := r.wrong)
  {
  }

  /** The event wins the race: the fallback that fires afterwards changes nothing but its timer. */
  lemma EventThenFallback(v: View, ev: LedgerEvent, account: string)
    requires SelectionInGrid(v) && Matched(v, ev, account) && FallbackReady(v)
    ensures var e := OnEvent(v, ev, account);
      FallbackReady(e) && OnFallback(e) == e.(timers := e.timers[1..])
  {
  }

  /** The fallback wins the race: a late miss for the same cell changes nothing more. */
  lemma FallbackThenLateMiss(v: View, ev: LedgerEvent, account: string)
    requires FallbackReady(v) && v.processing && Matched(v, ev, account) && !ReportsCorrect(ev)
    requires v.selX == Some(v.timers[0].x) && v.selY == Some(v.timers[0].y)
    ensures var f := OnFallback(v);
      SelectionInGrid(f) && OnEvent(f, ev, account) == f
  {
  }

  /**
    A late hit after the timeout ends the game but cannot unmark the cell the fallback marked:
    the model keeps the fallback's best guess, as the screen does.
  */
  lemma FallbackThenLateHit(v: View, ev: LedgerEvent, account: string)
    requires FallbackReady(v) && v.processing && Matched(v, ev, account) && ReportsCorrect(ev)
    requires v.selX == Some(v.timers[0].x) && v.selY == Some(v.timers[0].y)
    ensures var f := OnFallback(v);
      SelectionInGrid(f) && var r := OnEvent(f, ev, account);
      !r.active && Cell(v.timers[0].x, v.timers[0].y) in r.wrong
  {
  }

  /**
    Events are matched by the current selection only: after a timeout the player may click a
    new cell, and a late miss for the old attempt then marks the new cell.
  */
  lemma LateEventMarksCurrentSelection(v: View, x: int, y: int, ev: LedgerEvent, account: string)
    requires FallbackReady(v) && v.processing && v.active && !v.searching && !v.encrypting
    requires InGrid(x, y) && Dispatched(ev) && !ReportsCorrect(ev) && SameAddress(PlayerOf(ev), account)
    ensures var s := SelectCell(OnFallback(v), x, y);
      SelectionInGrid(s) && Cell(x, y) in OnEvent(s, ev, account).wrong
  {
  }

  // ---------------------------------------------------------------- searchTreasure

  /** `searchTreasure` returns at a guard, touching nothing, exactly when one holds; otherwise the call joins those in flight. */
  lemma BeginSkipsIff(v: View, conn: Connection)
    ensures var b := BeginSearch(v, conn);
      (b.outcome.Skipped? <==> !conn.Ready() || !v.active || v.searching)
      && (b.outcome.Skipped? ==> b.view == v)
      && (!b.outcome.Skipped? ==>
            b.outcome == Started
            && b.view == v.(searches := v.searches + [Querying(Attempt(v.selX, v.selY, v.processing))]))
  {
  }

  /**
    A pending decryption ends the call with nothing set; any other answer sets `isSearching` and
    `isEncrypting` and moves the call on to its encryption.
  */
  lemma PendingSkipsIff(v: View, i: nat, pending: PendingAnswer)
    requires i < |v.searches| && v.searches[i].Querying?
    ensures var r := AnswerPending(v, i, pending);
      (r.outcome.Skipped? <==> pending == Answered(true))
      && (r.outcome.Skipped? ==> r.outcome.why == AttemptPending && r.view == v.(searches := Remove(v.searches, i)))
      && (!r.outcome.Skipped? ==>
            r.outcome == Proceeding
            && r.view == v.(searching := true, encrypting := true,
                            searches := v.searches[i := Encrypting(v.searches[i].attempt)]))
  {
  }

  /** A failed `isDecryptionPending` query does not stop the attempt. */
  lemma PendingQueryFailureDoesNotBlock(v: View, i: nat)
    requires i < |v.searches| && v.searches[i].Querying?
    ensures AnswerPending(v, i, QueryFailed).outcome == Proceeding
  {
  }

  /**
    Nothing is set before the first await, so a second click while the first call still waits
    for its pending query passes the guards too, and both calls go on to encrypt.
  */
  lemma DoubleClickStartsTwoCalls(v: View, conn: Connection)
    requires conn.Ready() && v.active && !v.searching
    ensures var n := |v.searches|;
      var b1 := BeginSearch(v, conn); var b2 := BeginSearch(b1.view, conn);
      b1.outcome == Started && b2.outcome == Started
      && |b2.view.searches| == n + 2 && b2.view.searches[n].Querying? && b2.view.searches[n + 1].Querying?
      && var q1 := AnswerPending(b2.view, n, Answered(false));
      q1.view.searches[n + 1].Querying?
      && var q2 := AnswerPending(q1.view, n + 1, Answered(false));
      q1.outcome == Proceeding && q2.outcome == Proceeding
      && q2.view.searches[n].Encrypting? && q2.view.searches[n + 1].Encrypting?
  {
    var n := |v.searches|;
    var a := Attempt(v.selX, v.selY, v.processing);
    var b1 := BeginSearch(v, conn);
    assert b1.view == v.(searches := v.searches + [Querying(a)]);
    var b2 := BeginSearch(b1.view, conn);
    assert b2.view == v.(searches := v.searches + [Querying(a), Querying(a)]);
  }

  /**
    The finally block of a call that has finished clears `isSearching` while another call is
    still encrypting, and a further click then passes the guards.
  */
  lemma LateFinallyClearsFlag(v: View, i: nat, j: nat, conn: Connection)
    requires Inv(v) && i < |v.searches| && j < |v.searches|
    requires v.searches[i].Finishing? && v.searches[j].Encrypting?
    requires conn.Ready() && v.active
    ensures var f := FinishSearch(v, i);
      !f.searching && AnySending(f.searches) && BeginSearch(f, conn).outcome == Started
  {
    assert Sending(v.searches[j]);
    RemoveKeeps(v.searches, i);
  }

  /** The transaction is sent only when the call has not been skipped and the encryption gave four values. */
  predicate Sendable(v: View, conn: Connection, pending: PendingAnswer, enc: EncryptionResult) {
    conn.Ready() && v.active && !v.searching && pending != Answered(true)
    && v.selX.Some? && v.selY.Some?
    && enc.Ciphertexts?
    && Truthy(Hexify(enc.handleX)) && Truthy(Hexify(enc.handleY))
    && Truthy(Hexify(enc.proofX)) && Truthy(Hexify(enc.proofY))
  }

  /** The pending answer for the newest call. */
  lemma AnswerNewest(v: View, a: Attempt, pending: PendingAnswer)
    ensures var w := v.(searches := v.searches + [Querying(a)]);
      AnswerPending(w, |v.searches|, pending)
      == if pending == Answered(true) then Step(v, Skipped(AttemptPending))
         else Step(v.(searching := true, encrypting := true, searches := v.searches + [Encrypting(a)]), Proceeding)
  {
    LastCall(v.searches, Querying(a), Encrypting(a));
  }

  /**
    Which error a call that fails at the encryption reports: a missing X fails with
    `BigInt(null)` before anything is encrypted; otherwise a throwing encryption reports its own
    error, even with Y missing; a missing Y with values returned fails with `BigInt(null)`.
  */
  lemma EncryptionErrorOrder(v: View, i: nat, enc: EncryptionResult)
    requires i < |v.searches| && v.searches[i].Encrypting?
    ensures var a := v.searches[i].attempt; var r := FinishEncryption(v, i, enc);
      (a.x.None? ==> r.outcome == Failed(Classify(Thrown(NullCoordinateMessage))))
      && (a.x.Some? && enc.EncryptionThrew? ==> r.outcome == Failed(Classify(enc.error)))
      && (a.x.Some? && a.y.None? && enc.Ciphertexts? ==>
            r.outcome == Failed(Classify(Thrown(NullCoordinateMessage))))
  {
  }

  /** The encryption result for the newest call, which has set both busy flags. */
  lemma EncryptNewest(v: View, a: Attempt, enc: EncryptionResult)
    requires a.x.Some? && a.y.Some? && enc.Ciphertexts?
    requires Truthy(Hexify(enc.handleX)) && Truthy(Hexify(enc.handleY))
    requires Truthy(Hexify(enc.proofX)) && Truthy(Hexify(enc.proofY))
    ensures var w := v.(searching := true, encrypting := true, searches := v.searches + [Encrypting(a)]);
      FinishEncryption(w, |v.searches|, enc)
      == Step(v.(searching := true, encrypting := false,
                 searches := v.searches + [Submitting(a.x.value, a.y.value, a.sawProcessing)]), ReadyToSubmit)
  {
    LastCall(v.searches, Encrypting(a), Submitting(a.x.value, a.y.value, a.sawProcessing));
  }

  /** An encryption for the newest call that does not give four values fails it. */
  lemma EncryptNewestFails(v: View, a: Attempt, enc: EncryptionResult)
    requires !(a.x.Some? && a.y.Some? && enc.Ciphertexts?
               && Truthy(Hexify(enc.handleX)) && Truthy(Hexify(enc.handleY))
               && Truthy(Hexify(enc.proofX)) && Truthy(Hexify(enc.proofY)))
    ensures var w := v.(searching := true, encrypting := true, searches := v.searches + [Encrypting(a)]);
      var e := FinishEncryption(w, |v.searches|, enc);
      e.outcome.Failed? && e.view == v.(searching := false, encrypting := false)
  {
    LastCall(v.searches, Encrypting(a), Finishing);
  }

  /** The receipt for the newest call. */
  lemma SubmitNewest(v: View, x: int, y: int, saw: bool, sub: SubmitResult)
    ensures var w := v.(searching := true, searches := v.searches + [Submitting(x, y, saw)]);
      var s := FinishSubmission(w, |v.searches|, sub);
      (s.outcome.Submitted? <==> sub.Mined? && sub.status != 0)
      && (s.outcome.Submitted? ==>
            s.view == v.(searching := false, processing := true, searches := v.searches + [Settling(x, y, saw)]))
      && (!s.outcome.Submitted? ==> s.outcome.Failed? && s.view == v.(searching := false))
  {
    LastCall(v.searches, Submitting(x, y, saw), Settling(x, y, saw));
  }

  /** The rest of the newest call once mined: its fallback timer, then its finally block. */
  lemma SettleNewest(v: View, x: int, y: int, saw: bool)
    ensures var s := v.(searches := v.searches + [Settling(x, y, saw)]);
      var f := ScheduleFallback(s, |v.searches|);
      FinishSearch(f, |v.searches|) == v.(searching := false, timers := v.timers + [Timer(x, y, saw)])
  {
    LastCall(v.searches, Settling(x, y, saw), Finishing);
    LastCall(v.searches, Finishing, Finishing);
  }

  /** A call that reaches the transaction: the receipt alone decides between success and failure. */
  lemma SendableSearch(v: View, conn: Connection, pending: PendingAnswer, enc: EncryptionResult, sub: SubmitResult)
    requires Sendable(v, conn, pending, enc)
    ensures var r := SearchToCompletion(v, conn, pending, enc, sub);
      if sub.Mined? && sub.status != 0 then
        r == Step(v.(encrypting := false, processing := true,
                     timers := v.timers + [Timer(v.selX.value, v.selY.value, v.processing)]), Submitted)
      else r.outcome.Failed? && r.view == v.(encrypting := false)
  {
    var a := Attempt(v.selX, v.selY, v.processing);
    var r := SearchToCompletion(v, conn, pending, enc, sub);
    var b := BeginSearch(v, conn);
    assert b.view == v.(searches := v.searches + [Querying(a)]);
    AnswerNewest(v, a, pending);
    var q := AnswerPending(b.view, |v.searches|, pending);
    EncryptNewest(v, a, enc);
    var u := v.(encrypting := false);
    SubmitNewest(u, a.x.value, a.y.value, a.sawProcessing, sub);
    var e := FinishEncryption(q.view, |v.searches|, enc);
    assert e.view == u.(searching := true, searches := u.searches + [Submitting(a.x.value, a.y.value, a.sawProcessing)]);
    var s := FinishSubmission(e.view, |v.searches|, sub);
    if s.outcome.Submitted? {
      SettleNewest(u.(processing := true), a.x.value, a.y.value, a.sawProcessing);
      assert r == Step(FinishSearch(ScheduleFallback(s.view, |v.searches|), |v.searches|), Submitted);
    } else {
      assert r == s;
    }
  }

  /** A call that does not reach the transaction is skipped with nothing changed, or fails clearing `isEncrypting`. */
  lemma UnsendableSearch(v: View, conn: Connection, pending: PendingAnswer, enc: EncryptionResult, sub: SubmitResult)
    requires !Sendable(v, conn, pending, enc)
    ensures var r := SearchToCompletion(v, conn, pending, enc, sub);
      (r.outcome.Skipped? && r.view == v) || (r.outcome.Failed? && r.view == v.(encrypting := false))
  {
    var a := Attempt(v.selX, v.selY, v.processing);
    var r := SearchToCompletion(v, conn, pending, enc, sub);
    var b := BeginSearch(v, conn);
    if !b.outcome.Started? {
      assert r == b;
    } else {
      assert b.view == v.(searches := v.searches + [Querying(a)]);
      AnswerNewest(v, a, pending);
      var q := AnswerPending(b.view, |v.searches|, pending);
      if !q.outcome.Proceeding? {
        assert r == q;
      } else {
        EncryptNewestFails(v, a, enc);
        assert r == FinishEncryption(q.view, |v.searches|, enc);
      }
    }
  }

  /**
    A whole `searchTreasure` call with nothing in between: a skip leaves everything as it was;
    every other path ends with `isSearching` and `isEncrypting` cleared and the call retired,
    marks no cell, and either submits (opening the overlay and scheduling a fallback for the
    clicked cell) or fails with nothing changed but the encryption flag.
  */
  lemma SearchClearsBusyFlags(v: View, conn: Connection, pending: PendingAnswer,
                              enc: EncryptionResult, sub: SubmitResult)
    requires Inv(v)
    ensures var r := SearchToCompletion(v, conn, pending, enc, sub);
      Inv(r.view)
      && (r.outcome.Skipped? || r.outcome.Submitted? || r.outcome.Failed?)
      && (r.outcome.Skipped? ==> r.view == v)
      && (r.outcome.Submitted? <==> Sendable(v, conn, pending, enc) && sub.Mined? && sub.status != 0)
      && (r.outcome.Submitted? ==>
            r.view == v.(encrypting := false, processing := true,
                         timers := v.timers + [Timer(v.selX.value, v.selY.value, v.processing)]))
      && (r.outcome.Failed? ==> r.view == v.(encrypting := false))
  {
    if Sendable(v, conn, pending, enc) {
      SendableSearch(v, conn, pending, enc, sub);
    } else {
      UnsendableSearch(v, conn, pending, enc, sub);
    }
  }

  /** A receipt with status 0 is reported as a reverted transaction. */
  lemma RevertedReceiptFails(v: View, conn: Connection, pending: PendingAnswer, enc: EncryptionResult)
    requires Inv(v) && Sendable(v, conn, pending, enc)
    ensures SearchToCompletion(v, conn, pending, enc, Mined(0)).outcome == Failed(Classify(Thrown(RevertedMessage)))
  {
    var n := |v.searches|;
    var a := Attempt(v.selX, v.selY, v.processing);
    var b := BeginSearch(v, conn);
    assert b.view == v.(searches := v.searches + [Querying(a)]);
    var q := AnswerPending(b.view, n, pending);
    assert q.outcome == Proceeding;
    var e := FinishEncryption(q.view, n, enc);
    assert e.outcome == ReadyToSubmit;
    assert FinishSubmission(e.view, n, Mined(0)) == Abort(e.view, n, Classify(Thrown(RevertedMessage)));
  }

  // ---------------------------------------------------------------- countdown and refresh

  /** One interval callback: down by one, or to zero ending the game, or nothing when stopped. */
  lemma TickCases(v: View)
    ensures v.active && v.remaining > 1 ==> Tick(v) == v.(remaining := v.remaining - 1)
    ensures v.active && v.remaining == 1 ==> Tick(v) == v.(remaining := 0, active := false)
    ensures !v.active || v.remaining <= 0 ==> Tick(v) == v
  {
  }

  /** The countdown never runs up and never below zero. */
  lemma TickNeverIncreases(v: View)
    requires Inv(v)
    ensures 0 <= Tick(v).remaining <= v.remaining
    ensures Tick(v).active ==> v.active
  {
  }

  /** An active game with `r` seconds left counts down to zero in exactly `r` ticks and then stops. */
  lemma {:induction false} CountdownDrains(v: View, n: nat)
    requires v.active && n <= v.remaining
    ensures n < v.remaining ==> Ticks(v, n) == v.(remaining := v.remaining - n)
    ensures n == v.remaining && n > 0 ==> Ticks(v, n) == v.(remaining := 0, active := false)
    decreases n
  {
    if n > 0 {
      var t := Tick(v);
      if v.remaining > 1 {
        assert t == v.(remaining := v.remaining - 1);
        CountdownDrains(t, n - 1);
      } else {
        assert n == 1;
        assert Ticks(t, 0) == t;
      }
    }
  }

  /** Once stopped, the countdown stays where it is. */
  lemma {:induction false} StoppedCountdownStays(v: View, n: nat)
    requires !v.active || v.remaining <= 0
    ensures Ticks(v, n) == v
    decreases n
  {
    if n > 0 {
      StoppedCountdownStays(Tick(v), n - 1);
    }
  }

  /**
    A refresh derives activity from the record and recomputes the remaining time only for an
    active game; selection, grid, busy flags, fallback timers and ciphertexts are untouched.
  */
  lemma RefreshDerivesActivity(v: View, ready: bool, account: Option<string>, stats: Option<GameStats>,
                               owner: Option<string>, now: int)
    requires ready && stats.Some?
    ensures var r := Refresh(v, ready, account, stats, owner, now); var s := stats.value;
      r.stats == stats
      && (r.active <==> s.isActive && !s.isCompleted)
      && (r.active ==> r.remaining == RemainingTime(s.startTime, s.duration, now))
      && (!r.active ==> r.remaining == v.remaining)
      && (account.Some? ==> (r.isCreator <==> owner.Some? && SameAddress(account.value, owner.value)))
      && (account.None? ==> r.isCreator == v.isCreator)
      && r == v.(stats := r.stats, active := r.active, remaining := r.remaining, isCreator := r.isCreator)
  {
    LastCall(v.refreshes, stats.value, stats.value);
  }

  /** Without a contract or without an answer, a refresh changes nothing. */
  lemma RefreshWithoutAnswerChangesNothing(v: View, ready: bool, account: Option<string>,
                                           stats: Option<GameStats>, owner: Option<string>, now: int)
    requires !ready || stats.None?
    ensures Refresh(v, ready, account, stats, owner, now) == v
  {
  }

  /**
    A refresh after the deadline of a game the record still calls active leaves it active with
    zero seconds, and the countdown then never ends it.
  */
  lemma RefreshPastDeadlineStaysActive(v: View, account: Option<string>, s: GameStats,
                                       owner: Option<string>, now: int, n: nat)
    requires s.isActive && !s.isCompleted && now >= s.startTime + s.duration
    ensures var r := Refresh(v, true, account, Some(s), owner, now);
      r.active && r.remaining == 0 && Ticks(r, n) == r
  {
    LastCall(v.refreshes, s, s);
    var r := Refresh(v, true, account, Some(s), owner, now);
    StoppedCountdownStays(r, n);
  }

  /**
    The first half of a refresh writes the record and the activity it derives, and leaves the
    record waiting for the owner check; the countdown and the creator flag are not touched yet.
  */
  lemma RecordStatsWaitsForOwner(v: View, ready: bool, stats: Option<GameStats>)
    ensures var r := RecordStats(v, ready, stats);
      (ready && stats.Some? ==>
        r.stats == stats && (r.active <==> stats.value.isActive && !stats.value.isCompleted)
        && r.refreshes == v.refreshes + [stats.value] && r.remaining == v.remaining
        && r.isCreator == v.isCreator)
      && (!ready || stats.None? ==> r == v)
  {
  }

  /**
    The second half of refresh `i` uses the record that refresh read, whatever record the screen
    shows by then, and does not touch the activity: it sets the creator flag and, for an active
    record, the remaining time from that record.
  */
  lemma FinishRefreshUsesItsRecord(v: View, i: nat, account: Option<string>, owner: Option<string>, now: int)
    requires i < |v.refreshes|
    ensures var r := FinishRefresh(v, i, account, owner, now); var s := v.refreshes[i];
      r.active == v.active && r.stats == v.stats
      && (s.isActive && !s.isCompleted ==> r.remaining == RemainingTime(s.startTime, s.duration, now))
      && (!(s.isActive && !s.isCompleted) ==> r.remaining == v.remaining)
      && (account.Some? ==> (r.isCreator <==> owner.Some? && SameAddress(account.value, owner.value)))
      && |r.refreshes| == |v.refreshes| - 1
  {
  }

  /**
    A countdown tick can fire while a refresh waits for its owner check. With one second left
    and a record that still gives the game time, the tick ends the game, and the refresh then
    sets the record's remaining time: the game stays ended with time left on the clock, and no
    countdown runs to end it again.
  */
  lemma TickDuringRefresh(v: View, s: GameStats, account: Option<string>, owner: Option<string>, now: int)
    requires v.active && v.remaining == 1
    requires s.isActive && !s.isCompleted && RemainingTime(s.startTime, s.duration, now) >= 1
    ensures var t := Tick(RecordStats(v, true, Some(s)));
      |v.refreshes| < |t.refreshes|
      && var r := FinishRefresh(t, |v.refreshes|, account, owner, now);
      !r.active && r.remaining == RemainingTime(s.startTime, s.duration, now)
      && r.refreshes == v.refreshes
      && forall n: nat :: Ticks(r, n) == r
  {
    var t := Tick(RecordStats(v, true, Some(s)));
    assert t.refreshes == v.refreshes + [s];
    LastCall(v.refreshes, s, s);
    var r := FinishRefresh(t, |v.refreshes|, account, owner, now);
    forall n: nat ensures Ticks(r, n) == r {
      StoppedCountdownStays(r, n);
    }
  }

  // ---------------------------------------------------------------- selection and creator

  /** The selection moves only while the game runs and nothing is busy, and nothing else moves. */
  lemma SelectCellGuard(v: View, x: int, y: int)
    requires InGrid(x, y)
    ensures var r := SelectCell(v, x, y);
      (r.selX == Some(x) && r.selY == Some(y)) || r == v
    ensures v.active && !v.searching && !v.encrypting ==>
      SelectCell(v, x, y) == v.(selX := Some(x), selY := Some(y))
    ensures !(v.active && !v.searching && !v.encrypting) ==> SelectCell(v, x, y) == v
  {
  }

  /**
    The creator's button starts an encryption only while no game runs, no encryption is in
    flight and a relayer exists; it then sets `isEncrypting` and captures the selection.
  */
  lemma CreatorEncryptionGuard(v: View, relayerReady: bool)
    ensures var r := StartCreatorEncryption(v, relayerReady);
      (!v.active && !v.encrypting && relayerReady ==>
         r == v.(encrypting := true, creatorCalls := v.creatorCalls + [Selection(v.selX, v.selY)]))
      && (v.active || v.encrypting || !relayerReady ==> r == v)
  {
  }

  /**
    The creator's encryption keeps every handle and proof as text that decodes back to the
    bytes received, and clears `isEncrypting`.
  */
  lemma CreatorCiphertextsDecode(v: View, i: nat, hx: Encoded, px: Encoded, hy: Encoded, py: Encoded)
    requires i < |v.creatorCalls| && v.creatorCalls[i].x.Some? && v.creatorCalls[i].y.Some?
    ensures var r := EncryptForCreator(v, i, Ciphertexts(hx, px, hy, py));
      !r.encrypting && r.creatorCalls == Remove(v.creatorCalls, i)
      && r.encryptedX.Some? && r.encryptedY.Some?
      && (hx.Bytes? ==> ParseHexString(r.encryptedX.value.handle.text) == Some(hx.data))
      && (px.Bytes? ==> ParseHexString(r.encryptedX.value.proof.text) == Some(px.data))
      && (hy.Bytes? ==> ParseHexString(r.encryptedY.value.handle.text) == Some(hy.data))
      && (py.Bytes? ==> ParseHexString(r.encryptedY.value.proof.text) == Some(py.data))
      && !r.encryptedX.value.handle.Bytes? && !r.encryptedX.value.proof.Bytes?
      && !r.encryptedY.value.handle.Bytes? && !r.encryptedY.value.proof.Bytes?
  {
  }

  /** A failed creator encryption, or one of a missing coordinate, keeps the old ciphertexts. */
  lemma CreatorFailureKeepsCiphertexts(v: View, i: nat, enc: EncryptionResult)
    requires i < |v.creatorCalls|
    requires enc.EncryptionThrew? || v.creatorCalls[i].x.None? || v.creatorCalls[i].y.None?
    ensures EncryptForCreator(v, i, enc) == v.(encrypting := false, creatorCalls := Remove(v.creatorCalls, i))
  {
  }

  /** `createGame` runs only with a connection and both ciphertexts, and refreshes only after a mined transaction. */
  lemma CreateGameGuards(v: View, conn: Connection, sub: SubmitResult, stats: Option<GameStats>)
    ensures var r := CreateGame(v, conn, sub, stats);
      (r.outcome.Skipped? <==> !conn.Ready() || v.encryptedX.None? || v.encryptedY.None?)
      && (r.outcome.Created? <==> !r.outcome.Skipped? && sub.Mined? && sub.status != 0)
      && (r.outcome.Created? ==> r.view == RecordStats(v, true, stats))
      && (!r.outcome.Created? ==> r.view == v)
  {
  }

  // ---------------------------------------------------------------- any interleaving

  /** One thing that can happen to the screen; a step of a call in flight names the call. */
  datatype Op =
    | CellClick(x: int, y: int)
    | XTyped(n: int)
    | YTyped(n: int)
    | SearchClick(conn: Connection)
    | PendingAnswered(call: nat, pending: PendingAnswer)
    | EncryptionReturned(call: nat, enc: EncryptionResult)
    | SubmissionReturned(call: nat, sub: SubmitResult)
    | DelaysElapsed(call: nat)
    | RefreshesReturned(call: nat)
    | EventArrived(ev: LedgerEvent, account: string)
    | FallbackFired
    | SecondElapsed
    | StatsFetched(ready: bool, stats: Option<GameStats>)
    | OwnerChecked(call: nat, signedIn: Option<string>, owner: Option<string>, now: int)
    | CreatorEncryptClick(relayerReady: bool)
    | CreatorEncryptReturned(call: nat, enc: EncryptionResult)
    | CreateClick(conn: Connection, sub: SubmitResult, stats: Option<GameStats>)

  /**
    An operation can happen: clicks hit the grid, Search is clicked only while its button is
    enabled (its other two conditions are the call's own guards), a call takes its next step
    only at the await it is suspended at, a fallback fires only when scheduled, and the
    creator panel's inputs and buttons exist only for the creator (the create button also
    only while no game runs; its ciphertext conditions are `createGame`'s own guards).
  */
  predicate Enabled(v: View, op: Op) {
    match op
    case CellClick(x, y) => InGrid(x, y)
    case SearchClick(_) => !v.encrypting
    case PendingAnswered(i, _) => i < |v.searches| && v.searches[i].Querying?
    case EncryptionReturned(i, _) => i < |v.searches| && v.searches[i].Encrypting?
    case SubmissionReturned(i, _) => i < |v.searches| && v.searches[i].Submitting?
    case DelaysElapsed(i) => i < |v.searches| && v.searches[i].Settling?
    case RefreshesReturned(i) => i < |v.searches| && v.searches[i].Finishing?
    case EventArrived(_, _) => SelectionInGrid(v)
    case FallbackFired => FallbackReady(v)
    case OwnerChecked(i, _, _, _) => i < |v.refreshes|
    case XTyped(_) => v.isCreator
    case YTyped(_) => v.isCreator
    case CreatorEncryptClick(_) => v.isCreator
    case CreatorEncryptReturned(i, _) => i < |v.creatorCalls|
    case CreateClick(_, _, _) => v.isCreator && !v.active
    case _ => true
  }

  function Apply(v: View, op: Op): View
    requires Enabled(v, op)
  {
    match op
    case CellClick(x, y) => SelectCell(v, x, y)
    case XTyped(n) => EnterX(v, n)
    case YTyped(n) => EnterY(v, n)
    case SearchClick(conn) => BeginSearch(v, conn).view
    case PendingAnswered(i, pending) => AnswerPending(v, i, pending).view
    case EncryptionReturned(i, enc) => FinishEncryption(v, i, enc).view
    case SubmissionReturned(i, sub) => FinishSubmission(v, i, sub).view
    case DelaysElapsed(i) => ScheduleFallback(v, i)
    case RefreshesReturned(i) => FinishSearch(v, i)
    case EventArrived(ev, account) => OnEvent(v, ev, account)
    case FallbackFired => OnFallback(v)
    case SecondElapsed => Tick(v)
    case StatsFetched(ready, stats) => RecordStats(v, ready, stats)
    case OwnerChecked(i, signedIn, owner, now) => FinishRefresh(v, i, signedIn, owner, now)
    case CreatorEncryptClick(relayerReady) => StartCreatorEncryption(v, relayerReady)
    case CreatorEncryptReturned(i, enc) => EncryptForCreator(v, i, enc)
    case CreateClick(conn, sub, stats) => CreateGame(v, conn, sub, stats).view
  }

  /** The cells a single operation may mark: the selection for a matched miss, the timer's cell for an open fallback. */
  function MayMark(v: View, op: Op): set<Cell> {
    match op
    case EventArrived(ev, account) =>
      if Matched(v, ev, account) && !ReportsCorrect(ev) then {Cell(v.selX.value, v.selY.value)} else {}
    case FallbackFired =>
      if v.timers != [] && v.processing then {Cell(v.timers[0].x, v.timers[0].y)} else {}
    case _ => {}
  }

  /** The operations that can mark a cell: a miss reported for this account, and a fallback. */
  predicate ReportsMiss(op: Op) {
    op.FallbackFired?
    || (op.EventArrived? && Dispatched(op.ev) && !ReportsCorrect(op.ev) && SameAddress(PlayerOf(op.ev), op.account))
  }

  /** Every operation keeps the invariant, never unmarks a cell, and marks only what `MayMark` allows. */
  lemma StepMonotone(v: View, op: Op)
    requires Inv(v) && Enabled(v, op)
    ensures Inv(Apply(v, op))
    ensures v.wrong <= Apply(v, op).wrong <= v.wrong + MayMark(v, op)
  {
    match op {
      case CellClick(_, _) =>
      case XTyped(_) =>
      case YTyped(_) =>
      case SearchClick(_) =>
      case PendingAnswered(_, _) =>
      case EncryptionReturned(_, _) =>
      case SubmissionReturned(_, _) =>
      case DelaysElapsed(_) =>
      case RefreshesReturned(_) =>
      case EventArrived(ev, account) =>
        if Matched(v, ev, account) {
          if ReportsCorrect(ev) {
            CorrectResultNeverMarks(v, ev, account);
          } else {
            WrongResultMarksSelectedCell(v, ev, account);
          }
        } else {
          IgnoredEventChangesNothing(v, ev, account);
        }
      case FallbackFired =>
      case SecondElapsed =>
      case StatsFetched(_, _) =>
      case OwnerChecked(_, _, _, _) =>
      case CreatorEncryptClick(_) =>
      case CreatorEncryptReturned(_, _) =>
      case CreateClick(_, _, _) =>
    }
  }

  /**
    Only the creator's inputs can move the selection off the grid, and they can: a number the
    creator types while no game runs is taken as it is.
  */
  lemma OnlyTypingLeavesGrid(v: View, op: Op)
    requires SelectionInGrid(v) && Enabled(v, op)
    ensures !op.XTyped? && !op.YTyped? ==> SelectionInGrid(Apply(v, op))
    ensures op == XTyped(GridSize) && v.isCreator && !v.active && v.selY.Some? ==> !SelectionInGrid(Apply(v, op))
  {
    match op {
      case CellClick(_, _) =>
      case XTyped(_) =>
      case YTyped(_) =>
      case SearchClick(_) =>
      case PendingAnswered(_, _) =>
      case EncryptionReturned(_, _) =>
      case SubmissionReturned(_, _) =>
      case DelaysElapsed(_) =>
      case RefreshesReturned(_) =>
      case EventArrived(_, _) =>
      case FallbackFired =>
      case SecondElapsed =>
      case StatsFetched(_, _) =>
      case OwnerChecked(_, _, _, _) =>
      case CreatorEncryptClick(_) =>
      case CreatorEncryptReturned(_, _) =>
      case CreateClick(_, _, _) =>
    }
  }

  predicate Runnable(v: View, ops: seq<Op>)
    decreases |ops|
  {
    ops == [] || (Enabled(v, ops[0]) && Runnable(Apply(v, ops[0]), ops[1..]))
  }

  function Run(v: View, ops: seq<Op>): View
    requires Runnable(v, ops)
    decreases |ops|
  {
    if ops == [] then v else Run(Apply(v, ops[0]), ops[1..])
  }

  /** Along any interleaving the invariant holds and the set of wrong cells only grows. */
  lemma {:induction false} RunMonotone(v: View, ops: seq<Op>)
    requires Inv(v) && Runnable(v, ops)
    ensures Inv(Run(v, ops)) && v.wrong <= Run(v, ops).wrong
    decreases |ops|
  {
    if ops != [] {
      StepMonotone(v, ops[0]);
      RunMonotone(Apply(v, ops[0]), ops[1..]);
    }
  }

  /**
    A cell is marked along a run only by a miss or a fallback somewhere in it, and that
    operation, in the state the run has reached when it happens, may mark exactly that cell.
  */
  lemma {:induction false} RunMarksOnlyByResolution(v: View, ops: seq<Op>, c: Cell)
    requires Inv(v) && Runnable(v, ops) && c in Run(v, ops).wrong && c !in v.wrong
    ensures exists i :: 0 <= i < |ops| && Runnable(v, ops[..i]) && ReportsMiss(ops[i])
                        && c in MayMark(Run(v, ops[..i]), ops[i])
    decreases |ops|
  {
    if ops == [] {
    } else {
      var w := Apply(v, ops[0]);
      StepMonotone(v, ops[0]);
      if c in w.wrong {
        assert ops[..0] == [];
        assert c in MayMark(v, ops[0]);
        assert ReportsMiss(ops[0]);
        assert Runnable(v, ops[..0]) && c in MayMark(Run(v, ops[..0]), ops[0]);
      } else {
        RunMarksOnlyByResolution(w, ops[1..], c);
        var i :| 0 <= i < |ops[1..]| && Runnable(w, ops[1..][..i]) && ReportsMiss(ops[1..][i])
                 && c in MayMark(Run(w, ops[1..][..i]), ops[1..][i]);
        var pre := ops[..i + 1];
        assert pre[0] == ops[0] && pre[1..] == ops[1..][..i];
        assert ops[i + 1] == ops[1..][i];
        assert Runnable(v, pre) && Run(v, pre) == Run(w, ops[1..][..i]);
      }
    }
  }

  // ---------------------------------------------------------------- scenarios

  /**
    A miss seen through the event before the timeout: the cell is marked, the overlay closes,
    and the fallback that follows changes nothing but its own timer.
  */
  lemma MissBeforeTimeout(v: View, conn: Connection, hx: Encoded, px: Encoded, hy: Encoded, py: Encoded,
                          ev: LedgerEvent, account: string)
    requires Inv(v) && SelectionInGrid(v) && v.timers == [] && !v.processing
    requires Sendable(v, conn, Answered(false), Ciphertexts(hx, px, hy, py))
    requires Dispatched(ev) && !ReportsCorrect(ev) && SameAddress(PlayerOf(ev), account)
    ensures var a := SearchToCompletion(v, conn, Answered(false), Ciphertexts(hx, px, hy, py), Mined(1)).view;
      a.processing && SelectionInGrid(a) && var b := OnEvent(a, ev, account);
      !b.processing && b.wrong == v.wrong + {Cell(v.selX.value, v.selY.value)}
      && FallbackReady(b) && OnFallback(b) == b.(timers := [])
  {
    SearchClearsBusyFlags(v, conn, Answered(false), Ciphertexts(hx, px, hy, py), Mined(1));
  }

  /**
    No event within ten seconds: the fallback marks the clicked cell, closes the overlay, and a
    new search may start.
  */
  lemma TimeoutWithoutEvent(v: View, conn: Connection, hx: Encoded, px: Encoded, hy: Encoded, py: Encoded)
    requires Inv(v) && SelectionInGrid(v) && v.timers == [] && !v.processing
    requires Sendable(v, conn, Answered(false), Ciphertexts(hx, px, hy, py))
    ensures var a := SearchToCompletion(v, conn, Answered(false), Ciphertexts(hx, px, hy, py), Mined(1)).view;
      FallbackReady(a) && var f := OnFallback(a);
      !f.processing && !f.searching && !f.encrypting && f.wrong == v.wrong + {Cell(v.selX.value, v.selY.value)}
      && Enabled(f, SearchClick(conn)) && BeginSearch(f, conn).outcome == Started
  {
    SearchClearsBusyFlags(v, conn, Answered(false), Ciphertexts(hx, px, hy, py), Mined(1));
  }

  /**
    The fallback's guard reads the shared `isProcessingResult`, not its own attempt: when an
    earlier attempt's timer is still pending as a new attempt opens the overlay, the old timer
    closes the new overlay and marks the old cell, while the new cell stays unmarked.
  */
  lemma OlderTimerClosesNewerAttempt(v: View, conn: Connection, hx: Encoded, px: Encoded,
                                     hy: Encoded, py: Encoded)
    requires Inv(v) && |v.timers| == 1 && FallbackReady(v) && !v.processing
    requires Sendable(v, conn, Answered(false), Ciphertexts(hx, px, hy, py))
    ensures var a := SearchToCompletion(v, conn, Answered(false), Ciphertexts(hx, px, hy, py), Mined(1)).view;
      a.processing && FallbackReady(a) && var f := OnFallback(a);
      !f.processing && f.wrong == v.wrong + {Cell(v.timers[0].x, v.timers[0].y)}
      && f.timers == [Timer(v.selX.value, v.selY.value, false)]
  {
    SearchClearsBusyFlags(v, conn, Answered(false), Ciphertexts(hx, px, hy, py), Mined(1));
  }
}
