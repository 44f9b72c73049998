/**
  The search-attempt lifecycle of the game screen as a state machine over values.

  `View` collects the screen's state that the attempt logic reads and writes: the selected cell,
  the cells known to be wrong, the busy flags `isSearching`, `isEncrypting` and
  `isProcessingResult`, `isGameActive` and `timeRemaining`, the creator flag, the last game
  record, the creator's encrypted coordinates, and what the JavaScript keeps implicitly: the
  `searchTreasure` calls in flight and how far each has got (`searches`), the creator's
  encryptions in flight (`creatorCalls`), the game-record refreshes waiting for their owner
  check (`refreshes`), and the scheduled fallback timers (`timers`, oldest
  first; every one runs 10 s after it was set, so they fire in that order). Nothing stops a
  second call from starting while one is in flight, so each in-flight call is an entry of its
  own and every step names the call it continues. Every function below is one transition; the
  class in `App` is proved against them.
*/
module Lifecycle {
  import opened Wrappers
  import opened Strings
  import opened Hex
  import opened Ledger

  const GridSize := 10

  /** Grid cell `gameGrid[y][x]`. */
  datatype Cell = Cell(x: int, y: int)

  predicate InGrid(x: int, y: int) {
    0 <= x < GridSize && 0 <= y < GridSize
  }

  /** A coordinate pair as the screen holds it; either half may be `null`. */
  datatype Selection = Selection(x: Option<int>, y: Option<int>)

  /** What `searchTreasure` read when it was called: the selection and `isProcessingResult`. */
  datatype Attempt = Attempt(x: Option<int>, y: Option<int>, sawProcessing: bool)

  /** How far one `searchTreasure` call has got: the await it is suspended at. */
  datatype Stage =
    | Querying(attempt: Attempt)                          // `await contract.isDecryptionPending()`
    | Encrypting(attempt: Attempt)                        // `await encryptCoordinates(..)`
    | Submitting(x: int, y: int, sawProcessing: bool)     // the transaction and its receipt
    | Settling(x: int, y: int, sawProcessing: bool)       // the delays before the fallback is set
    | Finishing                                           // the refreshes before `finally`

  /** The call is between `setIsSearching(true)` and the next write of `isSearching`. */
  predicate Sending(s: Stage) {
    s.Encrypting? || s.Submitting?
  }

  predicate AnySending(ss: seq<Stage>) {
    exists i :: 0 <= i < |ss| && Sending(ss[i])
  }

  predicate AnyEncrypting(ss: seq<Stage>) {
    exists i :: 0 <= i < |ss| && ss[i].Encrypting?
  }

  /** A scheduled fallback: the coordinate and the `isProcessingResult` value its closure holds. */
  datatype Timer = Timer(x: int, y: int, sawProcessing: bool)

  /** The creator's `encryptedX` / `encryptedY`: `{handle, inputProof}`. */
  datatype Cipher = Cipher(handle: Encoded, proof: Encoded)

  /** Why a call returned at one of its guards without doing anything. */
  datatype Skip = NotConnected | GameInactive | AlreadySearching | AttemptPending | MissingCiphertexts

  /** How a step of `searchTreasure` or `createGame` ended. */
  datatype Outcome =
    | Skipped(why: Skip)
    | Started
    | Proceeding
    | ReadyToSubmit
    | Submitted
    | Created
    | Failed(failure: Failure)

  datatype View = View(
    selX: Option<int>, selY: Option<int>,
    wrong: set<Cell>,
    searching: bool, encrypting: bool, processing: bool,
    active: bool, remaining: int,
    isCreator: bool, stats: Option<GameStats>,
    searches: seq<Stage>, creatorCalls: seq<Selection>, refreshes: seq<GameStats>,
    timers: seq<Timer>, encryptedX: Option<Cipher>, encryptedY: Option<Cipher>)

  datatype Step = Step(view: View, outcome: Outcome)

  /**
    The invariant every transition keeps: the countdown is never negative, only grid cells are
    marked, `isSearching` is set only while some call is encrypting or submitting, and
    `isEncrypting` only while some encryption is in flight. The converses do not hold: a call
    that ends clears the shared flag while another may still be running.
  */
  predicate Inv(v: View) {
    v.remaining >= 0
    && (forall c :: c in v.wrong ==> InGrid(c.x, c.y))
    && (v.searching ==> AnySending(v.searches))
    && (v.encrypting ==> AnyEncrypting(v.searches) || v.creatorCalls != [])
  }

  /** A selection, when there is one, names a grid cell. */
  predicate SelectionInGrid(v: View) {
    v.selX.Some? && v.selY.Some? ==> InGrid(v.selX.value, v.selY.value)
  }

  /** The state the component starts in. */
  function Initial(): (v: View)
    ensures Inv(v) && v.wrong == {} && v.selX.None? && v.selY.None?
    ensures !v.searching && !v.encrypting && !v.processing && !v.active && v.remaining == 0
    ensures v.searches == [] && v.creatorCalls == [] && v.refreshes == [] && v.timers == []
  {
    View(None, None, {}, false, false, false, false, 0, false, None, [], [], [], [], None, None)
  }

  /** The sequence without its `i`-th entry: a call that has returned. */
  function Remove<T>(ss: seq<T>, i: nat): (r: seq<T>)
    requires i < |ss|
    ensures |r| == |ss| - 1
    ensures forall j :: 0 <= j < i ==> r[j] == ss[j]
    ensures forall j :: i < j < |ss| ==> r[j - 1] == ss[j]
  {
    ss[..i] + ss[i + 1..]
  }

  /** The newest call is the last entry: moving it on or retiring it leaves the older ones alone. */
  lemma LastCall<T>(ss: seq<T>, x: T, y: T)
    ensures (ss + [x])[|ss| := y] == ss + [y]
    ensures Remove(ss + [x], |ss|) == ss
  {
    assert (ss + [x])[..|ss|] == ss;
  }

  /** Removing a call that is not encrypting or submitting keeps the witnesses of `Inv`. */
  lemma RemoveKeeps(ss: seq<Stage>, i: nat)
    requires i < |ss|
    ensures AnySending(ss) && !Sending(ss[i]) ==> AnySending(Remove(ss, i))
    ensures AnyEncrypting(ss) && !ss[i].Encrypting? ==> AnyEncrypting(Remove(ss, i))
  {
    if AnySending(ss) && !Sending(ss[i]) {
      var j :| 0 <= j < |ss| && Sending(ss[j]);
      var k := if j < i then j else j - 1;
      assert Sending(Remove(ss, i)[k]);
    }
    if AnyEncrypting(ss) && !ss[i].Encrypting? {
      var j :| 0 <= j < |ss| && ss[j].Encrypting?;
      var k := if j < i then j else j - 1;
      assert Remove(ss, i)[k].Encrypting?;
    }
  }

  /** Moving one call to a new stage keeps the witnesses of `Inv` other calls provide. */
  lemma UpdateKeeps(ss: seq<Stage>, i: nat, x: Stage)
    requires i < |ss|
    ensures (AnySending(ss) && !Sending(ss[i])) || Sending(x) ==> AnySending(ss[i := x])
    ensures (AnyEncrypting(ss) && !ss[i].Encrypting?) || x.Encrypting? ==> AnyEncrypting(ss[i := x])
  {
    if AnySending(ss) && !Sending(ss[i]) {
      var j :| 0 <= j < |ss| && Sending(ss[j]);
      assert Sending(ss[i := x][j]);
    }
    if Sending(x) {
      assert Sending(ss[i := x][i]);
    }
    if AnyEncrypting(ss) && !ss[i].Encrypting? {
      var j :| 0 <= j < |ss| && ss[j].Encrypting?;
      assert ss[i := x][j].Encrypting?;
    }
    if x.Encrypting? {
      assert ss[i := x][i].Encrypting?;
    }
  }

  /** A new call at the end keeps the witnesses of `Inv`. */
  lemma AppendKeeps(ss: seq<Stage>, x: Stage)
    ensures AnySending(ss) ==> AnySending(ss + [x])
    ensures AnyEncrypting(ss) ==> AnyEncrypting(ss + [x])
  {
    if AnySending(ss) {
      var j :| 0 <= j < |ss| && Sending(ss[j]);
      assert Sending((ss + [x])[j]);
    }
    if AnyEncrypting(ss) {
      var j :| 0 <= j < |ss| && ss[j].Encrypting?;
      assert (ss + [x])[j].Encrypting?;
    }
  }

  // ---------------------------------------------------------------- selection

  /** `handleCellClick(x, y)`: the selection moves only while the game runs and nothing is busy. */
  function SelectCell(v: View, x: int, y: int): (r: View)
    requires InGrid(x, y)
    ensures Inv(v) ==> Inv(r)
  {
    if v.active && !v.searching && !v.encrypting then v.(selX := Some(x), selY := Some(y)) else v
  }

  /** The creator's X input: any integer (`parseInt(..) || 0`), taken only while no game is running. */
  function EnterX(v: View, n: int): (r: View)
    ensures Inv(v) ==> Inv(r)
  {
    if v.active then v else v.(selX := Some(n))
  }

  /** The creator's Y input, like `EnterX`. */
  function EnterY(v: View, n: int): (r: View)
    ensures Inv(v) ==> Inv(r)
  {
    if v.active then v else v.(selY := Some(n))
  }

  // ---------------------------------------------------------------- searchTreasure

  /**
    A click on "Search": the three guards that run before the first await. A call that passes
    them is added to the calls in flight; `isSearching` is not set yet.
  */
  function BeginSearch(v: View, conn: Connection): (r: Step)
    ensures Inv(v) ==> Inv(r.view)
    ensures r.view.selX == v.selX && r.view.selY == v.selY && r.view.wrong == v.wrong
  {
    if !conn.Ready() then Step(v, Skipped(NotConnected))
    else if !v.active then Step(v, Skipped(GameInactive))
    else if v.searching then Step(v, Skipped(AlreadySearching))
    else
      var call := Querying(Attempt(v.selX, v.selY, v.processing));
      AppendKeeps(v.searches, call);
      Step(v.(searches := v.searches + [call]), Started)
  }

  /**
    Call `i` gets the `isDecryptionPending` answer: a pending decryption returns before the
    try block; anything else, a failed query included, sets `isSearching` and, on entering
    `encryptCoordinates`, `isEncrypting`.
  */
  function AnswerPending(v: View, i: nat, pending: PendingAnswer): (r: Step)
    requires i < |v.searches| && v.searches[i].Querying?
    ensures Inv(v) ==> Inv(r.view)
    ensures r.view.selX == v.selX && r.view.selY == v.selY && r.view.wrong == v.wrong
  {
    var a := v.searches[i].attempt;
    RemoveKeeps(v.searches, i);
    UpdateKeeps(v.searches, i, Encrypting(a));
    if pending == Answered(true) then Step(v.(searches := Remove(v.searches, i)), Skipped(AttemptPending))
    else Step(v.(searching := true, encrypting := true, searches := v.searches[i := Encrypting(a)]), Proceeding)
  }

  /** Call `i` leaves through its catch and finally blocks, which run without awaiting. */
  function Abort(v: View, i: nat, f: Failure): (r: Step)
    requires i < |v.searches|
    ensures !r.view.searching && r.outcome == Failed(f) && r.view.searches == Remove(v.searches, i)
    ensures r.view == v.(searching := false, searches := r.view.searches)
  {
    Step(v.(searching := false, searches := Remove(v.searches, i)), Failed(f))
  }

  /**
    Call `i`'s encryption returns, then its values are checked. X is encrypted before Y, so a
    missing X makes `BigInt(null)` throw before any encryption, while with only Y missing the
    X encryption runs first and a throw there wins.
  */
  function FinishEncryption(v: View, i: nat, enc: EncryptionResult): (r: Step)
    requires i < |v.searches| && v.searches[i].Encrypting?
    ensures Inv(v) ==> Inv(r.view)
    ensures r.view.selX == v.selX && r.view.selY == v.selY && r.view.wrong == v.wrong
  {
    var a := v.searches[i].attempt;
    var done := v.(encrypting := false);
    if a.x.None? then Abort(done, i, Classify(Thrown(NullCoordinateMessage)))
    else match enc
      case EncryptionThrew(e) => Abort(done, i, Classify(e))
      case Ciphertexts(hx, px, hy, py) =>
        if a.y.None? then Abort(done, i, Classify(Thrown(NullCoordinateMessage)))
        else if Truthy(Hexify(hx)) && Truthy(Hexify(hy)) && Truthy(Hexify(px)) && Truthy(Hexify(py))
        then
          var next := Submitting(a.x.value, a.y.value, a.sawProcessing);
          UpdateKeeps(v.searches, i, next);
          Step(done.(searches := v.searches[i := next]), ReadyToSubmit)
        else Abort(done, i, Classify(Thrown(InvalidFormatMessage)))
  }

  /** Call `i`'s transaction is sent and mined; on success `isSearching` clears and the overlay opens. */
  function FinishSubmission(v: View, i: nat, sub: SubmitResult): (r: Step)
    requires i < |v.searches| && v.searches[i].Submitting?
    ensures Inv(v) ==> Inv(r.view)
    ensures r.view.selX == v.selX && r.view.selY == v.selY && r.view.wrong == v.wrong
  {
    var p := v.searches[i];
    var next := Settling(p.x, p.y, p.sawProcessing);
    RemoveKeeps(v.searches, i);
    UpdateKeeps(v.searches, i, next);
    match sub
    case SubmitThrew(e) => Abort(v, i, Classify(e))
    case Mined(status) =>
      if status == 0 then Abort(v, i, Classify(Thrown(RevertedMessage)))
      else Step(v.(searching := false, processing := true, searches := v.searches[i := next]), Submitted)
  }

  /** Call `i`'s delays are over: it schedules its fallback timer. */
  function ScheduleFallback(v: View, i: nat): (r: View)
    requires i < |v.searches| && v.searches[i].Settling?
    ensures Inv(v) ==> Inv(r)
    ensures r.selX == v.selX && r.selY == v.selY && r.wrong == v.wrong
  {
    var p := v.searches[i];
    UpdateKeeps(v.searches, i, Finishing);
    v.(timers := v.timers + [Timer(p.x, p.y, p.sawProcessing)], searches := v.searches[i := Finishing])
  }

  /** Call `i`'s refreshes have returned: its finally block clears `isSearching`, whoever set it. */
  function FinishSearch(v: View, i: nat): (r: View)
    requires i < |v.searches| && v.searches[i].Finishing?
    ensures Inv(v) ==> Inv(r)
    ensures r.selX == v.selX && r.selY == v.selY && r.wrong == v.wrong
  {
    RemoveKeeps(v.searches, i);
    v.(searching := false, searches := Remove(v.searches, i))
  }

  /** One `searchTreasure` call with nothing else happening between its steps. */
  function SearchToCompletion(v: View, conn: Connection, pending: PendingAnswer,
                              enc: EncryptionResult, sub: SubmitResult): Step
  {
    var n := |v.searches|;
    var b := BeginSearch(v, conn);
    if !b.outcome.Started? then b
    else
      var q := AnswerPending(b.view, n, pending);
      if !q.outcome.Proceeding? then q
      else
        var e := FinishEncryption(q.view, n, enc);
        if !e.outcome.ReadyToSubmit? then e
        else
          var s := FinishSubmission(e.view, n, sub);
          if !s.outcome.Submitted? then s
          else Step(FinishSearch(ScheduleFallback(s.view, n), n), Submitted)
  }

  // ---------------------------------------------------------------- events

  /** The three events the wildcard listener passes on to a handler. */
  predicate Dispatched(ev: LedgerEvent) {
    ev.AttemptMade? || ev.DecryptionCompleted? || ev.WrongAttemptRecorded?
  }

  function PlayerOf(ev: LedgerEvent): string
    requires Dispatched(ev)
  {
    match ev
    case AttemptMade(_, p, _) => p
    case DecryptionCompleted(_, p, _) => p
    case WrongAttemptRecorded(p, _) => p
  }

  /** `WrongAttemptRecorded` always reports a miss; the other two carry `isCorrect`. */
  predicate ReportsCorrect(ev: LedgerEvent)
    requires Dispatched(ev)
  {
    match ev
    case AttemptMade(_, _, c) => c
    case DecryptionCompleted(_, _, c) => c
    case WrongAttemptRecorded(_, _) => false
  }

  /** The handlers' common body: a result for this account while a cell is selected resolves the attempt. */
  function Resolve(v: View, player: string, account: string, correct: bool): (r: View)
    requires SelectionInGrid(v)
    ensures v.wrong <= r.wrong && r.selX == v.selX && r.selY == v.selY
    ensures r.wrong != v.wrong ==>
      !correct && v.selX.Some? && v.selY.Some? && r.wrong == v.wrong + {Cell(v.selX.value, v.selY.value)}
    ensures !SameAddress(player, account) ==> r == v
  {
    if SameAddress(player, account) && v.selX.Some? && v.selY.Some? then
      if correct then v.(processing := false, active := false)
      else v.(processing := false, wrong := v.wrong + {Cell(v.selX.value, v.selY.value)})
    else v
  }

  /** The wildcard listener: dispatch by event name; `TreasureFound` and `GameCompleted` reach no handler. */
  function OnEvent(v: View, ev: LedgerEvent, account: string): (r: View)
    requires SelectionInGrid(v)
    ensures Inv(v) ==> Inv(r)
  {
    match ev
    case WrongAttemptRecorded(p, _) => Resolve(v, p, account, false)
    case AttemptMade(_, p, c) => Resolve(v, p, account, c)
    case DecryptionCompleted(_, p, c) => Resolve(v, p, account, c)
    case TreasureFound(_, _, _, _, _) => v
    case GameCompleted(_, _, _) => v
  }

  // ---------------------------------------------------------------- fallback timer

  /** The oldest fallback fires: while the attempt is still unresolved it is taken as a miss. */
  function OnFallback(v: View): (r: View)
    requires v.timers != [] && InGrid(v.timers[0].x, v.timers[0].y)
    ensures Inv(v) ==> Inv(r)
  {
    var t := v.timers[0];
    var rest := v.(timers := v.timers[1..]);
    if v.processing then rest.(processing := false, wrong := v.wrong + {Cell(t.x, t.y)}) else rest
  }

  // ---------------------------------------------------------------- countdown and refresh

  /** One second of the countdown; the interval only runs while the game is active with time left. */
  function Tick(v: View): (r: View)
    ensures Inv(v) ==> Inv(r)
  {
    if v.active && v.remaining > 0 then
      if v.remaining <= 1 then v.(active := false, remaining := 0) else v.(remaining := v.remaining - 1)
    else v
  }

  /** `n` seconds of the countdown. */
  function Ticks(v: View, n: nat): (r: View)
    ensures Inv(v) ==> Inv(r)
    ensures r.remaining <= v.remaining && (r.active ==> v.active)
    ensures r == v.(active := r.active, remaining := r.remaining)
    decreases n
  {
    if n == 0 then v else Ticks(Tick(v), n - 1)
  }

  /** `checkIsCreator`: no account, no change; a failed `owner()` call clears the flag. */
  function CreatorFlag(v: View, account: Option<string>, owner: Option<string>): (r: bool)
    ensures account.Some? && owner.Some? ==> (r <==> SameAddress(account.value, owner.value))
    ensures account.Some? && owner.None? ==> !r
    ensures account.None? ==> r == v.isCreator
  {
    if account.None? then v.isCreator else owner.Some? && SameAddress(account.value, owner.value)
  }

  /**
    `fetchGameStats` up to `await checkIsCreator()`: the record and the activity are written,
    and the call waits for the owner check, keeping the record it read.
  */
  function RecordStats(v: View, contractReady: bool, stats: Option<GameStats>): (r: View)
    ensures Inv(v) ==> Inv(r)
    ensures r.selX == v.selX && r.selY == v.selY && r.wrong == v.wrong
  {
    if !contractReady || stats.None? then v
    else
      var s := stats.value;
      v.(stats := stats, active := s.isActive && !s.isCompleted, refreshes := v.refreshes + [s])
  }

  /**
    Refresh `i` after its owner check: the creator flag, then, when the record it read was
    active, the remaining time computed from that record.
  */
  function FinishRefresh(v: View, i: nat, account: Option<string>, owner: Option<string>,
                         now: int): (r: View)
    requires i < |v.refreshes|
    ensures Inv(v) ==> Inv(r)
    ensures r.selX == v.selX && r.selY == v.selY && r.wrong == v.wrong
  {
    var s := v.refreshes[i];
    v.(isCreator := CreatorFlag(v, account, owner), refreshes := Remove(v.refreshes, i),
       remaining := if s.isActive && !s.isCompleted then RemainingTime(s.startTime, s.duration, now)
                    else v.remaining)
  }

  /** A whole `fetchGameStats` call with nothing in between: its two halves in a row. */
  function Refresh(v: View, contractReady: bool, account: Option<string>, stats: Option<GameStats>,
                   owner: Option<string>, now: int): (r: View)
    ensures Inv(v) ==> Inv(r)
  {
    if !contractReady || stats.None? then v
    else FinishRefresh(RecordStats(v, true, stats), |v.refreshes|, account, owner, now)
  }

  // ---------------------------------------------------------------- creator flow

  /**
    The creator's "Encrypt Coordinates" button, disabled while a game runs or an encryption is
    in flight: without a relayer it throws at once (and the throw is swallowed), otherwise it
    sets `isEncrypting` and starts encrypting the current selection.
  */
  function StartCreatorEncryption(v: View, relayerReady: bool): (r: View)
    ensures Inv(v) ==> Inv(r)
    ensures r.selX == v.selX && r.selY == v.selY && r.wrong == v.wrong
  {
    if v.active || v.encrypting || !relayerReady then v
    else v.(encrypting := true, creatorCalls := v.creatorCalls + [Selection(v.selX, v.selY)])
  }

  /** Creator encryption `i` returns: both pairs are kept on success, any throw is swallowed. */
  function EncryptForCreator(v: View, i: nat, enc: EncryptionResult): (r: View)
    requires i < |v.creatorCalls|
    ensures Inv(v) ==> Inv(r)
    ensures r.selX == v.selX && r.selY == v.selY && r.wrong == v.wrong
  {
    var c := v.creatorCalls[i];
    var done := v.(encrypting := false, creatorCalls := Remove(v.creatorCalls, i));
    if c.x.None? || c.y.None? then done
    else match enc
      case EncryptionThrew(_) => done
      case Ciphertexts(hx, px, hy, py) =>
        done.(encryptedX := Some(Cipher(Hexify(hx), Hexify(px))),
              encryptedY := Some(Cipher(Hexify(hy), Hexify(py))))
  }

  /** `createGame`: two guards, the transaction, then the first half of a refresh of the game record. */
  function CreateGame(v: View, conn: Connection, sub: SubmitResult, stats: Option<GameStats>)
    : (r: Step)
    ensures Inv(v) ==> Inv(r.view)
  {
    if !conn.Ready() then Step(v, Skipped(NotConnected))
    else if v.encryptedX.None? || v.encryptedY.None? then Step(v, Skipped(MissingCiphertexts))
    else match sub
      case SubmitThrew(e) => Step(v, Failed(Classify(e)))
      case Mined(status) =>
        if status == 0 then Step(v, Failed(Classify(Thrown(RevertedMessage))))
        else Step(RecordStats(v, true, stats), Created)
  }
}
