/**
  The component's mutable state as an object. Each method is one transition; its contract ties
  the new `State()` to the matching function of `Lifecycle` applied to the old one, so every
  property proved there holds of the object. The grid is a real 10×10 array written in place:
  the JavaScript copies only the outer array (`[...gameGrid]`), so every copy shares the same
  rows and `newGrid[y][x] = true` writes the one grid all of them see.
*/
module App {
  import opened Wrappers
  import opened Ledger
  import opened Hex
  import opened Strings
  import opened Lifecycle

  class AppState {
    var selectedX: Option<int>
    var selectedY: Option<int>
    var gameGrid: array2<bool>
    /** The cells `gameGrid` marks, as a set. */
    ghost var wrongCells: set<Cell>
    var isSearching: bool
    var isEncrypting: bool
    var isProcessingResult: bool
    var isGameActive: bool
    var timeRemaining: int
    var isCreator: bool
    var gameStats: Option<GameStats>
    var encryptedX: Option<Cipher>
    var encryptedY: Option<Cipher>
    /** The `searchTreasure` calls in flight and the await each is suspended at. */
    var searches: seq<Stage>
    /** The selections the creator's encryptions in flight were started with. */
    var creatorCalls: seq<Selection>
    /** The records read by the `fetchGameStats` calls waiting for their owner check. */
    var refreshes: seq<GameStats>
    /** The scheduled fallback timers, oldest first. */
    var fallbacks: seq<Timer>

    ghost function State(): View
      reads this
    {
      View(selectedX, selectedY, wrongCells, isSearching, isEncrypting, isProcessingResult,
           isGameActive, timeRemaining, isCreator, gameStats, searches, creatorCalls, refreshes,
           fallbacks, encryptedX, encryptedY)
    }

    ghost predicate Valid()
      reads this, gameGrid
    {
      gameGrid.Length0 == GridSize && gameGrid.Length1 == GridSize
      && (forall y, x :: 0 <= y < GridSize && 0 <= x < GridSize ==> (gameGrid[y, x] <==> Cell(x, y) in wrongCells))
      && Inv(State())
    }

    constructor ()
      ensures Valid() && fresh(gameGrid) && State() == Initial()
    {
      selectedX, selectedY := None, None;
      gameGrid := new bool[GridSize, GridSize]((y, x) => false);
      wrongCells := {};
      isSearching, isEncrypting, isProcessingResult := false, false, false;
      isGameActive, timeRemaining := false, 0;
      isCreator, gameStats := false, None;
      encryptedX, encryptedY := None, None;
      searches, creatorCalls, refreshes, fallbacks := [], [], [], [];
    }

    /** `gameGrid[y][x] = true`. */
    method Mark(x: int, y: int)
      requires Valid() && InGrid(x, y)
      modifies this`wrongCells, gameGrid
      ensures Valid() && wrongCells == old(wrongCells) + {Cell(x, y)}
    {
      gameGrid[y, x] := true;
      wrongCells := wrongCells + {Cell(x, y)};
    }

    /** `handleCellClick`. */
    method HandleCellClick(x: int, y: int)
      requires Valid() && InGrid(x, y)
      modifies this
      ensures Valid() && gameGrid == old(gameGrid)
      ensures State() == SelectCell(old(State()), x, y)
    {
      if isGameActive && !isSearching && !isEncrypting {
        selectedX := Some(x);
        selectedY := Some(y);
      }
    }

    /** The creator's X input. */
    method TypeX(n: int)
      requires Valid()
      modifies this`selectedX
      ensures State() == EnterX(old(State()), n)
      ensures Valid()
    {
      if !isGameActive {
        selectedX := Some(n);
      }
    }

    /** The creator's Y input. */
    method TypeY(n: int)
      requires Valid()
      modifies this`selectedY
      ensures State() == EnterY(old(State()), n)
      ensures Valid()
    {
      if !isGameActive {
        selectedY := Some(n);
      }
    }

    /** A click on "Search": `searchTreasure` up to its first await. */
    method BeginSearch(conn: Connection) returns (outcome: Outcome)
      requires Valid()
      modifies this`searches
      ensures Step(State(), outcome) == Lifecycle.BeginSearch(old(State()), conn)
      ensures Valid()
    {
      if !conn.Ready() {
        return Skipped(NotConnected);
      }
      if !isGameActive {
        return Skipped(GameInactive);
      }
      if isSearching {
        return Skipped(AlreadySearching);
      }
      searches := searches + [Querying(Attempt(selectedX, selectedY, isProcessingResult))];
      outcome := Started;
    }

    /** Call `call` gets its `isDecryptionPending` answer. */
    method AnswerPending(call: nat, pending: PendingAnswer) returns (outcome: Outcome)
      requires Valid() && call < |searches| && searches[call].Querying?
      modifies this`isSearching, this`isEncrypting, this`searches
      ensures Step(State(), outcome) == Lifecycle.AnswerPending(old(State()), call, pending)
      ensures Valid()
    {
      if pending == Answered(true) {
        searches := Remove(searches, call);
        return Skipped(AttemptPending);
      }
      isSearching := true;
      isEncrypting := true;
      searches := searches[call := Encrypting(searches[call].attempt)];
      outcome := Proceeding;
    }

    /** Call `call`'s catch and finally blocks. */
    method Abort(call: nat, e: JsError) returns (outcome: Outcome)
      requires Valid() && call < |searches| && (isEncrypting ==> !searches[call].Encrypting?)
      modifies this`isSearching, this`searches
      ensures Step(State(), outcome) == Lifecycle.Abort(old(State()), call, Classify(e))
      ensures Valid()
    {
      RemoveKeeps(searches, call);
      isSearching := false;
      searches := Remove(searches, call);
      outcome := Failed(Classify(e));
    }

    /** Call `call`'s encryption returns; its four values are checked. */
    method FinishEncryption(call: nat, enc: EncryptionResult) returns (outcome: Outcome)
      requires Valid() && call < |searches| && searches[call].Encrypting?
      modifies this`isSearching, this`isEncrypting, this`searches
      ensures Step(State(), outcome) == Lifecycle.FinishEncryption(old(State()), call, enc)
      ensures Valid()
    {
      var a := searches[call].attempt;
      isEncrypting := false;
      if a.x.None? {
        outcome := Abort(call, Thrown(NullCoordinateMessage));
        return;
      }
      match enc {
        case EncryptionThrew(e) =>
          outcome := Abort(call, e);
        case Ciphertexts(hx, px, hy, py) =>
          if a.y.None? {
            outcome := Abort(call, Thrown(NullCoordinateMessage));
          } else if Truthy(Hexify(hx)) && Truthy(Hexify(hy)) && Truthy(Hexify(px)) && Truthy(Hexify(py)) {
            searches := searches[call := Submitting(a.x.value, a.y.value, a.sawProcessing)];
            outcome := ReadyToSubmit;
          } else {
            outcome := Abort(call, Thrown(InvalidFormatMessage));
          }
      }
    }

    /** Call `call`'s transaction is sent and its receipt read. */
    method FinishSubmission(call: nat, sub: SubmitResult) returns (outcome: Outcome)
      requires Valid() && call < |searches| && searches[call].Submitting?
      modifies this`isSearching, this`isProcessingResult, this`searches
      ensures Step(State(), outcome) == Lifecycle.FinishSubmission(old(State()), call, sub)
      ensures Valid()
    {
      var p := searches[call];
      match sub {
        case SubmitThrew(e) =>
          outcome := Abort(call, e);
        case Mined(status) =>
          if status == 0 {
            outcome := Abort(call, Thrown(RevertedMessage));
          } else {
            isSearching := false;
            isProcessingResult := true;
            searches := searches[call := Settling(p.x, p.y, p.sawProcessing)];
            outcome := Submitted;
          }
      }
    }

    /** Call `call`'s delays are over: its fallback timer is scheduled. */
    method ScheduleFallback(call: nat)
      requires Valid() && call < |searches| && searches[call].Settling?
      modifies this`fallbacks, this`searches
      ensures State() == Lifecycle.ScheduleFallback(old(State()), call)
      ensures Valid()
    {
      var p := searches[call];
      fallbacks := fallbacks + [Timer(p.x, p.y, p.sawProcessing)];
      searches := searches[call := Finishing];
    }

    /** Call `call`'s refreshes have returned: its finally block. */
    method FinishSearch(call: nat)
      requires Valid() && call < |searches| && searches[call].Finishing?
      modifies this`isSearching, this`searches
      ensures State() == Lifecycle.FinishSearch(old(State()), call)
      ensures Valid()
    {
      isSearching := false;
      searches := Remove(searches, call);
    }

    /** A whole `searchTreasure` call with no other handler running between its awaits. */
    method SearchTreasure(conn: Connection, pending: PendingAnswer, enc: EncryptionResult, sub: SubmitResult)
      returns (outcome: Outcome)
      requires Valid()
      modifies this
      ensures Valid() && gameGrid == old(gameGrid)
      ensures Step(State(), outcome) == SearchToCompletion(old(State()), conn, pending, enc, sub)
    {
      var n := |searches|;
      outcome := BeginSearch(conn);
      if !outcome.Started? {
        return;
      }
      outcome := AnswerPending(n, pending);
      if !outcome.Proceeding? {
        return;
      }
      outcome := FinishEncryption(n, enc);
      if !outcome.ReadyToSubmit? {
        return;
      }
      outcome := FinishSubmission(n, sub);
      if !outcome.Submitted? {
        return;
      }
      ScheduleFallback(n);
      FinishSearch(n);
    }

    /** The body the three dispatched handlers share. */
    method HandleResult(player: string, account: string, isCorrect: bool)
      requires Valid() && SelectionInGrid(State())
      modifies this, gameGrid
      ensures Valid() && gameGrid == old(gameGrid)
      ensures State() == Resolve(old(State()), player, account, isCorrect)
    {
      if SameAddress(player, account) && selectedX.Some? && selectedY.Some? {
        isProcessingResult := false;
        if isCorrect {
          isGameActive := false;
        } else {
          Mark(selectedX.value, selectedY.value);
        }
      }
    }

    /** The wildcard listener. */
    method HandleEvent(ev: LedgerEvent, account: string)
      requires Valid() && SelectionInGrid(State())
      modifies this, gameGrid
      ensures Valid() && gameGrid == old(gameGrid)
      ensures State() == OnEvent(old(State()), ev, account)
    {
      match ev {
        case WrongAttemptRecorded(p, _) => HandleResult(p, account, false);
        case DecryptionCompleted(_, p, c) => HandleResult(p, account, c);
        case AttemptMade(_, p, c) => HandleResult(p, account, c);
        case TreasureFound(_, _, _, _, _) =>
        case GameCompleted(_, _, _) =>
      }
    }

    /** The oldest fallback timer fires. */
    method Fallback()
      requires Valid() && fallbacks != [] && InGrid(fallbacks[0].x, fallbacks[0].y)
      modifies this, gameGrid
      ensures Valid() && gameGrid == old(gameGrid)
      ensures State() == OnFallback(old(State()))
    {
      var t := fallbacks[0];
      fallbacks := fallbacks[1..];
      if isProcessingResult {
        isProcessingResult := false;
        Mark(t.x, t.y);
      }
    }

    /** The countdown interval's callback. */
    method Tick()
      requires Valid()
      modifies this`timeRemaining, this`isGameActive
      ensures State() == Lifecycle.Tick(old(State()))
      ensures Valid()
    {
      if isGameActive && timeRemaining > 0 {
        if timeRemaining <= 1 {
          isGameActive := false;
          timeRemaining := 0;
        } else {
          timeRemaining := timeRemaining - 1;
        }
      }
    }

    /** `checkIsCreator`, given the account and the `owner()` answer (`None` when that call throws). */
    method CheckIsCreator(account: Option<string>, owner: Option<string>)
      requires Valid()
      modifies this`isCreator
      ensures Valid() && isCreator == CreatorFlag(old(State()), account, owner)
    {
      if account.None? {
        return;
      }
      isCreator := owner.Some? && SameAddress(account.value, owner.value);
    }

    /** `fetchGameStats` up to `await checkIsCreator()`, given the `getGameStats` answer (`None` when it throws). */
    method RecordStats(contractReady: bool, stats: Option<GameStats>)
      requires Valid()
      modifies this`gameStats, this`isGameActive, this`refreshes
      ensures State() == Lifecycle.RecordStats(old(State()), contractReady, stats)
      ensures Valid()
    {
      if !contractReady || stats.None? {
        return;
      }
      var s := stats.value;
      gameStats := stats;
      isGameActive := s.isActive && !s.isCompleted;
      refreshes := refreshes + [s];
    }

    /** Refresh `call` resumes: its owner check, then the remaining time from the record it read. */
    method FinishRefresh(call: nat, account: Option<string>, owner: Option<string>, now: int)
      requires Valid() && call < |refreshes|
      modifies this`isCreator, this`timeRemaining, this`refreshes
      ensures State() == Lifecycle.FinishRefresh(old(State()), call, account, owner, now)
      ensures Valid()
    {
      var s := refreshes[call];
      CheckIsCreator(account, owner);
      refreshes := Remove(refreshes, call);
      if s.isActive && !s.isCompleted {
        timeRemaining := RemainingTime(s.startTime, s.duration, now);
      }
    }

    /** A whole `fetchGameStats` call with nothing in between. */
    method FetchGameStats(contractReady: bool, account: Option<string>, stats: Option<GameStats>,
                          owner: Option<string>, now: int)
      requires Valid()
      modifies this
      ensures gameGrid == old(gameGrid)
      ensures State() == Refresh(old(State()), contractReady, account, stats, owner, now)
      ensures Valid()
    {
      if !contractReady || stats.None? {
        return;
      }
      RecordStats(true, stats);
      FinishRefresh(|refreshes| - 1, account, owner, now);
    }

    /** The creator's "Encrypt Coordinates" button, up to its first await. */
    method StartCreatorEncryption(relayerReady: bool)
      requires Valid()
      modifies this`isEncrypting, this`creatorCalls
      ensures State() == Lifecycle.StartCreatorEncryption(old(State()), relayerReady)
      ensures Valid()
    {
      if isGameActive || isEncrypting || !relayerReady {
        return;
      }
      isEncrypting := true;
      creatorCalls := creatorCalls + [Selection(selectedX, selectedY)];
    }

    /** The creator's encryption `call` returns. */
    method EncryptCoordinates(call: nat, enc: EncryptionResult)
      requires Valid() && call < |creatorCalls|
      modifies this`isEncrypting, this`creatorCalls, this`encryptedX, this`encryptedY
      ensures State() == EncryptForCreator(old(State()), call, enc)
      ensures Valid()
    {
      var c := creatorCalls[call];
      isEncrypting := false;
      creatorCalls := Remove(creatorCalls, call);
      if c.x.None? || c.y.None? {
        return;
      }
      match enc {
        case EncryptionThrew(_) =>
        case Ciphertexts(hx, px, hy, py) =>
          encryptedX := Some(Cipher(Hexify(hx), Hexify(px)));
          encryptedY := Some(Cipher(Hexify(hy), Hexify(py)));
      }
    }

    /** `createGame`. */
    method CreateGame(conn: Connection, sub: SubmitResult, stats: Option<GameStats>)
      returns (outcome: Outcome)
      requires Valid()
      modifies this
      ensures Valid() && gameGrid == old(gameGrid)
      ensures Step(State(), outcome) == Lifecycle.CreateGame(old(State()), conn, sub, stats)
    {
      if !conn.Ready() {
        return Skipped(NotConnected);
      }
      if encryptedX.None? || encryptedY.None? {
        return Skipped(MissingCiphertexts);
      }
      match sub {
        case SubmitThrew(e) =>
          outcome := Failed(Classify(e));
        case Mined(status) =>
          if status == 0 {
            outcome := Failed(Classify(Thrown(RevertedMessage)));
          } else {
            RecordStats(true, stats);
            outcome := Created;
          }
      }
    }
  }
}
