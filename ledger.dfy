/**
  What the outside world answers the application: the game record `getGameStats` returns, the
  events the contract emits, the readiness of the wallet, contract and relayer objects, the
  `isDecryptionPending` answer, the gateway's encryption result, the mined receipt, and the
  errors thrown on the way. None of these services is modelled; their answers are values.
  Also here: how a thrown error is classified, and how the remaining time is derived.
*/
module Ledger {
  import opened Strings
  import opened Hex

  /** The record `getGameStats()` returns (its ten fields, in order). */
  datatype GameStats = GameStats(
    id: int, creator: string, treasureAmount: int, duration: int, startTime: int,
    isActive: bool, isCompleted: bool, winner: string, totalAttempts: int, totalRevenue: int)

  /** Which of `relayerInstance`, `contract` and `signer` are set. */
  datatype Connection = Connection(relayer: bool, contract: bool, signer: bool) {
    predicate Ready() {
      relayer && contract && signer
    }
  }

  /** The answer of `isDecryptionPending()`: a value, or the call threw. */
  datatype PendingAnswer = Answered(pending: bool) | QueryFailed

  /** What `err.code`, `err.message` and `err.reason` hold for a thrown error ("" when absent). */
  datatype JsError = JsError(code: string, message: string, reason: string)

  /** An error raised by `throw new Error(message)`: no code and no reason. */
  function Thrown(message: string): JsError {
    JsError("", message, "")
  }

  const NullCoordinateMessage := "Cannot convert null to a BigInt"
  const InvalidFormatMessage := "Invalid encrypted data format"
  const RevertedMessage := "Transaction failed - check contract requirements"

  /** Two gateway encryptions (x, then y): one handle and one input proof each, or a throw. */
  datatype EncryptionResult =
    | Ciphertexts(handleX: Encoded, proofX: Encoded, handleY: Encoded, proofY: Encoded)
    | EncryptionThrew(error: JsError)

  /** Sending the transaction and waiting for it: the receipt's status, or a throw on the way. */
  datatype SubmitResult = Mined(status: int) | SubmitThrew(error: JsError)

  /** The five events of the contract with the arguments the handlers receive. */
  datatype LedgerEvent =
    | AttemptMade(gameId: int, player: string, isCorrect: bool)
    | DecryptionCompleted(gameId: int, player: string, isCorrect: bool)
    | WrongAttemptRecorded(player: string, gameId: int)
    | TreasureFound(gameId: int, winner: string, x: int, y: int, amount: int)
    | GameCompleted(gameId: int, winner: string, totalRevenue: int)

  /** The classes a failed transaction is sorted into. */
  datatype Failure = ContractCallFailed | InsufficientFunds | UserRejected | Unclassified(text: string)

  /** The message chain of the catch blocks: code first, then the message text, then the error's own text. */
  function Classify(e: JsError): (f: Failure)
    ensures f == ContractCallFailed <==> e.code == "CALL_EXCEPTION"
    ensures f == InsufficientFunds <==> e.code == "INSUFFICIENT_FUNDS"
    ensures f == UserRejected
      <==> e.code != "CALL_EXCEPTION" && e.code != "INSUFFICIENT_FUNDS"
           && exists i :: MatchesAt(e.message, "user rejected", i)
    ensures f.Unclassified? ==> f.text == if e.reason != "" then e.reason else e.message
  {
    ContainsIff(e.message, "user rejected");
    if e.code == "CALL_EXCEPTION" then ContractCallFailed
    else if e.code == "INSUFFICIENT_FUNDS" then InsufficientFunds
    else if Contains(e.message, "user rejected") then UserRejected
    else Unclassified(if e.reason != "" then e.reason else e.message)
  }

  /** `Math.max(0, startTime + duration - now)`. */
  function RemainingTime(startTime: int, duration: int, now: int): (r: int)
    ensures r >= 0
    ensures r == 0 <==> now >= startTime + duration
    ensures r > 0 ==> now + r == startTime + duration
  {
    if startTime + duration - now > 0 then startTime + duration - now else 0
  }

  /** Later clocks never give more remaining time, and each second passed takes at most one off. */
  lemma RemainingTimeMonotone(startTime: int, duration: int, now: int, later: int)
    requires now <= later
    ensures RemainingTime(startTime, duration, later) <= RemainingTime(startTime, duration, now)
    ensures RemainingTime(startTime, duration, now) - RemainingTime(startTime, duration, later) <= later - now
  {
  }
}
