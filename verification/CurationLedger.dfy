/**
 * The run and receipt ledger: pure transition graphs, and the conditional updates by which any
 * number of callers race on one row. An update is the guarded SQL statement alone: a caller's
 * earlier read can only make it do less.
 */
module CurationLedger {
  import opened Basics
  import opened CurationAction

  // ---------------------------------------------------------------- pure transitions

  function Successors(s: RunState): set<RunState> {
    match s
    case Created => {Planning}
    case Planning => {Executing, Terminal}
    case Executing => {Verifying, Terminal}
    case Verifying => {Terminal}
    case Terminal => {}
  }

  function TransitionRun(row: RunRow, state: RunState, outcome: Option<string>, at: Option<string>): Result<RunRow, string> {
    if row.state.Terminal? then Success(row)
    else if state !in Successors(row.state) then Failure("invalid curation run transition")
    else if state.Terminal? && outcome.None? then Failure("terminal curation runs require an outcome")
    else Success(row.(state := state, outcome := outcome, terminalizedAt := if state.Terminal? then at else None))
  }

  /** A run may go this way: planned, executed, verified, and finished from any state after the first. */
  predicate MayGo(a: RunState, b: RunState) {
    || (a == Created && b == Planning) || (a == Planning && b == Executing) || (a == Executing && b == Verifying)
    || (b == Terminal && (a == Planning || a == Executing || a == Verifying))
  }

  /** An attempt on an unfinished run moves it exactly if it may go that way, with an outcome if that is the end. */
  lemma RunMovesIff(row: RunRow, state: RunState, outcome: Option<string>, at: Option<string>)
    ensures row.state == Terminal ==> TransitionRun(row, state, outcome, at) == Success(row)
    ensures row.state != Terminal ==>
              && (TransitionRun(row, state, outcome, at).Success? <==> MayGo(row.state, state) && (state == Terminal ==> outcome.Some?))
              && (TransitionRun(row, state, outcome, at).Success? ==>
                    TransitionRun(row, state, outcome, at).value
                    == row.(state := state, outcome := outcome, terminalizedAt := if state == Terminal then at else None))
  {}

  datatype Move = Move(state: RunState, outcome: Option<string>, at: Option<string>)

  /** The moves a run accepts, in order; a refused or ignored move is not one of them. */
  function AcceptedMoves(row: RunRow, moves: seq<Move>): seq<Move>
    decreases moves
  {
    if moves == [] then []
    else match TransitionRun(row, moves[0].state, moves[0].outcome, moves[0].at)
      case Failure(_) => AcceptedMoves(row, moves[1..])
      case Success(next) =>
        if row.state.Terminal? then AcceptedMoves(row, moves[1..]) else [moves[0]] + AcceptedMoves(next, moves[1..])
  }

  function Rank(s: RunState): nat {
    match s case Created => 4 case Planning => 3 case Executing => 2 case Verifying => 1 case Terminal => 0
  }

  /** Whatever is attempted, a run changes state at most `Rank` times: four for a new run. */
  lemma {:induction false} BoundedTransitions(row: RunRow, moves: seq<Move>)
    ensures |AcceptedMoves(row, moves)| <= Rank(row.state) <= 4
    decreases moves
  {
    if moves != [] {
      match TransitionRun(row, moves[0].state, moves[0].outcome, moves[0].at)
      case Failure(_) => BoundedTransitions(row, moves[1..]);
      case Success(next) => BoundedTransitions(next, moves[1..]);
    }
  }

  function TransitionReceipt(r: Receipt, state: ReceiptState, error: Option<string>): Result<Receipt, string> {
    if !r.status.AppliedUnverified? then Success(r)
    else if state.AppliedUnverified? then Failure("invalid curation receipt transition")
    else Success(r.(status := state, errorCode := error))
  }

  datatype Verdict = Verdict(state: ReceiptState, error: Option<string>)

  /** A receipt after these attempts in order; a refused one leaves it as it was. */
  function ReceiptAfter(r: Receipt, verdicts: seq<Verdict>): Receipt
    decreases verdicts
  {
    if verdicts == [] then r
    else match TransitionReceipt(r, verdicts[0].state, verdicts[0].error)
      case Failure(_) => ReceiptAfter(r, verdicts[1..])
      case Success(next) => ReceiptAfter(next, verdicts[1..])
  }

  /** The first attempt that is a verdict at all. */
  function FirstVerdict(verdicts: seq<Verdict>): (n: nat)
    ensures n <= |verdicts| && (n < |verdicts| ==> !verdicts[n].state.AppliedUnverified?)
  {
    if verdicts == [] || !verdicts[0].state.AppliedUnverified? then 0 else 1 + FirstVerdict(verdicts[1..])
  }

  lemma {:induction false} FinalReceiptAbsorbs(r: Receipt, verdicts: seq<Verdict>)
    requires !r.status.AppliedUnverified?
    ensures ReceiptAfter(r, verdicts) == r
    decreases verdicts
  {
    if verdicts != [] { FinalReceiptAbsorbs(r, verdicts[1..]); }
  }

  /** An unverified receipt carries the first verdict for ever, and keeps all of its evidence. */
  lemma {:induction false} FirstVerdictStays(r: Receipt, verdicts: seq<Verdict>)
    requires r.status.AppliedUnverified?
    ensures var n := FirstVerdict(verdicts);
            ReceiptAfter(r, verdicts)
            == if n == |verdicts| then r else r.(status := verdicts[n].state, errorCode := verdicts[n].error)
    decreases verdicts
  {
    if verdicts != [] {
      if verdicts[0].state.AppliedUnverified? {
        FirstVerdictStays(r, verdicts[1..]);
      } else {
        FinalReceiptAbsorbs(TransitionReceipt(r, verdicts[0].state, verdicts[0].error).value, verdicts[1..]);
      }
    }
  }

  // ---------------------------------------------------------------- conditional updates

  datatype Update =
    | CreateRun(run: string, row: RunRow)
    | MoveRun(run: string, expectedRun: RunState, row: RunRow)
    | TerminalizeRun(run: string, expectedRun: RunState, outcome: string, at: string)
    | PutReceipt(key: Key, receipt: Receipt)
    | MoveReceipt(key: Key, expectedReceipt: ReceiptState, receipt: Receipt)

  /** The foreign key from a receipt to its mutation event. */
  predicate EventKnown(s: Store, receipt: Receipt) { receipt.eventId.Some? ==> receipt.eventId.value < |s.events| }

  function Ledger(s: Store, u: Update): Store {
    match u
    case CreateRun(run, row) => if run in s.runs then s else s.(runs := s.runs[run := row])
    case MoveRun(run, expected, row) =>
      if run in s.runs && s.runs[run].state == expected then s.(runs := s.runs[run := row]) else s
    case TerminalizeRun(run, expected, outcome, at) =>
      if run in s.runs && s.runs[run].state == expected && s.runs[run].terminalizedAt.None?
      then s.(runs := s.runs[run := s.runs[run].(state := Terminal, outcome := Some(outcome), terminalizedAt := Some(at))])
      else s
    case PutReceipt(key, receipt) =>
      if key in s.receipts || key.run !in s.runs || receipt.intent.None? || !EventKnown(s, receipt) then s
      else s.(receipts := s.receipts[key := receipt])
    case MoveReceipt(key, expected, receipt) =>
      if key in s.receipts && s.receipts[key].status == expected && receipt.intent.Some? && EventKnown(s, receipt)
      then s.(receipts := s.receipts[key := receipt]) else s
  }

  /** The run rows, the receipts and nothing else; the rows of other keys stay. */
  ghost predicate OnlyRun(before: Store, after: Store, run: string) {
    && after == before.(runs := after.runs)
    && forall x | x != run :: (x in after.runs <==> x in before.runs) && (x in before.runs ==> after.runs[x] == before.runs[x])
  }

  ghost predicate OnlyReceipt(before: Store, after: Store, key: Key) {
    && after == before.(receipts := after.receipts)
    && forall x | x != key :: (x in after.receipts <==> x in before.receipts) && (x in before.receipts ==> after.receipts[x] == before.receipts[x])
  }

  /** What a receipt must bring: a whole intent, and an event that is there if it names one. */
  predicate Storable(s: Store, receipt: Receipt) {
    receipt.intent.Some? && (receipt.eventId.Some? ==> receipt.eventId.value < |s.events|)
  }

  /** What an update leaves in its row: its own value exactly if the row was as expected, else what was there. */
  lemma UpdateTakesEffectIff(s: Store, u: Update)
    ensures var after := Ledger(s, u);
            match u
            case CreateRun(run, row) =>
              OnlyRun(s, after, run) && run in after.runs && after.runs[run] == if run in s.runs then s.runs[run] else row
            case MoveRun(run, expected, row) =>
              OnlyRun(s, after, run) && (run in after.runs <==> run in s.runs)
              && (run in s.runs ==> after.runs[run] == if s.runs[run].state == expected then row else s.runs[run])
            case TerminalizeRun(run, expected, outcome, at) =>
              OnlyRun(s, after, run) && (run in after.runs <==> run in s.runs)
              && (run in s.runs && s.runs[run].state == expected && s.runs[run].terminalizedAt.None? ==>
                    after.runs[run].state == Terminal && after.runs[run].outcome == Some(outcome) && after.runs[run].terminalizedAt == Some(at)
                    && after.runs[run] == s.runs[run].(state := Terminal, outcome := after.runs[run].outcome, terminalizedAt := after.runs[run].terminalizedAt))
              && (run in s.runs && (s.runs[run].state != expected || s.runs[run].terminalizedAt.Some?) ==> after.runs[run] == s.runs[run])
            case PutReceipt(key, receipt) =>
              OnlyReceipt(s, after, key)
              && (key in after.receipts <==> key in s.receipts || (key.run in s.runs && Storable(s, receipt)))
              && (key in after.receipts ==> after.receipts[key] == if key in s.receipts then s.receipts[key] else receipt)
            case MoveReceipt(key, expected, receipt) =>
              OnlyReceipt(s, after, key) && (key in after.receipts <==> key in s.receipts)
              && (key in s.receipts ==>
                    after.receipts[key] == if s.receipts[key].status == expected && Storable(s, receipt) then receipt else s.receipts[key])
  {}

  /** Updates as the program's callers make them: nobody expects an already final state. */
  predicate ExpectsLive(u: Update) {
    match u
    case MoveRun(_, expected, _) => !expected.Terminal?
    case TerminalizeRun(_, expected, _, _) => !expected.Terminal?
    case MoveReceipt(_, expected, _) => expected.AppliedUnverified?
    case _ => true
  }

  function Ledgers(s: Store, us: seq<Update>): Store
    decreases us
  {
    if us == [] then s else Ledgers(Ledger(s, us[0]), us[1..])
  }

  /** The first terminal run row and the first final receipt stay, in every interleaving. */
  lemma {:induction false} FinalRowsStay(s: Store, us: seq<Update>, run: string, key: Key)
    requires forall u | u in us :: ExpectsLive(u)
    ensures run in s.runs && s.runs[run].state.Terminal? ==>
              run in Ledgers(s, us).runs && Ledgers(s, us).runs[run] == s.runs[run]
    ensures key in s.receipts && !s.receipts[key].status.AppliedUnverified? ==>
              key in Ledgers(s, us).receipts && Ledgers(s, us).receipts[key] == s.receipts[key]
    decreases us
  {
    if us != [] {
      assert ExpectsLive(us[0]);
      FinalRowsStay(Ledger(s, us[0]), us[1..], run, key);
    }
  }

  /** A single update leaves a terminal row alone unless it expects the terminal state itself. */
  lemma TerminalRowMovesIff(s: Store, run: string, expected: RunState, row: RunRow)
    requires run in s.runs && s.runs[run].state.Terminal? && row != s.runs[run]
    ensures Ledger(s, MoveRun(run, expected, row)).runs[run] == s.runs[run] <==> !expected.Terminal?
  {}

  // ---------------------------------------------------------------- candidate compare-and-set

  /** `disposition` stands for every field of the row other than its token. */
  datatype Candidate = Candidate(token: Option<string>, disposition: string)

  datatype Swap = Swap(expected: Option<string>, row: Candidate)

  function TokenIn(row: Option<Candidate>): Option<string> {
    if row.None? then None else row.value.token
  }

  /** Absent and null tokens are both matched by expecting none. */
  function CompareAndSet(row: Option<Candidate>, a: Swap): (Option<Candidate>, bool) {
    if a.expected == TokenIn(row) then (Some(a.row), true) else (row, false)
  }

  /** A swap wins exactly if the stored token is the one expected, none if none is; then its row is stored. */
  lemma SwapWinsIff(row: Option<Candidate>, a: Swap)
    ensures CompareAndSet(row, a).1 <==> if a.expected.None? then row.None? || row.value.token.None?
                                         else row.Some? && row.value.token == a.expected
    ensures CompareAndSet(row, a).0 == if CompareAndSet(row, a).1 then Some(a.row) else row
  {}

  function Winners(row: Option<Candidate>, attempts: seq<Swap>): seq<Swap>
    decreases attempts
  {
    if attempts == [] then []
    else
      var (next, won) := CompareAndSet(row, attempts[0]);
      (if won then [attempts[0]] else []) + Winners(next, attempts[1..])
  }

  ghost predicate Chained(start: Option<string>, winners: seq<Swap>)
    decreases winners
  {
    winners == [] || (winners[0].expected == start && Chained(winners[0].row.token, winners[1..]))
  }

  /** In every interleaving, each success expects exactly the token the previous success wrote. */
  lemma {:induction false} WinnersChain(row: Option<Candidate>, attempts: seq<Swap>)
    ensures Chained(TokenIn(row), Winners(row, attempts))
    decreases attempts
  {
    if attempts != [] {
      var (next, won) := CompareAndSet(row, attempts[0]);
      WinnersChain(next, attempts[1..]);
      assert Winners(row, attempts) == (if won then [attempts[0]] else []) + Winners(next, attempts[1..]);
      if won { assert Winners(row, attempts)[1..] == Winners(next, attempts[1..]); }
      else { assert Winners(row, attempts) == Winners(next, attempts[1..]); }
    }
  }

  lemma {:induction false} WinnersAreAttempts(row: Option<Candidate>, attempts: seq<Swap>)
    ensures forall w | w in Winners(row, attempts) :: w in attempts
    decreases attempts
  {
    if attempts != [] { WinnersAreAttempts(CompareAndSet(row, attempts[0]).0, attempts[1..]); }
  }

  /** Among racers that expect one token and write others, at most one succeeds. */
  lemma AtMostOneWinner(row: Option<Candidate>, attempts: seq<Swap>, expected: Option<string>)
    requires forall a | a in attempts :: a.expected == expected && a.row.token != expected
    ensures |Winners(row, attempts)| <= 1
  {
    WinnersChain(row, attempts);
    WinnersAreAttempts(row, attempts);
  }
}
