/** The ledger store: each method a read and a guarded statement, proved against `CurationLedger`. */
module CurationStore {
  import opened Basics
  import opened CurationAction
  import opened CurationLedger

  datatype LedgerError = IntentRequired | IdentityConflict | IntegrityError | KeyMismatch

  /** Same evidence, where a hash or a descriptor missing on one side is not compared. */
  predicate ReceiptIdentityMatches(a: Receipt, b: Receipt) {
    && a.operation == b.operation && a.affected == b.affected && a.beforeToken == b.beforeToken
    && (a.intent.None? || b.intent.None? || a.intent == b.intent)
    && (a.descriptor.None? || b.descriptor.None? || a.descriptor == b.descriptor)
  }

  /** Evidence is refused as another's exactly if it differs in what was done, or in what both sides state. */
  lemma OtherEvidenceIff(a: Receipt, b: Receipt)
    ensures !ReceiptIdentityMatches(a, b)
            <==> || a.operation != b.operation || a.affected != b.affected || a.beforeToken != b.beforeToken
                 || (a.intent.Some? && b.intent.Some? && a.intent.value != b.intent.value)
                 || (a.descriptor.Some? && b.descriptor.Some? && a.descriptor.value != b.descriptor.value)
  {}

  class SQLiteCurationStore {
    var runs: map<string, RunRow>
    var receipts: map<Key, Receipt>
    var candidates: map<string, Candidate>
    /** The tables that this store reads no more of than their keys. */
    const others: Store

    function View(): Store
      reads this
    {
      others.(runs := runs, receipts := receipts)
    }

    constructor (others: Store)
      ensures View() == others && candidates == map[] && this.others == others
    {
      this.others, runs, receipts, candidates := others, others.runs, others.receipts, map[];
    }

    method InsertRun(run: string, row: RunRow) returns (r: Result<RunRow, LedgerError>)
      modifies this`runs
      ensures View() == Ledger(old(View()), CreateRun(run, row))
      ensures r == if run in old(runs) then Failure(IntegrityError) else Success(row)
    {
      if run in runs { return Failure(IntegrityError); }
      runs := runs[run := row];
      return Success(row);
    }

    /** A terminal row is returned as it is; a lost race returns a terminal row or nothing. */
    method TransitionRunRow(run: string, expected: RunState, row: RunRow) returns (r: Option<RunRow>)
      modifies this`runs
      ensures run in old(runs) && old(runs)[run].state.Terminal? ==> r == Some(old(runs)[run]) && View() == old(View())
      ensures !(run in old(runs) && old(runs)[run].state.Terminal?) ==> View() == Ledger(old(View()), MoveRun(run, expected, row))
      ensures !(run in old(runs) && old(runs)[run].state.Terminal?) ==>
                r == if run in old(runs) && old(runs)[run].state == expected then Some(row) else None
    {
      if run !in runs { return None; }
      var existing := runs[run];
      if existing.state.Terminal? { return Some(existing); }
      var updated := run in runs && runs[run].state == expected;
      if updated { runs := runs[run := row]; }
      if !updated {
        var current := runs[run];
        return if current.state.Terminal? then Some(current) else None;
      }
      return Some(runs[run]);
    }

    method TerminalizeRunRow(run: string, expected: RunState, outcome: string, at: string) returns (r: Option<RunRow>)
      modifies this`runs
      ensures View() == Ledger(old(View()), CurationLedger.TerminalizeRun(run, expected, outcome, at))
      ensures r.Some? <==> run in runs && runs[run].state.Terminal?
      ensures r.Some? ==> r.value == runs[run]
    {
      var updated := run in runs && runs[run].state == expected && runs[run].terminalizedAt.None?;
      if updated {
        runs := runs[run := runs[run].(state := Terminal, outcome := Some(outcome), terminalizedAt := Some(at))];
      }
      if run !in runs { return None; }
      if updated || runs[run].state.Terminal? { return Some(runs[run]); }
      return None;
    }

    /** The first receipt of a key stays; the same evidence again returns it, other evidence is refused. */
    method PutReceiptRow(key: Key, receipt: Receipt) returns (r: Result<Receipt, LedgerError>)
      modifies this`receipts
      ensures View() == Ledger(old(View()), PutReceipt(key, receipt))
      ensures receipt.intent.None? ==> r == Failure(IntentRequired)
      ensures receipt.intent.Some? && key in old(receipts) ==>
                r == if ReceiptIdentityMatches(old(receipts)[key], receipt) then Success(old(receipts)[key]) else Failure(IdentityConflict)
      ensures receipt.intent.Some? && key !in old(receipts) ==>
                r == if key.run in runs && EventKnown(View(), receipt) then Success(receipt) else Failure(IntegrityError)
    {
      if receipt.intent.None? { return Failure(IntentRequired); }
      if key in receipts || key.run !in runs || !EventKnown(View(), receipt) {
        if key !in receipts { return Failure(IntegrityError); }
        if !ReceiptIdentityMatches(receipts[key], receipt) { return Failure(IdentityConflict); }
        return Success(receipts[key]);
      }
      receipts := receipts[key := receipt];
      return Success(receipt);
    }

    method TransitionReceiptRow(key: Key, expected: ReceiptState, receipt: Receipt) returns (r: Result<Option<Receipt>, LedgerError>)
      modifies this`receipts
      ensures key in old(receipts) && !old(receipts)[key].status.AppliedUnverified? ==> View() == old(View())
      ensures !(key in old(receipts) && !old(receipts)[key].status.AppliedUnverified?) ==>
                View() == Ledger(old(View()), MoveReceipt(key, expected, receipt))
      ensures receipt.intent.None? ==> r == Failure(IntentRequired)
      ensures receipt.intent.Some? && key !in old(receipts) ==> r == Success(None)
      ensures receipt.intent.Some? && key in old(receipts) ==>
                key in receipts
                && r == if old(receipts)[key].status.AppliedUnverified? && old(receipts)[key].status == expected
                           && !EventKnown(View(), receipt)
                        then Failure(IntegrityError) else Success(Some(receipts[key]))
    {
      if receipt.intent.None? { return Failure(IntentRequired); }
      if key !in receipts { return Success(None); }
      var existing := receipts[key];
      if !existing.status.AppliedUnverified? { return Success(Some(existing)); }
      var matched := receipts[key].status == expected;
      if matched && !EventKnown(View(), receipt) { return Failure(IntegrityError); }
      if matched { receipts := receipts[key := receipt]; }
      if matched || receipts[key].status != expected { return Success(Some(receipts[key])); }
      return Success(None);
    }

    function CandidateRow(memory: string): Option<Candidate>
      reads this
    {
      if memory in candidates then Some(candidates[memory]) else None
    }

    /** An insert that yields to a null token, or an update guarded by the token itself. */
    method CompareAndSetCandidateState(memory: string, keyOfState: string, expected: Option<string>, row: Candidate)
      returns (r: Result<Option<Candidate>, LedgerError>)
      modifies this`candidates
      ensures keyOfState != memory ==> r == Failure(KeyMismatch) && candidates == old(candidates)
      ensures keyOfState == memory ==>
                var (after, won) := CompareAndSet(old(CandidateRow(memory)), Swap(expected, row));
                && CandidateRow(memory) == after
                && r == Success(if won then Some(row) else None)
      ensures forall m | m != memory :: CandidateRow(m) == old(CandidateRow(m))
    {
      if keyOfState != memory { return Failure(KeyMismatch); }
      if expected.None? {
        if memory !in candidates || candidates[memory].token.None? {
          candidates := candidates[memory := row];
          return Success(Some(row));
        }
        return Success(None);
      }
      if memory in candidates && candidates[memory].token == expected {
        candidates := candidates[memory := row];
        return Success(Some(row));
      }
      return Success(None);
    }
  }
}
