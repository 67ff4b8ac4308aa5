/** Callers of the action store: replays, ordered batches, and concurrent calls. */
module CurationCallers {
  import opened Basics
  import opened CurationModel
  import opened CurationUow
  import opened CurationSurface
  import opened CurationAction
  import opened CurationHistory
  import opened CurationInstances
  import opened CurationRuns
  import opened CurationActionStore

  // ---------------------------------------------------------------- replays

  /** The same action asked for again, with its targets listed in any order and any number of times. */
  ghost predicate SameAction(r: Request, again: Request) {
    && again.Id() == r.Id()
    && (forall x :: x in again.targets <==> x in r.targets)
    && TokenMap(again.tokens) == TokenMap(r.tokens)
    && again.operation == r.operation && again.preconditions == r.preconditions && again.payload == r.payload
    && again.descriptor == r.descriptor
  }

  lemma SameIntent(r: Request, again: Request)
    requires SameAction(r, again) && WellFormed(r)
    ensures WellFormed(again) && again.IntentHash() == r.IntentHash()
  {
    assert r.targets[0] in again.targets;
    assert again.TargetSet() == r.TargetSet();
  }

  /**
   * Asking again after a commit returns the stored receipt and changes nothing, exactly unless the
   * callback returned a verification descriptor other than the one the caller supplied.
   */
  lemma ReplayAfterCommitIff(s: Store, model: string, r: Request, again: Request)
    requires SourcesLive(s.domain) && Commits(s, model, r) && SameAction(r, again)
    ensures Execute(After(s, model, r), model, again).0 == After(s, model, r)
    ensures var ending := r.apply(s.domain).ending;
            Execute(After(s, model, r), model, again).1 == Execute(s, model, r).1
            <==> !(ending.descriptor.Some? && r.descriptor.Some? && ending.descriptor != r.descriptor)
  {
    CommitShape(s, model, r);
    SameIntent(r, again);
    StoredDescriptor(s, model, r);
    hide Attempt, Framed, EventOf, QueueOf, WellFormed, SameAction;
  }

  lemma StoredDescriptor(s: Store, model: string, r: Request)
    requires Commits(s, model, r)
    ensures r.apply(s.domain).ending.Returned?
    ensures r.Id() in After(s, model, r).receipts
    ensures var d := r.apply(s.domain).ending.descriptor;
            After(s, model, r).receipts[r.Id()].descriptor == if d.Some? then d else r.descriptor
  {
    hide Admit, EventOf, QueueOf, StateTokenOf, AffectedIds;
  }

  /** It happens: the very same request, asked again after its own commit, is refused. */
  lemma RefusedReplayHappens(run: string, action: string, id: Id, m: Memory, operation: string, model: string, own: string, returned: string)
    requires Canonical(id) == id && id != "" && !IsExternal(id) && IsUuid(id) && Strip(operation) != "" && own != returned
    ensures var s := RunningStore(run, map[id := m], map[]);
            var r := PlainRequest(run, action, id, operation, [], Some(own), Some(returned));
            Commits(s, model, r) && Execute(After(s, model, r), model, r).1 != Execute(s, model, r).1
  {
    var s := RunningStore(run, map[id := m], map[]);
    var r := PlainRequest(run, action, id, operation, [], Some(own), Some(returned));
    PlainActionCommits(run, action, id, m, operation, model, Some(own), Some(returned));
    hide Commits, Execute, RunningStore;
    ReplayAfterCommitIff(s, model, r, r);
  }

  // ---------------------------------------------------------------- ordered batches

  function Batch(s: Store, model: string, rs: seq<Request>): (Store, seq<Outcome>)
    decreases rs
  {
    if rs == [] then (s, [])
    else
      var (next, out) := Execute(s, model, rs[0]);
      var (last, outs) := Batch(next, model, rs[1..]);
      (last, [out] + outs)
  }

  lemma {:induction false} BatchSnoc(s: Store, model: string, rs: seq<Request>, r: Request)
    ensures var (mid, outs) := Batch(s, model, rs);
            var (last, out) := Execute(mid, model, r);
            Batch(s, model, rs + [r]) == (last, outs + [out])
    decreases rs
  {
    hide Execute;
    if rs == [] {
      assert rs + [r] == [r] && [r][1..] == [];
      var (last, out) := Execute(s, model, r);
      assert Batch(s, model, [r]) == (last, [out] + Batch(last, model, []).1);
      assert [out] + [] == [] + [out];
    } else {
      assert (rs + [r])[0] == rs[0] && (rs + [r])[1..] == rs[1..] + [r];
      var (next, first) := Execute(s, model, rs[0]);
      BatchSnoc(next, model, rs[1..], r);
      var (mid, outs) := Batch(next, model, rs[1..]);
      var out := Execute(mid, model, r).1;
      assert [first] + (outs + [out]) == ([first] + outs) + [out];
    }
  }

  class SequentialCurationActionExecutor {
    const actionStore: SQLiteCurationActionStore

    constructor (store: SQLiteCurationActionStore)
      ensures actionStore == store
    {
      actionStore := store;
    }

    method ExecuteActions(requests: seq<Request>) returns (outcomes: seq<Outcome>)
      modifies actionStore
      ensures (actionStore.View(), outcomes) == Batch(old(actionStore.View()), actionStore.embeddingModel, requests)
      ensures |outcomes| == |requests|
    {
      hide Execute;
      outcomes := [];
      for i := 0 to |requests|
        invariant (actionStore.View(), outcomes)
                  == Batch(old(actionStore.View()), actionStore.embeddingModel, requests[..i])
        invariant |outcomes| == i
      {
        BatchSnoc(old(actionStore.View()), actionStore.embeddingModel, requests[..i], requests[i]);
        assert requests[..i + 1] == requests[..i] + [requests[i]];
        var out := actionStore.ExecuteAction(requests[i]);
        outcomes := outcomes + [out];
      }
      assert requests[..|requests|] == requests;
    }
  }

  /** The requests of a batch that were accepted, in order. */
  function AcceptedOf(rs: seq<Request>, outs: seq<Outcome>): seq<Request>
    requires |rs| == |outs|
    decreases rs
  {
    if rs == [] then []
    else (if outs[0].Accepted? then [rs[0]] else []) + AcceptedOf(rs[1..], outs[1..])
  }

  lemma {:induction false} BatchLength(s: Store, model: string, rs: seq<Request>)
    ensures |Batch(s, model, rs).1| == |rs|
    decreases rs
  {
    hide Execute;
    if rs != [] { BatchLength(Execute(s, model, rs[0]).0, model, rs[1..]); }
  }

  /** A refused request leaves no trace: the batch ends where its accepted requests alone end. */
  lemma {:induction false} BatchIsItsAccepted(s: Store, model: string, rs: seq<Request>)
    ensures |Batch(s, model, rs).1| == |rs|
    ensures Batch(s, model, AcceptedOf(rs, Batch(s, model, rs).1)).0 == Batch(s, model, rs).0
    decreases rs
  {
    BatchLength(s, model, rs);
    if rs != [] {
      var (next, out) := Execute(s, model, rs[0]);
      AllOrNothing(s, model, rs[0]);
      hide Execute, Commits;
      BatchIsItsAccepted(next, model, rs[1..]);
      var (last, outs) := Batch(next, model, rs[1..]);
      var kept := AcceptedOf(rs[1..], outs);
      assert Batch(s, model, rs).1[1..] == outs;
      if out.Accepted? {
        assert ([rs[0]] + kept)[0] == rs[0] && ([rs[0]] + kept)[1..] == kept;
      } else {
        assert AcceptedOf(rs, Batch(s, model, rs).1) == kept;
      }
    }
  }

  /** What a later store still answers: this action has this receipt. */
  ghost predicate Answers(s: Store, r: Request, receipt: Receipt) {
    WellFormed(r) && r.Id() in s.receipts && s.receipts[r.Id()] == receipt && Replay(receipt, r) == Outcome.Accepted(receipt)
  }

  lemma ExecuteAnswers(s: Store, model: string, r: Request)
    requires SourcesLive(s.domain) && r.descriptor.None? && Execute(s, model, r).1.Accepted?
    ensures Answers(Execute(s, model, r).0, r, Execute(s, model, r).1.receipt)
    ensures SourcesLive(Execute(s, model, r).0.domain)
  {
    AllOrNothing(s, model, r);
    if Commits(s, model, r) { CommitShape(s, model, r); }
    hide Attempt, EventOf, QueueOf, Framed;
  }

  lemma AnswersPersist(s: Store, model: string, other: Request, r: Request, receipt: Receipt)
    requires SourcesLive(s.domain) && Answers(s, r, receipt)
    ensures Answers(Execute(s, model, other).0, r, receipt) && SourcesLive(Execute(s, model, other).0.domain)
  {
    hide Attempt, EventOf, QueueOf, TxnOf, Replay, WellFormed, EventIsNew, RunCallback;
    AllOrNothing(s, model, other);
    StaysLive(s, model, other);
    if Commits(s, model, other) { CommitShape(s, model, other); }
    hide Framed, SourcesLive, Execute, Body, After, Commits;
  }

  lemma {:induction false} AnswersPersistAll(s: Store, model: string, rs: seq<Request>, r: Request, receipt: Receipt)
    requires SourcesLive(s.domain) && Answers(s, r, receipt)
    ensures Answers(Batch(s, model, rs).0, r, receipt) && SourcesLive(Batch(s, model, rs).0.domain)
    decreases rs
  {
    if rs != [] {
      hide Execute, Answers;
      AnswersPersist(s, model, rs[0], r, receipt);
      AnswersPersistAll(Execute(s, model, rs[0]).0, model, rs[1..], r, receipt);
    }
  }

  lemma {:induction false} BatchAnswers(s: Store, model: string, rs: seq<Request>, i: nat)
    requires SourcesLive(s.domain) && i < |rs| && forall r | r in rs :: r.descriptor.None?
    ensures |Batch(s, model, rs).1| == |rs| && SourcesLive(Batch(s, model, rs).0.domain)
    ensures Batch(s, model, rs).1[i].Accepted? ==>
              Answers(Batch(s, model, rs).0, rs[i], Batch(s, model, rs).1[i].receipt)
    decreases rs
  {
    BatchLength(s, model, rs);
    var (next, out) := Execute(s, model, rs[0]);
    StaysLive(s, model, rs[0]);
    StaysLiveAll(next, model, rs[1..]);
    assert rs[0] in rs;
    if i == 0 {
      if out.Accepted? {
        ExecuteAnswers(s, model, rs[0]);
        hide Execute, Answers;
        AnswersPersistAll(next, model, rs[1..], rs[0], out.receipt);
      }
    } else {
      hide Execute, Answers;
      BatchAnswers(next, model, rs[1..], i - 1);
    }
  }

  lemma StaysLive(s: Store, model: string, r: Request)
    requires SourcesLive(s.domain)
    ensures SourcesLive(Execute(s, model, r).0.domain)
  {
    AllOrNothing(s, model, r);
    if Commits(s, model, r) { CommitShape(s, model, r); }
    hide Attempt, EventOf, QueueOf, Framed, Execute, Body, After, Commits;
  }

  lemma {:induction false} StaysLiveAll(s: Store, model: string, rs: seq<Request>)
    requires SourcesLive(s.domain)
    ensures SourcesLive(Batch(s, model, rs).0.domain)
    decreases rs
  {
    if rs != [] {
      hide Execute;
      StaysLive(s, model, rs[0]);
      StaysLiveAll(Execute(s, model, rs[0]).0, model, rs[1..]);
    }
  }

  /**
   * Running a batch again, with every target list permuted or with repetitions, returns for each
   * request accepted the first time the very same receipt; its turn leaves the store alone.
   */
  lemma RerunReturnsTheSameReceipts(s: Store, model: string, rs: seq<Request>, again: seq<Request>, i: nat)
    requires SourcesLive(s.domain) && |again| == |rs| && i < |rs|
    requires forall k | 0 <= k < |rs| :: SameAction(rs[k], again[k]) && rs[k].descriptor.None?
    requires |Batch(s, model, rs).1| == |rs| && Batch(s, model, rs).1[i].Accepted?
    ensures var first := Batch(s, model, rs);
            var before := Batch(first.0, model, again[..i]).0;
            Execute(before, model, again[i]) == (before, first.1[i])
  {
    var first := Batch(s, model, rs);
    BatchAnswers(s, model, rs, i);
    AnswersPersistAll(first.0, model, again[..i], rs[i], first.1[i].receipt);
    hide Batch, WellFormed;
    SameIntent(rs[i], again[i]);
  }

  // ---------------------------------------------------------------- concurrent calls

  /** One call in flight: it has not looked yet, it looked and found no receipt, or it is over. */
  datatype Phase = Fresh | Missed | Over(outcome: Outcome)

  datatype Caller = Caller(request: Request, phase: Phase)

  datatype System = System(store: Store, callers: seq<Caller>)

  datatype Move =
    | Look(who: nat)
    | Transact(who: nat)
    | Elsewhere(write: Write)

  function Advance(sys: System, model: string, m: Move): System {
    match m
    case Look(i) =>
      if i < |sys.callers| && sys.callers[i].phase.Fresh? then
        var r := sys.callers[i].request;
        var phase := if !WellFormed(r) then Over(Refused(FatalError))
                     else if r.Id() in sys.store.receipts then Over(Replay(sys.store.receipts[r.Id()], r))
                     else Missed;
        sys.(callers := sys.callers[i := Caller(r, phase)])
      else sys
    case Transact(i) =>
      if i < |sys.callers| && sys.callers[i].phase.Missed? && WellFormed(sys.callers[i].request) then
        var r := sys.callers[i].request;
        var (after, out) := Body(sys.store, model, r);
        System(after, sys.callers[i := Caller(r, Over(out))])
      else sys
    case Elsewhere(w) => if w.Act? then sys else sys.(store := Next(sys.store, model, w))
  }

  function Schedule(sys: System, model: string, ms: seq<Move>): System
    decreases ms
  {
    if ms == [] then sys else Schedule(Advance(sys, model, ms[0]), model, ms[1..])
  }

  /** The writes of a schedule, in the order in which their transactions ran. */
  function WritesOf(sys: System, model: string, ms: seq<Move>): seq<Write>
    decreases ms
  {
    if ms == [] then []
    else
      (match ms[0]
       case Look(_) => []
       case Transact(i) =>
         if i < |sys.callers| && sys.callers[i].phase.Missed? && WellFormed(sys.callers[i].request)
         then [Act(sys.callers[i].request)] else []
       case Elsewhere(w) => if w.Act? then [] else [w])
      + WritesOf(Advance(sys, model, ms[0]), model, ms[1..])
  }

  /** Any interleaving leaves the store that its transactions leave one after the other. */
  lemma {:induction false} SchedulesAreSerial(sys: System, model: string, ms: seq<Move>)
    ensures Schedule(sys, model, ms).store == Run(sys.store, model, WritesOf(sys, model, ms))
    decreases ms
  {
    if ms != [] {
      var next := Advance(sys, model, ms[0]);
      SchedulesAreSerial(next, model, ms[1..]);
      var rest, all := WritesOf(next, model, ms[1..]), WritesOf(sys, model, ms);
      hide Body, Replay;
      if all != rest {
        assert |all| == |rest| + 1 && all[1..] == rest;
        assert Next(sys.store, model, all[0]) == next.store;
      } else {
        assert next.store == sys.store;
      }
    }
  }

  /** An accepted caller holds a receipt that is in the store under its own identity. */
  ghost predicate Backed(sys: System) {
    forall i | 0 <= i < |sys.callers| && sys.callers[i].phase.Over? && sys.callers[i].phase.outcome.Accepted? ::
      sys.callers[i].request.Id() in sys.store.receipts
  }

  lemma {:induction false} AcceptedAreBacked(sys: System, model: string, ms: seq<Move>)
    requires SourcesLive(sys.store.domain) && Backed(sys)
    ensures Backed(Schedule(sys, model, ms)) && |Schedule(sys, model, ms).callers| == |sys.callers|
    decreases ms
  {
    if ms != [] {
      BackedStep(sys, model, ms[0]);
      hide Advance, Backed;
      AcceptedAreBacked(Advance(sys, model, ms[0]), model, ms[1..]);
    }
  }

  lemma BackedStep(sys: System, model: string, m: Move)
    requires SourcesLive(sys.store.domain) && Backed(sys)
    ensures var next := Advance(sys, model, m);
            Backed(next) && SourcesLive(next.store.domain) && |next.callers| == |sys.callers|
  {
    match m
    case Look(i) => hide Body;
    case Transact(i) =>
      if i < |sys.callers| && sys.callers[i].phase.Missed? && WellFormed(sys.callers[i].request) {
        var r := sys.callers[i].request;
        NextShape(sys.store, model, Act(r));
        if Body(sys.store, model, r).1.Accepted? { AcceptedMeansStored(sys.store, model, r); }
        hide Body, Commits, After;
      }
    case Elsewhere(w) =>
      NextShape(sys.store, model, w);
      hide Next;
  }

  lemma AcceptedMeansStored(s: Store, model: string, r: Request)
    requires SourcesLive(s.domain) && WellFormed(r) && Body(s, model, r).1.Accepted?
    ensures r.Id() in Body(s, model, r).0.receipts
    ensures Body(s, model, r).1.receipt == Body(s, model, r).0.receipts[r.Id()]
  {
    if Commits(s, model, r) { CommitShape(s, model, r); }
    hide Attempt, EventOf, QueueOf, Framed;
  }

  ghost predicate Finished(sys: System, i: nat, receipt: Receipt) {
    i < |sys.callers| && sys.callers[i].phase == Over(Accepted(receipt))
  }

  ghost predicate Stored(sys: System, key: Key, receipt: Receipt) {
    key in sys.store.receipts && sys.store.receipts[key] == receipt
  }

  /** After the first `n` moves this caller has just been given the receipt that the store then holds. */
  ghost predicate HandedAt(sys: System, model: string, ms: seq<Move>, i: nat, receipt: Receipt, n: nat) {
    && 0 < n <= |ms| && i < |sys.callers|
    && Finished(Schedule(sys, model, ms[..n]), i, receipt)
    && Stored(Schedule(sys, model, ms[..n]), sys.callers[i].request.Id(), receipt)
  }

  /** One move hands out a receipt only if the store holds it then; what was handed out stays handed out. */
  lemma HandingStep(sys: System, model: string, m: Move, i: nat)
    requires SourcesLive(sys.store.domain) && i < |sys.callers|
    ensures var next := Advance(sys, model, m);
            && SourcesLive(next.store.domain) && |next.callers| == |sys.callers|
            && next.callers[i].request == sys.callers[i].request
            && (sys.callers[i].phase.Over? ==> next.callers[i].phase == sys.callers[i].phase)
            && (!sys.callers[i].phase.Over? && next.callers[i].phase.Over? && next.callers[i].phase.outcome.Accepted? ==>
                  Stored(next, sys.callers[i].request.Id(), next.callers[i].phase.outcome.receipt))
  {
    match m
    case Look(j) => hide Body;
    case Transact(j) =>
      if j < |sys.callers| && sys.callers[j].phase.Missed? && WellFormed(sys.callers[j].request) {
        var r := sys.callers[j].request;
        hide Body;
        BodyStaysLive(sys.store, model, r);
        if Body(sys.store, model, r).1.Accepted? { AcceptedMeansStored(sys.store, model, r); }
      }
    case Elsewhere(w) =>
      NextShape(sys.store, model, w);
      hide Next;
  }

  lemma BodyStaysLive(s: Store, model: string, r: Request)
    requires SourcesLive(s.domain) && WellFormed(r)
    ensures SourcesLive(Body(s, model, r).0.domain)
  {
    NextShape(s, model, Act(r));
    hide Body;
  }

  lemma {:induction false} FinishedStays(sys: System, model: string, ms: seq<Move>, i: nat)
    requires SourcesLive(sys.store.domain) && i < |sys.callers| && sys.callers[i].phase.Over?
    ensures |Schedule(sys, model, ms).callers| == |sys.callers|
    ensures Schedule(sys, model, ms).callers[i].phase == sys.callers[i].phase
    decreases ms
  {
    if ms != [] {
      HandingStep(sys, model, ms[0], i);
      hide Advance;
      FinishedStays(Advance(sys, model, ms[0]), model, ms[1..], i);
    }
  }

  lemma HandedNow(sys: System, model: string, ms: seq<Move>, i: nat, receipt: Receipt)
    requires ms != [] && i < |sys.callers| && Finished(Advance(sys, model, ms[0]), i, receipt)
    requires Stored(Advance(sys, model, ms[0]), sys.callers[i].request.Id(), receipt)
    ensures HandedAt(sys, model, ms, i, receipt, 1)
  {
    hide Advance;
    assert ms[..1][0] == ms[0] && ms[..1][1..] == [];
    assert Schedule(sys, model, ms[..1]) == Schedule(Advance(sys, model, ms[0]), model, []);
  }

  lemma HandedLater(sys: System, model: string, ms: seq<Move>, i: nat, receipt: Receipt, k: nat)
    requires ms != [] && i < |sys.callers| && HandedAt(Advance(sys, model, ms[0]), model, ms[1..], i, receipt, k)
    requires Advance(sys, model, ms[0]).callers[i].request == sys.callers[i].request
    ensures HandedAt(sys, model, ms, i, receipt, k + 1)
  {
    hide Advance;
    assert ms[..k + 1][0] == ms[0] && ms[..k + 1][1..] == ms[1..][..k];
  }

  /** The receipt an accepted caller was handed is the one the store held under its identity at that move. */
  lemma {:induction false} HandedReceiptWasStored(sys: System, model: string, ms: seq<Move>, i: nat, receipt: Receipt) returns (n: nat)
    requires SourcesLive(sys.store.domain) && i < |sys.callers| && !sys.callers[i].phase.Over?
    requires Finished(Schedule(sys, model, ms), i, receipt)
    ensures HandedAt(sys, model, ms, i, receipt, n)
    decreases ms
  {
    assert ms != [];
    var next := Advance(sys, model, ms[0]);
    HandingStep(sys, model, ms[0], i);
    hide Advance, HandedAt, Stored;
    if next.callers[i].phase.Over? {
      FinishedStays(next, model, ms[1..], i);
      n := 1;
      HandedNow(sys, model, ms, i, receipt);
    } else {
      var k := HandedReceiptWasStored(next, model, ms[1..], i, receipt);
      n := k + 1;
      HandedLater(sys, model, ms, i, receipt, k);
    }
  }

  predicate MovesReceipt(m: Move, key: Key) {
    m.Elsewhere? && m.write.Book? && m.write.update.MoveReceipt? && m.write.update.key == key
  }

  lemma BodyKeepsReceipt(s: Store, model: string, r: Request, key: Key)
    requires SourcesLive(s.domain) && WellFormed(r) && key in s.receipts
    ensures var after := Body(s, model, r).0; key in after.receipts && after.receipts[key] == s.receipts[key]
  {
    NextShape(s, model, Act(r));
    if Commits(s, model, r) {
      CommitIsSettled(s, model, r);
      CommitStep(s, model, r);
    }
    hide Body, Commits, EventOf, QueueOf, RunCallback, EventIsNew, RunOf;
  }

  lemma ReceiptStep(sys: System, model: string, m: Move, key: Key)
    requires SourcesLive(sys.store.domain) && key in sys.store.receipts && !MovesReceipt(m, key)
    ensures var next := Advance(sys, model, m);
            key in next.store.receipts && next.store.receipts[key] == sys.store.receipts[key]
  {
    match m
    case Look(_) => hide Body;
    case Transact(j) =>
      if j < |sys.callers| && sys.callers[j].phase.Missed? && WellFormed(sys.callers[j].request) {
        BodyKeepsReceipt(sys.store, model, sys.callers[j].request, key);
      }
      hide Body;
    case Elsewhere(_) => hide Body;
  }

  /** Unless the ledger moves it, the stored receipt is still the one handed out when the schedule ends. */
  lemma {:induction false} HandedReceiptStays(sys: System, model: string, ms: seq<Move>, i: nat, receipt: Receipt)
    requires SourcesLive(sys.store.domain) && i < |sys.callers|
    requires sys.callers[i].phase.Over? && sys.callers[i].phase.outcome.Accepted? ==>
               Stored(sys, sys.callers[i].request.Id(), sys.callers[i].phase.outcome.receipt)
    requires forall m | m in ms :: !MovesReceipt(m, sys.callers[i].request.Id())
    requires Finished(Schedule(sys, model, ms), i, receipt)
    ensures Stored(Schedule(sys, model, ms), sys.callers[i].request.Id(), receipt)
    decreases ms
  {
    if ms != [] {
      assert ms[0] in ms;
      var key := sys.callers[i].request.Id();
      HandingStep(sys, model, ms[0], i);
      if key in sys.store.receipts { ReceiptStep(sys, model, ms[0], key); }
      hide Advance, MovesReceipt;
      HandedReceiptStays(Advance(sys, model, ms[0]), model, ms[1..], i, receipt);
    }
  }

  /** Some move of the schedule handed this caller this receipt, the one then stored under its identity. */
  ghost predicate Handed(sys: System, model: string, ms: seq<Move>, i: nat, receipt: Receipt) {
    exists n :: HandedAt(sys, model, ms, i, receipt, n)
  }

  /**
   * Exactly once under concurrency. However the outside reads and the transactions of any callers
   * interleave, no identity is applied twice, the tables are the committed callbacks applied one after
   * the other, and every accepted caller's identity has a receipt: the caller was handed the one that
   * was stored when it was answered.
   */
  lemma ConcurrentExactlyOnce(sys: System, model: string, ms: seq<Move>)
    requires SourcesLive(sys.store.domain) && forall c | c in sys.callers :: c.phase.Fresh?
    ensures var last, rs := Schedule(sys, model, ms), Committed(sys.store, model, WritesOf(sys, model, ms));
            && (forall i, j | 0 <= i < j < |rs| :: rs[i].Id() != rs[j].Id())
            && last.store.domain == ApplyAll(sys.store.domain, rs)
            && |last.callers| == |sys.callers|
            && (forall i | 0 <= i < |last.callers| && last.callers[i].phase.Over? && last.callers[i].phase.outcome.Accepted? ::
                  last.callers[i].request.Id() in last.store.receipts
                  && Handed(sys, model, ms, i, last.callers[i].phase.outcome.receipt))
  {
    SchedulesAreSerial(sys, model, ms);
    ExactlyOnce(sys.store, model, WritesOf(sys, model, ms));
    AcceptedAreBacked(sys, model, ms);
    hide Schedule, WritesOf, Committed, Run, ApplyAll, HandedAt;
    var last := Schedule(sys, model, ms);
    forall i | 0 <= i < |last.callers| && last.callers[i].phase.Over? && last.callers[i].phase.outcome.Accepted?
      ensures Handed(sys, model, ms, i, last.callers[i].phase.outcome.receipt)
    {
      assert sys.callers[i] in sys.callers;
      var n := HandedReceiptWasStored(sys, model, ms, i, last.callers[i].phase.outcome.receipt);
    }
  }
}
