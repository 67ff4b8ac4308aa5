/**
 * One curation action as one transaction over the linked tables: `execute_action` as a function
 * of the store it runs on. Every refusal returns the store it was given.
 */
module CurationAction {
  import opened Basics
  import opened CurationModel
  import opened CurationUow
  import opened CurationSurface
  import RepairQueue
  import TextOrder

  datatype RunState = Created | Planning | Executing | Verifying | Terminal

  /** `details` stands for the columns that neither the transitions nor the actions read. */
  datatype RunRow = RunRow(
    state: RunState, outcome: Option<string>, terminalizedAt: Option<string>,
    task: Option<string>, plan: Option<string>, policy: Option<string>, details: string)

  datatype ReceiptState = AppliedUnverified | Verified | VerificationFailed | Rejected | OutOfDate | Failed

  datatype LinkAssertion = LinkAssertion(source: string, target: string, kind: string, context: Option<string>)

  datatype Preconditions = Preconditions(
    statuses: seq<(string, string)>, requiredLinks: seq<LinkAssertion>, absentLinks: seq<LinkAssertion>)

  datatype Intent = Intent(
    operation: string, targets: set<Id>, tokens: map<string, Token>,
    preconditions: Option<Preconditions>, payload: Option<string>)

  datatype Receipt = Receipt(
    operation: string, affected: set<Id>, status: ReceiptState, beforeToken: Option<Token>, afterToken: Option<Token>,
    eventId: Option<nat>, intent: Option<Intent>, descriptor: Option<string>, errorCode: Option<string>)

  datatype RecordRevision = RecordRevision(
    before: Option<Snapshot>, after: Option<Snapshot>, beforeToken: Option<Token>, afterToken: Option<Token>)

  /** The context is the one after the action; the one before it is not stored. */
  datatype LinkRevision = LinkRevision(context: Option<string>, beforeExists: bool, afterExists: bool)

  datatype Event = Event(
    run: string, action: string, operation: string, actor: string, family: string, task: Option<string>,
    plan: Option<string>, policy: Option<string>, schemaVersion: nat, status: string,
    restores: Option<nat>, idempotencyKey: string,
    records: map<Id, RecordRevision>, links: map<LinkKey, LinkRevision>)

  datatype Key = Key(run: string, action: string)

  datatype Store = Store(
    domain: Domain, queue: RepairQueue.Queue, events: seq<Event>,
    runs: map<string, RunRow>, receipts: map<Key, Receipt>)

  // ---------------------------------------------------------------- requests

  datatype Ending =
    | Returned(operation: string, affected: seq<string>, descriptor: Option<string>)
    | RaisedOut(raised: Raise)
    | Malformed

  datatype Trace = Trace(calls: seq<Call>, ending: Ending)

  datatype Stage = Begin | AfterDomain | RepairIntent | History | ReceiptPreparation | Commit

  datatype Request = Request(
    run: string, action: string, targets: seq<string>, tokens: seq<(string, Token)>, operation: Option<string>,
    preconditions: Option<Preconditions>, payload: Option<string>, descriptor: Option<string>,
    actor: string, restores: Option<nat>, idempotencyKey: Option<string>,
    apply: Domain -> Trace, faults: map<Stage, Raise>, now: real)
  {
    function Id(): Key { Key(run, action) }

    function TargetSet(): set<CurationModel.Id> { set x | x in targets :: Canonical(x) }

    /** `idempotency_key or f"{run_id}:{action_id}"`. */
    function EventKey(): string {
      if idempotencyKey.Some? && idempotencyKey.value != "" then idempotencyKey.value else run + ":" + action
    }

    function Fault(stage: Stage): Check<Raise> {
      if stage in faults then Fail(faults[stage]) else Pass
    }

    function IntentHash(): Intent
      requires operation.Some?
    {
      Intent(Strip(operation.value), TargetSet(), TokenMap(tokens), preconditions, payload)
    }
  }

  datatype ActionError = StaleError | TransientError | FatalError

  datatype Outcome = Accepted(receipt: Receipt) | Refused(error: ActionError)

  function Reported(r: Raise): ActionError {
    match r
    case Stale => StaleError
    case Transient => TransientError
    case Busy => TransientError
    case _ => FatalError
  }

  /** The normalised token mapping: a later spelling of a key replaces an earlier one. */
  function TokenMap(tokens: seq<(string, Token)>): map<string, Token> {
    if tokens == [] then map[]
    else TokenMap(tokens[..|tokens| - 1])[Canonical(tokens[|tokens| - 1].0) := tokens[|tokens| - 1].1]
  }

  /** Its keys, in insertion order. */
  function TokenKeys(tokens: seq<(string, Token)>): seq<string> {
    if tokens == [] then []
    else
      var k := Canonical(tokens[|tokens| - 1].0);
      var earlier := TokenKeys(tokens[..|tokens| - 1]);
      if k in earlier then earlier else earlier + [k]
  }

  predicate WellFormed(r: Request) {
    && r.targets != [] && "" !in r.TargetSet()
    && (forall k | k in TokenMap(r.tokens) :: TokenMap(r.tokens)[k] != Text(""))
    && r.operation.Some? && Strip(r.operation.value) != ""
  }

  // ---------------------------------------------------------------- guards

  function Expected(tokens: map<string, Token>, id: Id): Option<Token> {
    if id in tokens then Some(tokens[id])
    else if "record:" + id in tokens then Some(tokens["record:" + id]) else None
  }

  predicate TargetStale(d: Domain, tokens: map<string, Token>, id: Id) {
    || (Expected(tokens, id).Some?
        && (id !in d.memories || Some(RecordTokenOf(id, d.memories[id])) != Expected(tokens, id)))
    || ("graph:" + id in tokens && GraphTokenOf(id, d.links) != tokens["graph:" + id])
  }

  function KeyFailure(d: Domain, tokens: map<string, Token>, key: string): Option<Raise>
    requires key in tokens
  {
    match LinkTokenKey(key)
    case None => None
    case Some(k) =>
      if LinkTypeForm(k.kind) == "" then Some(BadValue)
      else if LinkTokenOf(k.source, k.target, k.kind, LinkKey(k.source, k.target, LinkTypeForm(k.kind)), d.links) != tokens[key]
      then Some(Stale) else None
  }

  function KeysFailure(d: Domain, tokens: map<string, Token>, keys: seq<string>): Option<Raise>
    requires forall k | k in keys :: k in tokens
  {
    if keys == [] then None
    else if KeyFailure(d, tokens, keys[0]).Some? then KeyFailure(d, tokens, keys[0])
    else KeysFailure(d, tokens, keys[1..])
  }

  lemma {:induction false} TokenKeysAreKeys(tokens: seq<(string, Token)>)
    ensures forall k :: k in TokenKeys(tokens) <==> k in TokenMap(tokens)
  {
    if tokens != [] { TokenKeysAreKeys(tokens[..|tokens| - 1]); }
  }

  function TokenFailure(d: Domain, targets: set<Id>, tokens: seq<(string, Token)>): Option<Raise> {
    TokenKeysAreKeys(tokens);
    if exists id | id in targets :: TargetStale(d, TokenMap(tokens), id) then Some(Stale)
    else KeysFailure(d, TokenMap(tokens), TokenKeys(tokens))
  }

  function StatusFailure(d: Domain, targets: set<Id>, statuses: seq<(string, string)>): Option<Raise> {
    if statuses == [] then None
    else
      var id := Canonical(statuses[0].0);
      if id !in targets then Some(Fatal)
      else if id !in d.memories || d.memories[id].status != statuses[0].1 then Some(Stale)
      else StatusFailure(d, targets, statuses[1..])
  }

  function AssertionFailure(d: Domain, targets: set<Id>, a: LinkAssertion, shouldExist: bool): Option<Raise> {
    var source, target, kind := Canonical(a.source), Canonical(a.target), LinkTypeForm(a.kind);
    var k := LinkKey(source, target, kind);
    if source !in targets || target !in targets then Some(Fatal)
    else if kind == "" then Some(BadValue)
    else if !shouldExist && a.context.Some? then Some(Fatal)
    else if (k in d.links && (!shouldExist || a.context.None? || a.context.value == d.links[k])) != shouldExist then Some(Stale)
    else None
  }

  function AssertionsFailure(d: Domain, targets: set<Id>, all: seq<LinkAssertion>, shouldExist: bool): Option<Raise> {
    if all == [] then None
    else if AssertionFailure(d, targets, all[0], shouldExist).Some? then AssertionFailure(d, targets, all[0], shouldExist)
    else AssertionsFailure(d, targets, all[1..], shouldExist)
  }

  function PreconditionFailure(d: Domain, targets: set<Id>, p: Option<Preconditions>): Option<Raise> {
    if p.None? then None
    else if StatusFailure(d, targets, p.value.statuses).Some? then StatusFailure(d, targets, p.value.statuses)
    else if AssertionsFailure(d, targets, p.value.requiredLinks, true).Some?
    then AssertionsFailure(d, targets, p.value.requiredLinks, true)
    else AssertionsFailure(d, targets, p.value.absentLinks, false)
  }

  function Guard(failure: Option<Raise>): Check<Raise> {
    if failure.Some? then Fail(failure.value) else Pass
  }

  /** The run an action works under; a restore makes its own if there is none. */
  function RunOf(s: Store, r: Request): RunRow {
    if r.run in s.runs then s.runs[r.run]
    else
      RunRow(Executing, None, None, None, None, Some("1"),
             if r.idempotencyKey.Some? && r.idempotencyKey.value != "" then r.idempotencyKey.value else r.action)
  }

  /** Everything checked before the callback; the value is the run row the action runs under. */
  function Admit(s: Store, r: Request): Result<RunRow, Raise> {
    var known := r.run in s.runs;
    :- Need(known || r.restores.Some?, Fatal);
    var row := RunOf(s, r);
    :- Need(!row.state.Terminal? || r.restores.Some?, Fatal);
    :- Need(forall id | id in r.TargetSet() :: IsExternal(id) || id in s.domain.memories, Stale);
    :- Guard(TokenFailure(s.domain, r.TargetSet(), r.tokens));
    :- Guard(PreconditionFailure(s.domain, r.TargetSet(), r.preconditions));
    Success(row)
  }

  // ---------------------------------------------------------------- the callback

  datatype Mutation = Mutation(txn: Txn, affected: seq<string>, descriptor: Option<string>)

  function RunCallback(d: Domain, r: Request): Step {
    RunCalls(Txn(d, [], {}), r.TargetSet(), r.apply(d).calls)
  }

  function Mutate(d: Domain, r: Request): Result<Mutation, Raise>
    requires r.operation.Some?
  {
    var step := RunCallback(d, r);
    :- Guard(step.raised);
    match r.apply(d).ending
    case RaisedOut(raised) => Failure(raised)
    case Malformed => Failure(Fatal)
    case Returned(operation, affected, descriptor) =>
      :- Need(Strip(operation) != "" && Strip(operation) == Strip(r.operation.value), Fatal);
      :- r.Fault(AfterDomain);
      Success(Mutation(step.txn, affected, descriptor))
  }

  // ---------------------------------------------------------------- derived rows

  function FirstWorkspace(m: Memory): Option<string> {
    var sorted := TextOrder.Sorted(m.workspaces);
    if sorted == [] then None else Some(sorted[0])
  }

  predicate NeedsRepair(before: map<Id, Memory>, after: map<Id, Memory>, id: Id) {
    id in after && (id in before ==> SnapshotOf(id, before[id]) != SnapshotOf(id, after[id]))
  }

  function RepairVersion(id: Id, m: Memory, model: string): RepairQueue.Version {
    RepairQueue.Version(id, model, m.updatedAt)
  }

  function IntentStep(q: RepairQueue.Queue, id: Id, before: map<Id, Memory>, after: map<Id, Memory>, model: string, now: real)
    : RepairQueue.Queue
  {
    if NeedsRepair(before, after, id)
    then RepairQueue.Insert(q, RepairVersion(id, after[id], model), FirstWorkspace(after[id]), now, now)
    else q
  }

  function Intents(q: RepairQueue.Queue, ids: seq<Id>, before: map<Id, Memory>, after: map<Id, Memory>, model: string, now: real)
    : RepairQueue.Queue
  {
    if ids == [] then q
    else IntentStep(Intents(q, ids[..|ids| - 1], before, after, model, now), ids[|ids| - 1], before, after, model, now)
  }

  function Snap(memories: map<Id, Memory>, id: Id): Option<Snapshot> {
    if id in memories then Some(SnapshotOf(id, memories[id])) else None
  }

  function TokenOf(s: Option<Snapshot>): Option<Token> {
    if s.None? then None else Some(RecordToken(s.value))
  }

  function RecordRevisionOf(before: map<Id, Memory>, after: map<Id, Memory>, id: Id): RecordRevision {
    RecordRevision(Snap(before, id), Snap(after, id), TokenOf(Snap(before, id)), TokenOf(Snap(after, id)))
  }

  /** One revision per record that appeared, disappeared or changed semantically. */
  function RecordRevisions(before: map<Id, Memory>, after: map<Id, Memory>): map<Id, RecordRevision> {
    map id | id in before.Keys + after.Keys && Snap(before, id) != Snap(after, id) :: RecordRevisionOf(before, after, id)
  }

  function ContextOf(links: map<LinkKey, string>, k: LinkKey): Option<string> {
    if k in links then Some(links[k]) else None
  }

  function LinkRevisions(before: map<LinkKey, string>, after: map<LinkKey, string>): map<LinkKey, LinkRevision> {
    map k | k in before.Keys + after.Keys && ContextOf(before, k) != ContextOf(after, k) ::
      LinkRevision(ContextOf(after, k), k in before, k in after)
  }

  function StateTokenOf(memories: map<Id, Memory>, ids: set<Id>): Option<Token> {
    if memories == map[] then None else Some(StateToken(ids, Snapshots(memories)))
  }

  predicate EventIsNew(events: seq<Event>, r: Request) {
    forall e | e in events :: e.idempotencyKey != r.EventKey() && !(e.run == r.run && e.action == r.action)
  }

  function AfterIds(r: Request, t: Txn): set<Id> { r.TargetSet() + (set id | id in t.touched) }

  function EventOf(s: Store, r: Request, t: Txn): Event
    requires r.operation.Some?
  {
    var ids, row := AfterIds(r, t), RunOf(s, r);
    Event(r.run, r.action, Strip(r.operation.value), r.actor, "curation", row.task, row.plan, row.policy, 1, "applied",
          r.restores, r.EventKey(),
          RecordRevisions(Restrict(s.domain.memories, r.TargetSet()), Restrict(t.db.memories, ids)),
          LinkRevisions(RelatedLinks(s.domain.links, r.TargetSet()), RelatedLinks(t.db.links, ids)))
  }

  function QueueOf(s: Store, r: Request, t: Txn, model: string): RepairQueue.Queue {
    var after := Restrict(t.db.memories, AfterIds(r, t));
    Intents(s.queue, TextOrder.Sorted(after.Keys), Restrict(s.domain.memories, r.TargetSet()), after, model, r.now)
  }

  function AffectedIds(r: Request, m: Mutation): set<Id> {
    if m.affected != [] then set x | x in m.affected :: Canonical(x)
    else if m.txn.touched != [] then set x | x in m.txn.touched else r.TargetSet()
  }

  function LocalIds(ids: set<Id>): set<Id> { set id | id in ids && !IsExternal(id) }

  function ReceiptOf(s: Store, r: Request, m: Mutation): Receipt
    requires r.operation.Some?
  {
    Receipt(Strip(r.operation.value), LocalIds(AffectedIds(r, m)), AppliedUnverified,
            StateTokenOf(Restrict(s.domain.memories, r.TargetSet()), r.TargetSet()),
            StateTokenOf(Restrict(m.txn.db.memories, AfterIds(r, m.txn)), AfterIds(r, m.txn)),
            Some(|s.events|), Some(r.IntentHash()),
            if m.descriptor.Some? then m.descriptor else r.descriptor, None)
  }

  /** Everything after the callback, up to the commit. */
  function Settle(s: Store, model: string, r: Request, row: RunRow, m: Mutation): Result<Store, Raise>
    requires r.operation.Some?
  {
    var touched := m.txn.touched;
    :- Need("" !in touched, Fatal);
    :- r.Fault(RepairIntent);
    :- Need(EventIsNew(s.events, r), Integrity);
    :- Need(r.restores.None? || r.restores.value < |s.events|, Integrity);
    :- r.Fault(History);
    :- Need("" !in AffectedIds(r, m), Fatal);
    :- Need(forall id | id in LocalIds(AffectedIds(r, m)) :: IsUuid(id), BadValue);
    :- r.Fault(ReceiptPreparation);
    :- r.Fault(Commit);
    Success(Store(m.txn.db, QueueOf(s, r, m.txn, model), s.events + [EventOf(s, r, m.txn)],
                  s.runs[r.run := row], s.receipts[r.Id() := ReceiptOf(s, r, m)]))
  }

  function Attempt(s: Store, model: string, r: Request): Result<Store, Raise>
    requires r.operation.Some?
  {
    var row :- Admit(s, r);
    var m :- Mutate(s.domain, r);
    Settle(s, model, r, row, m)
  }

  // ---------------------------------------------------------------- the call

  function Replay(stored: Receipt, r: Request): Outcome
    requires r.operation.Some?
  {
    if stored.intent != Some(r.IntentHash()) then Refused(FatalError)
    else if stored.descriptor.Some? && r.descriptor.Some? && stored.descriptor != r.descriptor then Refused(FatalError)
    else Accepted(stored)
  }

  /** The transaction body: it looks for a receipt again before it does anything. */
  function Body(s: Store, model: string, r: Request): (Store, Outcome)
    requires WellFormed(r)
  {
    if Begin in r.faults then (s, Refused(Reported(r.faults[Begin])))
    else if r.Id() in s.receipts then (s, Replay(s.receipts[r.Id()], r))
    else match Attempt(s, model, r)
      case Failure(raised) => (s, Refused(Reported(raised)))
      case Success(after) => (after, Accepted(after.receipts[r.Id()]))
  }

  /** One caller alone: validation, the read outside the transaction, then the body. */
  function Execute(s: Store, model: string, r: Request): (Store, Outcome) {
    if !WellFormed(r) then (s, Refused(FatalError))
    else if r.Id() in s.receipts then (s, Replay(s.receipts[r.Id()], r))
    else Body(s, model, r)
  }

  ghost predicate Commits(s: Store, model: string, r: Request) {
    WellFormed(r) && Begin !in r.faults && r.Id() !in s.receipts && Attempt(s, model, r).Success?
  }
}
