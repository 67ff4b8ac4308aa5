/** Concrete actions: that commits happen at all, and that each shortcoming found of them does. */
module CurationInstances {
  import opened Basics
  import opened CurationModel
  import opened CurationUow
  import opened CurationSurface
  import opened CurationAction
  import opened CurationHistory
  import opened CurationRuns
  import RepairQueue

  /** A store with one running run and these records and links. */
  function RunningStore(run: string, memories: map<Id, Memory>, links: map<LinkKey, string>): Store {
    Store(Domain(memories, links, map id | id in memories :: [Projection(memories[id])]), RepairQueue.Queue(map[], 0), [],
          map[run := RunRow(Executing, None, None, None, None, None, "")], map[])
  }

  /** An action on one record without guards; `own` and `returned` are the verification descriptors. */
  function PlainRequest(run: string, action: string, id: Id, operation: string, calls: seq<Call>,
                        own: Option<string>, returned: Option<string>): Request {
    Request(run, action, [id], [], Some(operation), None, None, own, "maintenance", None, None,
            (d: Domain) => Trace(calls, Returned(operation, [], returned)), map[], 0.0)
  }

  /** A store on which nothing was done yet, with this run under way and this record. */
  ghost predicate Ready(s: Store, run: string, id: Id) {
    && id != "" && Canonical(id) == id && !IsExternal(id) && IsUuid(id) && id in s.domain.memories
    && run in s.runs && !s.runs[run].state.Terminal? && s.events == [] && s.receipts == map[]
  }

  /** An unguarded request of that run on that record alone. */
  ghost predicate Plain(r: Request, run: string, id: Id) {
    && r.run == run && r.targets == [id] && r.TargetSet() == {id} && r.tokens == [] && r.preconditions.None?
    && r.faults == map[] && r.restores.None? && r.operation.Some? && Strip(r.operation.value) != ""
  }

  lemma RequestIsPlain(run: string, action: string, id: Id, operation: string, calls: seq<Call>, own: Option<string>, returned: Option<string>)
    requires Canonical(id) == id && Strip(operation) != ""
    ensures Plain(PlainRequest(run, action, id, operation, calls, own, returned), run, id)
  {
    assert forall x :: x in [id] <==> x == id;
  }

  lemma PlainAdmitted(s: Store, r: Request, id: Id)
    requires Ready(s, r.run, id) && Plain(r, r.run, id)
    ensures Admit(s, r).Success?
  {
    hide RecordTokenOf, GraphTokenOf, Canonical;
    assert TokenMap([]) == map[] && TokenKeys([]) == [];
    assert TokenFailure(s.domain, {id}, []).None?;
  }

  lemma PlainMutates(d: Domain, r: Request, id: Id, returned: Option<string>)
    requires Plain(r, r.run, id) && RunCallback(d, r).raised.None?
    requires r.apply(d).ending == Returned(r.operation.value, [], returned)
    ensures Mutate(d, r) == Success(Mutation(RunCallback(d, r).txn, [], returned))
  {
    hide RunCallback;
  }

  lemma PlainSettled(s: Store, r: Request, id: Id, model: string, row: RunRow, m: Mutation)
    requires Ready(s, r.run, id) && Plain(r, r.run, id) && m.affected == []
    requires forall x | x in m.txn.touched :: x == id || IsExternal(x)
    ensures Settle(s, model, r, row, m).Success?
  {
    hide EventOf, QueueOf, ReceiptOf;
  }

  /** Such a request commits as soon as its callback returns, having touched only it and external ids. */
  lemma PlainCommits(s: Store, r: Request, id: Id, returned: Option<string>, model: string)
    requires Ready(s, r.run, id) && Plain(r, r.run, id)
    requires r.apply(s.domain).ending == Returned(r.operation.value, [], returned)
    requires RunCallback(s.domain, r).raised.None? && forall x | x in RunCallback(s.domain, r).txn.touched :: x == id || IsExternal(x)
    ensures Commits(s, model, r)
  {
    hide RunCallback;
    PlainAdmitted(s, r, id);
    PlainMutates(s.domain, r, id, returned);
    assert TokenMap([]) == map[];
    hide Admit, Settle, Mutate;
    PlainSettled(s, r, id, model, Admit(s, r).value, Mutation(RunCallback(s.domain, r).txn, [], returned));
  }

  lemma CallsCommit(s: Store, run: string, action: string, id: Id, operation: string, calls: seq<Call>,
                    own: Option<string>, returned: Option<string>, model: string)
    requires Ready(s, run, id) && Strip(operation) != "" && RunCalls(Txn(s.domain, [], {}), {id}, calls).raised.None?
    requires forall x | x in RunCalls(Txn(s.domain, [], {}), {id}, calls).txn.touched :: x == id || IsExternal(x)
    ensures var r := PlainRequest(run, action, id, operation, calls, own, returned);
            Commits(s, model, r) && RunCallback(s.domain, r) == RunCalls(Txn(s.domain, [], {}), {id}, calls)
  {
    var r := PlainRequest(run, action, id, operation, calls, own, returned);
    RequestIsPlain(run, action, id, operation, calls, own, returned);
    hide RunCalls, Commits, Ready;
    PlainCommits(s, r, id, returned, model);
  }

  lemma SoloReady(run: string, id: Id, m: Memory)
    requires id != "" && Canonical(id) == id && !IsExternal(id) && IsUuid(id)
    ensures var s := RunningStore(run, map[id := m], map[]);
            Ready(s, run, id) && SourcesLive(s.domain) && s.domain == Domain(map[id := m], map[], map[id := [Projection(m)]])
  {
    hide Projection;
  }

  /** Commits are not vacuous: whatever the normalisers leave of a name, an action on it can commit. */
  lemma PlainActionCommits(run: string, action: string, id: Id, m: Memory, operation: string, model: string,
                           own: Option<string>, returned: Option<string>)
    requires Canonical(id) == id && id != "" && !IsExternal(id) && IsUuid(id) && Strip(operation) != ""
    ensures var s := RunningStore(run, map[id := m], map[]);
            Commits(s, model, PlainRequest(run, action, id, operation, [], own, returned)) && SourcesLive(s.domain)
  {
    SoloReady(run, id, m);
    hide Commits, Projection, RunningStore, Ready;
    CallsCommit(RunningStore(run, map[id := m], map[]), run, action, id, operation, [], own, returned, model);
  }

  // ---------------------------------------------------------------- hidden endpoints

  function LinkingCalls(id: Id, e: Id, kind: string): seq<Call> { [Call(AddLink(id, e, kind, ""), NoFault, false)] }

  /** A record `id`, and a record under an external identifier `e` with a link of its own. */
  function LinkedStore(run: string, id: Id, m: Memory, e: Id, x: Memory): Store {
    RunningStore(run, map[id := m, e := x], map[LinkKey(e, e, "SELF") := ""])
  }

  /**
   * Linking a record to an external identifier that has a record and a link defeats both undos, and
   * queues the untouched record for repair.
   */
  lemma HiddenEndpointsHappen(run: string, action: string, id: Id, m: Memory, e: Id, x: Memory, kind: string, operation: string, model: string)
    requires Canonical(id) == id && id != "" && !IsExternal(id) && IsUuid(id) && Strip(operation) != ""
    requires Canonical(e) == e && IsExternal(e) && LinkTypeForm(kind) != ""
    ensures var s := LinkedStore(run, id, m, e, x);
            var r := PlainRequest(run, action, id, operation, LinkingCalls(id, e, kind), None, None);
            && SourcesLive(s.domain) && Commits(s, model, r)
            && TouchesHiddenRecord(s, r) && TouchesHiddenLink(s, r)
            && RepairQueue.HasVersion(After(s, model, r).queue, RepairVersion(e, x, model))
  {
    var s := LinkedStore(run, id, m, e, x);
    var r := PlainRequest(run, action, id, operation, LinkingCalls(id, e, kind), None, None);
    assert SourcesLive(s.domain) && RepairQueue.Inv(s.queue) && e in s.domain.memories && s.domain.memories[e] == x;
    LinkingCallback(s.domain, id, e, kind);
    RequestIsPlain(run, action, id, operation, LinkingCalls(id, e, kind), None, None);
    hide Commits, Projection, RunCalls, LinkingCalls, RepairQueue.HasVersion, RepairQueue.Inv;
    CallsCommit(s, run, action, id, operation, LinkingCalls(id, e, kind), None, None, model);
    hide RunCallback, PlainRequest;
    LinkingHides(s, r, id, e);
    HiddenIsQueued(s, model, r, e);
  }

  lemma LinkingHides(s: Store, r: Request, id: Id, e: Id)
    requires Plain(r, r.run, id) && e != id && TxnOf(s, r).touched == [id, e]
    requires e in s.domain.memories && LinkKey(e, e, "SELF") in s.domain.links
    ensures Hidden(s, r, e) && TouchesHiddenRecord(s, r) && TouchesHiddenLink(s, r)
  {
    hide RunCallback;
    assert TxnOf(s, r).touched[1] == e;
    assert Hidden(s, r, e) && HiddenLink(s, r, LinkKey(e, e, "SELF"));
  }

  lemma LinkingCallback(d: Domain, id: Id, e: Id, kind: string)
    requires Canonical(id) == id && Canonical(e) == e && IsExternal(e) && LinkTypeForm(kind) != "" && id in d.memories
    ensures var s := RunCalls(Txn(d, [], {}), {id}, LinkingCalls(id, e, kind));
            s.raised.None? && s.txn.touched == [id, e]
  {
    var call := Call(AddLink(id, e, kind, ""), NoFault, false);
    assert [call][1..] == [];
    assert Txn(d, [], {}).touched + [id, e] == [id, e];
  }

  // ---------------------------------------------------------------- tokens that nobody looks at

  /**
   * An action that says it expects a link to an external identifier to be as it once was commits on a
   * store where the link has another context: the link's key has four parts, and is not read.
   */
  lemma StaleExternalLinkTokenCommits(run: string, action: string, id: Id, m: Memory, e: Id, kind: string, now: string, once: string,
                                      operation: string, model: string)
    requires Canonical(id) == id && id != "" && !IsExternal(id) && IsUuid(id) && Strip(operation) != "" && IsExternal(e)
    requires Norm(now) != Norm(once) && LinkTypeForm(kind) == kind
    requires var key := LinkKeyText(LinkKey(id, e, kind)); Canonical(key) == key
    ensures var k := LinkKey(id, e, kind);
            var s := RunningStore(run, map[id := m], map[k := now]);
            var r := WithToken(PlainRequest(run, action, id, operation, [], None, None), LinkKeyText(k), LinkTokenFrom(k, Some(once)));
            && Commits(s, model, r)
            && LinkTokenFrom(k, ContextOf(s.domain.links, StoredLink(k))) != LinkTokenFrom(k, Some(once))
  {
    var k := LinkKey(id, e, kind);
    var s := RunningStore(run, map[id := m], map[k := now]);
    var r := PlainRequest(run, action, id, operation, [], None, None);
    OneLinkReady(run, id, m, k, now);
    assert r.targets == [id];
    assert LinkTokenFrom(k, Some(now)) != LinkTokenFrom(k, Some(once)) && LinkTokenFrom(k, Some(once)) != Text("");
    hide *;
    RequestIsPlain(run, action, id, operation, [], None, None);
    CallsCommit(s, run, action, id, operation, [], None, None, model);
    ExternalLinkIsIgnored(r, k);
    CommitIgnoresTokenIff(s, model, r, LinkKeyText(k));
  }

  lemma OneLinkReady(run: string, id: Id, m: Memory, k: LinkKey, now: string)
    requires id != "" && Canonical(id) == id && !IsExternal(id) && IsUuid(id) && LinkTypeForm(k.kind) == k.kind
    ensures var s := RunningStore(run, map[id := m], map[k := now]);
            Ready(s, run, id) && ContextOf(s.domain.links, StoredLink(k)) == Some(now)
    ensures RunCalls(Txn(RunningStore(run, map[id := m], map[k := now]).domain, [], {}), {id}, []).raised.None?
            && RunCalls(Txn(RunningStore(run, map[id := m], map[k := now]).domain, [], {}), {id}, []).txn.touched == []
  {
    hide Projection;
  }

  lemma ExternalLinkIsIgnored(r: Request, k: LinkKey)
    requires IsExternal(k.target) && Canonical(LinkKeyText(k)) == LinkKeyText(k) && LinkKeyText(k) !in r.TargetSet()
    ensures Ignored(r.TargetSet(), TokenMap(r.tokens), Canonical(LinkKeyText(k)))
  {
    assert !PlainPart(k.target) by { assert "ext:"[3] == ':' && k.target[3] == ':'; }
    hide LinkTokenKey, TokenMap;
    LinkKeyRoundTripsIff(k);
    NotAGuard(r, LinkKeyText(k), k);
  }

  // ---------------------------------------------------------------- versions that were embedded before

  function RewritingCalls(id: Id, text: string, now: string): seq<Call> {
    [Call(Update(id, NO_CHANGES.(summary := Given(text)), now), NoFault, false)]
  }

  function QueuedStore(run: string, id: Id, m: Memory, done: RepairQueue.Item): Store {
    RunningStore(run, map[id := m], map[]).(queue := RepairQueue.Queue(map[0 := done], 1))
  }

  /**
   * A record can change without being embedded again: when an item of the same version, that is of the
   * same time of update, was completed before, the commit leaves that item and adds none.
   */
  lemma CompletedVersionHappens(run: string, action: string, id: Id, m: Memory, text: string, now: string, operation: string, model: string,
                                done: RepairQueue.Item)
    requires Canonical(id) == id && id != "" && !IsExternal(id) && IsUuid(id) && Strip(operation) != "" && ValidMemory(m)
    requires m.summary.Some? ==> Norm(m.summary.value) != Norm(text)
    requires done.version == RepairQueue.Version(id, model, now) && done.status.Completed? && RepairQueue.WellFormed(done)
    ensures var s := QueuedStore(run, id, m, done);
            var r := PlainRequest(run, action, id, operation, RewritingCalls(id, text, now), None, None);
            && Commits(s, model, r) && id in After(s, model, r).domain.memories
            && Snap(After(s, model, r).domain.memories, id) != Snap(s.domain.memories, id)
            && RepairVersion(id, After(s, model, r).domain.memories[id], model) == done.version
            && !RepairQueue.Waits(After(s, model, r).queue, done.version)
  {
    var s := QueuedStore(run, id, m, done);
    var r := PlainRequest(run, action, id, operation, RewritingCalls(id, text, now), None, None);
    hide *;
    QueuedReady(run, id, m, done);
    QueueHolds(s.queue, done);
    RewritingRuns(s.domain, id, m, text, now, model);
    WholeCommit(s, run, action, id, operation, RewritingCalls(id, text, now), model);
    RepairWaitsIff(s, model, r, id);
  }

  lemma QueuedReady(run: string, id: Id, m: Memory, done: RepairQueue.Item)
    requires id != "" && Canonical(id) == id && !IsExternal(id) && IsUuid(id)
    ensures var s := QueuedStore(run, id, m, done);
            && Ready(s, run, id) && SourcesLive(s.domain) && s.queue == RepairQueue.Queue(map[0 := done], 1)
            && s.domain == Domain(map[id := m], map[], map[id := [Projection(m)]])
  {
    hide Projection;
  }

  lemma QueueHolds(q: RepairQueue.Queue, done: RepairQueue.Item)
    requires q == RepairQueue.Queue(map[0 := done], 1) && done.status.Completed? && RepairQueue.WellFormed(done)
    ensures RepairQueue.Inv(q) && RepairQueue.HasVersion(q, done.version) && !RepairQueue.Waits(q, done.version)
  {
    assert q.items[0].version == done.version;
  }

  lemma RewritingRuns(d: Domain, id: Id, m: Memory, text: string, now: string, model: string)
    requires Canonical(id) == id && ValidMemory(m) && d == Domain(map[id := m], map[], map[id := [Projection(m)]])
    requires m.summary.Some? ==> Norm(m.summary.value) != Norm(text)
    ensures var s := RunCalls(Txn(d, [], {}), {id}, RewritingCalls(id, text, now));
            && s.raised.None? && s.txn.touched == [id] && id in s.txn.db.memories
            && Snap(s.txn.db.memories, id) != Snap(d.memories, id)
            && RepairVersion(id, s.txn.db.memories[id], model) == RepairQueue.Version(id, model, now)
  {
    var call := RewritingCalls(id, text, now)[0];
    OneCall(Txn(d, [], {}), {id}, call);
    hide RunCalls;
    RewritingStep(d, id, m, text, now, model);
  }

  lemma RewritingStep(d: Domain, id: Id, m: Memory, text: string, now: string, model: string)
    requires Canonical(id) == id && ValidMemory(m) && d.memories == map[id := m]
    requires m.summary.Some? ==> Norm(m.summary.value) != Norm(text)
    ensures var s := RunOp(Txn(d, [], {}), {id}, RewritingCalls(id, text, now)[0].op, NoFault);
            && s.raised.None? && s.txn.touched == [id] && id in s.txn.db.memories
            && Snap(s.txn.db.memories, id) != Snap(d.memories, id)
            && RepairVersion(id, s.txn.db.memories[id], model) == RepairQueue.Version(id, model, now)
  {
    var c := NO_CHANGES.(summary := Given(text));
    var after := PrepareUpdate(m, c, now).value;
    assert PrepareUpdate(m, c, now) == Success(after) && after.summary == Some(text) && after.updatedAt == now;
    hide PrepareUpdate, Projection, ValidMemory, Ident;
  }

  // ---------------------------------------------------------------- torn search rows

  /** A callback that rewrites a summary, has its domain hook fail, and swallows the failure. */
  function TearingCall(id: Id, text: string, now: string): Call {
    Call(Update(id, NO_CHANGES.(summary := Given(text)), now), AtDomain, true)
  }

  function TornCalls(id: Id, text: string, now: string): seq<Call> { [TearingCall(id, text, now)] }

  function MendedCalls(id: Id, text: string, now: string): seq<Call> {
    [TearingCall(id, text, now), TearingCall(id, text, now).(hook := NoFault)]
  }

  /**
   * Swallowing breaks the index: such an action commits and leaves a search row that does not agree.
   * A completed write of the same record later in the callback mends it.
   */
  lemma TornCommitHappens(run: string, action: string, id: Id, m: Memory, text: string, now: string, operation: string, model: string)
    requires Canonical(id) == id && id != "" && !IsExternal(id) && IsUuid(id) && Strip(operation) != ""
    requires ValidMemory(m) && text != Projection(m).summary
    ensures var s := RunningStore(run, map[id := m], map[]);
            var torn := PlainRequest(run, action, id, operation, TornCalls(id, text, now), None, None);
            var mended := PlainRequest(run, action, id, operation, MendedCalls(id, text, now), None, None);
            && Indexed(s.domain)
            && Commits(s, model, torn) && !Indexed(After(s, model, torn).domain)
            && Commits(s, model, mended) && Indexed(After(s, model, mended).domain)
  {
    var s := RunningStore(run, map[id := m], map[]);
    hide *;
    SoloReady(run, id, m);
    TearingRuns(s.domain, id, m, text, now);
    IndexedSingle(id, m, Projection(m));
    WholeCommit(s, run, action, id, operation, TornCalls(id, text, now), model);
    WholeCommit(s, run, action, id, operation, MendedCalls(id, text, now), model);
  }

  lemma WholeCommit(s: Store, run: string, action: string, id: Id, operation: string, calls: seq<Call>, model: string)
    requires Ready(s, run, id) && Strip(operation) != "" && RunCalls(Txn(s.domain, [], {}), {id}, calls).raised.None?
    requires forall x | x in RunCalls(Txn(s.domain, [], {}), {id}, calls).txn.touched :: x == id
    ensures var r := PlainRequest(run, action, id, operation, calls, None, None);
            Commits(s, model, r) && After(s, model, r).domain == RunCalls(Txn(s.domain, [], {}), {id}, calls).txn.db
  {
    CallsCommit(s, run, action, id, operation, calls, None, None, model);
    hide RunCalls, RunCallback, Commits, Body, Ready, PlainRequest;
    CommitIsSettled(s, model, PlainRequest(run, action, id, operation, calls, None, None));
  }

  lemma TearingStep(id: Id, m: Memory, shown: FtsRow, touched: seq<Id>, text: string, now: string, hook: Hook) returns (after: Memory)
    requires Canonical(id) == id && ValidMemory(m)
    ensures ValidMemory(after) && Projection(after).summary == text
    ensures RunOp(Txn(Domain(map[id := m], map[], map[id := [shown]]), touched, {}), {id}, TearingCall(id, text, now).op, hook)
         == Step(Txn(Domain(map[id := after], map[], map[id := [if hook.AtDomain? then shown else Projection(after)]]), touched + [id], {}),
                 if hook.NoFault? then None else Some(Injected))
  {
    var c := NO_CHANGES.(summary := Given(text));
    after := PrepareUpdate(m, c, now).value;
    assert PrepareUpdate(m, c, now) == Success(after) && Projection(after).summary == text && ValidMemory(after);
    hide PrepareUpdate, Projection, ValidMemory;
    assert map[id := m][id := after] == map[id := after];
    assert map[id := [shown]][id := [Projection(after)]] == map[id := [Projection(after)]];
  }

  lemma TearingRuns(d: Domain, id: Id, m: Memory, text: string, now: string)
    requires Canonical(id) == id && ValidMemory(m) && d == Domain(map[id := m], map[], map[id := [Projection(m)]])
    requires text != Projection(m).summary
    ensures var torn := RunCalls(Txn(d, [], {}), {id}, TornCalls(id, text, now));
            var mended := RunCalls(Txn(d, [], {}), {id}, MendedCalls(id, text, now));
            && torn.raised.None? && torn.txn.touched == [id] && !Indexed(torn.txn.db)
            && mended.raised.None? && mended.txn.touched == [id, id] && Indexed(mended.txn.db)
  {
    var call := TearingCall(id, text, now);
    var last := call.(hook := NoFault);
    var after := TearingStep(id, m, Projection(m), [], text, now, AtDomain);
    var again := TearingStep(id, after, Projection(m), [id], text, now, NoFault);
    hide Projection, ValidMemory, RunOp;
    assert [] + [id] == [id] && [id] + [id] == [id, id];
    var t := Txn(d, [], {});
    hide Indexed;
    OneCall(t, {id}, call);
    TwoCalls(t, {id}, call, last);
    OneCall(RunOp(t, {id}, call.op, call.hook).txn, {id}, last);
    hide RunCalls, TearingCall, Indexed;
    IndexedSingle(id, after, Projection(m));
    IndexedSingle(id, again, Projection(again));
  }

  lemma IndexedSingle(id: Id, m: Memory, shown: FtsRow)
    ensures Indexed(Domain(map[id := m], map[], map[id := [shown]])) <==> shown == Projection(m)
  {
    hide Projection;
    var d := Domain(map[id := m], map[], map[id := [shown]]);
    assert id in d.memories;
    assert [shown][0] == shown && [Projection(m)][0] == Projection(m);
  }

  lemma OneCall(t: Txn, targets: set<Id>, c: Call)
    ensures var s := RunOp(t, targets, c.op, c.hook);
            RunCalls(t, targets, [c]) == if s.raised.Some? && !c.swallow then s else Ok(s.txn)
  {
    hide RunOp;
    assert [c][1..] == [];
  }

  lemma TwoCalls(t: Txn, targets: set<Id>, c: Call, last: Call)
    requires c.swallow
    ensures RunCalls(t, targets, [c, last]) == RunCalls(RunOp(t, targets, c.op, c.hook).txn, targets, [last])
  {
    hide RunOp;
    assert [c, last][1..] == [last];
  }
}
