/**
 * Whole runs of the store: curation actions interleaved with ledger updates and with the repair
 * queue's own transactions, and concurrent callers whose steps interleave in any order.
 */
module CurationRuns {
  import opened Basics
  import opened CurationModel
  import opened CurationUow
  import opened CurationSurface
  import opened CurationAction
  import opened CurationHistory
  import L = CurationLedger
  import RepairQueue

  datatype Write =
    | Act(request: Request)
    | Book(update: L.Update)
    | Work(step: RepairQueue.Step)

  function Next(s: Store, model: string, w: Write): Store {
    match w
    case Act(r) => if WellFormed(r) then Body(s, model, r).0 else s
    case Book(u) => L.Ledger(s, u)
    case Work(step) => s.(queue := RepairQueue.Next(s.queue, step))
  }

  function Run(s: Store, model: string, ws: seq<Write>): Store
    decreases ws
  {
    if ws == [] then s else Run(Next(s, model, ws[0]), model, ws[1..])
  }

  lemma {:induction false} RunSplit(s: Store, model: string, a: seq<Write>, b: seq<Write>)
    ensures Run(s, model, a + b) == Run(Run(s, model, a), model, b)
    decreases a
  {
    hide Next;
    if a == [] { assert a + b == b; } else {
      assert (a + b)[1..] == a[1..] + b;
      RunSplit(Next(s, model, a[0]), model, a[1..], b);
    }
  }

  /** The actions that committed, in commit order. */
  ghost function Committed(s: Store, model: string, ws: seq<Write>): seq<Request>
    decreases ws
  {
    if ws == [] then []
    else (if ws[0].Act? && Commits(s, model, ws[0].request) then [ws[0].request] else [])
         + Committed(Next(s, model, ws[0]), model, ws[1..])
  }

  /** Every property `p` of a commit holds at each commit of the run. */
  ghost predicate AtCommits(s: Store, model: string, ws: seq<Write>, p: (Store, Request) -> bool)
    decreases ws
  {
    ws == [] || ((ws[0].Act? && Commits(s, model, ws[0].request) ==> p(s, ws[0].request))
                 && AtCommits(Next(s, model, ws[0]), model, ws[1..], p))
  }

  lemma NextShape(s: Store, model: string, w: Write)
    requires SourcesLive(s.domain)
    ensures SourcesLive(Next(s, model, w).domain)
    ensures if w.Act? && Commits(s, model, w.request)
            then Next(s, model, w) == After(s, model, w.request)
            else Next(s, model, w).domain == s.domain && Next(s, model, w).events == s.events
    ensures w.Act? && !Commits(s, model, w.request) ==> Next(s, model, w) == s
    ensures s.receipts.Keys <= Next(s, model, w).receipts.Keys
  {
    hide Attempt;
    if w.Act? && Commits(s, model, w.request) { CommitShape(s, model, w.request); }
  }

  // ---------------------------------------------------------------- records and queue, over runs

  ghost predicate StoreInv(s: Store) { RecordsInv(s.domain) && RepairQueue.Inv(s.queue) }

  lemma CommitKeepsInv(s: Store, model: string, r: Request)
    requires StoreInv(s) && Commits(s, model, r)
    ensures StoreInv(After(s, model, r))
  {
    CommitShape(s, model, r);
    RepairCoverage(s, model, r);
    hide Commits, Body, After, RecordsInv, Framed, Queues;
    CallsKeepRecords(Txn(s.domain, [], {}), r.TargetSet(), r.apply(s.domain).calls);
  }

  ghost predicate LegalWork(s: Store, model: string, ws: seq<Write>)
    decreases ws
  {
    ws == [] || ((ws[0].Work? ==> RepairQueue.Legal(s.queue, ws[0].step)) && LegalWork(Next(s, model, ws[0]), model, ws[1..]))
  }

  /**
   * In every reachable store references are distinct, records are valid, every link's source is live
   * and the queue is sound, whatever the callbacks swallow.
   */
  lemma {:induction false} RunKeepsInv(s: Store, model: string, ws: seq<Write>)
    requires StoreInv(s) && LegalWork(s, model, ws)
    ensures StoreInv(Run(s, model, ws))
    decreases ws
  {
    if ws != [] {
      StepKeepsInv(s, model, ws[0]);
      hide Next, StoreInv;
      RunKeepsInv(Next(s, model, ws[0]), model, ws[1..]);
    }
  }

  lemma StepKeepsInv(s: Store, model: string, w: Write)
    requires StoreInv(s)
    requires w.Work? ==> RepairQueue.Legal(s.queue, w.step)
    ensures StoreInv(Next(s, model, w))
  {
    NextShape(s, model, w);
    hide Commits, Body, RecordsInv, After;
    match w
    case Act(r) => if Commits(s, model, r) { CommitKeepsInv(s, model, r); }
    case Book(u) =>
    case Work(step) => RepairQueue.StepKeepsInv(s.queue, step);
  }

  // ---------------------------------------------------------------- the search index, over runs

  /** The index of a record through the callbacks that commit, one after the other. */
  ghost function IndexRun(x: Index, s: Store, model: string, ws: seq<Write>, id: Id): Index
    decreases ws
  {
    if ws == [] then x
    else
      var next := if ws[0].Act? && Commits(s, model, ws[0].request)
                  then IndexCommit(x, s, ws[0].request, id) else x;
      IndexRun(next, Next(s, model, ws[0]), model, ws[1..], id)
  }

  function IndexCommit(x: Index, s: Store, r: Request, id: Id): Index {
    IndexCalls(x, Txn(s.domain, [], {}), r.TargetSet(), r.apply(s.domain).calls, id)
  }

  lemma {:induction false} RunShows(s: Store, model: string, ws: seq<Write>, id: Id, x: Index)
    requires SourcesLive(s.domain) && Shows(s.domain, id, x)
    ensures Shows(Run(s, model, ws).domain, id, IndexRun(x, s, model, ws, id))
    decreases ws
  {
    if ws != [] {
      var w, next := ws[0], Next(s, model, ws[0]);
      NextShape(s, model, w);
      hide Next, Body, Shows, IndexCalls;
      if w.Act? && Commits(s, model, w.request) {
        CommitShape(s, model, w.request);
        hide Commits, After, Framed;
        CallsShow(Txn(s.domain, [], {}), w.request.TargetSet(), w.request.apply(s.domain).calls, id, x);
        RunShows(next, model, ws[1..], id, IndexCommit(x, s, w.request, id));
      } else {
        RunShows(next, model, ws[1..], id, x);
      }
    }
  }

  /**
   * Index agreement over a whole run: each memory has exactly one search row, equal to its projection,
   * and none is left over, exactly when each surviving record's last committed row write completed its
   * search row or left the projection last shown. A later write can repair what a torn one left.
   */
  lemma RunIndexedIff(s: Store, model: string, ws: seq<Write>)
    requires SourcesLive(s.domain) && Indexed(s.domain)
    ensures Indexed(Run(s, model, ws).domain)
            <==> forall id :: Settled(Run(s, model, ws).domain, id, IndexRun(AgreedIndex(s.domain, id), s, model, ws, id))
  {
    hide Run, Commits, Shows, AgreedIndex;
    var last := Run(s, model, ws).domain;
    IndexedIsEverywhere(last);
    forall id
      ensures AgreesAt(last, id) <==> Settled(last, id, IndexRun(AgreedIndex(s.domain, id), s, model, ws, id))
    {
      AgreedShows(s.domain, id);
      RunShows(s, model, ws, id, AgreedIndex(s.domain, id));
      SettledIffAgrees(last, id, IndexRun(AgreedIndex(s.domain, id), s, model, ws, id));
    }
    hide AgreesAt, Settled, Indexed;
  }

  ghost predicate NoFaultSwallowed(s: Store, r: Request) {
    forall c | c in r.apply(s.domain).calls :: !SwallowsDomainFault(c)
  }

  lemma {:induction false} UnswallowedRunStaysWhole(x: Index, s: Store, model: string, ws: seq<Write>, id: Id)
    requires SourcesLive(s.domain) && !x.torn
    requires AtCommits(s, model, ws, (s, r) => NoFaultSwallowed(s, r))
    ensures !IndexRun(x, s, model, ws, id).torn
    decreases ws
  {
    if ws != [] {
      var w, next := ws[0], Next(s, model, ws[0]);
      NextShape(s, model, w);
      hide Next, Body, IndexCalls;
      if w.Act? && Commits(s, model, w.request) {
        CommitShape(s, model, w.request);
        hide Commits, After, Framed;
        UnswallowedStaysWhole(x, Txn(s.domain, [], {}), w.request.TargetSet(), w.request.apply(s.domain).calls, id);
        UnswallowedRunStaysWhole(IndexCommit(x, s, w.request, id), next, model, ws[1..], id);
      } else {
        UnswallowedRunStaysWhole(x, next, model, ws[1..], id);
      }
    }
  }

  /** So the index agrees in every store reached without swallowing the fault of a domain hook. */
  lemma UnswallowedRunsStayIndexed(s: Store, model: string, ws: seq<Write>)
    requires SourcesLive(s.domain) && Indexed(s.domain)
    requires AtCommits(s, model, ws, (s, r) => NoFaultSwallowed(s, r))
    ensures Indexed(Run(s, model, ws).domain)
  {
    RunIndexedIff(s, model, ws);
    hide Run, Commits, Indexed;
    forall id
      ensures Settled(Run(s, model, ws).domain, id, IndexRun(AgreedIndex(s.domain, id), s, model, ws, id))
    {
      UnswallowedRunStaysWhole(AgreedIndex(s.domain, id), s, model, ws, id);
    }
  }

  /** The action's callback deletes this record nowhere; a deletion that is refused deletes nothing. */
  predicate Spares(s: Store, r: Request, id: Id) {
    Spared(Txn(s.domain, [], {}), r.TargetSet(), r.apply(s.domain).calls, id)
  }

  /** A record's reference never changes while it lives, whatever else commits. */
  lemma {:induction false} RefsNeverChange(s: Store, model: string, ws: seq<Write>, id: Id)
    requires SourcesLive(s.domain) && id in s.domain.memories
    requires AtCommits(s, model, ws, (s, r) => Spares(s, r, id))
    ensures id in Run(s, model, ws).domain.memories
    ensures Run(s, model, ws).domain.memories[id].ref == s.domain.memories[id].ref
    decreases ws
  {
    if ws != [] {
      var w := ws[0];
      NextShape(s, model, w);
      if w.Act? && Commits(s, model, w.request) {
        CommitShape(s, model, w.request);
        hide Commits, Body, After, Framed, Spared;
        CallsKeepRef(Txn(s.domain, [], {}), w.request.TargetSet(), w.request.apply(s.domain).calls, id);
      }
      hide Next;
      RefsNeverChange(Next(s, model, w), model, ws[1..], id);
    }
  }

  // ---------------------------------------------------------------- exactly once

  /** The tables after the callbacks of these requests alone, one after the other. */
  ghost function ApplyAll(d: Domain, rs: seq<Request>): Domain
    decreases rs
  {
    if rs == [] then d else ApplyAll(RunCallback(d, rs[0]).txn.db, rs[1..])
  }

  predicate PutsReceipt(w: Write, key: Key) { w.Book? && w.update.PutReceipt? && w.update.key == key }

  /** No identity commits twice, and none that already had a receipt. */
  lemma {:induction false} CommitsAreDistinct(s: Store, model: string, ws: seq<Write>)
    requires SourcesLive(s.domain)
    ensures var rs, after := Committed(s, model, ws), Run(s, model, ws);
            && (forall i, j | 0 <= i < j < |rs| :: rs[i].Id() != rs[j].Id())
            && (forall r | r in rs :: r.Id() !in s.receipts && r.Id() in after.receipts)
            && s.receipts.Keys <= after.receipts.Keys
    decreases ws
  {
    if ws != [] {
      StepFacts(s, model, ws);
      CommitsAreDistinct(Next(s, model, ws[0]), model, ws[1..]);
      hide Next, Commits, Committed, Run;
    }
  }

  /** Every new receipt is that of a commit, or was put by hand. */
  lemma {:induction false} ReceiptsAreEarned(s: Store, model: string, ws: seq<Write>, key: Key)
    requires SourcesLive(s.domain) && key !in s.receipts && key in Run(s, model, ws).receipts
    ensures (exists r | r in Committed(s, model, ws) :: r.Id() == key) || (exists w | w in ws :: PutsReceipt(w, key))
    decreases ws
  {
    if ws != [] {
      StepFacts(s, model, ws);
      var next, rest := Next(s, model, ws[0]), Committed(Next(s, model, ws[0]), model, ws[1..]);
      if key !in next.receipts {
        ReceiptsAreEarned(next, model, ws[1..], key);
        hide Next, Commits, Committed, Run, PutsReceipt;
        assert forall r | r in rest :: r in Committed(s, model, ws);
      } else {
        hide Next, Commits, Committed, Run;
        assert ws[0] in ws;
      }
    }
  }

  /** The memory tables are the committed callbacks applied in commit order, and nothing else. */
  lemma {:induction false} TablesAreCommits(s: Store, model: string, ws: seq<Write>)
    requires SourcesLive(s.domain)
    ensures Run(s, model, ws).domain == ApplyAll(s.domain, Committed(s, model, ws))
    decreases ws
  {
    if ws != [] {
      StepFacts(s, model, ws);
      TablesAreCommits(Next(s, model, ws[0]), model, ws[1..]);
      hide Next, Commits, Committed, Run, RunCallback;
    }
  }

  /**
   * Exactly once. Over any interleaving, every identity commits at most once, every commit leaves
   * its receipt and one event in order, every new receipt is from a commit or was put by hand, and
   * the memory tables are the committed callbacks in commit order: refused, failed and replayed
   * calls contribute nothing.
   */
  lemma ExactlyOnce(s: Store, model: string, ws: seq<Write>)
    requires SourcesLive(s.domain)
    ensures var rs, after := Committed(s, model, ws), Run(s, model, ws);
            && (forall i, j | 0 <= i < j < |rs| :: rs[i].Id() != rs[j].Id())
            && (forall r | r in rs :: r.Id() !in s.receipts && r.Id() in after.receipts)
            && (forall key | key in after.receipts && key !in s.receipts ::
                  (exists r | r in rs :: r.Id() == key) || (exists w | w in ws :: PutsReceipt(w, key)))
            && after.domain == ApplyAll(s.domain, rs)
            && |after.events| == |s.events| + |rs| && s.events <= after.events
            && (forall i | 0 <= i < |rs| ::
                  Key(after.events[|s.events| + i].run, after.events[|s.events| + i].action) == rs[i].Id())
  {
    hide Run, Committed, PutsReceipt;
    CommitsAreDistinct(s, model, ws);
    TablesAreCommits(s, model, ws);
    LogGrows(s, model, ws);
    EventsAreCommits(s, model, ws);
    hide NewEvents;
    forall key | key in Run(s, model, ws).receipts && key !in s.receipts
      ensures (exists r | r in Committed(s, model, ws) :: r.Id() == key) || (exists w | w in ws :: PutsReceipt(w, key))
    {
      ReceiptsAreEarned(s, model, ws, key);
    }
  }

  /** One write of a run: either its action commits, or only the ledger and the queue may move. */
  lemma StepFacts(s: Store, model: string, ws: seq<Write>)
    requires SourcesLive(s.domain) && ws != []
    ensures var w, next := ws[0], Next(s, model, ws[0]);
            var rest := Committed(next, model, ws[1..]);
            && SourcesLive(next.domain) && s.receipts.Keys <= next.receipts.Keys
            && Run(s, model, ws) == Run(next, model, ws[1..])
            && (if w.Act? && Commits(s, model, w.request)
                then && Committed(s, model, ws) == [w.request] + rest
                     && w.request.Id() !in s.receipts && next.receipts.Keys == s.receipts.Keys + {w.request.Id()}
                     && next.domain == RunCallback(s.domain, w.request).txn.db
                     && |next.events| == |s.events| + 1 && s.events <= next.events
                     && Key(next.events[|s.events|].run, next.events[|s.events|].action) == w.request.Id()
                else && Committed(s, model, ws) == rest && next.domain == s.domain && next.events == s.events
                     && (forall key | key in next.receipts && key !in s.receipts :: PutsReceipt(w, key)))
  {
    var w := ws[0];
    NextShape(s, model, w);
    RunUnfold(s, model, ws);
    if w.Act? && Commits(s, model, w.request) {
      CommitStep(s, model, w.request);
      hide Body, After, Run, Committed, Next, Commits, RunCallback;
    } else {
      NewReceiptByHand(s, Next(s, model, w), model, w);
      hide Body, After, Run, Committed, Next, Commits, RunCallback, PutsReceipt;
    }
  }

  lemma CommitStep(s: Store, model: string, r: Request)
    requires SourcesLive(s.domain) && Commits(s, model, r)
    ensures var after := After(s, model, r);
            && r.Id() !in s.receipts && after.receipts.Keys == s.receipts.Keys + {r.Id()}
            && after.domain == RunCallback(s.domain, r).txn.db
            && |after.events| == |s.events| + 1 && s.events <= after.events
            && Key(after.events[|s.events|].run, after.events[|s.events|].action) == r.Id()
  {
    CommitShape(s, model, r);
    EventIdentity(s, r);
    hide Body, After, Commits, RunCallback, EventOf, QueueOf, Framed;
  }

  lemma RunUnfold(s: Store, model: string, ws: seq<Write>)
    requires ws != []
    ensures Run(s, model, ws) == Run(Next(s, model, ws[0]), model, ws[1..])
    ensures Committed(s, model, ws)
            == (if ws[0].Act? && Commits(s, model, ws[0].request) then [ws[0].request] else [])
               + Committed(Next(s, model, ws[0]), model, ws[1..])
    ensures !(ws[0].Act? && Commits(s, model, ws[0].request)) ==>
              Committed(s, model, ws) == Committed(Next(s, model, ws[0]), model, ws[1..])
  {
    hide Next, Commits;
  }

  lemma EventIdentity(s: Store, r: Request)
    requires r.operation.Some?
    ensures Key(EventOf(s, r, TxnOf(s, r)).run, EventOf(s, r, TxnOf(s, r)).action) == r.Id()
  {}

  lemma NewReceiptByHand(s: Store, next: Store, model: string, w: Write)
    requires next == Next(s, model, w) && !(w.Act? && Commits(s, model, w.request))
    ensures forall key | key in next.receipts && key !in s.receipts :: PutsReceipt(w, key)
  {}

  // ---------------------------------------------------------------- history over runs

  function ReplayEvents(m: map<Id, Snapshot>, events: seq<Event>): map<Id, Snapshot>
    decreases events
  {
    if events == [] then m else ReplayEvents(ReplayRecords(m, events[0].records), events[1..])
  }

  function UndoEvents(m: map<Id, Snapshot>, events: seq<Event>): map<Id, Snapshot>
    decreases events
  {
    if events == [] then m else UndoRecords(UndoEvents(m, events[1..]), events[0].records)
  }

  function ReplayLinkEvents(links: map<LinkKey, string>, events: seq<Event>): map<LinkKey, string>
    decreases events
  {
    if events == [] then links else ReplayLinkEvents(ReplayLinks(links, events[0].links), events[1..])
  }

  /** The events a run adds. */
  ghost function NewEvents(s: Store, model: string, ws: seq<Write>): seq<Event>
    decreases ws
  {
    if ws == [] then []
    else (if ws[0].Act? && Commits(s, model, ws[0].request)
          then [EventOf(s, ws[0].request, TxnOf(s, ws[0].request))] else [])
         + NewEvents(Next(s, model, ws[0]), model, ws[1..])
  }

  lemma NewEventsUnfold(s: Store, model: string, ws: seq<Write>)
    requires ws != []
    ensures ws[0].Act? && Commits(s, model, ws[0].request) ==>
              NewEvents(s, model, ws)
              == [EventOf(s, ws[0].request, TxnOf(s, ws[0].request))] + NewEvents(Next(s, model, ws[0]), model, ws[1..])
    ensures !(ws[0].Act? && Commits(s, model, ws[0].request)) ==>
              NewEvents(s, model, ws) == NewEvents(Next(s, model, ws[0]), model, ws[1..])
  {
    hide Next, Commits, EventOf;
  }

  /** The event log grows by exactly the events of the commits. */
  lemma {:induction false} LogGrows(s: Store, model: string, ws: seq<Write>)
    requires SourcesLive(s.domain)
    ensures Run(s, model, ws).events == s.events + NewEvents(s, model, ws)
    decreases ws
  {
    if ws != [] {
      hide NewEvents, Run, Next, Commits, EventOf, After, Body, QueueOf, Framed, RunCallback;
      var w, next := ws[0], Next(s, model, ws[0]);
      NextShape(s, model, w);
      RunUnfold(s, model, ws);
      NewEventsUnfold(s, model, ws);
      LogGrows(next, model, ws[1..]);
      if w.Act? && Commits(s, model, w.request) {
        CommitEvent(s, model, w.request);
        Associative(s.events, [EventOf(s, w.request, TxnOf(s, w.request))], NewEvents(next, model, ws[1..]));
      }
    }
  }

  lemma CommitEvent(s: Store, model: string, r: Request)
    requires SourcesLive(s.domain) && Commits(s, model, r)
    ensures After(s, model, r).events == s.events + [EventOf(s, r, TxnOf(s, r))]
  {
    CommitShape(s, model, r);
  }

  lemma Associative<T>(a: seq<T>, b: seq<T>, c: seq<T>)
    ensures a + b + c == a + (b + c)
  {}

  ghost predicate Carry(events: seq<Event>, rs: seq<Request>) {
    |events| == |rs| && forall i | 0 <= i < |rs| :: Key(events[i].run, events[i].action) == rs[i].Id()
  }

  lemma CarryMore(e: Event, events: seq<Event>, r: Request, rs: seq<Request>)
    requires Carry(events, rs) && Key(e.run, e.action) == r.Id()
    ensures Carry([e] + events, [r] + rs)
  {}

  /** One event per commit, in commit order, carrying its identity. */
  lemma {:induction false} EventsAreCommits(s: Store, model: string, ws: seq<Write>)
    ensures Carry(NewEvents(s, model, ws), Committed(s, model, ws))
    decreases ws
  {
    if ws != [] {
      hide Next, Commits, Committed, NewEvents, TxnOf, EventOf, Run, Carry;
      var w, next := ws[0], Next(s, model, ws[0]);
      RunUnfold(s, model, ws);
      NewEventsUnfold(s, model, ws);
      EventsAreCommits(next, model, ws[1..]);
      if w.Act? && Commits(s, model, w.request) {
        var r := w.request;
        CommitIsWellFormed(s, model, r);
        CarryMore(EventOf(s, r, TxnOf(s, r)), NewEvents(next, model, ws[1..]), r, Committed(next, model, ws[1..]));
      }
    }
  }

  lemma CommitIsWellFormed(s: Store, model: string, r: Request)
    requires Commits(s, model, r)
    ensures r.operation.Some? && Key(EventOf(s, r, TxnOf(s, r)).run, EventOf(s, r, TxnOf(s, r)).action) == r.Id()
  {
    hide Attempt;
  }

  /** Replaying the record history forward from the first state gives the last. */
  lemma {:induction false} RecordHistoryReplays(s: Store, model: string, ws: seq<Write>)
    requires SourcesLive(s.domain)
    ensures ReplayEvents(Snapshots(s.domain.memories), NewEvents(s, model, ws)) == Snapshots(Run(s, model, ws).domain.memories)
    decreases ws
  {
    if ws != [] {
      var w, next := ws[0], Next(s, model, ws[0]);
      NextShape(s, model, w);
      RunUnfold(s, model, ws);
      NewEventsUnfold(s, model, ws);
      RecordHistoryReplays(next, model, ws[1..]);
      var events := NewEvents(s, model, ws);
      if w.Act? && Commits(s, model, w.request) {
        RecordReplay(s, model, w.request);
        hide Body, After, Commits, EventOf, NewEvents, Run, ReplayRecords, Snapshots;
        assert events[1..] == NewEvents(next, model, ws[1..]);
      }
    }
  }

  /** Replaying the link history forward gives the last link table, contexts included. */
  lemma {:induction false} LinkHistoryReplays(s: Store, model: string, ws: seq<Write>)
    requires SourcesLive(s.domain)
    ensures ReplayLinkEvents(s.domain.links, NewEvents(s, model, ws)) == Run(s, model, ws).domain.links
    decreases ws
  {
    if ws != [] {
      var w, next := ws[0], Next(s, model, ws[0]);
      NextShape(s, model, w);
      RunUnfold(s, model, ws);
      NewEventsUnfold(s, model, ws);
      LinkHistoryReplays(next, model, ws[1..]);
      var events := NewEvents(s, model, ws);
      if w.Act? && Commits(s, model, w.request) {
        LinkReplay(s, model, w.request);
        hide Body, After, Commits, EventOf, NewEvents, Run, ReplayLinks;
        assert events[1..] == NewEvents(next, model, ws[1..]);
      }
    }
  }

  /** The first commit of the run that revised this record hid it. */
  ghost predicate HiddenFirst(s: Store, model: string, ws: seq<Write>, id: Id)
    decreases ws
  {
    ws != []
    && if ws[0].Act? && Commits(s, model, ws[0].request) && id in EventOf(s, ws[0].request, TxnOf(s, ws[0].request)).records
       then Hidden(s, ws[0].request, id)
       else HiddenFirst(Next(s, model, ws[0]), model, ws[1..], id)
  }

  ghost predicate NothingHiddenFirst(s: Store, model: string, ws: seq<Write>) {
    forall id :: !HiddenFirst(s, model, ws, id)
  }

  /** Undoing one event decides the records it revises, and leaves the others to the later events. */
  lemma UndoOne(m: map<Id, Snapshot>, records: map<Id, RecordRevision>, id: Id)
    ensures SnapIn(UndoRecords(m, records), id) == if id in records then records[id].before else SnapIn(m, id)
  {}

  lemma UndoneUnfold(m: map<Id, Snapshot>, e: Event, rest: seq<Event>)
    ensures UndoEvents(m, [e] + rest) == UndoRecords(UndoEvents(m, rest), e.records)
  {
    assert ([e] + rest)[1..] == rest;
  }

  /** Undoing a run in reverse order restores a record exactly unless its first revision hid it. */
  lemma {:induction false} UndoneIff(s: Store, model: string, ws: seq<Write>, id: Id)
    requires SourcesLive(s.domain)
    ensures SnapIn(UndoEvents(Snapshots(Run(s, model, ws).domain.memories), NewEvents(s, model, ws)), id)
            == Snap(s.domain.memories, id)
            <==> !HiddenFirst(s, model, ws, id)
    decreases ws
  {
    if ws != [] {
      var w, next := ws[0], Next(s, model, ws[0]);
      NextShape(s, model, w);
      RunUnfold(s, model, ws);
      NewEventsUnfold(s, model, ws);
      UndoneIff(next, model, ws[1..], id);
      hide Next, Run, NewEvents, Commits, Body, After, EventOf, Hidden, UndoEvents, Snapshots, SnapshotOf;
      if w.Act? && Commits(s, model, w.request) { UndoneAtCommit(s, model, ws, id); }
    }
  }

  lemma UndoneAtCommit(s: Store, model: string, ws: seq<Write>, id: Id)
    requires SourcesLive(s.domain) && ws != [] && ws[0].Act? && Commits(s, model, ws[0].request)
    requires var next := Next(s, model, ws[0]);
             SnapIn(UndoEvents(Snapshots(Run(next, model, ws[1..]).domain.memories), NewEvents(next, model, ws[1..])), id)
             == Snap(next.domain.memories, id)
             <==> !HiddenFirst(next, model, ws[1..], id)
    ensures SnapIn(UndoEvents(Snapshots(Run(s, model, ws).domain.memories), NewEvents(s, model, ws)), id)
            == Snap(s.domain.memories, id)
            <==> !HiddenFirst(s, model, ws, id)
  {
    var r, next := ws[0].request, Next(s, model, ws[0]);
    var e, rest := EventOf(s, r, TxnOf(s, r)), NewEvents(next, model, ws[1..]);
    var m := Snapshots(Run(s, model, ws).domain.memories);
    NextShape(s, model, ws[0]);
    RunUnfold(s, model, ws);
    NewEventsUnfold(s, model, ws);
    if id in e.records { BeforeIff(s, model, r, id); } else { UnrevisedByCommit(s, model, r, id); }
    hide Next, Run, NewEvents, Body, After, EventOf, TxnOf, Hidden, UndoEvents, Snapshots, SnapshotOf, Commits, UndoRecords;
    UndoneUnfold(m, e, rest);
    UndoOne(UndoEvents(m, rest), e.records, id);
  }

  /**
   * Invertible history: undoing every event of a run in reverse order recovers the first state
   * exactly when no record was hidden by the first commit of the run that revised it.
   */
  lemma HistoryInvertsIff(s: Store, model: string, ws: seq<Write>)
    requires SourcesLive(s.domain)
    ensures UndoEvents(Snapshots(Run(s, model, ws).domain.memories), NewEvents(s, model, ws)) == Snapshots(s.domain.memories)
            <==> NothingHiddenFirst(s, model, ws)
  {
    hide Run, NewEvents, UndoEvents, SnapshotOf, Commits, EventOf, Hidden;
    var first := Snapshots(s.domain.memories);
    var undone := UndoEvents(Snapshots(Run(s, model, ws).domain.memories), NewEvents(s, model, ws));
    forall id ensures (SnapIn(undone, id) == SnapIn(first, id)) == !HiddenFirst(s, model, ws, id) {
      UndoneIff(s, model, ws, id);
      assert SnapIn(first, id) == Snap(s.domain.memories, id);
    }
    hide Snapshots;
    if undone == first {
      forall id ensures !HiddenFirst(s, model, ws, id) { assert SnapIn(undone, id) == SnapIn(first, id); }
    } else if NothingHiddenFirst(s, model, ws) {
      forall id ensures SnapIn(undone, id) == SnapIn(first, id) { assert !HiddenFirst(s, model, ws, id); }
      SameSnapshots(undone, first);
    }
  }

  function UndoLinkEvents(keys: set<LinkKey>, events: seq<Event>): set<LinkKey>
    decreases events
  {
    if events == [] then keys else UndoLinkKeys(UndoLinkEvents(keys, events[1..]), events[0].links)
  }

  /** The first commit of the run that revised this link hid it. */
  ghost predicate LinkHiddenFirst(s: Store, model: string, ws: seq<Write>, k: LinkKey)
    decreases ws
  {
    ws != []
    && if ws[0].Act? && Commits(s, model, ws[0].request) && k in EventOf(s, ws[0].request, TxnOf(s, ws[0].request)).links
       then HiddenLink(s, ws[0].request, k)
       else LinkHiddenFirst(Next(s, model, ws[0]), model, ws[1..], k)
  }

  ghost predicate NoLinkHiddenFirst(s: Store, model: string, ws: seq<Write>) {
    forall k :: !LinkHiddenFirst(s, model, ws, k)
  }

  lemma LinkUndoneUnfold(keys: set<LinkKey>, e: Event, rest: seq<Event>, k: LinkKey)
    ensures k in UndoLinkEvents(keys, [e] + rest)
            <==> if k in e.links then e.links[k].beforeExists else k in UndoLinkEvents(keys, rest)
  {
    assert ([e] + rest)[1..] == rest;
  }

  lemma {:induction false} LinkUndoneIff(s: Store, model: string, ws: seq<Write>, k: LinkKey)
    requires SourcesLive(s.domain)
    ensures (k in UndoLinkEvents(Run(s, model, ws).domain.links.Keys, NewEvents(s, model, ws)) <==> k in s.domain.links)
            <==> !LinkHiddenFirst(s, model, ws, k)
    decreases ws
  {
    if ws != [] {
      var w, next := ws[0], Next(s, model, ws[0]);
      NextShape(s, model, w);
      RunUnfold(s, model, ws);
      NewEventsUnfold(s, model, ws);
      LinkUndoneIff(next, model, ws[1..], k);
      hide Next, Run, NewEvents, Commits, Body, After, EventOf, HiddenLink, UndoLinkEvents;
      if w.Act? && Commits(s, model, w.request) { LinkUndoneAtCommit(s, model, ws, k); }
    }
  }

  lemma LinkUndoneAtCommit(s: Store, model: string, ws: seq<Write>, k: LinkKey)
    requires SourcesLive(s.domain) && ws != [] && ws[0].Act? && Commits(s, model, ws[0].request)
    requires var next := Next(s, model, ws[0]);
             (k in UndoLinkEvents(Run(next, model, ws[1..]).domain.links.Keys, NewEvents(next, model, ws[1..])) <==> k in next.domain.links)
             <==> !LinkHiddenFirst(next, model, ws[1..], k)
    ensures (k in UndoLinkEvents(Run(s, model, ws).domain.links.Keys, NewEvents(s, model, ws)) <==> k in s.domain.links)
            <==> !LinkHiddenFirst(s, model, ws, k)
  {
    var r, next := ws[0].request, Next(s, model, ws[0]);
    var e, rest := EventOf(s, r, TxnOf(s, r)), NewEvents(next, model, ws[1..]);
    NextShape(s, model, ws[0]);
    RunUnfold(s, model, ws);
    NewEventsUnfold(s, model, ws);
    if k in e.links { LinkBeforeIff(s, model, r, k); } else { UnrevisedLink(s, model, r, k); }
    assert k in next.domain.links <==> ContextOf(next.domain.links, k).Some?;
    hide Next, Run, NewEvents, Body, After, EventOf, TxnOf, HiddenLink, UndoLinkEvents, Commits, UndoLinkKeys;
    LinkUndoneUnfold(Run(s, model, ws).domain.links.Keys, e, rest, k);
  }

  /** Likewise which links existed is recovered exactly when no link was hidden by its first revision. */
  lemma LinkHistoryInvertsIff(s: Store, model: string, ws: seq<Write>)
    requires SourcesLive(s.domain)
    ensures UndoLinkEvents(Run(s, model, ws).domain.links.Keys, NewEvents(s, model, ws)) == s.domain.links.Keys
            <==> NoLinkHiddenFirst(s, model, ws)
  {
    hide Run, NewEvents, UndoLinkEvents, Commits, EventOf, HiddenLink;
    var first, undone := s.domain.links.Keys, UndoLinkEvents(Run(s, model, ws).domain.links.Keys, NewEvents(s, model, ws));
    forall k: LinkKey ensures (k in undone <==> k in first) == !LinkHiddenFirst(s, model, ws, k) {
      LinkUndoneIff(s, model, ws, k);
    }
    if undone == first {
      forall k ensures !LinkHiddenFirst(s, model, ws, k) { assert k in undone <==> k in first; }
    } else if NoLinkHiddenFirst(s, model, ws) {
      forall k: LinkKey ensures k in undone <==> k in first { assert !LinkHiddenFirst(s, model, ws, k); }
    }
  }

  // ---------------------------------------------------------------- earlier contexts, over runs

  /** The first row of these events about this link. */
  function FirstRow(events: seq<Event>, k: LinkKey): Option<LinkRevision>
    decreases events
  {
    if events == [] then None
    else if k in events[0].links then Some(events[0].links[k]) else FirstRow(events[1..], k)
  }

  lemma FirstRowUnfold(e: Event, rest: seq<Event>, k: LinkKey)
    ensures FirstRow([e] + rest, k) == if k in e.links then Some(e.links[k]) else FirstRow(rest, k)
  {
    assert ([e] + rest)[1..] == rest;
  }

  /** What the first row about a link, or else the last table, leaves open for its context before. */
  predicate MayHaveBeen(events: seq<Event>, last: map<LinkKey, string>, k: LinkKey, context: Option<string>) {
    match FirstRow(events, k)
    case None => context == ContextOf(last, k)
    case Some(row) => (context.Some? <==> row.beforeExists) && context != row.context
  }

  lemma {:induction false} TruthMayHaveBeenIff(s: Store, model: string, ws: seq<Write>, k: LinkKey)
    requires SourcesLive(s.domain)
    ensures MayHaveBeen(NewEvents(s, model, ws), Run(s, model, ws).domain.links, k, ContextOf(s.domain.links, k))
            <==> !LinkHiddenFirst(s, model, ws, k)
    decreases ws
  {
    if ws != [] {
      var w, next := ws[0], Next(s, model, ws[0]);
      NextShape(s, model, w);
      RunUnfold(s, model, ws);
      NewEventsUnfold(s, model, ws);
      TruthMayHaveBeenIff(next, model, ws[1..], k);
      hide Next, Run, NewEvents, Commits, Body, After, EventOf, HiddenLink, FirstRow;
      if w.Act? && Commits(s, model, w.request) { TruthAtCommit(s, model, ws, k); }
    }
  }

  lemma TruthAtCommit(s: Store, model: string, ws: seq<Write>, k: LinkKey)
    requires SourcesLive(s.domain) && ws != [] && ws[0].Act? && Commits(s, model, ws[0].request)
    requires var next := Next(s, model, ws[0]);
             MayHaveBeen(NewEvents(next, model, ws[1..]), Run(next, model, ws[1..]).domain.links, k, ContextOf(next.domain.links, k))
             <==> !LinkHiddenFirst(next, model, ws[1..], k)
    ensures MayHaveBeen(NewEvents(s, model, ws), Run(s, model, ws).domain.links, k, ContextOf(s.domain.links, k))
            <==> !LinkHiddenFirst(s, model, ws, k)
  {
    var r, next := ws[0].request, Next(s, model, ws[0]);
    assert next == After(s, model, r);
    hide Next, Run, NewEvents, Body, After, EventOf, TxnOf, HiddenLink, Commits, FirstRow, MayHaveBeen;
    RunUnfold(s, model, ws);
    NewEventsUnfold(s, model, ws);
    if k in EventOf(s, r, TxnOf(s, r)).links {
      RevisedFirst(s, model, r, k, NewEvents(next, model, ws[1..]), Run(s, model, ws).domain.links);
    } else {
      RevisedLater(s, model, r, k, NewEvents(next, model, ws[1..]), Run(s, model, ws).domain.links);
    }
  }

  lemma RevisedFirst(s: Store, model: string, r: Request, k: LinkKey, rest: seq<Event>, last: map<LinkKey, string>)
    requires SourcesLive(s.domain) && Commits(s, model, r) && k in EventOf(s, r, TxnOf(s, r)).links
    ensures MayHaveBeen([EventOf(s, r, TxnOf(s, r))] + rest, last, k, ContextOf(s.domain.links, k)) <==> !HiddenLink(s, r, k)
  {
    LinkBeforeIff(s, model, r, k);
    hide Commits, Body, After, EventOf, TxnOf, HiddenLink, FirstRow;
    FirstRowUnfold(EventOf(s, r, TxnOf(s, r)), rest, k);
  }

  lemma RevisedLater(s: Store, model: string, r: Request, k: LinkKey, rest: seq<Event>, last: map<LinkKey, string>)
    requires SourcesLive(s.domain) && Commits(s, model, r) && k !in EventOf(s, r, TxnOf(s, r)).links
    ensures MayHaveBeen([EventOf(s, r, TxnOf(s, r))] + rest, last, k, ContextOf(s.domain.links, k))
            <==> MayHaveBeen(rest, last, k, ContextOf(After(s, model, r).domain.links, k))
  {
    UnrevisedLink(s, model, r, k);
    hide Commits, Body, After, EventOf, TxnOf, HiddenLink, FirstRow;
    FirstRowUnfold(EventOf(s, r, TxnOf(s, r)), rest, k);
  }

  /**
   * What the events of a run and its last table tell of the context a link had at first: it is known
   * exactly if the first revision of the link neither hid it nor says that it existed.
   */
  lemma FirstContextKnownIff(s: Store, model: string, ws: seq<Write>, k: LinkKey)
    requires SourcesLive(s.domain)
    ensures (forall c :: MayHaveBeen(NewEvents(s, model, ws), Run(s, model, ws).domain.links, k, c) <==> c == ContextOf(s.domain.links, k))
            <==> !LinkHiddenFirst(s, model, ws, k)
                 && (FirstRow(NewEvents(s, model, ws), k).Some? ==> !FirstRow(NewEvents(s, model, ws), k).value.beforeExists)
  {
    TruthMayHaveBeenIff(s, model, ws, k);
    hide Run, NewEvents, LinkHiddenFirst, FirstRow;
    var events, last, first := NewEvents(s, model, ws), Run(s, model, ws).domain.links, ContextOf(s.domain.links, k);
    var row := FirstRow(events, k);
    if row.Some? && row.value.beforeExists && first.Some? {
      var c := Some(OtherText(first.value, row.value.context));
      assert MayHaveBeen(events, last, k, c) && c != first;
    }
  }

  // ---------------------------------------------------------------- earlier states, from the log alone

  /** The log goes back to empty tables. */
  predicate LogIsComplete(s: Store) {
    ReplayEvents(map[], s.events) == Snapshots(s.domain.memories) && ReplayLinkEvents(map[], s.events) == s.domain.links
  }

  lemma {:induction false} ReplayOn(m: map<Id, Snapshot>, links: map<LinkKey, string>, a: seq<Event>, b: seq<Event>)
    ensures ReplayEvents(m, a + b) == ReplayEvents(ReplayEvents(m, a), b)
    ensures ReplayLinkEvents(links, a + b) == ReplayLinkEvents(ReplayLinkEvents(links, a), b)
    decreases a
  {
    if a == [] {
      assert a + b == b;
    } else {
      assert (a + b)[1..] == a[1..] + b && (a + b)[0] == a[0];
      ReplayOn(ReplayRecords(m, a[0].records), ReplayLinks(links, a[0].links), a[1..], b);
    }
  }

  lemma LogStaysComplete(s: Store, model: string, ws: seq<Write>)
    requires SourcesLive(s.domain) && LogIsComplete(s)
    ensures LogIsComplete(Run(s, model, ws))
  {
    LogGrows(s, model, ws);
    RecordHistoryReplays(s, model, ws);
    LinkHistoryReplays(s, model, ws);
    hide Run, NewEvents, ReplayEvents, ReplayLinkEvents, Snapshots;
    ReplayOn(map[], map[], s.events, NewEvents(s, model, ws));
  }

  /**
   * Time travel. If the log goes back to empty tables, then replaying the part of it that a state had
   * gives that state's records and its links with their contexts, from any later state's log.
   */
  lemma EarlierStatesReplay(s: Store, model: string, ws: seq<Write>, later: seq<Write>)
    requires SourcesLive(s.domain) && LogIsComplete(s)
    ensures var state, log := Run(s, model, ws), Run(s, model, ws + later).events;
            && |state.events| <= |log|
            && ReplayEvents(map[], log[..|state.events|]) == Snapshots(state.domain.memories)
            && ReplayLinkEvents(map[], log[..|state.events|]) == state.domain.links
  {
    LogStaysComplete(s, model, ws);
    RunSplit(s, model, ws, later);
    LiveThroughout(s, model, ws);
    LogGrows(Run(s, model, ws), model, later);
    hide Run, NewEvents, ReplayEvents, ReplayLinkEvents, Snapshots;
    var state := Run(s, model, ws);
    assert Run(s, model, ws + later).events[..|state.events|] == state.events;
  }

  /** A record that no event of the run revises keeps its snapshot. */
  lemma {:induction false} UnrevisedIsUnchanged(s: Store, model: string, ws: seq<Write>, id: Id)
    requires SourcesLive(s.domain)
    requires forall e | e in NewEvents(s, model, ws) :: id !in e.records
    ensures Snap(Run(s, model, ws).domain.memories, id) == Snap(s.domain.memories, id)
  {
    RecordHistoryReplays(s, model, ws);
    ReplaySkips(Snapshots(s.domain.memories), NewEvents(s, model, ws), id);
    hide Run, NewEvents, SnapshotOf;
    assert SnapIn(Snapshots(s.domain.memories), id) == Snap(s.domain.memories, id);
    assert SnapIn(Snapshots(Run(s, model, ws).domain.memories), id) == Snap(Run(s, model, ws).domain.memories, id);
  }

  lemma {:induction false} ReplaySkips(m: map<Id, Snapshot>, events: seq<Event>, id: Id)
    requires forall e | e in events :: id !in e.records
    ensures SnapIn(ReplayEvents(m, events), id) == SnapIn(m, id)
    decreases events
  {
    if events != [] {
      assert id !in events[0].records;
      ReplaySkips(ReplayRecords(m, events[0].records), events[1..], id);
    }
  }

  /** The store between the two actions of the lemmas below. */
  function Between(s: Store, model: string, first: Request, mid: seq<Write>): Store
    requires WellFormed(first)
  {
    Run(After(s, model, first), model, mid)
  }

  /**
   * Successive revisions of one record chain, with anything that does not revise it in between: the
   * later before-token is the earlier after-token exactly unless the later commit hid the record.
   */
  lemma RevisionsChainIff(s: Store, model: string, first: Request, mid: seq<Write>, second: Request, id: Id)
    requires SourcesLive(s.domain) && Commits(s, model, first) && Commits(Between(s, model, first, mid), model, second)
    requires forall e | e in NewEvents(After(s, model, first), model, mid) :: id !in e.records
    requires var m := Between(s, model, first, mid);
             id in EventOf(s, first, TxnOf(s, first)).records && id in EventOf(m, second, TxnOf(m, second)).records
    ensures var m := Between(s, model, first, mid);
            EventOf(m, second, TxnOf(m, second)).records[id].beforeToken
            == EventOf(s, first, TxnOf(s, first)).records[id].afterToken
            <==> !Hidden(m, second, id)
  {
    CommitShape(s, model, first);
    var after, m := After(s, model, first), Between(s, model, first, mid);
    LiveThroughout(after, model, mid);
    hide Commits, Body, After, EventOf, Run, NewEvents, Framed, RunCallback;
    UnrevisedIsUnchanged(after, model, mid, id);
    BeforeIff(s, model, first, id);
    BeforeIff(m, model, second, id);
  }

  lemma {:induction false} LiveThroughout(s: Store, model: string, ws: seq<Write>)
    requires SourcesLive(s.domain)
    ensures SourcesLive(Run(s, model, ws).domain)
    decreases ws
  {
    if ws != [] {
      NextShape(s, model, ws[0]);
      LiveThroughout(Next(s, model, ws[0]), model, ws[1..]);
    }
  }

  // ---------------------------------------------------------------- no lost update

  /** A replayed record that ends in another state than it began in was put there by some event. */
  lemma {:induction false} ReplayPutsIt(m: map<Id, Snapshot>, events: seq<Event>, id: Id) returns (e: Event)
    requires SnapIn(ReplayEvents(m, events), id) != SnapIn(m, id)
    ensures e in events && id in e.records && e.records[id].after == SnapIn(ReplayEvents(m, events), id)
    decreases events
  {
    var next, rest := ReplayRecords(m, events[0].records), events[1..];
    if SnapIn(ReplayEvents(next, rest), id) != SnapIn(next, id) {
      e := ReplayPutsIt(next, rest, id);
    } else {
      e := events[0];
    }
  }

  /** An event of the run leaves the record in the state that this token identifies. */
  ghost predicate Restores(events: seq<Event>, id: Id, t: Token) {
    exists e | e in events :: id in e.records && TokenOf(e.records[id].after) == Some(t)
  }

  /**
   * No lost update. On a store where a record is off the token `t`, no action that expects `t` of it
   * commits later, unless an event in between put the record back into the state of that token.
   */
  lemma NoLostUpdate(s: Store, model: string, mid: seq<Write>, second: Request, id: Id, t: Token)
    requires SourcesLive(s.domain) && TokenOf(Snap(s.domain.memories, id)) != Some(t)
    requires id in second.TargetSet() && Expected(TokenMap(second.tokens), id) == Some(t)
    requires Commits(Run(s, model, mid), model, second)
    ensures Restores(NewEvents(s, model, mid), id, t)
  {
    var last := Run(s, model, mid);
    CommitMeansFresh(last, model, second);
    RecordHistoryReplays(s, model, mid);
    hide Run, NewEvents, SnapshotOf, Commits;
    assert SnapIn(Snapshots(s.domain.memories), id) == Snap(s.domain.memories, id);
    assert SnapIn(Snapshots(last.domain.memories), id) == Snap(last.domain.memories, id);
    var e := ReplayPutsIt(Snapshots(s.domain.memories), NewEvents(s, model, mid), id);
  }

  lemma {:induction false} ReplayPutsLink(links: map<LinkKey, string>, events: seq<Event>, k: LinkKey) returns (e: Event)
    requires ContextOf(ReplayLinkEvents(links, events), k) != ContextOf(links, k)
    ensures e in events && k in e.links && e.links[k].context == ContextOf(ReplayLinkEvents(links, events), k)
    decreases events
  {
    var next, rest := ReplayLinks(links, events[0].links), events[1..];
    if ContextOf(ReplayLinkEvents(next, rest), k) != ContextOf(next, k) {
      e := ReplayPutsLink(next, rest, k);
    } else {
      e := events[0];
    }
  }

  /** The link token of a key, given the link's context or its absence. */
  function LinkTokenFrom(k: LinkKey, context: Option<string>): Token {
    LinkToken(Ident(k.source), Ident(k.target), Ident(k.kind),
              if context.Some? then Some(Norm(context.value)) else None, context.Some?)
  }

  function StoredLink(k: LinkKey): LinkKey { LinkKey(k.source, k.target, LinkTypeForm(k.kind)) }

  ghost predicate RestoresLink(events: seq<Event>, k: LinkKey, t: Token) {
    exists e | e in events :: StoredLink(k) in e.links && LinkTokenFrom(k, e.links[StoredLink(k)].context) == t
  }

  /** The same for a link guarded by its token. */
  lemma NoLostLinkUpdate(s: Store, model: string, mid: seq<Write>, second: Request, key: string, k: LinkKey)
    requires SourcesLive(s.domain) && LinkTokenKey(key) == Some(k) && key in TokenMap(second.tokens)
    requires LinkTokenFrom(k, ContextOf(s.domain.links, StoredLink(k))) != TokenMap(second.tokens)[key]
    requires Commits(Run(s, model, mid), model, second)
    ensures RestoresLink(NewEvents(s, model, mid), k, TokenMap(second.tokens)[key])
  {
    var last := Run(s, model, mid);
    CommitMeansFresh(last, model, second);
    LinkHistoryReplays(s, model, mid);
    hide Run, NewEvents, Commits, LinkTokenKey;
    assert KeyFailure(last.domain, TokenMap(second.tokens), key).None?;
    assert LinkTokenFrom(k, ContextOf(last.domain.links, StoredLink(k))) == TokenMap(second.tokens)[key];
    var e := ReplayPutsLink(s.domain.links, NewEvents(s, model, mid), StoredLink(k));
  }

  /**
   * Which links a token protects in this way: exactly those whose source, target and type are free of
   * colons and not empty. A token for any other link, such as one to an external id, is accepted
   * whatever the link has become.
   */
  lemma NoLostLinkUpdateIff(s: Store, model: string, mid: seq<Write>, second: Request, k: LinkKey)
    requires SourcesLive(s.domain) && Commits(Run(s, model, mid), model, second)
    requires Canonical(LinkKeyText(k)) == LinkKeyText(k) && LinkKeyText(k) !in second.TargetSet()
    ensures (forall t | t != Text("") && t != LinkTokenFrom(k, ContextOf(s.domain.links, StoredLink(k)))
                        && Commits(Run(s, model, mid), model, WithToken(second, LinkKeyText(k), t)) ::
                  RestoresLink(NewEvents(s, model, mid), k, t))
            <==> PlainPart(k.source) && PlainPart(k.target) && PlainPart(k.kind)
  {
    var key, last := LinkKeyText(k), Run(s, model, mid);
    LinkKeyRoundTripsIff(k);
    hide Commits, Run, NewEvents, RestoresLink, LinkTokenKey, PlainPart;
    if PlainPart(k.source) && PlainPart(k.target) && PlainPart(k.kind) {
      forall t | t != Text("") && t != LinkTokenFrom(k, ContextOf(s.domain.links, StoredLink(k)))
                 && Commits(last, model, WithToken(second, key, t))
        ensures RestoresLink(NewEvents(s, model, mid), k, t)
      {
        OneMoreToken(second.tokens, key, t);
        NoLostLinkUpdate(s, model, mid, WithToken(second, key, t), key, k);
      }
    } else {
      NotAGuard(second, key, k);
      CommitIgnoresTokenIff(last, model, second, key);
      NoPlainTextIsRestored(NewEvents(s, model, mid), k);
      assert Commits(last, model, WithToken(second, key, Text("no token")));
    }
  }

  lemma NotAGuard(r: Request, key: string, k: LinkKey)
    requires key == LinkKeyText(k) && key !in r.TargetSet()
    ensures !Guards(r.TargetSet(), TokenMap(r.tokens), key)
  {
    hide TokenMap;
    assert key[0] == 'l';
    assert forall id: Id :: ("record:" + id)[0] == 'r' && ("graph:" + id)[0] == 'g';
  }

  lemma NoPlainTextIsRestored(events: seq<Event>, k: LinkKey)
    ensures !RestoresLink(events, k, Text("no token"))
  {}

  /** The event at `n` turned the graph of `id` into the one of this token, by revising a link of it. */
  ghost predicate TurnsGraph(links: map<LinkKey, string>, events: seq<Event>, id: Id, t: Token, n: nat) {
    && n < |events|
    && GraphTokenOf(id, ReplayLinkEvents(links, events[..n])) != t
    && GraphTokenOf(id, ReplayLinkEvents(links, events[..n + 1])) == t
    && exists k | k in events[n].links :: IncidentTo(k, {id})
  }

  ghost predicate RestoresGraph(links: map<LinkKey, string>, events: seq<Event>, id: Id, t: Token) {
    exists n :: TurnsGraph(links, events, id, t, n)
  }

  lemma {:induction false} ReplaySnoc(links: map<LinkKey, string>, events: seq<Event>, e: Event)
    ensures ReplayLinkEvents(links, events + [e]) == ReplayLinks(ReplayLinkEvents(links, events), e.links)
    decreases events
  {
    if events == [] {
      assert [] + [e] == [e] && [e][1..] == [];
    } else {
      assert (events + [e])[1..] == events[1..] + [e];
      ReplaySnoc(ReplayLinks(links, events[0].links), events[1..], e);
    }
  }

  lemma GraphMovesByItsLinks(links: map<LinkKey, string>, revisions: map<LinkKey, LinkRevision>, id: Id)
    requires forall k | k in revisions :: !IncidentTo(k, {id})
    ensures GraphTokenOf(id, ReplayLinks(links, revisions)) == GraphTokenOf(id, links)
  {
    hide EdgeOf;
    var after := ReplayLinks(links, revisions);
    forall k: LinkKey | IncidentTo(k, {id})
      ensures (k in after <==> k in links) && (k in links ==> after[k] == links[k])
    {}
    var was := set k | k in links && (k.source == id || k.target == id) :: EdgeOf(k, links[k]);
    var now := set k | k in after && (k.source == id || k.target == id) :: EdgeOf(k, after[k]);
    forall e ensures e in was <==> e in now {
      if e in was {
        var k :| k in links && (k.source == id || k.target == id) && EdgeOf(k, links[k]) == e;
        assert IncidentTo(k, {id});
      }
      if e in now {
        var k :| k in after && (k.source == id || k.target == id) && EdgeOf(k, after[k]) == e;
        assert IncidentTo(k, {id});
      }
    }
    assert was == now;
  }

  lemma {:induction false} GraphReturns(links: map<LinkKey, string>, events: seq<Event>, id: Id, t: Token, n: nat)
    requires n <= |events| && GraphTokenOf(id, links) != t
    requires GraphTokenOf(id, ReplayLinkEvents(links, events[..n])) == t
    ensures RestoresGraph(links, events, id, t)
    decreases n
  {
    hide GraphTokenOf;
    assert events[..0] == [];
    if GraphTokenOf(id, ReplayLinkEvents(links, events[..n - 1])) == t {
      GraphReturns(links, events, id, t, n - 1);
    } else {
      assert events[..n] == events[..n - 1] + [events[n - 1]];
      ReplaySnoc(links, events[..n - 1], events[n - 1]);
      hide ReplayLinkEvents, ReplayLinks;
      if forall k | k in events[n - 1].links :: !IncidentTo(k, {id}) {
        GraphMovesByItsLinks(ReplayLinkEvents(links, events[..n - 1]), events[n - 1].links, id);
      }
      assert events[..n - 1 + 1] == events[..n];
      assert TurnsGraph(links, events, id, t, n - 1);
    }
  }

  /** The same for the graph around a target. */
  lemma NoLostGraphUpdate(s: Store, model: string, mid: seq<Write>, second: Request, id: Id)
    requires SourcesLive(s.domain) && id in second.TargetSet() && "graph:" + id in TokenMap(second.tokens)
    requires GraphTokenOf(id, s.domain.links) != TokenMap(second.tokens)["graph:" + id]
    requires Commits(Run(s, model, mid), model, second)
    ensures RestoresGraph(s.domain.links, NewEvents(s, model, mid), id, TokenMap(second.tokens)["graph:" + id])
  {
    CommitMeansFresh(Run(s, model, mid), model, second);
    LinkHistoryReplays(s, model, mid);
    hide Run, NewEvents, Commits, GraphTokenOf;
    var events := NewEvents(s, model, mid);
    assert events[..|events|] == events;
    GraphReturns(s.domain.links, events, id, TokenMap(second.tokens)["graph:" + id], |events|);
  }

  // ---------------------------------------------------------------- terminal runs are closed

  /**
   * From the moment a run is terminal, under any interleaving of writers that expect live states,
   * its row never changes and no action other than a restore commits under it.
   */
  lemma {:induction false} TerminalIsClosed(s: Store, model: string, ws: seq<Write>, run: string)
    requires SourcesLive(s.domain) && run in s.runs && s.runs[run].state.Terminal?
    requires forall w | w in ws && w.Book? :: L.ExpectsLive(w.update)
    ensures run in Run(s, model, ws).runs && Run(s, model, ws).runs[run] == s.runs[run]
    ensures forall r | r in Committed(s, model, ws) && r.run == run :: r.restores.Some?
    decreases ws
  {
    if ws != [] {
      var w, next := ws[0], Next(s, model, ws[0]);
      if w.Book? { assert L.ExpectsLive(w.update); }
      TerminalStep(s, model, w, run);
      RunUnfold(s, model, ws);
      hide Next, Commits, Run, Committed, SourcesLive;
      TerminalIsClosed(next, model, ws[1..], run);
    }
  }

  lemma TerminalStep(s: Store, model: string, w: Write, run: string)
    requires SourcesLive(s.domain) && run in s.runs && s.runs[run].state.Terminal?
    requires w.Book? ==> L.ExpectsLive(w.update)
    ensures var next := Next(s, model, w);
            && SourcesLive(next.domain) && run in next.runs && next.runs[run] == s.runs[run]
            && (w.Act? && Commits(s, model, w.request) && w.request.run == run ==> w.request.restores.Some?)
  {
    NextShape(s, model, w);
    hide Body;
    if w.Act? && Commits(s, model, w.request) {
      CommitShape(s, model, w.request);
      NotUnderTerminal(s, model, w.request);
    }
    hide After, Commits, Framed, EventOf, QueueOf;
  }

  lemma NotUnderTerminal(s: Store, model: string, r: Request)
    requires Commits(s, model, r)
    ensures r.run in s.runs && s.runs[r.run].state.Terminal? ==> r.restores.Some?
  {
    hide TokenFailure, PreconditionFailure, Mutate, Settle;
  }

  // ---------------------------------------------------------------- repair coverage over runs

  /**
   * As long as nothing is pruned, the queue keeps a row for the version every commit left of every
   * record it created, changed semantically or hid.
   */
  lemma {:induction false} CoveragePersists(s: Store, model: string, r: Request, rest: seq<Write>, id: Id)
    requires SourcesLive(s.domain) && RepairQueue.Inv(s.queue) && Commits(s, model, r)
    requires var after := After(s, model, r);
             && LegalWork(after, model, rest) && id in after.domain.memories
             && Queues(s, r, id)
    requires forall w | w in rest && w.Work? :: !w.step.Prune?
    ensures RepairQueue.HasVersion(Run(After(s, model, r), model, rest).queue,
                                   RepairVersion(id, After(s, model, r).domain.memories[id], model))
  {
    RepairCoverage(s, model, r);
    CommitShape(s, model, r);
    hide Commits, Body, After, Framed, EventOf, QueueOf, SnapshotOf;
    VersionStays(After(s, model, r), model, rest, RepairVersion(id, After(s, model, r).domain.memories[id], model));
  }

  lemma {:induction false} VersionStays(s: Store, model: string, ws: seq<Write>, v: RepairQueue.Version)
    requires SourcesLive(s.domain) && RepairQueue.Inv(s.queue) && RepairQueue.HasVersion(s.queue, v)
    requires LegalWork(s, model, ws) && forall w | w in ws && w.Work? :: !w.step.Prune?
    ensures RepairQueue.HasVersion(Run(s, model, ws).queue, v)
    decreases ws
  {
    if ws != [] {
      var w, next := ws[0], Next(s, model, ws[0]);
      NextShape(s, model, w);
      match w {
        case Act(r) =>
          if Commits(s, model, r) {
            RepairCoverage(s, model, r);
            var i :| i in s.queue.items && s.queue.items[i].version == v;
            assert i in next.queue.items && next.queue.items[i].version == v;
          }
        case Book(u) =>
        case Work(step) =>
          assert !step.Prune?;
          RepairQueue.StepKeepsInv(s.queue, step);
          RepairQueue.VersionPersists(s.queue, [step], v);
          assert RepairQueue.Run(s.queue, [step]) == RepairQueue.Next(s.queue, step);
      }
      VersionStays(next, model, ws[1..], v);
    }
  }

  /** A worker completed one of these items. */
  ghost predicate CompletedAmong(ws: seq<Write>, i: nat) {
    exists w | w in ws :: w.Work? && w.step.Complete? && w.step.id == i
  }

  lemma WaitStep(s: Store, model: string, w: Write, i: nat)
    requires SourcesLive(s.domain) && RepairQueue.Inv(s.queue) && (w.Work? ==> RepairQueue.Legal(s.queue, w.step))
    requires RepairQueue.Unfinished(s.queue, i)
    ensures SourcesLive(Next(s, model, w).domain) && RepairQueue.Inv(Next(s, model, w).queue)
    ensures (w.Work? && w.step.Complete? && w.step.id == i)
            || (RepairQueue.Unfinished(Next(s, model, w).queue, i)
                && Next(s, model, w).queue.items[i].version == s.queue.items[i].version)
  {
    NextShape(s, model, w);
    match w
    case Act(r) =>
      hide RepairQueue.Inv, Commits, Body, After, Queues;
      if Commits(s, model, r) { RepairCoverage(s, model, r); }
    case Book(u) =>
    case Work(step) =>
      hide RepairQueue.Inv, RepairQueue.Next, RepairQueue.Legal;
      RepairQueue.StepKeepsInv(s.queue, step);
      RepairQueue.OnlyCompletionEnds(s.queue, step, i);
  }

  lemma {:induction false} WaitsUntilCompleted(s: Store, model: string, ws: seq<Write>, i: nat)
    requires SourcesLive(s.domain) && RepairQueue.Inv(s.queue) && LegalWork(s, model, ws)
    requires RepairQueue.Unfinished(s.queue, i)
    ensures CompletedAmong(ws, i)
            || (RepairQueue.Unfinished(Run(s, model, ws).queue, i)
                && Run(s, model, ws).queue.items[i].version == s.queue.items[i].version)
    decreases ws
  {
    if ws != [] {
      var w, next := ws[0], Next(s, model, ws[0]);
      WaitStep(s, model, w, i);
      assert w in ws && forall x | x in ws[1..] :: x in ws;
      hide Next, RepairQueue.Unfinished, RepairQueue.Inv;
      if !(w.Work? && w.step.Complete? && w.step.id == i) { WaitsUntilCompleted(next, model, ws[1..], i); }
    }
  }

  /**
   * What an action queued is not lost: unless its version had been embedded before, it waits to be
   * embedded until a worker completes it, whatever is claimed, released or pruned meanwhile.
   */
  lemma RepairIsNotLost(s: Store, model: string, r: Request, rest: seq<Write>, id: Id)
    requires SourcesLive(s.domain) && RepairQueue.Inv(s.queue) && Commits(s, model, r)
    requires LegalWork(After(s, model, r), model, rest)
    requires id in After(s, model, r).domain.memories && Queues(s, r, id)
    requires var v := RepairVersion(id, After(s, model, r).domain.memories[id], model);
             RepairQueue.HasVersion(s.queue, v) ==> RepairQueue.Waits(s.queue, v)
    ensures var after := After(s, model, r);
            var v := RepairVersion(id, after.domain.memories[id], model);
            || RepairQueue.Waits(Run(after, model, rest).queue, v)
            || exists i | i in after.queue.items :: after.queue.items[i].version == v && CompletedAmong(rest, i)
  {
    RepairCoverage(s, model, r);
    CommitShape(s, model, r);
    RepairWaitsIff(s, model, r, id);
    hide Commits, Body, Framed, EventOf, QueueOf, Queues, RepairQueue.Inv, QueueExtends, LegalWork, Run, RepairVersion, SourcesLive, After;
    var v, q := RepairVersion(id, After(s, model, r).domain.memories[id], model), After(s, model, r).queue;
    var i :| i in q.items && q.items[i].version == v && RepairQueue.Unfinished(q, i);
    WaitsUntilCompleted(After(s, model, r), model, rest, i);
    if !CompletedAmong(rest, i) { assert RepairQueue.Unfinished(Run(After(s, model, r), model, rest).queue, i); }
  }
}
