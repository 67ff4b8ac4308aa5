/** The transaction object and the action store, proved against `CurationSurface` and `CurationAction`. */
module CurationActionStore {
  import opened Basics
  import opened CurationModel
  import opened CurationUow
  import opened CurationSurface
  import opened CurationAction
  import RepairQueue
  import TextOrder

  class SQLiteCurationTransaction {
    const targets: set<Id>
    var memories: map<Id, Memory>
    var links: map<LinkKey, string>
    var fts: map<Id, seq<FtsRow>>
    var touchedIds: seq<Id>
    var newIds: set<Id>

    function View(): Txn
      reads this
    {
      Txn(Domain(memories, links, fts), touchedIds, newIds)
    }

    constructor (d: Domain, targets: set<Id>)
      ensures View() == Txn(d, [], {}) && this.targets == targets
    {
      this.targets := targets;
      memories, links, fts, touchedIds, newIds := d.memories, d.links, d.fts, [], {};
    }

    method RequireAccess(id: Id) returns (ok: bool)
      ensures ok <==> Accessible(View(), targets, id)
    {
      if id !in targets && id !in newIds {
        if id in memories { return false; }
      }
      return true;
    }

    method RequireEndpoint(id: Id) returns (ok: bool)
      ensures ok <==> EndpointAllowed(View(), targets, id)
    {
      if IsExternal(id) { return true; }
      return id in targets || id in newIds;
    }

    method ReplaceFts(id: Id, m: Memory)
      modifies this`fts
      ensures fts == old(fts)[id := [Projection(m)]]
    {
      hide Projection;
      fts := fts - {id};
      fts := fts[id := [Projection(m)]];
    }

    method UpdateMemory(rawId: string, changes: Changes, now: string, hook: Hook) returns (raised: Option<Raise>)
      modifies this
      ensures Step(View(), raised) == RunUpdate(old(View()), targets, rawId, changes, now, hook)
    {
      hide PrepareUpdate;
      var id := Canonical(rawId);
      var ok := RequireAccess(id);
      if !ok { return Some(Fatal); }
      if id !in memories { return Some(Stale); }
      var prepared := PrepareUpdate(memories[id], changes, now);
      if prepared.Failure? { return Some(BadValue); }
      memories := memories[id := prepared.value];
      touchedIds := touchedIds + [id];
      if hook.AtDomain? { return Some(Injected); }
      ReplaceFts(id, prepared.value);
      if hook.AtProjection? { return Some(Injected); }
      return None;
    }

    method CreateMemory(values: Values, now: string, hook: Hook) returns (raised: Option<Raise>)
      modifies this
      ensures Step(View(), raised) == RunCreate(old(View()), values, now, hook)
    {
      hide PrepareCreate;
      var id := Canonical(values.memoryId);
      var prepared := PrepareCreate(values, NextRef(memories), now);
      if prepared.Failure? { return Some(BadValue); }
      if id in memories { return Some(Fatal); }
      memories := memories[id := prepared.value];
      touchedIds := touchedIds + [id];
      newIds := newIds + {id};
      if hook.AtDomain? { return Some(Injected); }
      ReplaceFts(id, prepared.value);
      if hook.AtProjection? { return Some(Injected); }
      return None;
    }

    method DeleteMemory(rawId: string, hook: Hook) returns (raised: Option<Raise>)
      modifies this
      ensures Step(View(), raised) == RunOp(old(View()), targets, Delete(rawId), hook)
    {
      var id := Canonical(rawId);
      var ok := RequireAccess(id);
      if !ok { return Some(Fatal); }
      if id !in memories { return Some(Stale); }
      fts := fts - {id};
      memories := memories - {id};
      links := map k | k in links && k.source != id :: links[k];
      touchedIds := touchedIds + [id];
      return if hook.AtDomain? then Some(Injected) else None;
    }

    method AddLink(rawSource: string, rawTarget: string, rawKind: string, context: string, hook: Hook)
      returns (raised: Option<Raise>)
      modifies this
      ensures Step(View(), raised) == RunOp(old(View()), targets, Op.AddLink(rawSource, rawTarget, rawKind, context), hook)
    {
      var source, target := Canonical(rawSource), Canonical(rawTarget);
      var ok := RequireAccess(source);
      if !ok { return Some(Fatal); }
      ok := RequireEndpoint(target);
      if !ok { return Some(Fatal); }
      var kind := LinkTypeForm(rawKind);
      if kind == "" { return Some(BadValue); }
      if source !in memories { return Some(Integrity); }
      links := links[LinkKey(source, target, kind) := Strip(context)];
      touchedIds := touchedIds + [source, target];
      return if hook.AtDomain? then Some(Injected) else None;
    }

    method RemoveLink(rawSource: string, rawTarget: string, rawKind: string, hook: Hook) returns (raised: Option<Raise>)
      modifies this
      ensures Step(View(), raised) == RunOp(old(View()), targets, Op.RemoveLink(rawSource, rawTarget, rawKind), hook)
    {
      var source, target := Canonical(rawSource), Canonical(rawTarget);
      var ok := RequireAccess(source);
      if !ok { return Some(Fatal); }
      ok := RequireEndpoint(target);
      if !ok { return Some(Fatal); }
      var kind := LinkTypeForm(rawKind);
      if kind == "" { return Some(BadValue); }
      links := links - {LinkKey(source, target, kind)};
      touchedIds := touchedIds + [source, target];
      return if hook.AtDomain? then Some(Injected) else None;
    }

    method SetLineage(rawId: string, lineage: string, now: string, hook: Hook) returns (raised: Option<Raise>)
      modifies this
      ensures Step(View(), raised) == RunOp(old(View()), targets, Op.SetLineage(rawId, lineage, now), hook)
    {
      hide RunUpdate, PrepareUpdate;
      var id := Canonical(rawId);
      var ok := RequireAccess(id);
      if !ok { return Some(Fatal); }
      if id !in memories { return Some(Stale); }
      var metadata := memories[id].metadata["lineage" := lineage];
      raised := UpdateMemory(rawId, NO_CHANGES.(metadata := Given(metadata)), now, hook);
    }

    method Perform(op: Op, hook: Hook) returns (raised: Option<Raise>)
      modifies this
      ensures Step(View(), raised) == RunOp(old(View()), targets, op, hook)
    {
      hide RunUpdate, RunCreate, PrepareUpdate, PrepareCreate, WithoutMemory;
      match op
      case Read(rawId, kind) =>
        var ok := RequireAccess(Canonical(rawId));
        if !ok { return Some(Fatal); }
        return if kind.Some? && LinkTypeForm(kind.value) == "" then Some(BadValue) else None;
      case Update(rawId, changes, now) => raised := UpdateMemory(rawId, changes, now, hook);
      case Create(values, now) => raised := CreateMemory(values, now, hook);
      case Delete(rawId) => raised := DeleteMemory(rawId, hook);
      case AddLink(source, target, kind, context) => raised := AddLink(source, target, kind, context, hook);
      case RemoveLink(source, target, kind) => raised := RemoveLink(source, target, kind, hook);
      case SetLineage(rawId, lineage, now) => raised := SetLineage(rawId, lineage, now, hook);
    }

    /** The callback's calls, until one raises and the callback does not swallow it. */
    method PerformAll(calls: seq<Call>) returns (raised: Option<Raise>)
      modifies this
      ensures Step(View(), raised) == RunCalls(old(View()), targets, calls)
    {
      hide RunOp;
      raised := None;
      var i := 0;
      while i < |calls|
        invariant 0 <= i <= |calls|
        invariant RunCalls(old(View()), targets, calls[..i]) == Step(View(), None)
      {
        RunCallsSnoc(old(View()), targets, calls[..i], calls[i]);
        assert calls[..i + 1] == calls[..i] + [calls[i]];
        var r := Perform(calls[i].op, calls[i].hook);
        if r.Some? && !calls[i].swallow {
          RunCallsPrefix(old(View()), targets, calls, i + 1);
          return r;
        }
        i := i + 1;
      }
      assert calls[..i] == calls;
    }
  }

  lemma {:induction false} RunCallsPrefix(t: Txn, targets: set<Id>, calls: seq<Call>, n: nat)
    requires n <= |calls| && RunCalls(t, targets, calls[..n]).raised.Some?
    ensures RunCalls(t, targets, calls) == RunCalls(t, targets, calls[..n])
    decreases calls
  {
    if n > 0 {
      hide RunOp;
      var s := RunOp(t, targets, calls[0].op, calls[0].hook);
      assert calls[..n][0] == calls[0] && calls[..n][1..] == calls[1..][..n - 1];
      if !(s.raised.Some? && !calls[0].swallow) { RunCallsPrefix(s.txn, targets, calls[1..], n - 1); }
    }
  }

  // ---------------------------------------------------------------- the guards, as loops

  method NormalizeTokens(tokens: seq<(string, Token)>) returns (normalized: map<string, Token>, keys: seq<string>)
    ensures normalized == TokenMap(tokens) && keys == TokenKeys(tokens)
  {
    normalized, keys := map[], [];
    for i := 0 to |tokens|
      invariant normalized == TokenMap(tokens[..i]) && keys == TokenKeys(tokens[..i])
    {
      assert tokens[..i + 1][..i] == tokens[..i];
      var k := Canonical(tokens[i].0);
      if k !in keys { keys := keys + [k]; }
      normalized := normalized[k := tokens[i].1];
    }
    assert tokens[..|tokens|] == tokens;
  }

  method CheckTokens(d: Domain, targetIds: seq<Id>, ghost targets: set<Id>, ghost supplied: seq<(string, Token)>,
                     tokens: map<string, Token>, keys: seq<string>)
    returns (failure: Option<Raise>)
    requires forall id :: id in targetIds <==> id in targets
    requires tokens == TokenMap(supplied) && keys == TokenKeys(supplied)
    ensures failure == TokenFailure(d, targets, supplied)
  {
    TokenKeysAreKeys(supplied);
    for i := 0 to |targetIds|
      invariant forall j | 0 <= j < i :: !TargetStale(d, tokens, targetIds[j])
    {
      if TargetStale(d, tokens, targetIds[i]) {
        assert targetIds[i] in targets;
        return Some(Stale);
      }
    }
    for i := 0 to |keys|
      invariant KeysFailure(d, tokens, keys) == KeysFailure(d, tokens, keys[i..])
    {
      assert keys[i] in tokens;
      var one := KeyFailure(d, tokens, keys[i]);
      if one.Some? { return one; }
    }
    return None;
  }

  method CheckPreconditions(d: Domain, targets: set<Id>, p: Option<Preconditions>) returns (failure: Option<Raise>)
    ensures failure == PreconditionFailure(d, targets, p)
  {
    if p.None? { return None; }
    var statuses := p.value.statuses;
    for i := 0 to |statuses|
      invariant StatusFailure(d, targets, statuses) == StatusFailure(d, targets, statuses[i..])
    {
      var id := Canonical(statuses[i].0);
      if id !in targets { return Some(Fatal); }
      if id !in d.memories || d.memories[id].status != statuses[i].1 { return Some(Stale); }
    }
    failure := CheckAssertions(d, targets, p.value.requiredLinks, true);
    if failure.None? { failure := CheckAssertions(d, targets, p.value.absentLinks, false); }
  }

  method CheckAssertions(d: Domain, targets: set<Id>, all: seq<LinkAssertion>, shouldExist: bool)
    returns (failure: Option<Raise>)
    ensures failure == AssertionsFailure(d, targets, all, shouldExist)
  {
    for i := 0 to |all|
      invariant AssertionsFailure(d, targets, all, shouldExist) == AssertionsFailure(d, targets, all[i..], shouldExist)
    {
      failure := AssertionFailure(d, targets, all[i], shouldExist);
      if failure.Some? { return; }
    }
    return None;
  }

  method LockTargets(d: Domain, targetIds: seq<Id>) returns (locked: bool)
    ensures locked <==> forall id | id in targetIds :: IsExternal(id) || id in d.memories
  {
    for i := 0 to |targetIds|
      invariant forall j | 0 <= j < i :: IsExternal(targetIds[j]) || targetIds[j] in d.memories
    {
      if !IsExternal(targetIds[i]) && targetIds[i] !in d.memories { return false; }
    }
    return true;
  }

  // ---------------------------------------------------------------- derived rows, as loops

  method WriteRepairIntents(q: RepairQueue.Queue, before: map<Id, Memory>, after: map<Id, Memory>, model: string, now: real)
    returns (r: RepairQueue.Queue)
    ensures r == Intents(q, TextOrder.Sorted(after.Keys), before, after, model, now)
  {
    hide SnapshotOf, Intents, FirstWorkspace;
    var ids := TextOrder.Sorted(after.Keys);
    r := q;
    IntentsNone(q, before, after, model, now);
    assert ids[..0] == [];
    for i := 0 to |ids|
      invariant r == Intents(q, ids[..i], before, after, model, now)
    {
      IntentsSnoc(q, ids, i, before, after, model, now);
      var id := ids[i];
      assert id in ids;
      if id in before && SnapshotOf(id, before[id]) == SnapshotOf(id, after[id]) {
        continue;
      }
      var version := RepairVersion(id, after[id], model);
      if !RepairQueue.HasVersion(r, version) {
        r := RepairQueue.Queue(
          r.items[r.nextId := RepairQueue.FreshItem(version, FirstWorkspace(after[id]), now, now)], r.nextId + 1);
      }
    }
    assert ids[..|ids|] == ids;
  }

  lemma IntentsNone(q: RepairQueue.Queue, before: map<Id, Memory>, after: map<Id, Memory>, model: string, now: real)
    ensures Intents(q, [], before, after, model, now) == q
  {}

  lemma IntentsSnoc(q: RepairQueue.Queue, ids: seq<Id>, i: nat, before: map<Id, Memory>, after: map<Id, Memory>,
                    model: string, now: real)
    requires i < |ids|
    ensures Intents(q, ids[..i + 1], before, after, model, now)
            == IntentStep(Intents(q, ids[..i], before, after, model, now), ids[i], before, after, model, now)
  {
    hide IntentStep;
    assert ids[..i + 1][..i] == ids[..i];
  }

  lemma RevisedIff(before: map<Id, Memory>, after: map<Id, Memory>, id: Id)
    requires id in before || id in after
    ensures Snap(before, id) == Snap(after, id)
            <==> id in before && id in after && SnapshotOf(id, before[id]) == SnapshotOf(id, after[id])
  {
    hide SnapshotOf;
  }

  /** The rows of these records: one for each whose snapshot is not what it was. */
  ghost predicate RowsFor(seen: set<Id>, before: map<Id, Memory>, after: map<Id, Memory>, rows: map<Id, RecordRevision>) {
    && (forall id :: id in rows <==> id in seen && Snap(before, id) != Snap(after, id))
    && (forall id | id in rows :: rows[id] == RecordRevisionOf(before, after, id))
  }

  lemma RowsForMore(seen: set<Id>, before: map<Id, Memory>, after: map<Id, Memory>, rows: map<Id, RecordRevision>, id: Id)
    requires RowsFor(seen, before, after, rows) && (id in before || id in after)
    ensures RowsFor(seen + {id}, before, after,
                    if id in before && id in after && SnapshotOf(id, before[id]) == SnapshotOf(id, after[id]) then rows
                    else rows[id := RecordRevisionOf(before, after, id)])
  {
    RevisedIff(before, after, id);
    hide SnapshotOf, RecordRevisionOf, Snap;
  }

  lemma RowsForAll(before: map<Id, Memory>, after: map<Id, Memory>, rows: map<Id, RecordRevision>)
    requires RowsFor(before.Keys + after.Keys, before, after, rows)
    ensures rows == RecordRevisions(before, after)
  {
    hide RecordRevisionOf, Snap;
  }

  lemma AllSeen(ids: seq<Id>, keys: set<Id>, seen: set<Id>)
    requires seen <= keys && (forall j | 0 <= j < |ids| :: ids[j] in seen) && forall id | id in keys :: id in ids
    ensures seen == keys
  {}

  lemma NoRows(before: map<Id, Memory>, after: map<Id, Memory>)
    ensures RowsFor({}, before, after, map[])
  {}

  method WriteRecordRevisions(before: map<Id, Memory>, after: map<Id, Memory>) returns (rows: map<Id, RecordRevision>)
    ensures rows == RecordRevisions(before, after)
  {
    hide *;
    var ids := TextOrder.Sorted(before.Keys + after.Keys);
    ghost var seen: set<Id> := {};
    rows := map[];
    NoRows(before, after);
    for i := 0 to |ids|
      invariant seen <= before.Keys + after.Keys && forall j | 0 <= j < i :: ids[j] in seen
      invariant RowsFor(seen, before, after, rows)
    {
      var id := ids[i];
      assert id in ids;
      RowsForMore(seen, before, after, rows, id);
      seen := seen + {id};
      if id in before && id in after && SnapshotOf(id, before[id]) == SnapshotOf(id, after[id]) {
        continue;
      }
      rows := rows[id := RecordRevisionOf(before, after, id)];
    }
    AllSeen(ids, before.Keys + after.Keys, seen);
    RowsForAll(before, after, rows);
  }

  method WriteLinkRevisions(before: map<LinkKey, string>, after: map<LinkKey, string>)
    returns (rows: map<LinkKey, LinkRevision>)
    ensures rows == LinkRevisions(before, after)
  {
    rows := map[];
    var pending := before.Keys + after.Keys;
    while pending != {}
      invariant pending <= before.Keys + after.Keys
      invariant forall k :: k in rows <==> k in before.Keys + after.Keys - pending && ContextOf(before, k) != ContextOf(after, k)
      invariant forall k | k in rows :: rows[k] == LinkRevision(ContextOf(after, k), k in before, k in after)
      decreases pending
    {
      var k :| k in pending;
      pending := pending - {k};
      if k in before && k in after && before[k] == after[k] {
        continue;
      }
      rows := rows[k := LinkRevision(ContextOf(after, k), k in before, k in after)];
    }
  }

  // ---------------------------------------------------------------- the store

  class SQLiteCurationActionStore {
    const embeddingModel: string
    var domain: Domain
    var queue: RepairQueue.Queue
    var events: seq<Event>
    var runs: map<string, RunRow>
    var receipts: map<Key, Receipt>

    function View(): Store
      reads this
    {
      Store(domain, queue, events, runs, receipts)
    }

    constructor (s: Store, model: string)
      ensures View() == s && embeddingModel == model
    {
      embeddingModel := model;
      domain, queue, events, runs, receipts := s.domain, s.queue, s.events, s.runs, s.receipts;
    }

    /** Validation, the fast path outside the transaction, then the transaction. */
    method ExecuteAction(r: Request) returns (out: Outcome)
      modifies this
      ensures (View(), out) == Execute(old(View()), embeddingModel, r)
    {
      hide Body;
      if !WellFormed(r) { return Refused(FatalError); }
      if r.Id() in receipts { return Replay(receipts[r.Id()], r); }
      out := Transact(r);
    }

    method Transact(r: Request) returns (out: Outcome)
      requires WellFormed(r)
      modifies this
      ensures (View(), out) == Body(old(View()), embeddingModel, r)
    {
      hide Attempt;
      if Begin in r.faults { return Refused(Reported(r.faults[Begin])); }
      if r.Id() in receipts { return Replay(receipts[r.Id()], r); }
      var failure := Commit(r);
      if failure.Some? { return Refused(Reported(failure.value)); }
      return Accepted(receipts[r.Id()]);
    }

    /** The tables are written only at the very end: every earlier exit is a rollback. */
    method Commit(r: Request) returns (failure: Option<Raise>)
      requires WellFormed(r)
      modifies this
      ensures var result := Attempt(old(View()), embeddingModel, r);
              if result.Success? then failure.None? && View() == result.value && r.Id() in receipts
              else failure == Some(result.error) && View() == old(View())
    {
      hide TokenFailure, PreconditionFailure, RecordRevisions, LinkRevisions, RunCalls;
      if r.run !in runs && r.restores.None? { return Some(Fatal); }
      var row := RunOf(View(), r);
      if row.state.Terminal? && r.restores.None? { return Some(Fatal); }
      failure := Check(r);
      if failure.Some? { return; }
      var trace := r.apply(domain);
      var t := new SQLiteCurationTransaction(domain, r.TargetSet());
      failure := t.PerformAll(trace.calls);
      if failure.Some? { return; }
      if trace.ending.RaisedOut? { return Some(trace.ending.raised); }
      if trace.ending.Malformed? { return Some(Fatal); }
      var operation := Strip(trace.ending.operation);
      if operation == "" || operation != Strip(r.operation.value) { return Some(Fatal); }
      if AfterDomain in r.faults { return Some(r.faults[AfterDomain]); }
      assert Admit(View(), r) == Success(row);
      failure := Finish(r, row, Mutation(t.View(), trace.ending.affected, trace.ending.descriptor));
    }

    method Check(r: Request) returns (failure: Option<Raise>)
      requires WellFormed(r)
      ensures failure == (if !(forall id | id in r.TargetSet() :: IsExternal(id) || id in domain.memories) then Some(Stale)
                          else if TokenFailure(domain, r.TargetSet(), r.tokens).Some?
                          then TokenFailure(domain, r.TargetSet(), r.tokens)
                          else PreconditionFailure(domain, r.TargetSet(), r.preconditions))
    {
      hide TokenFailure, PreconditionFailure;
      var targetIds := TextOrder.Sorted(r.TargetSet());
      var locked := LockTargets(domain, targetIds);
      if !locked { return Some(Stale); }
      var tokens, keys := NormalizeTokens(r.tokens);
      failure := CheckTokens(domain, targetIds, r.TargetSet(), r.tokens, tokens, keys);
      if failure.None? { failure := CheckPreconditions(domain, r.TargetSet(), r.preconditions); }
    }

    /** The event of an action on the stored links, with one revision row per record and link it changed. */
    method WriteHistory(r: Request, row: RunRow, t: Txn, before: map<Id, Memory>, after: map<Id, Memory>) returns (event: Event)
      requires WellFormed(r) && row == RunOf(View(), r)
      requires before == Restrict(domain.memories, r.TargetSet()) && after == Restrict(t.db.memories, AfterIds(r, t))
      ensures event == EventOf(View(), r, t)
    {
      hide RecordRevisions, LinkRevisions, Restrict, RelatedLinks, AfterIds;
      var recordRows := WriteRecordRevisions(before, after);
      var linkRows := WriteLinkRevisions(RelatedLinks(domain.links, r.TargetSet()), RelatedLinks(t.db.links, AfterIds(r, t)));
      event := Event(r.run, r.action, Strip(r.operation.value), r.actor, "curation", row.task, row.plan, row.policy,
                     1, "applied", r.restores, r.EventKey(), recordRows, linkRows);
    }

    method PrepareReceipt(r: Request, m: Mutation, before: map<Id, Memory>, after: map<Id, Memory>) returns (receipt: Receipt)
      requires WellFormed(r)
      requires before == Restrict(domain.memories, r.TargetSet()) && after == Restrict(m.txn.db.memories, AfterIds(r, m.txn))
      ensures receipt == ReceiptOf(View(), r, m)
    {
      hide StateTokenOf, Restrict, AffectedIds, LocalIds, AfterIds;
      receipt := Receipt(
        Strip(r.operation.value), LocalIds(AffectedIds(r, m)), AppliedUnverified,
        StateTokenOf(before, r.TargetSet()), StateTokenOf(after, AfterIds(r, m.txn)), Some(|events|), Some(r.IntentHash()),
        if m.descriptor.Some? then m.descriptor else r.descriptor, None);
    }

    method Finish(r: Request, row: RunRow, m: Mutation) returns (failure: Option<Raise>)
      requires WellFormed(r) && row == RunOf(View(), r)
      modifies this
      ensures var result := Settle(old(View()), embeddingModel, r, row, m);
              if result.Success? then failure.None? && View() == result.value && r.Id() in receipts
              else failure == Some(result.error) && View() == old(View())
    {
      hide RecordRevisions, LinkRevisions, Intents, StateTokenOf, Restrict, RelatedLinks, AffectedIds, LocalIds, EventIsNew,
        AfterIds, IsUuid;
      if "" in m.txn.touched { return Some(Fatal); }
      var before, after := Restrict(domain.memories, r.TargetSet()), Restrict(m.txn.db.memories, AfterIds(r, m.txn));
      var repaired := WriteRepairIntents(queue, before, after, embeddingModel, r.now);
      assert repaired == QueueOf(View(), r, m.txn, embeddingModel);
      hide QueueOf;
      if RepairIntent in r.faults { return Some(r.faults[RepairIntent]); }
      if !EventIsNew(events, r) { return Some(Integrity); }
      if r.restores.Some? && r.restores.value >= |events| { return Some(Integrity); }
      var event := WriteHistory(r, row, m.txn, before, after);
      hide EventOf;
      if History in r.faults { return Some(r.faults[History]); }
      var affectedIds := AffectedIds(r, m);
      if "" in affectedIds { return Some(Fatal); }
      if !(forall id | id in LocalIds(affectedIds) :: IsUuid(id)) { return Some(BadValue); }
      var receipt := PrepareReceipt(r, m, before, after);
      hide ReceiptOf;
      if ReceiptPreparation in r.faults { return Some(r.faults[ReceiptPreparation]); }
      if Stage.Commit in r.faults { return Some(r.faults[Stage.Commit]); }
      domain, queue, events := m.txn.db, repaired, events + [event];
      runs, receipts := runs[r.run := row], receipts[r.Id() := receipt];
      return None;
    }
  }
}
