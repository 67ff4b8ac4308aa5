/**
 * The guarded surface a callback mutates through, as functions on the working tables.
 *
 * A callback is any function from the tables it sees to the calls it makes and the way it ends.
 * It may swallow what a call raises and go on; a stage hook may fail after the writes before it.
 */
module CurationSurface {
  import opened Basics
  import opened CurationModel
  import opened CurationUow
  import TextOrder

  datatype Raise = Stale | Fatal | Transient | Injected | BadValue | Integrity | Busy | Operational

  datatype Op =
    | Read(id: string, onlyKind: Option<string>)
    | Update(id: string, changes: Changes, now: string)
    | Create(values: Values, now: string)
    | Delete(id: string)
    | AddLink(source: string, target: string, kind: string, context: string)
    | RemoveLink(source: string, target: string, kind: string)
    | SetLineage(id: string, lineage: string, now: string)

  /** Where the stage hook of a call fails, if it does. */
  datatype Hook = NoFault | AtDomain | AtProjection

  datatype Call = Call(op: Op, hook: Hook, swallow: bool)

  datatype Txn = Txn(db: Domain, touched: seq<Id>, created: set<Id>)

  datatype Step = Step(txn: Txn, raised: Option<Raise>)

  function Ok(t: Txn): Step { Step(t, None) }

  function Raises(t: Txn, r: Raise): Step { Step(t, Some(r)) }

  /** An id outside the targets is refused only when it names an existing record. */
  predicate Accessible(t: Txn, targets: set<Id>, id: Id) {
    id in targets || id in t.created || id !in t.db.memories
  }

  predicate EndpointAllowed(t: Txn, targets: set<Id>, id: Id) {
    IsExternal(id) || id in targets || id in t.created
  }

  function Written(t: Txn, id: Id, m: Memory, created: set<Id>): Txn {
    Txn(t.db.(memories := t.db.memories[id := m]), t.touched + [id], created)
  }

  function Reindexed(t: Txn, id: Id, m: Memory): Txn {
    t.(db := t.db.(fts := t.db.fts[id := [Projection(m)]]))
  }

  /** Row and child rows, then the domain hook, then the search row, then the projection hook. */
  function StoreMemory(t: Txn, id: Id, m: Memory, created: set<Id>, hook: Hook): Step {
    var written := Written(t, id, m, created);
    if hook.AtDomain? then Raises(written, Injected)
    else var done := Reindexed(written, id, m); if hook.AtProjection? then Raises(done, Injected) else Ok(done)
  }

  function RunUpdate(t: Txn, targets: set<Id>, rawId: string, c: Changes, now: string, hook: Hook): Step {
    var id := Canonical(rawId);
    if !Accessible(t, targets, id) then Raises(t, Fatal)
    else if id !in t.db.memories then Raises(t, Stale)
    else match PrepareUpdate(t.db.memories[id], c, now)
      case Failure(_) => Raises(t, BadValue)
      case Success(m) => StoreMemory(t, id, m, t.created, hook)
  }

  function RunCreate(t: Txn, v: Values, now: string, hook: Hook): Step {
    var id := Canonical(v.memoryId);
    match PrepareCreate(v, NextRef(t.db.memories), now)
    case Failure(_) => Raises(t, BadValue)
    case Success(m) =>
      if id in t.db.memories then Raises(t, Fatal) else StoreMemory(t, id, m, t.created + {id}, hook)
  }

  /** Deleting a record cascades to the links that leave it; links that point to it stay. */
  function WithoutMemory(d: Domain, id: Id): Domain {
    Domain(d.memories - {id}, map k | k in d.links && k.source != id :: d.links[k], d.fts - {id})
  }

  function HookStep(t: Txn, hook: Hook): Step {
    if hook.AtDomain? then Raises(t, Injected) else Ok(t)
  }

  function RunOp(t: Txn, targets: set<Id>, op: Op, hook: Hook): Step {
    match op
    case Read(rawId, kind) =>
      if !Accessible(t, targets, Canonical(rawId)) then Raises(t, Fatal)
      else if kind.Some? && LinkTypeForm(kind.value) == "" then Raises(t, BadValue) else Ok(t)
    case Update(rawId, c, now) => RunUpdate(t, targets, rawId, c, now, hook)
    case Create(v, now) => RunCreate(t, v, now, hook)
    case Delete(rawId) =>
      var id := Canonical(rawId);
      if !Accessible(t, targets, id) then Raises(t, Fatal)
      else if id !in t.db.memories then Raises(t, Stale)
      else HookStep(Txn(WithoutMemory(t.db, id), t.touched + [id], t.created), hook)
    case AddLink(rawSource, rawTarget, rawKind, context) =>
      var source, target, kind := Canonical(rawSource), Canonical(rawTarget), LinkTypeForm(rawKind);
      if !Accessible(t, targets, source) || !EndpointAllowed(t, targets, target) then Raises(t, Fatal)
      else if kind == "" then Raises(t, BadValue)
      else if source !in t.db.memories then Raises(t, Integrity)
      else HookStep(Txn(t.db.(links := t.db.links[LinkKey(source, target, kind) := Strip(context)]),
                        t.touched + [source, target], t.created), hook)
    case RemoveLink(rawSource, rawTarget, rawKind) =>
      var source, target, kind := Canonical(rawSource), Canonical(rawTarget), LinkTypeForm(rawKind);
      if !Accessible(t, targets, source) || !EndpointAllowed(t, targets, target) then Raises(t, Fatal)
      else if kind == "" then Raises(t, BadValue)
      else HookStep(Txn(t.db.(links := t.db.links - {LinkKey(source, target, kind)}),
                        t.touched + [source, target], t.created), hook)
    case SetLineage(rawId, lineage, now) =>
      var id := Canonical(rawId);
      if !Accessible(t, targets, id) then Raises(t, Fatal)
      else if id !in t.db.memories then Raises(t, Stale)
      else RunUpdate(t, targets, rawId,
                     NO_CHANGES.(metadata := Given(t.db.memories[id].metadata["lineage" := lineage])), now, hook)
  }

  function RunCalls(t: Txn, targets: set<Id>, calls: seq<Call>): Step
    decreases calls
  {
    if calls == [] then Ok(t)
    else
      var s := RunOp(t, targets, calls[0].op, calls[0].hook);
      if s.raised.Some? && !calls[0].swallow then s else RunCalls(s.txn, targets, calls[1..])
  }

  lemma {:induction false} RunCallsSnoc(t: Txn, targets: set<Id>, calls: seq<Call>, last: Call)
    ensures var s := RunCalls(t, targets, calls);
            RunCalls(t, targets, calls + [last])
            == if s.raised.Some? then s
               else var r := RunOp(s.txn, targets, last.op, last.hook);
                    if r.raised.Some? && !last.swallow then r else Ok(r.txn)
    decreases calls
  {
    if calls == [] {
      assert calls + [last] == [last] && [last][1..] == [];
    } else {
      assert (calls + [last])[0] == calls[0] && (calls + [last])[1..] == calls[1..] + [last];
      var s := RunOp(t, targets, calls[0].op, calls[0].hook);
      RunCallsSnoc(s.txn, targets, calls[1..], last);
    }
  }

  // ---------------------------------------------------------------- what each call does

  /** Tables that differ in the record and the search row of one id at most. */
  ghost predicate OnlyRecord(before: Domain, after: Domain, id: Id) {
    && after.links == before.links
    && (forall x | x != id :: (x in after.memories <==> x in before.memories) && (x in before.memories ==> after.memories[x] == before.memories[x]))
    && (forall x | x != id :: (x in after.fts <==> x in before.fts) && (x in before.fts ==> after.fts[x] == before.fts[x]))
  }

  /** The search table shows this record, and nothing else of it. */
  ghost predicate Searchable(d: Domain, id: Id) {
    && id in d.memories && id in d.fts && |d.fts[id]| == 1
    && d.fts[id][0].title == d.memories[id].title && d.fts[id][0].content == d.memories[id].content
    && d.fts[id][0].summary == (if d.memories[id].summary.Some? then d.memories[id].summary.value else "")
    && d.fts[id][0].tags == Joined(TextOrder.Sorted(d.memories[id].tags))
  }

  /** The update a call of `set_lineage` stands for. */
  function AskedOf(m: Memory, op: Op): Changes
    requires op.Update? || op.SetLineage?
  {
    if op.Update? then op.changes else NO_CHANGES.(metadata := Given(m.metadata["lineage" := op.lineage]))
  }

  lemma StoreStores(t: Txn, id: Id, m: Memory, created: set<Id>, hook: Hook)
    ensures var s := StoreMemory(t, id, m, created, hook);
            && (s.raised.None? <==> hook.NoFault?)
            && (s.raised.None? ==> id in s.txn.db.memories && s.txn.db.memories[id] == m && OnlyRecord(t.db, s.txn.db, id)
                                   && Searchable(s.txn.db, id) && s.txn.touched == t.touched + [id] && s.txn.created == created)
  {}

  lemma RunUpdateStores(t: Txn, targets: set<Id>, rawId: string, c: Changes, now: string, hook: Hook)
    ensures var id := Canonical(rawId);
            var s := RunUpdate(t, targets, rawId, c, now, hook);
            && (s.raised.None? <==> id in t.db.memories && (id in targets || id in t.created) && hook.NoFault?
                                    && exists u :: ValidMemory(u) && UpdatedAsAsked(t.db.memories[id], c, now, u))
            && (s.raised.None? ==>
                  && id in s.txn.db.memories && UpdatedAsAsked(t.db.memories[id], c, now, s.txn.db.memories[id])
                  && OnlyRecord(t.db, s.txn.db, id) && Searchable(s.txn.db, id)
                  && s.txn.touched == t.touched + [id] && s.txn.created == t.created)
  {
    var id := Canonical(rawId);
    hide PrepareUpdate, UpdatedAsAsked, ValidMemory, StoreMemory, OnlyRecord, Searchable;
    if id in t.db.memories {
      UpdatePossibleIff(t.db.memories[id], c, now);
      var p := PrepareUpdate(t.db.memories[id], c, now);
      if p.Success? {
        UpdateIsAsAsked(t.db.memories[id], c, now, p.value);
        StoreStores(t, id, p.value, t.created, hook);
      }
    }
  }

  /**
   * An update that raises nothing stores the row that was asked for and its search row, touches the record
   * and changes nothing else; and it raises nothing exactly if the record is there and open to the action,
   * a valid row is what was asked for, and no hook fails.
   */
  lemma UpdateStoresAsAsked(t: Txn, targets: set<Id>, op: Op, hook: Hook)
    requires op.Update? || op.SetLineage?
    ensures var id := Canonical(op.id);
            var s := RunOp(t, targets, op, hook);
            && (s.raised.None? <==> id in t.db.memories && (id in targets || id in t.created) && hook.NoFault?
                                    && exists u :: ValidMemory(u) && UpdatedAsAsked(t.db.memories[id], AskedOf(t.db.memories[id], op), op.now, u))
            && (s.raised.None? ==>
                  && id in s.txn.db.memories && UpdatedAsAsked(t.db.memories[id], AskedOf(t.db.memories[id], op), op.now, s.txn.db.memories[id])
                  && OnlyRecord(t.db, s.txn.db, id) && Searchable(s.txn.db, id)
                  && s.txn.touched == t.touched + [id] && s.txn.created == t.created)
  {
    var id := Canonical(op.id);
    hide RunUpdate, UpdatedAsAsked, ValidMemory, OnlyRecord, Searchable;
    if op.Update? {
      RunUpdateStores(t, targets, op.id, op.changes, op.now, hook);
    } else if id in t.db.memories {
      RunUpdateStores(t, targets, op.id, AskedOf(t.db.memories[id], op), op.now, hook);
    }
  }

  /** Setting the lineage sets that entry of the metadata and the time of update, and trims the collections. */
  lemma LineageIsSet(m: Memory, lineage: string, now: string, u: Memory)
    requires UpdatedAsAsked(m, NO_CHANGES.(metadata := Given(m.metadata["lineage" := lineage])), now, u)
    ensures u == m.(metadata := m.metadata["lineage" := lineage], updatedAt := now, workspaces := u.workspaces, tags := u.tags)
  {
    hide TrimmedFrom;
    assert u.access.Keys == m.access.Keys;
    assert u.access == m.access;
  }

  /**
   * A creation that raises nothing stores the row that was asked for under the next reference, and makes
   * the id one of the action's own; it raises nothing exactly if the id is free and no hook fails.
   */
  lemma CreateStoresAsAsked(t: Txn, targets: set<Id>, v: Values, now: string, hook: Hook)
    ensures var id := Canonical(v.memoryId);
            var s := RunOp(t, targets, Create(v, now), hook);
            && (s.raised.None? <==> id !in t.db.memories && hook.NoFault?
                                    && exists u :: ValidMemory(u) && CreatedAsAsked(v, NextRef(t.db.memories), now, u))
            && (s.raised.None? ==>
                  && id in s.txn.db.memories && CreatedAsAsked(v, NextRef(t.db.memories), now, s.txn.db.memories[id])
                  && OnlyRecord(t.db, s.txn.db, id) && Searchable(s.txn.db, id)
                  && s.txn.touched == t.touched + [id] && s.txn.created == t.created + {id})
  {
    var id, ref := Canonical(v.memoryId), NextRef(t.db.memories);
    hide PrepareCreate, CreatedAsAsked, ValidMemory, NextRef, StoreMemory, OnlyRecord, Searchable;
    CreatePossibleIff(v, ref, now);
    var p := PrepareCreate(v, ref, now);
    if p.Success? {
      CreateIsAsAsked(v, ref, now, p.value);
      StoreStores(t, id, p.value, t.created + {id}, hook);
    }
  }

  /** The contexts of all other links are what they were. */
  ghost predicate OnlyLink(before: Domain, after: Domain, k: LinkKey) {
    && after.memories == before.memories && after.fts == before.fts
    && forall x | x != k :: (x in after.links <==> x in before.links) && (x in before.links ==> after.links[x] == before.links[x])
  }

  predicate MayLink(t: Txn, targets: set<Id>, source: Id, target: Id, kind: string) {
    && (source in targets || source in t.created || source !in t.db.memories)
    && (IsExternal(target) || target in targets || target in t.created) && kind != ""
  }

  /** A link is stored with its trimmed context, or removed, exactly if the action may link its ends; the source must be a record. */
  lemma LinkCallsIff(t: Txn, targets: set<Id>, op: Op, hook: Hook)
    requires op.AddLink? || op.RemoveLink?
    ensures var k := LinkKey(Canonical(op.source), Canonical(op.target), LinkTypeForm(op.kind));
            var s := RunOp(t, targets, op, hook);
            && (s.raised.None? <==> MayLink(t, targets, k.source, k.target, k.kind) && (op.AddLink? ==> k.source in t.db.memories) && !hook.AtDomain?)
            && (s.raised.None? ==>
                  && OnlyLink(t.db, s.txn.db, k) && s.txn.touched == t.touched + [k.source, k.target] && s.txn.created == t.created
                  && (op.AddLink? ==> k in s.txn.db.links && s.txn.db.links[k] == Strip(op.context))
                  && (op.RemoveLink? ==> k !in s.txn.db.links))
  {}

  /** A deletion takes the record, its search row and the links that leave it, and no other; it reads back as absent. */
  lemma DeleteIff(t: Txn, targets: set<Id>, rawId: string, hook: Hook)
    ensures var id := Canonical(rawId);
            var s := RunOp(t, targets, Delete(rawId), hook);
            && (s.raised.None? <==> id in t.db.memories && (id in targets || id in t.created) && !hook.AtDomain?)
            && (s.raised.None? ==>
                  && (forall x :: x in s.txn.db.memories <==> x in t.db.memories && x != id)
                  && (forall x | x in s.txn.db.memories :: s.txn.db.memories[x] == t.db.memories[x])
                  && (forall x :: x in s.txn.db.fts <==> x in t.db.fts && x != id)
                  && (forall x | x in s.txn.db.fts :: s.txn.db.fts[x] == t.db.fts[x])
                  && (forall k :: k in s.txn.db.links <==> k in t.db.links && k.source != id)
                  && (forall k | k in s.txn.db.links :: s.txn.db.links[k] == t.db.links[k])
                  && s.txn.touched == t.touched + [id] && s.txn.created == t.created)
  {}

  predicate OpenTo(t: Txn, targets: set<Id>, id: Id) { id in targets || id in t.created || id !in t.db.memories }

  /** A read changes nothing, whatever it raises. */
  lemma ReadIff(t: Txn, targets: set<Id>, rawId: string, kind: Option<string>, hook: Hook)
    ensures var s := RunOp(t, targets, Read(rawId, kind), hook);
            s.txn == t && (s.raised.None? <==> OpenTo(t, targets, Canonical(rawId)) && (kind.Some? ==> LinkTypeForm(kind.value) != ""))
  {}

  /** Why a call raises, by what it raises: the guards come first, then the record, then the values, then the hooks. */
  lemma RaisedBecause(t: Txn, targets: set<Id>, op: Op, hook: Hook)
    ensures var raised := RunOp(t, targets, op, hook).raised;
            && (raised == Some(Stale) <==> (op.Update? || op.SetLineage? || op.Delete?) && Canonical(op.id) !in t.db.memories)
            && (raised == Some(Integrity) <==>
                  op.AddLink? && MayLink(t, targets, Canonical(op.source), Canonical(op.target), LinkTypeForm(op.kind))
                  && Canonical(op.source) !in t.db.memories)
            && (raised == Some(Fatal) ==>
                  || ((op.Update? || op.SetLineage? || op.Delete? || op.Read?) && !OpenTo(t, targets, Canonical(op.id)))
                  || (op.Create? && Canonical(op.values.memoryId) in t.db.memories)
                  || ((op.AddLink? || op.RemoveLink?)
                      && (!OpenTo(t, targets, Canonical(op.source))
                          || !(IsExternal(Canonical(op.target)) || Canonical(op.target) in targets || Canonical(op.target) in t.created))))
            && ((op.Update? || op.SetLineage? || op.Delete? || op.Read?) && !OpenTo(t, targets, Canonical(op.id)) ==> raised == Some(Fatal))
            && (raised == Some(Injected) ==> !hook.NoFault?)
            && raised != Some(Transient) && raised != Some(Busy) && raised != Some(Operational)
  {
    hide PrepareUpdate, PrepareCreate, NextRef, WithoutMemory, Projection;
  }

  // ---------------------------------------------------------------- what every call keeps

  /**
   * The frame of a transaction that began on `d0`: a record changes only if its id was touched,
   * an existing record outside the targets never changes and its id is never created, and a link
   * changes only if its source was touched, in which case the source is a target or new.
   */
  ghost predicate Framed(d0: Domain, targets: set<Id>, t: Txn) {
    && (forall id | id !in t.touched :: SameRecord(d0, t.db, id))
    && (forall id | id in d0.memories && id !in targets :: SameRecord(d0, t.db, id) && id !in t.created)
    && (forall k | !SameLink(d0, t.db, k) :: k.source in t.touched && (k.source in targets || k.source !in d0.memories))
    && (forall id | id in t.touched && id !in targets && id in d0.memories :: IsExternal(id))
  }

  predicate SameRecord(a: Domain, b: Domain, id: Id) {
    (id in a.memories <==> id in b.memories) && (id in a.memories ==> a.memories[id] == b.memories[id])
  }

  predicate SameLink(a: Domain, b: Domain, k: LinkKey) {
    (k in a.links <==> k in b.links) && (k in a.links ==> a.links[k] == b.links[k])
  }

  lemma FramedStart(d0: Domain, targets: set<Id>)
    ensures Framed(d0, targets, Txn(d0, [], {}))
  {}

  ghost predicate SourcesLive(d: Domain) {
    forall k | k in d.links :: k.source in d.memories
  }

  lemma StoreKeepsFrame(d0: Domain, targets: set<Id>, t: Txn, id: Id, m: Memory, created: set<Id>, hook: Hook)
    requires Framed(d0, targets, t) && SourcesLive(t.db)
    requires id in d0.memories && id !in targets ==> id !in t.db.memories && id in created
    requires created == t.created || (created == t.created + {id} && id !in t.db.memories)
    requires id in targets || id in t.created || id !in t.db.memories
    requires id !in created ==> id in t.db.memories
    ensures Framed(d0, targets, StoreMemory(t, id, m, created, hook).txn)
    ensures SourcesLive(StoreMemory(t, id, m, created, hook).txn.db)
  {
    assert id in d0.memories && id !in targets ==> SameRecord(d0, t.db, id);
    RecordKeepsFrame(d0, targets, t, StoreMemory(t, id, m, created, hook).txn, id);
  }

  /** Writing the record of one touched id that is a target or new keeps the frame. */
  lemma RecordKeepsFrame(d0: Domain, targets: set<Id>, t: Txn, after: Txn, id: Id)
    requires Framed(d0, targets, t) && SourcesLive(t.db)
    requires id in targets || id !in d0.memories
    requires after.touched == t.touched + [id] && after.created <= t.created + {id} && after.db.links == t.db.links
    requires id in after.db.memories && after.db.memories == t.db.memories[id := after.db.memories[id]]
    ensures Framed(d0, targets, after) && SourcesLive(after.db)
  {
    forall k | !SameRecord(d0, after.db, k) ensures k in after.touched && (k in targets || k !in d0.memories) {
      assert k != id ==> !SameRecord(d0, t.db, k);
    }
    forall k | !SameLink(d0, after.db, k) ensures k.source in after.touched && (k.source in targets || k.source !in d0.memories) {
      assert !SameLink(d0, t.db, k);
    }
  }

  lemma FramedStep(d0: Domain, targets: set<Id>, t: Txn, op: Op, hook: Hook)
    requires Framed(d0, targets, t) && SourcesLive(d0) && SourcesLive(t.db)
    ensures Framed(d0, targets, RunOp(t, targets, op, hook).txn)
    ensures SourcesLive(RunOp(t, targets, op, hook).txn.db)
  {
    hide PrepareUpdate, PrepareCreate;
    var r := RunOp(t, targets, op, hook).txn;
    match op
    case Read(_, _) =>
    case Create(v, now) => CreateKeepsFrame(d0, targets, t, v, now, hook);
    case Update(rawId, c, now) => UpdateKeepsFrame(d0, targets, t, rawId, c, now, hook);
    case SetLineage(rawId, lineage, now) =>
      var id := Canonical(rawId);
      if Accessible(t, targets, id) && id in t.db.memories {
        UpdateKeepsFrame(d0, targets, t, rawId,
          NO_CHANGES.(metadata := Given(t.db.memories[id].metadata["lineage" := lineage])), now, hook);
      }
    case Delete(rawId) => if r != t { DeleteKeepsFrame(d0, targets, t, Canonical(rawId)); }
    case AddLink(rs, rt, rk, context) =>
      if r != t {
        LinkKeepsFrame(d0, targets, t, LinkKey(Canonical(rs), Canonical(rt), LinkTypeForm(rk)), Strip(context));
      }
    case RemoveLink(rs, rt, rk) =>
      if r != t { LinkKeepsFrame(d0, targets, t, LinkKey(Canonical(rs), Canonical(rt), LinkTypeForm(rk)), ""); }
  }

  lemma DeleteKeepsFrame(d0: Domain, targets: set<Id>, t: Txn, id: Id)
    requires Framed(d0, targets, t) && SourcesLive(d0) && SourcesLive(t.db)
    requires Accessible(t, targets, id) && id in t.db.memories
    ensures var d := WithoutMemory(t.db, id); SourcesLive(d) && Framed(d0, targets, Txn(d, t.touched + [id], t.created))
  {
    var r := Txn(WithoutMemory(t.db, id), t.touched + [id], t.created);
    assert forall x | x != id :: SameRecord(t.db, r.db, x);
    assert forall k: LinkKey | k.source != id :: SameLink(t.db, r.db, k);
    assert id in d0.memories && id !in targets ==> SameRecord(d0, t.db, id);
  }

  lemma LinkKeepsFrame(d0: Domain, targets: set<Id>, t: Txn, k: LinkKey, context: string)
    requires Framed(d0, targets, t) && SourcesLive(d0) && SourcesLive(t.db)
    requires Accessible(t, targets, k.source) && EndpointAllowed(t, targets, k.target)
    ensures var touched := t.touched + [k.source, k.target];
            && (k.source in t.db.memories ==>
                  Framed(d0, targets, Txn(t.db.(links := t.db.links[k := context]), touched, t.created)))
            && Framed(d0, targets, Txn(t.db.(links := t.db.links - {k}), touched, t.created))
  {
    assert k.source in d0.memories && k.source !in targets ==> SameRecord(d0, t.db, k.source);
    assert k.target in d0.memories && k.target !in targets ==> SameRecord(d0, t.db, k.target);
    var added := t.db.(links := t.db.links[k := context]);
    var removed := t.db.(links := t.db.links - {k});
    assert forall x :: SameRecord(t.db, added, x) && SameRecord(t.db, removed, x);
    assert forall x | x != k :: SameLink(t.db, added, x) && SameLink(t.db, removed, x);
  }

  lemma CreateKeepsFrame(d0: Domain, targets: set<Id>, t: Txn, v: Values, now: string, hook: Hook)
    requires Framed(d0, targets, t) && SourcesLive(t.db)
    ensures Framed(d0, targets, RunCreate(t, v, now, hook).txn) && SourcesLive(RunCreate(t, v, now, hook).txn.db)
  {
    hide PrepareCreate;
    var id := Canonical(v.memoryId);
    var p := PrepareCreate(v, NextRef(t.db.memories), now);
    if p.Success? && id !in t.db.memories {
      assert id in d0.memories && id !in targets ==> SameRecord(d0, t.db, id);
      StoreKeepsFrame(d0, targets, t, id, p.value, t.created + {id}, hook);
    }
  }

  lemma UpdateKeepsFrame(d0: Domain, targets: set<Id>, t: Txn, rawId: string, c: Changes, now: string, hook: Hook)
    requires Framed(d0, targets, t) && SourcesLive(t.db)
    ensures Framed(d0, targets, RunUpdate(t, targets, rawId, c, now, hook).txn)
    ensures SourcesLive(RunUpdate(t, targets, rawId, c, now, hook).txn.db)
  {
    hide PrepareUpdate;
    var id := Canonical(rawId);
    if Accessible(t, targets, id) && id in t.db.memories {
      var p := PrepareUpdate(t.db.memories[id], c, now);
      assert id in d0.memories && id !in targets ==> SameRecord(d0, t.db, id) && id !in t.created;
      if p.Success? { StoreKeepsFrame(d0, targets, t, id, p.value, t.created, hook); }
    }
  }

  // ---------------------------------------------------------------- records and links

  /** The references, the records' validity and the link sources survive every call, cut short or not. */
  lemma CallKeepsRecords(t: Txn, targets: set<Id>, op: Op, hook: Hook)
    requires RecordsInv(t.db)
    ensures RecordsInv(RunOp(t, targets, op, hook).txn.db)
  {
    hide PrepareUpdate, PrepareCreate, ValidMemory, Projection, RunUpdate, RunCreate, RecordsInv;
    var r := RunOp(t, targets, op, hook).txn.db;
    match op
    case Read(_, _) =>
    case Create(v, now) => CreateKeepsRecords(t, v, now, hook);
    case Update(rawId, c, now) => UpdateKeepsRecords(t, targets, rawId, c, now, hook);
    case SetLineage(rawId, lineage, now) =>
      var id := Canonical(rawId);
      if Accessible(t, targets, id) && id in t.db.memories {
        UpdateKeepsRecords(t, targets, rawId,
          NO_CHANGES.(metadata := Given(t.db.memories[id].metadata["lineage" := lineage])), now, hook);
      }
    case Delete(rawId) => if r != t.db { DeleteKeepsRecords(t.db, Canonical(rawId)); }
    case AddLink(_, _, _, _) => if r != t.db { LinksKeepRecords(t.db, r); }
    case RemoveLink(_, _, _) => if r != t.db { LinksKeepRecords(t.db, r); }
  }

  lemma DeleteKeepsRecords(d: Domain, id: Id)
    requires RecordsInv(d)
    ensures RecordsInv(WithoutMemory(d, id))
  {
    hide ValidMemory;
  }

  lemma LinksKeepRecords(d: Domain, r: Domain)
    requires RecordsInv(d) && r.memories == d.memories
    requires forall k | k in r.links && k !in d.links :: k.source in d.memories
    ensures RecordsInv(r)
  {
    hide ValidMemory;
  }

  lemma StoreKeepsRecords(t: Txn, id: Id, m: Memory, created: set<Id>, hook: Hook)
    requires RecordsInv(t.db) && ValidMemory(m)
    requires if id in t.db.memories then m.ref == t.db.memories[id].ref else m.ref == Some(NextRef(t.db.memories))
    ensures RecordsInv(StoreMemory(t, id, m, created, hook).txn.db)
  {
    hide ValidMemory, Projection;
    var r := StoreMemory(t, id, m, created, hook).txn.db;
    assert r.memories == t.db.memories[id := m] && r.links == t.db.links;
    forall x | x in t.db.memories && t.db.memories[x].ref.Some?
      ensures t.db.memories[x].ref.value < NextRef(t.db.memories)
    {
      assert t.db.memories[x].ref.value in RefsOf(t.db.memories);
    }
  }

  lemma CreateKeepsRecords(t: Txn, v: Values, now: string, hook: Hook)
    requires RecordsInv(t.db)
    ensures RecordsInv(RunCreate(t, v, now, hook).txn.db)
  {
    hide PrepareCreate, ValidMemory;
    var id := Canonical(v.memoryId);
    var p := PrepareCreate(v, NextRef(t.db.memories), now);
    if p.Success? && id !in t.db.memories {
      CreatedIsValid(v, NextRef(t.db.memories), now);
      StoreKeepsRecords(t, id, p.value, t.created + {id}, hook);
    }
  }

  lemma UpdateKeepsRecords(t: Txn, targets: set<Id>, rawId: string, c: Changes, now: string, hook: Hook)
    requires RecordsInv(t.db)
    ensures RecordsInv(RunUpdate(t, targets, rawId, c, now, hook).txn.db)
  {
    hide PrepareUpdate, ValidMemory;
    var id := Canonical(rawId);
    if id in t.db.memories {
      var p := PrepareUpdate(t.db.memories[id], c, now);
      UpdatedIsValid(t.db.memories[id], c, now);
      if p.Success? && Accessible(t, targets, id) { StoreKeepsRecords(t, id, p.value, t.created, hook); }
    }
  }

  lemma {:induction false} CallsKeepRecords(t: Txn, targets: set<Id>, calls: seq<Call>)
    requires RecordsInv(t.db)
    ensures RecordsInv(RunCalls(t, targets, calls).txn.db)
    decreases calls
  {
    hide RunOp, RecordsInv;
    if calls != [] {
      CallKeepsRecords(t, targets, calls[0].op, calls[0].hook);
      CallsKeepRecords(RunOp(t, targets, calls[0].op, calls[0].hook).txn, targets, calls[1..]);
    }
  }

  // ---------------------------------------------------------------- the search index

  /** What the search table shows of a record, and whether the last write of its row was cut short. */
  datatype Index = Index(shown: Option<FtsRow>, torn: bool)

  /** The call reaches the row of this record. */
  predicate Writes(t: Txn, targets: set<Id>, op: Op, id: Id) {
    match op
    case Update(rawId, c, now) =>
      Canonical(rawId) == id && Accessible(t, targets, id) && id in t.db.memories
      && PrepareUpdate(t.db.memories[id], c, now).Success?
    case SetLineage(rawId, lineage, now) =>
      Canonical(rawId) == id && Accessible(t, targets, id) && id in t.db.memories
      && PrepareUpdate(t.db.memories[id], NO_CHANGES.(metadata := Given(t.db.memories[id].metadata["lineage" := lineage])), now).Success?
    case Create(v, now) =>
      Canonical(v.memoryId) == id && id !in t.db.memories && PrepareCreate(v, NextRef(t.db.memories), now).Success?
    case _ => false
  }

  /** A completed write shows the new row, one cut short by its domain hook leaves what was shown. */
  function IndexAfter(x: Index, t: Txn, targets: set<Id>, c: Call, id: Id): Index {
    var after := RunOp(t, targets, c.op, c.hook).txn.db;
    if id !in after.memories then Index(None, false)
    else if !Writes(t, targets, c.op, id) then x
    else if c.hook.AtDomain? then Index(x.shown, true)
    else Index(Some(Projection(after.memories[id])), false)
  }

  function IndexCalls(x: Index, t: Txn, targets: set<Id>, calls: seq<Call>, id: Id): Index
    decreases calls
  {
    if calls == [] then x
    else
      var s := RunOp(t, targets, calls[0].op, calls[0].hook);
      var next := IndexAfter(x, t, targets, calls[0], id);
      if s.raised.Some? && !calls[0].swallow then next else IndexCalls(next, s.txn, targets, calls[1..], id)
  }

  /** The index of a record in tables that agree. */
  function AgreedIndex(d: Domain, id: Id): Index {
    Index(if id in d.memories then Some(Projection(d.memories[id])) else None, false)
  }

  ghost predicate Shows(d: Domain, id: Id, x: Index) {
    && (x.shown.None? <==> id !in d.fts)
    && (x.shown.Some? ==> d.fts[id] == [x.shown.value])
    && (id !in d.memories ==> x == Index(None, false))
    && (id in d.memories && !x.torn ==> x.shown == Some(Projection(d.memories[id])))
  }

  /** The last row write completed its search row, or left the projection last shown. */
  ghost predicate Settled(d: Domain, id: Id, x: Index) {
    id in d.memories && x.torn ==> x.shown == Some(Projection(d.memories[id]))
  }

  ghost predicate AgreesAt(d: Domain, id: Id) {
    (id in d.fts <==> id in d.memories) && (id in d.memories && id in d.fts ==> d.fts[id] == [Projection(d.memories[id])])
  }

  lemma IndexedIsEverywhere(d: Domain)
    ensures Indexed(d) <==> forall id :: AgreesAt(d, id)
  {
    hide Projection;
    if forall id :: AgreesAt(d, id) {
      assert forall id :: id in d.fts.Keys <==> id in d.memories.Keys by {
        forall id ensures id in d.fts.Keys <==> id in d.memories.Keys { assert AgreesAt(d, id); }
      }
      forall id | id in d.memories ensures d.fts[id] == [Projection(d.memories[id])] { assert AgreesAt(d, id); }
    }
  }

  lemma SettledIffAgrees(d: Domain, id: Id, x: Index)
    requires Shows(d, id, x)
    ensures Settled(d, id, x) <==> AgreesAt(d, id)
  {
    hide Projection;
    if id in d.memories && x.shown.Some? { assert [x.shown.value][0] == d.fts[id][0]; }
  }

  lemma StoreShows(t: Txn, at: Id, m: Memory, created: set<Id>, hook: Hook, id: Id, x: Index)
    requires Shows(t.db, id, x)
    ensures var after := StoreMemory(t, at, m, created, hook).txn.db;
            && at in after.memories && (id != at ==> (id in after.memories <==> id in t.db.memories))
            && Shows(after, id, if id != at then x else if hook.AtDomain? then Index(x.shown, true) else Index(Some(Projection(after.memories[at])), false))
  {
    hide Projection;
  }

  lemma DeleteShows(d: Domain, at: Id, id: Id, x: Index)
    requires Shows(d, id, x)
    ensures Shows(WithoutMemory(d, at), id, if id == at then Index(None, false) else x)
    ensures id in WithoutMemory(d, at).memories <==> id in d.memories && id != at
  {
    hide Projection;
  }

  lemma LinksShow(d: Domain, r: Domain, id: Id, x: Index)
    requires Shows(d, id, x) && r.memories == d.memories && r.fts == d.fts
    ensures Shows(r, id, x)
  {
    hide Projection;
  }

  lemma UpdateShows(t: Txn, targets: set<Id>, c: Call, rawId: string, changes: Changes, now: string, id: Id, x: Index)
    requires Shows(t.db, id, x) && RunOp(t, targets, c.op, c.hook) == RunUpdate(t, targets, rawId, changes, now, c.hook)
    requires Writes(t, targets, c.op, id) <==>
               Canonical(rawId) == id && Accessible(t, targets, id) && id in t.db.memories
               && PrepareUpdate(t.db.memories[id], changes, now).Success?
    ensures Shows(RunOp(t, targets, c.op, c.hook).txn.db, id, IndexAfter(x, t, targets, c, id))
  {
    var at := Canonical(rawId);
    AbsentHasNoIndex(t.db, id, x);
    hide PrepareUpdate, Shows, StoreMemory, Writes, RunOp;
    if Accessible(t, targets, at) && at in t.db.memories && PrepareUpdate(t.db.memories[at], changes, now).Success? {
      StoreShows(t, at, PrepareUpdate(t.db.memories[at], changes, now).value, t.created, c.hook, id, x);
    }
  }

  lemma LineageShows(t: Txn, targets: set<Id>, c: Call, id: Id, x: Index)
    requires Shows(t.db, id, x) && c.op.SetLineage?
    ensures Shows(RunOp(t, targets, c.op, c.hook).txn.db, id, IndexAfter(x, t, targets, c, id))
  {
    AbsentHasNoIndex(t.db, id, x);
    hide PrepareUpdate, Shows, RunUpdate;
    var at := Canonical(c.op.id);
    if Accessible(t, targets, at) && at in t.db.memories {
      var changes := NO_CHANGES.(metadata := Given(t.db.memories[at].metadata["lineage" := c.op.lineage]));
      UpdateShows(t, targets, c, c.op.id, changes, c.op.now, id, x);
    }
  }

  lemma CreateShows(t: Txn, targets: set<Id>, c: Call, id: Id, x: Index)
    requires Shows(t.db, id, x) && c.op.Create?
    ensures Shows(RunOp(t, targets, c.op, c.hook).txn.db, id, IndexAfter(x, t, targets, c, id))
  {
    AbsentHasNoIndex(t.db, id, x);
    hide PrepareCreate, Shows, StoreMemory, NextRef;
    var v := c.op.values;
    var at, p := Canonical(v.memoryId), PrepareCreate(v, NextRef(t.db.memories), c.op.now);
    if p.Success? && at !in t.db.memories { StoreShows(t, at, p.value, t.created + {at}, c.hook, id, x); }
  }

  lemma RemovalShows(t: Txn, targets: set<Id>, c: Call, id: Id, x: Index)
    requires Shows(t.db, id, x) && (c.op.Delete? || c.op.Read?)
    ensures Shows(RunOp(t, targets, c.op, c.hook).txn.db, id, IndexAfter(x, t, targets, c, id))
  {
    AbsentHasNoIndex(t.db, id, x);
    hide Shows, WithoutMemory;
    if c.op.Delete? { DeleteShows(t.db, Canonical(c.op.id), id, x); }
  }

  lemma LinkingShows(t: Txn, targets: set<Id>, c: Call, id: Id, x: Index)
    requires Shows(t.db, id, x) && (c.op.AddLink? || c.op.RemoveLink?)
    ensures Shows(RunOp(t, targets, c.op, c.hook).txn.db, id, IndexAfter(x, t, targets, c, id))
  {
    AbsentHasNoIndex(t.db, id, x);
    LinkingLeavesRecords(t, targets, c);
    hide Shows, RunOp;
    LinksShow(t.db, RunOp(t, targets, c.op, c.hook).txn.db, id, x);
  }

  lemma LinkingLeavesRecords(t: Txn, targets: set<Id>, c: Call)
    requires c.op.AddLink? || c.op.RemoveLink?
    ensures var after := RunOp(t, targets, c.op, c.hook).txn.db; after.memories == t.db.memories && after.fts == t.db.fts
  {
    hide Accessible, EndpointAllowed, Canonical, LinkTypeForm, Strip;
  }

  /** Each call moves the index of every record exactly as `IndexAfter` says. */
  lemma CallShows(t: Txn, targets: set<Id>, c: Call, id: Id, x: Index)
    requires Shows(t.db, id, x)
    ensures Shows(RunOp(t, targets, c.op, c.hook).txn.db, id, IndexAfter(x, t, targets, c, id))
  {
    match c.op
    case Update(rawId, changes, now) =>
      hide PrepareUpdate, Shows, IndexAfter, RunUpdate;
      UpdateShows(t, targets, c, rawId, changes, now, id, x);
    case SetLineage(_, _, _) => hide *; LineageShows(t, targets, c, id, x);
    case Create(_, _) => hide *; CreateShows(t, targets, c, id, x);
    case AddLink(_, _, _, _) => hide *; LinkingShows(t, targets, c, id, x);
    case RemoveLink(_, _, _) => hide *; LinkingShows(t, targets, c, id, x);
    case _ => hide *; RemovalShows(t, targets, c, id, x);
  }

  lemma AbsentHasNoIndex(d: Domain, id: Id, x: Index)
    requires Shows(d, id, x)
    ensures id !in d.memories ==> x == Index(None, false)
  {}

  lemma {:induction false} CallsShow(t: Txn, targets: set<Id>, calls: seq<Call>, id: Id, x: Index)
    requires Shows(t.db, id, x)
    ensures Shows(RunCalls(t, targets, calls).txn.db, id, IndexCalls(x, t, targets, calls, id))
    decreases calls
  {
    hide RunOp, IndexAfter, Shows;
    if calls != [] {
      CallShows(t, targets, calls[0], id, x);
      CallsShow(RunOp(t, targets, calls[0].op, calls[0].hook).txn, targets, calls[1..], id, IndexAfter(x, t, targets, calls[0], id));
    }
  }

  lemma AgreedShows(d: Domain, id: Id)
    requires Indexed(d)
    ensures Shows(d, id, AgreedIndex(d, id))
  {
    hide Projection;
  }

  /**
   * Index agreement over a whole callback, whatever it swallows: it holds at the end exactly when each
   * surviving record's last row write completed its search row or left the projection last shown.
   */
  lemma CallbackIndexedIff(t: Txn, targets: set<Id>, calls: seq<Call>)
    requires Indexed(t.db)
    ensures var last := RunCalls(t, targets, calls).txn.db;
            Indexed(last) <==> forall id :: Settled(last, id, IndexCalls(AgreedIndex(t.db, id), t, targets, calls, id))
  {
    var last := RunCalls(t, targets, calls).txn.db;
    IndexedIsEverywhere(last);
    forall id
      ensures AgreesAt(last, id) <==> Settled(last, id, IndexCalls(AgreedIndex(t.db, id), t, targets, calls, id))
    {
      AgreedShows(t.db, id);
      CallsShow(t, targets, calls, id, AgreedIndex(t.db, id));
      SettledIffAgrees(last, id, IndexCalls(AgreedIndex(t.db, id), t, targets, calls, id));
    }
    hide AgreesAt, Settled, Indexed, RunCalls, AgreedIndex;
  }

  /**
   * An update cut short by its domain hook leaves the index in agreement exactly when the new row
   * projects to the search row already stored. Swallowing that failure is the only way to lose it.
   */
  lemma InterruptedUpdateAgreesIff(t: Txn, targets: set<Id>, rawId: string, c: Changes, now: string)
    requires Indexed(t.db) && RunUpdate(t, targets, rawId, c, now, AtDomain).raised == Some(Injected)
    ensures var id := Canonical(rawId);
            id in t.db.memories && PrepareUpdate(t.db.memories[id], c, now).Success?
            && (Indexed(RunUpdate(t, targets, rawId, c, now, AtDomain).txn.db)
                <==> Projection(PrepareUpdate(t.db.memories[id], c, now).value) == Projection(t.db.memories[id]))
  {
    hide PrepareUpdate, ValidMemory, Projection;
    var id := Canonical(rawId);
    var m := PrepareUpdate(t.db.memories[id], c, now).value;
    var r := RunUpdate(t, targets, rawId, c, now, AtDomain).txn.db;
    assert r.memories == t.db.memories[id := m] && r.fts == t.db.fts;
    assert t.db.fts[id] == [Projection(t.db.memories[id])];
    if Indexed(r) { assert [Projection(m)][0] == r.fts[id][0]; }
  }

  /** A create cut short by its domain hook always leaves a record without a search row. */
  lemma InterruptedCreateDisagrees(t: Txn, targets: set<Id>, v: Values, now: string)
    requires Indexed(t.db) && RunCreate(t, v, now, AtDomain).raised == Some(Injected)
    ensures !Indexed(RunCreate(t, v, now, AtDomain).txn.db)
  {
    var id := Canonical(v.memoryId);
    assert id in RunCreate(t, v, now, AtDomain).txn.db.memories && id !in t.db.fts;
  }

  lemma StoreKeepsRef(t: Txn, at: Id, m: Memory, created: set<Id>, hook: Hook, id: Id)
    requires id in t.db.memories && (at == id ==> m.ref == t.db.memories[id].ref)
    ensures var after := StoreMemory(t, at, m, created, hook).txn.db.memories; id in after && after[id].ref == t.db.memories[id].ref
  {
    hide Projection;
  }

  lemma UpdateKeepsRef(t: Txn, targets: set<Id>, rawId: string, c: Changes, now: string, hook: Hook, id: Id)
    requires id in t.db.memories
    ensures var after := RunUpdate(t, targets, rawId, c, now, hook).txn.db.memories;
            id in after && after[id].ref == t.db.memories[id].ref
  {
    var at := Canonical(rawId);
    if Accessible(t, targets, at) && at in t.db.memories {
      UpdatedIsValid(t.db.memories[at], c, now);
      hide PrepareUpdate, StoreMemory, ValidMemory;
      if PrepareUpdate(t.db.memories[at], c, now).Success? {
        StoreKeepsRef(t, at, PrepareUpdate(t.db.memories[at], c, now).value, t.created, hook, id);
      }
    }
  }

  /** No call changes the reference of a record that it neither creates nor deletes. */
  lemma RefIsStable(t: Txn, targets: set<Id>, op: Op, hook: Hook, id: Id)
    requires id in t.db.memories && id in RunOp(t, targets, op, hook).txn.db.memories
    ensures RunOp(t, targets, op, hook).txn.db.memories[id].ref == t.db.memories[id].ref
  {
    hide PrepareCreate, StoreMemory, RunUpdate, NextRef;
    match op
    case Update(rawId, c, now) => UpdateKeepsRef(t, targets, rawId, c, now, hook, id);
    case SetLineage(rawId, lineage, now) =>
      var at := Canonical(rawId);
      if at in t.db.memories {
        UpdateKeepsRef(t, targets, rawId, NO_CHANGES.(metadata := Given(t.db.memories[at].metadata["lineage" := lineage])), now, hook, id);
      }
    case Create(v, now) =>
      var p := PrepareCreate(v, NextRef(t.db.memories), now);
      if p.Success? && Canonical(v.memoryId) !in t.db.memories {
        StoreKeepsRef(t, Canonical(v.memoryId), p.value, t.created + {Canonical(v.memoryId)}, hook, id);
      }
    case _ =>
  }

  /** The call gets as far as deleting this record. */
  predicate Deletes(t: Txn, targets: set<Id>, c: Call, id: Id) {
    c.op.Delete? && Canonical(c.op.id) == id && Accessible(t, targets, id) && id in t.db.memories
  }

  /** A record is gone after a call exactly if the call is a deletion of it that is not refused. */
  lemma GoneIff(t: Txn, targets: set<Id>, c: Call, id: Id)
    requires id in t.db.memories
    ensures id !in RunOp(t, targets, c.op, c.hook).txn.db.memories <==> Deletes(t, targets, c, id)
  {
    hide PrepareUpdate, PrepareCreate, Reindexed, Accessible, EndpointAllowed, WithoutMemory, StoreMemory;
    var op := c.op;
    match op
    case Update(_, _, _) => StoreDropsNone(t, id);
    case Create(_, _) => StoreDropsNone(t, id);
    case SetLineage(_, _, _) => StoreDropsNone(t, id);
    case Delete(_) => DeleteDropsOne(t.db, Canonical(op.id), id);
    case _ =>
  }

  /** No call that is made deletes this record. */
  predicate Spared(t: Txn, targets: set<Id>, calls: seq<Call>, id: Id)
    decreases calls
  {
    calls == []
    || (var s := RunOp(t, targets, calls[0].op, calls[0].hook);
        !Deletes(t, targets, calls[0], id) && ((s.raised.Some? && !calls[0].swallow) || Spared(s.txn, targets, calls[1..], id)))
  }

  lemma StoreDropsNone(t: Txn, id: Id)
    requires id in t.db.memories
    ensures forall at, m, created, hook :: id in StoreMemory(t, at, m, created, hook).txn.db.memories
  {}

  lemma DeleteDropsOne(d: Domain, gone: Id, id: Id)
    requires id in d.memories
    ensures id in WithoutMemory(d, gone).memories <==> id != gone
  {}

  /** A record that no call deletes is there at the end, under the reference it had. */
  lemma {:induction false} CallsKeepRef(t: Txn, targets: set<Id>, calls: seq<Call>, id: Id)
    requires id in t.db.memories && Spared(t, targets, calls, id)
    ensures id in RunCalls(t, targets, calls).txn.db.memories
    ensures RunCalls(t, targets, calls).txn.db.memories[id].ref == t.db.memories[id].ref
    decreases calls
  {
    hide RunOp, Deletes;
    if calls != [] {
      GoneIff(t, targets, calls[0], id);
      RefIsStable(t, targets, calls[0].op, calls[0].hook, id);
      var s := RunOp(t, targets, calls[0].op, calls[0].hook);
      if s.raised.None? || calls[0].swallow { CallsKeepRef(s.txn, targets, calls[1..], id); }
    }
  }

  predicate SwallowsDomainFault(c: Call) { c.swallow && c.hook.AtDomain? }

  lemma {:induction false} CallsKeepFrame(d0: Domain, targets: set<Id>, t: Txn, calls: seq<Call>)
    requires Framed(d0, targets, t) && SourcesLive(d0) && SourcesLive(t.db)
    ensures Framed(d0, targets, RunCalls(t, targets, calls).txn)
    ensures SourcesLive(RunCalls(t, targets, calls).txn.db)
    decreases calls
  {
    if calls != [] {
      FramedStep(d0, targets, t, calls[0].op, calls[0].hook);
      CallsKeepFrame(d0, targets, RunOp(t, targets, calls[0].op, calls[0].hook).txn, calls[1..]);
    }
  }

  /** A callback that swallows no fault of the domain hook leaves no row cut short. */
  lemma {:induction false} UnswallowedStaysWhole(x: Index, t: Txn, targets: set<Id>, calls: seq<Call>, id: Id)
    requires !x.torn && RunCalls(t, targets, calls).raised.None?
    requires forall c | c in calls :: !SwallowsDomainFault(c)
    ensures !IndexCalls(x, t, targets, calls, id).torn
    decreases calls
  {
    if calls != [] {
      var s := RunOp(t, targets, calls[0].op, calls[0].hook);
      assert calls[0] in calls && !SwallowsDomainFault(calls[0]);
      if calls[0].hook.AtDomain? && Writes(t, targets, calls[0].op, id) { InterruptedRaises(t, targets, calls[0].op, id); }
      hide RunOp, Writes;
      UnswallowedStaysWhole(IndexAfter(x, t, targets, calls[0], id), s.txn, targets, calls[1..], id);
    }
  }

  lemma InterruptedRaises(t: Txn, targets: set<Id>, op: Op, id: Id)
    requires Writes(t, targets, op, id)
    ensures RunOp(t, targets, op, AtDomain).raised.Some?
  {
    hide PrepareUpdate, PrepareCreate, Projection;
  }
}
