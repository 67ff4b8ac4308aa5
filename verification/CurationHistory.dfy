/** What one committed action leaves behind: its frame, its history, its repair rows, its guards. */
module CurationHistory {
  import opened Basics
  import opened CurationModel
  import opened CurationUow
  import opened CurationSurface
  import opened CurationAction
  import RepairQueue
  import TextOrder

  function After(s: Store, model: string, r: Request): Store
    requires WellFormed(r)
  {
    Body(s, model, r).0
  }

  /** The transaction of the callback, on the tables the action started from. */
  function TxnOf(s: Store, r: Request): Txn { RunCallback(s.domain, r).txn }

  lemma CommitShape(s: Store, model: string, r: Request)
    requires Commits(s, model, r) && SourcesLive(s.domain)
    ensures var t, after := TxnOf(s, r), After(s, model, r);
            && after.domain == t.db && Framed(s.domain, r.TargetSet(), t) && SourcesLive(t.db)
            && RunCallback(s.domain, r).raised.None?
            && after.events == s.events + [EventOf(s, r, t)]
            && after.queue == QueueOf(s, r, t, model)
            && r.Id() in after.receipts && after.receipts == s.receipts[r.Id() := after.receipts[r.Id()]]
            && after.receipts[r.Id()].intent == Some(r.IntentHash())
            && after.receipts[r.Id()].eventId == Some(|s.events|)
            && Body(s, model, r).1 == Accepted(after.receipts[r.Id()])
            && r.run in after.runs && (r.run in s.runs ==> after.runs == s.runs)
            && (forall run | run in s.runs :: run in after.runs && after.runs[run] == s.runs[run])
            && EventIsNew(s.events, r)
  {
    CommitIsSettled(s, model, r);
    hide Attempt, EventOf, QueueOf, Framed;
    FramedStart(s.domain, r.TargetSet());
    CallsKeepFrame(s.domain, r.TargetSet(), Txn(s.domain, [], {}), r.apply(s.domain).calls);
    hide RunCalls;
  }

  /** The store of a commit, table by table. */
  lemma CommitIsSettled(s: Store, model: string, r: Request)
    requires Commits(s, model, r)
    ensures var t, after := TxnOf(s, r), After(s, model, r);
            && RunCallback(s.domain, r).raised.None? && EventIsNew(s.events, r)
            && after.domain == t.db && after.events == s.events + [EventOf(s, r, t)] && after.queue == QueueOf(s, r, t, model)
            && after.runs == s.runs[r.run := RunOf(s, r)]
            && r.Id() in after.receipts && after.receipts == s.receipts[r.Id() := after.receipts[r.Id()]]
            && after.receipts[r.Id()].intent == Some(r.IntentHash())
            && after.receipts[r.Id()].eventId == Some(|s.events|)
            && Body(s, model, r).1 == Accepted(after.receipts[r.Id()])
  {
    hide TokenFailure, PreconditionFailure, EventOf, QueueOf, StateTokenOf, RunCallback, AffectedIds, EventIsNew, LocalIds;
  }

  /** Whatever stops a call, at whatever stage, the store is the one it started from. */
  lemma AllOrNothing(s: Store, model: string, r: Request)
    ensures !Commits(s, model, r) ==> Execute(s, model, r).0 == s
    ensures Execute(s, model, r).1.Refused? ==> Execute(s, model, r).0 == s
    ensures WellFormed(r) && r.Id() in s.receipts ==>
              Execute(s, model, r).0 == s
              && (Execute(s, model, r).1.Accepted? ==> Execute(s, model, r).1.receipt == s.receipts[r.Id()])
    ensures Commits(s, model, r) && SourcesLive(s.domain) ==>
              && Execute(s, model, r) == Body(s, model, r)
              && Execute(s, model, r).1.Accepted? && |Execute(s, model, r).0.events| == |s.events| + 1
  {
    if Commits(s, model, r) && SourcesLive(s.domain) { CommitShape(s, model, r); }
  }

  // ---------------------------------------------------------------- record history

  function SnapIn(m: map<Id, Snapshot>, id: Id): Option<Snapshot> {
    if id in m then Some(m[id]) else None
  }

  function ReplayRecords(m: map<Id, Snapshot>, revisions: map<Id, RecordRevision>): map<Id, Snapshot> {
    map id | id in m.Keys + revisions.Keys && (id in revisions ==> revisions[id].after.Some?) ::
      if id in revisions then revisions[id].after.value else m[id]
  }

  function UndoRecords(m: map<Id, Snapshot>, revisions: map<Id, RecordRevision>): map<Id, Snapshot> {
    map id | id in m.Keys + revisions.Keys && (id in revisions ==> revisions[id].before.Some?) ::
      if id in revisions then revisions[id].before.value else m[id]
  }

  /** The callback touched this record, which existed before and is not among the targets. */
  predicate Hidden(s: Store, r: Request, id: Id) {
    id in TxnOf(s, r).touched && id !in r.TargetSet() && id in s.domain.memories
  }

  ghost predicate TouchesHiddenRecord(s: Store, r: Request) {
    exists id :: Hidden(s, r, id)
  }

  /** A record changes only inside `reached`, and one that existed before only inside `targets`. */
  ghost predicate RecordFrame(m0: map<Id, Memory>, m1: map<Id, Memory>, targets: set<Id>, reached: set<Id>) {
    && targets <= reached
    && forall id | id !in reached || (id in m0 && id !in targets) ::
         (id in m0 <==> id in m1) && (id in m0 ==> m0[id] == m1[id])
  }

  lemma ReplayRevisions(m0: map<Id, Memory>, m1: map<Id, Memory>, targets: set<Id>, reached: set<Id>)
    requires RecordFrame(m0, m1, targets, reached)
    ensures ReplayRecords(Snapshots(m0), RecordRevisions(Restrict(m0, targets), Restrict(m1, reached))) == Snapshots(m1)
  {
    hide SnapshotOf;
    var replayed := ReplayRecords(Snapshots(m0), RecordRevisions(Restrict(m0, targets), Restrict(m1, reached)));
    forall id ensures SnapIn(replayed, id) == SnapIn(Snapshots(m1), id) {}
    SameSnapshots(replayed, Snapshots(m1));
  }

  lemma UndoRevisions(m0: map<Id, Memory>, m1: map<Id, Memory>, targets: set<Id>, reached: set<Id>)
    requires RecordFrame(m0, m1, targets, reached)
    ensures UndoRecords(Snapshots(m1), RecordRevisions(Restrict(m0, targets), Restrict(m1, reached))) == Snapshots(m0)
            <==> forall id | id in reached && id in m0 :: id in targets
  {
    var undone := UndoRecords(Snapshots(m1), RecordRevisions(Restrict(m0, targets), Restrict(m1, reached)));
    forall id ensures SnapIn(undone, id) == SnapIn(Snapshots(m0), id) <==> !(id in reached && id in m0 && id !in targets) {
      UndoneAt(m0, m1, targets, reached, id);
    }
    hide *;
    if forall id | id in reached && id in m0 :: id in targets { SameSnapshots(undone, Snapshots(m0)); }
  }

  lemma UndoneAt(m0: map<Id, Memory>, m1: map<Id, Memory>, targets: set<Id>, reached: set<Id>, id: Id)
    requires RecordFrame(m0, m1, targets, reached)
    ensures SnapIn(UndoRecords(Snapshots(m1), RecordRevisions(Restrict(m0, targets), Restrict(m1, reached))), id) == SnapIn(Snapshots(m0), id)
            <==> !(id in reached && id in m0 && id !in targets)
  {
    hide SnapshotOf;
  }

  lemma SameSnapshots(a: map<Id, Snapshot>, b: map<Id, Snapshot>)
    requires forall id :: SnapIn(a, id) == SnapIn(b, id)
    ensures a == b
  {
    assert forall id :: (id in a <==> SnapIn(a, id).Some?) && (id in b <==> SnapIn(b, id).Some?);
    assert a.Keys == b.Keys;
    forall id | id in a ensures a[id] == b[id] { assert SnapIn(a, id) == SnapIn(b, id); }
  }

  lemma CommitRecordFrame(s: Store, model: string, r: Request)
    requires Commits(s, model, r) && SourcesLive(s.domain)
    ensures RecordFrame(s.domain.memories, TxnOf(s, r).db.memories, r.TargetSet(), AfterIds(r, TxnOf(s, r)))
    ensures After(s, model, r).domain == TxnOf(s, r).db
  {
    CommitShape(s, model, r);
    hide Commits, Body, After, RunCallback, Framed, RecordFrame;
    FramedRecords(s.domain, r.TargetSet(), TxnOf(s, r));
  }

  lemma HiddenMeansReached(s: Store, r: Request)
    ensures forall id :: Hidden(s, r, id) <==> id in AfterIds(r, TxnOf(s, r)) && id in s.domain.memories && id !in r.TargetSet()
  {
    hide RunCallback;
  }

  lemma FramedRecords(d0: Domain, targets: set<Id>, t: Txn)
    requires Framed(d0, targets, t)
    ensures RecordFrame(d0.memories, t.db.memories, targets, targets + set id | id in t.touched)
  {
    forall id | id !in targets + (set x | x in t.touched) || (id in d0.memories && id !in targets)
      ensures SameRecord(d0, t.db, id)
    {}
  }

  lemma FramedLinks(d0: Domain, targets: set<Id>, t: Txn)
    requires Framed(d0, targets, t) && SourcesLive(d0)
    ensures LinkFrame(d0.links, t.db.links, targets, targets + set id | id in t.touched)
  {
    forall k: LinkKey | !IncidentTo(k, targets + set x | x in t.touched) || (k in d0.links && !IncidentTo(k, targets))
      ensures SameLink(d0, t.db, k)
    {}
  }

  lemma RecordReplay(s: Store, model: string, r: Request)
    requires Commits(s, model, r) && SourcesLive(s.domain)
    ensures ReplayRecords(Snapshots(s.domain.memories), EventOf(s, r, TxnOf(s, r)).records)
            == Snapshots(After(s, model, r).domain.memories)
  {
    hide Commits, Body, After, RunCallback, RecordRevisions, LinkRevisions, ReplayRecords;
    CommitRecordFrame(s, model, r);
    var t := TxnOf(s, r);
    ReplayRevisions(s.domain.memories, t.db.memories, r.TargetSet(), AfterIds(r, t));
  }

  /**
   * Undoing the record revisions of an action recovers the records it started from exactly when
   * the callback touched no existing record outside its targets. Such a record has an `ext:` id:
   * it is reached as a link endpoint, and its revision then claims that it did not exist before.
   */
  lemma RecordUndoIff(s: Store, model: string, r: Request)
    requires Commits(s, model, r) && SourcesLive(s.domain)
    ensures UndoRecords(Snapshots(After(s, model, r).domain.memories), EventOf(s, r, TxnOf(s, r)).records)
            == Snapshots(s.domain.memories)
            <==> !TouchesHiddenRecord(s, r)
    ensures forall id | id in TxnOf(s, r).touched && id !in r.TargetSet() && id in s.domain.memories :: IsExternal(id)
  {
    hide Commits, Body, After, RunCallback, RecordRevisions, LinkRevisions, UndoRecords;
    CommitRecordFrame(s, model, r);
    CommitShape(s, model, r);
    HiddenMeansReached(s, r);
    var t := TxnOf(s, r);
    hide Hidden, AfterIds;
    UndoRevisions(s.domain.memories, t.db.memories, r.TargetSet(), AfterIds(r, t));
  }

  /**
   * The after-state of a revision is always the record's state after the commit; its before-state is
   * the state the action ran on exactly when the commit did not hide this record.
   */
  lemma BeforeIff(s: Store, model: string, r: Request, id: Id)
    requires Commits(s, model, r) && SourcesLive(s.domain)
    requires id in EventOf(s, r, TxnOf(s, r)).records
    ensures var revision := EventOf(s, r, TxnOf(s, r)).records[id];
            && revision.after == Snap(After(s, model, r).domain.memories, id)
            && revision.beforeToken == TokenOf(revision.before) && revision.afterToken == TokenOf(revision.after)
            && (revision.before == Snap(s.domain.memories, id) <==> !Hidden(s, r, id))
            && (Hidden(s, r, id) ==> revision.before.None?)
  {
    CommitRecordFrame(s, model, r);
    hide Commits, Body, After, RunCallback, LinkRevisions, SnapshotOf;
    var t := TxnOf(s, r);
    assert id in Restrict(s.domain.memories, r.TargetSet()) || id in Restrict(t.db.memories, AfterIds(r, t));
    assert id in AfterIds(r, t);
  }

  /** A record without a revision is as it was before, and was not hidden. */
  lemma UnrevisedByCommit(s: Store, model: string, r: Request, id: Id)
    requires Commits(s, model, r) && SourcesLive(s.domain)
    requires id !in EventOf(s, r, TxnOf(s, r)).records
    ensures Snap(After(s, model, r).domain.memories, id) == Snap(s.domain.memories, id) && !Hidden(s, r, id)
  {
    CommitRecordFrame(s, model, r);
    HiddenMeansReached(s, r);
    hide Commits, Body, After, RunCallback, LinkRevisions, RecordFrame, RecordRevisions, AfterIds;
    Unrevised(s.domain.memories, TxnOf(s, r).db.memories, r.TargetSet(), AfterIds(r, TxnOf(s, r)), id);
  }

  lemma Unrevised(m0: map<Id, Memory>, m1: map<Id, Memory>, targets: set<Id>, reached: set<Id>, id: Id)
    requires RecordFrame(m0, m1, targets, reached)
    requires id !in RecordRevisions(Restrict(m0, targets), Restrict(m1, reached))
    ensures Snap(m0, id) == Snap(m1, id) && !(id in reached && id in m0 && id !in targets)
  {
    hide SnapshotOf;
    assert Snap(Restrict(m0, targets), id) == if id in targets then Snap(m0, id) else None;
    assert Snap(Restrict(m1, reached), id) == if id in reached then Snap(m1, id) else None;
  }

  // ---------------------------------------------------------------- link history

  function ReplayLinks(links: map<LinkKey, string>, revisions: map<LinkKey, LinkRevision>): map<LinkKey, string> {
    map k | k in links.Keys + revisions.Keys && (k in revisions ==> revisions[k].context.Some?) ::
      if k in revisions then revisions[k].context.value else links[k]
  }

  function UndoLinkKeys(keys: set<LinkKey>, revisions: map<LinkKey, LinkRevision>): set<LinkKey> {
    set k | k in keys + revisions.Keys && (k in revisions ==> revisions[k].beforeExists)
  }

  /** The callback touched an endpoint of this link, which existed before and avoids the targets. */
  predicate HiddenLink(s: Store, r: Request, k: LinkKey) {
    && k in s.domain.links && (k.source in TxnOf(s, r).touched || k.target in TxnOf(s, r).touched)
    && k.source !in r.TargetSet() && k.target !in r.TargetSet()
  }

  ghost predicate TouchesHiddenLink(s: Store, r: Request) {
    exists k :: HiddenLink(s, r, k)
  }

  lemma HiddenLinkIsReached(s: Store, r: Request)
    ensures forall k :: HiddenLink(s, r, k) <==> k in s.domain.links && IncidentTo(k, AfterIds(r, TxnOf(s, r))) && !IncidentTo(k, r.TargetSet())
  {
    hide RunCallback;
  }

  /** A link changes only at a touched source, and one that existed before only at a target. */
  ghost predicate LinkFrame(a: map<LinkKey, string>, b: map<LinkKey, string>, targets: set<Id>, reached: set<Id>) {
    && targets <= reached
    && forall k | !IncidentTo(k, reached) || (k in a && !IncidentTo(k, targets)) :: ContextOf(a, k) == ContextOf(b, k)
  }

  lemma ReplayLinkRevisions(a: map<LinkKey, string>, b: map<LinkKey, string>, targets: set<Id>, reached: set<Id>)
    requires LinkFrame(a, b, targets, reached)
    ensures ReplayLinks(a, LinkRevisions(RelatedLinks(a, targets), RelatedLinks(b, reached))) == b
  {
    var replayed := ReplayLinks(a, LinkRevisions(RelatedLinks(a, targets), RelatedLinks(b, reached)));
    forall k ensures ContextOf(replayed, k) == ContextOf(b, k) {}
    SameContexts(replayed, b);
  }

  lemma UndoLinkRevisions(a: map<LinkKey, string>, b: map<LinkKey, string>, targets: set<Id>, reached: set<Id>)
    requires LinkFrame(a, b, targets, reached)
    ensures UndoLinkKeys(b.Keys, LinkRevisions(RelatedLinks(a, targets), RelatedLinks(b, reached))) == a.Keys
            <==> forall k | k in a && IncidentTo(k, reached) :: IncidentTo(k, targets)
  {
    var undone := UndoLinkKeys(b.Keys, LinkRevisions(RelatedLinks(a, targets), RelatedLinks(b, reached)));
    if k :| k in a && IncidentTo(k, reached) && !IncidentTo(k, targets) {
      assert ContextOf(a, k) == ContextOf(b, k) && k in b;
      assert k !in undone;
    } else {
      forall k ensures k in undone <==> k in a {
        assert k in b ==> ContextOf(b, k).Some?;
        assert k in a ==> ContextOf(a, k).Some?;
      }
    }
  }

  lemma SameContexts(a: map<LinkKey, string>, b: map<LinkKey, string>)
    requires forall k :: ContextOf(a, k) == ContextOf(b, k)
    ensures a == b
  {
    assert forall k :: (k in a <==> ContextOf(a, k).Some?) && (k in b <==> ContextOf(b, k).Some?);
    assert a.Keys == b.Keys;
    forall k | k in a ensures a[k] == b[k] { assert ContextOf(a, k) == ContextOf(b, k); }
  }

  lemma CommitLinkFrame(s: Store, model: string, r: Request)
    requires Commits(s, model, r) && SourcesLive(s.domain)
    ensures LinkFrame(s.domain.links, TxnOf(s, r).db.links, r.TargetSet(), AfterIds(r, TxnOf(s, r)))
    ensures After(s, model, r).domain == TxnOf(s, r).db
  {
    CommitShape(s, model, r);
    hide Commits, Body, After, RunCallback, Framed, LinkFrame;
    FramedLinks(s.domain, r.TargetSet(), TxnOf(s, r));
  }

  lemma LinkReplay(s: Store, model: string, r: Request)
    requires Commits(s, model, r) && SourcesLive(s.domain)
    ensures ReplayLinks(s.domain.links, EventOf(s, r, TxnOf(s, r)).links) == After(s, model, r).domain.links
  {
    hide Commits, Body, After, RunCallback, RecordRevisions, LinkRevisions, ReplayLinks;
    CommitLinkFrame(s, model, r);
    var t := TxnOf(s, r);
    ReplayLinkRevisions(s.domain.links, t.db.links, r.TargetSet(), AfterIds(r, t));
  }

  /**
   * Undoing the link revisions recovers which links existed exactly when no touched endpoint
   * outside the targets (an `ext:` endpoint, or a new id that older links already pointed to)
   * had a link that does not also involve a target.
   */
  lemma LinkUndoIff(s: Store, model: string, r: Request)
    requires Commits(s, model, r) && SourcesLive(s.domain)
    ensures UndoLinkKeys(After(s, model, r).domain.links.Keys, EventOf(s, r, TxnOf(s, r)).links) == s.domain.links.Keys
            <==> !TouchesHiddenLink(s, r)
  {
    hide Commits, Body, After, RunCallback, RecordRevisions, LinkRevisions, UndoLinkKeys;
    CommitLinkFrame(s, model, r);
    var t := TxnOf(s, r);
    HiddenLinkIsReached(s, r);
    hide HiddenLink, AfterIds, IncidentTo;
    UndoLinkRevisions(s.domain.links, t.db.links, r.TargetSet(), AfterIds(r, t));
  }

  /** A link revision says rightly whether the link existed before exactly when it was not hidden. */
  lemma LinkBeforeIff(s: Store, model: string, r: Request, k: LinkKey)
    requires Commits(s, model, r) && SourcesLive(s.domain)
    requires k in EventOf(s, r, TxnOf(s, r)).links
    ensures var revision := EventOf(s, r, TxnOf(s, r)).links[k];
            && revision.context == ContextOf(After(s, model, r).domain.links, k)
            && (revision.beforeExists == (k in s.domain.links) <==> !HiddenLink(s, r, k))
            && (revision.context == ContextOf(s.domain.links, k) ==> HiddenLink(s, r, k))
  {
    CommitLinkFrame(s, model, r);
    hide Commits, Body, After, RunCallback, RecordRevisions;
    var t := TxnOf(s, r);
    assert k in RelatedLinks(s.domain.links, r.TargetSet()) || k in RelatedLinks(t.db.links, AfterIds(r, t));
  }

  lemma UnrevisedLink(s: Store, model: string, r: Request, k: LinkKey)
    requires Commits(s, model, r) && SourcesLive(s.domain)
    requires k !in EventOf(s, r, TxnOf(s, r)).links
    ensures ContextOf(After(s, model, r).domain.links, k) == ContextOf(s.domain.links, k) && !HiddenLink(s, r, k)
  {
    CommitLinkFrame(s, model, r);
    hide Commits, Body, After, RunCallback, RecordRevisions;
    var t := TxnOf(s, r);
    assert ContextOf(RelatedLinks(s.domain.links, r.TargetSet()), k) == ContextOf(RelatedLinks(t.db.links, AfterIds(r, t)), k) by {
      hide AfterIds;
    }
  }

  // ---------------------------------------------------------------- earlier contexts

  lemma ReadAt(before: map<LinkKey, string>, other: map<LinkKey, string>, after: map<LinkKey, string>, k: LinkKey)
    requires LinkRevisions(other, after) == LinkRevisions(before, after)
    ensures k !in LinkRevisions(before, after) ==> ContextOf(other, k) == ContextOf(before, k)
    ensures k in other <==> k in before
  {
    var rows := LinkRevisions(before, after);
    assert k in rows <==> ContextOf(before, k) != ContextOf(after, k) by { ContextIsPresence(before, after, k); }
    assert k in rows <==> ContextOf(other, k) != ContextOf(after, k) by { ContextIsPresence(other, after, k); }
  }

  lemma ContextIsPresence(before: map<LinkKey, string>, after: map<LinkKey, string>, k: LinkKey)
    ensures k in LinkRevisions(before, after) <==> ContextOf(before, k) != ContextOf(after, k)
    ensures k in LinkRevisions(before, after) ==>
              LinkRevisions(before, after)[k] == LinkRevision(ContextOf(after, k), k in before, k in after)
  {}

  /** Another context of a link whose row says that it existed gives the very same rows. */
  lemma AnotherContext(before: map<LinkKey, string>, after: map<LinkKey, string>, k: LinkKey, context: string)
    requires k in before && k in LinkRevisions(before, after) && Some(context) != ContextOf(after, k)
    ensures LinkRevisions(before[k := context], after) == LinkRevisions(before, after)
  {
    var other := before[k := context];
    forall x ensures ContextOf(other, x) == (if x == k then Some(context) else ContextOf(before, x)) && (x in other <==> x in before) {}
    assert LinkRevisions(other, after).Keys == LinkRevisions(before, after).Keys by {
      forall x ensures x in LinkRevisions(other, after) <==> x in LinkRevisions(before, after) {
        ContextIsPresence(before, after, x);
        ContextIsPresence(other, after, x);
      }
    }
  }

  /** A text that is none of these two. */
  function OtherText(a: string, b: Option<string>): (t: string)
    ensures t != a && Some(t) != b
  {
    var x := a + "'";
    assert |x| > |a|;
    if Some(x) != b then x else assert |x + "'"| > |x|; x + "'"
  }

  /**
   * What link rows and the table they led to tell of the table before: it is the only one they fit
   * exactly if no row says that its link existed. Of a link that existed the context is lost.
   */
  lemma RowsFitOneTableIff(before: map<LinkKey, string>, after: map<LinkKey, string>)
    ensures (forall other :: LinkRevisions(other, after) == LinkRevisions(before, after) ==> other == before)
            <==> forall k | k in LinkRevisions(before, after) :: !LinkRevisions(before, after)[k].beforeExists
  {
    var rows := LinkRevisions(before, after);
    if k :| k in rows && rows[k].beforeExists {
      var other := before[k := OtherText(before[k], ContextOf(after, k))];
      AnotherContext(before, after, k, other[k]);
      assert other[k] != before[k];
    } else {
      forall other | LinkRevisions(other, after) == rows ensures other == before {
        forall k ensures ContextOf(other, k) == ContextOf(before, k) { ReadAt(before, other, after, k); ContextIsPresence(before, after, k); }
        SameContexts(other, before);
      }
    }
  }

  /** The rows of a commit are the true ones exactly if it reached no link that avoids its targets. */
  lemma RowsAreTrueIff(a: map<LinkKey, string>, b: map<LinkKey, string>, targets: set<Id>, reached: set<Id>)
    requires LinkFrame(a, b, targets, reached)
    ensures LinkRevisions(a, b) == LinkRevisions(RelatedLinks(a, targets), RelatedLinks(b, reached))
            <==> forall k | k in a && IncidentTo(k, reached) :: IncidentTo(k, targets)
  {
    var near, rows := LinkRevisions(RelatedLinks(a, targets), RelatedLinks(b, reached)), LinkRevisions(a, b);
    if k :| k in a && IncidentTo(k, reached) && !IncidentTo(k, targets) {
      assert ContextOf(a, k) == ContextOf(b, k);
      assert k in near && k !in rows;
    } else {
      forall k ensures (k in near <==> k in rows) && (k in near ==> near[k] == rows[k]) {
        ContextIsPresence(a, b, k);
        ContextIsPresence(RelatedLinks(a, targets), RelatedLinks(b, reached), k);
      }
      assert near.Keys == rows.Keys;
    }
  }

  lemma EventRowsAreTrueIff(s: Store, model: string, r: Request)
    requires Commits(s, model, r) && SourcesLive(s.domain)
    ensures LinkRevisions(s.domain.links, After(s, model, r).domain.links) == EventOf(s, r, TxnOf(s, r)).links
            <==> !TouchesHiddenLink(s, r)
  {
    CommitLinkFrame(s, model, r);
    HiddenLinkIsReached(s, r);
    hide Commits, Body, After, RunCallback, RecordRevisions, LinkRevisions, RelatedLinks, LinkFrame, AfterIds, IncidentTo, HiddenLink;
    var t := TxnOf(s, r);
    RowsAreTrueIff(s.domain.links, t.db.links, r.TargetSet(), AfterIds(r, t));
  }

  /**
   * From an event's rows and the table after it, the link table before, contexts included, can be told
   * exactly if the commit hid no link and revised none that existed.
   */
  lemma ContextsRecoverableIff(s: Store, model: string, r: Request)
    requires Commits(s, model, r) && SourcesLive(s.domain)
    ensures (forall other :: LinkRevisions(other, After(s, model, r).domain.links) == EventOf(s, r, TxnOf(s, r)).links
                             <==> other == s.domain.links)
            <==> !TouchesHiddenLink(s, r)
                 && forall k | k in EventOf(s, r, TxnOf(s, r)).links :: !EventOf(s, r, TxnOf(s, r)).links[k].beforeExists
  {
    CommitLinkFrame(s, model, r);
    hide *;
    EventRowsAreTrueIff(s, model, r);
    RowsFitOneTableIff(s.domain.links, After(s, model, r).domain.links);
  }

  // ---------------------------------------------------------------- frame and guards

  /** No record outside the targets changes, appears twice or disappears. */
  lemma CommitFrame(s: Store, model: string, r: Request, id: Id)
    requires Commits(s, model, r) && SourcesLive(s.domain)
    requires id in s.domain.memories && id !in r.TargetSet()
    ensures var after := After(s, model, r).domain.memories; id in after && after[id] == s.domain.memories[id]
  {
    CommitShape(s, model, r);
    assert SameRecord(s.domain, TxnOf(s, r).db, id);
  }

  lemma {:induction false} NoKeyFails(d: Domain, tokens: map<string, Token>, keys: seq<string>)
    requires forall k | k in keys :: k in tokens
    ensures KeysFailure(d, tokens, keys).None? <==> forall k | k in keys :: KeyFailure(d, tokens, k).None?
  {
    if keys != [] { NoKeyFails(d, tokens, keys[1..]); }
  }

  /**
   * An action commits only on a store in which every token that is checked still holds: for the
   * records and graphs of its targets, and for every key that reads as a link.
   */
  lemma CommitMeansFresh(s: Store, model: string, r: Request)
    requires Commits(s, model, r)
    ensures var tokens := TokenMap(r.tokens);
            && (forall id | id in r.TargetSet() && Expected(tokens, id).Some? ::
                  id in s.domain.memories && RecordTokenOf(id, s.domain.memories[id]) == Expected(tokens, id).value)
            && (forall id | id in r.TargetSet() && "graph:" + id in tokens ::
                  GraphTokenOf(id, s.domain.links) == tokens["graph:" + id])
            && (forall key | key in tokens :: KeyFailure(s.domain, tokens, key).None?)
  {
    var tokens := TokenMap(r.tokens);
    assert TokenFailure(s.domain, r.TargetSet(), r.tokens).None? by { hide Mutate, Settle, PreconditionFailure; }
    TokenKeysAreKeys(r.tokens);
    NoKeyFails(s.domain, tokens, TokenKeys(r.tokens));
    assert forall id | id in r.TargetSet() :: !TargetStale(s.domain, tokens, id);
  }

  /** The key guards a target: its record, under either spelling that is in force, or its graph. */
  predicate Guards(targets: set<Id>, tokens: map<string, Token>, key: string) {
    exists id | id in targets :: key == id || (key == "record:" + id && id !in tokens) || key == "graph:" + id
  }

  /** What one key must meet: a guard of a target must not read as a link key, any other link key must hold. */
  predicate KeyPasses(d: Domain, targets: set<Id>, tokens: map<string, Token>, key: string)
    requires key in tokens
  {
    if Guards(targets, tokens, key) then LinkTokenKey(key).None? else KeyFailure(d, tokens, key).None?
  }

  /** A guard that holds is a record or a graph token, and no link token equals it. */
  lemma GuardIsNoLinkToken(d: Domain, targets: set<Id>, tokens: map<string, Token>, key: string)
    requires key in tokens && Guards(targets, tokens, key)
    requires forall id | id in targets :: !TargetStale(d, tokens, id)
    ensures KeyFailure(d, tokens, key).None? <==> LinkTokenKey(key).None?
  {
    hide LinkTokenKey;
    var id :| id in targets && (key == id || (key == "record:" + id && id !in tokens) || key == "graph:" + id);
    assert !TargetStale(d, tokens, id);
  }

  /**
   * The exact condition of the token check, for any targets and tokens: every guarded target holds
   * its tokens, every link token holds, and no guard's own key reads as a link key.
   */
  lemma TokensCheckedIff(d: Domain, targets: set<Id>, tokens: seq<(string, Token)>)
    ensures TokenFailure(d, targets, tokens).None?
            <==> && (forall id | id in targets :: !TargetStale(d, TokenMap(tokens), id))
                 && (forall key | key in TokenMap(tokens) :: KeyPasses(d, targets, TokenMap(tokens), key))
  {
    TokenKeysAreKeys(tokens);
    NoKeyFails(d, TokenMap(tokens), TokenKeys(tokens));
    if forall id | id in targets :: !TargetStale(d, TokenMap(tokens), id) {
      hide TargetStale, KeyFailure, LinkTokenKey, TokenMap, TokenKeys, Guards;
      forall key | key in TokenMap(tokens)
        ensures KeyPasses(d, targets, TokenMap(tokens), key) <==> KeyFailure(d, TokenMap(tokens), key).None?
      {
        if Guards(targets, TokenMap(tokens), key) { GuardIsNoLinkToken(d, targets, TokenMap(tokens), key); }
      }
    }
  }

  /** For colon-free targets guarded only by record and graph tokens, the check is exactly that they hold. */
  lemma PlainTokensCheckedIff(d: Domain, targets: set<Id>, tokens: seq<(string, Token)>)
    requires forall id | id in targets :: ColonFree(id)
    requires forall key | key in TokenMap(tokens) ::
               exists id | id in targets :: key == id || key == "record:" + id || key == "graph:" + id
    ensures TokenFailure(d, targets, tokens).None?
            <==> forall id | id in targets :: !TargetStale(d, TokenMap(tokens), id)
  {
    TokensCheckedIff(d, targets, tokens);
    forall key | key in TokenMap(tokens) ensures KeyPasses(d, targets, TokenMap(tokens), key) {
      var id :| id in targets && (key == id || key == "record:" + id || key == "graph:" + id);
      PlainKeysAreNotLinkKeys(id);
    }
  }

  /** Nothing looks at a token under this key: it neither guards a target nor reads as a link key. */
  predicate Ignored(targets: set<Id>, tokens: map<string, Token>, key: string) {
    LinkTokenKey(key).None? && !Guards(targets, tokens, key)
  }

  /** Exactly the ignored keys may carry any token at all without failing the check. */
  lemma TokenIgnoredIff(d: Domain, targets: set<Id>, tokens: seq<(string, Token)>, key: string)
    requires TokenFailure(d, targets, tokens).None?
    ensures (forall t :: TokenFailure(d, targets, tokens + [(key, t)]).None?)
            <==> Ignored(targets, TokenMap(tokens), Canonical(key))
  {
    var k := Canonical(key);
    if Ignored(targets, TokenMap(tokens), k) {
      forall t ensures TokenFailure(d, targets, tokens + [(key, t)]).None? { IgnoredPasses(d, targets, tokens, key, t); }
    } else {
      NoPlainTextPasses(d, targets, tokens, key);
      assert !TokenFailure(d, targets, tokens + [(key, Text("no token"))]).None?;
    }
  }

  lemma OneMoreToken(tokens: seq<(string, Token)>, key: string, t: Token)
    ensures TokenMap(tokens + [(key, t)]) == TokenMap(tokens)[Canonical(key) := t]
  {
    assert (tokens + [(key, t)])[..|tokens|] == tokens;
  }

  lemma IgnoredPasses(d: Domain, targets: set<Id>, tokens: seq<(string, Token)>, key: string, t: Token)
    requires TokenFailure(d, targets, tokens).None? && Ignored(targets, TokenMap(tokens), Canonical(key))
    ensures TokenFailure(d, targets, tokens + [(key, t)]).None?
  {
    OneMoreToken(tokens, key, t);
    TokensCheckedIff(d, targets, tokens);
    TokensCheckedIff(d, targets, tokens + [(key, t)]);
    hide LinkTokenKey, TokenFailure, RecordTokenOf, GraphTokenOf, LinkTokenOf, TokenMap;
    var was, now := TokenMap(tokens), TokenMap(tokens)[Canonical(key) := t];
    forall id | id in targets ensures !TargetStale(d, now, id) {
      assert !TargetStale(d, was, id);
    }
    forall x | x in now ensures KeyPasses(d, targets, now, x) {
      assert x != Canonical(key) ==> KeyPasses(d, targets, was, x);
    }
  }

  lemma NoPlainTextPasses(d: Domain, targets: set<Id>, tokens: seq<(string, Token)>, key: string)
    requires !Ignored(targets, TokenMap(tokens), Canonical(key))
    ensures TokenFailure(d, targets, tokens + [(key, Text("no token"))]).Some?
  {
    OneMoreToken(tokens, key, Text("no token"));
    var all := tokens + [(key, Text("no token"))];
    hide LinkTokenKey, TokenMap, TokenKeys, KeyFailure, TargetStale;
    if Guards(targets, TokenMap(tokens), Canonical(key)) {
      PlainTextIsNoRecord(d, targets, TokenMap(tokens), Canonical(key));
    } else {
      PlainTextIsNoLink(d, TokenMap(all), Canonical(key));
      TokenKeysAreKeys(all);
      NoKeyFails(d, TokenMap(all), TokenKeys(all));
    }
  }

  lemma PlainTextIsNoRecord(d: Domain, targets: set<Id>, tokens: map<string, Token>, key: string)
    requires Guards(targets, tokens, key)
    ensures exists id | id in targets :: TargetStale(d, tokens[key := Text("no token")], id)
  {
    var id :| id in targets && (key == id || (key == "record:" + id && id !in tokens) || key == "graph:" + id);
    assert TargetStale(d, tokens[key := Text("no token")], id);
  }

  lemma PlainTextIsNoLink(d: Domain, tokens: map<string, Token>, key: string)
    requires key in tokens && tokens[key] == Text("no token") && LinkTokenKey(key).Some?
    ensures KeyFailure(d, tokens, key).Some?
  {
    hide LinkTokenKey;
  }

  function WithToken(r: Request, key: string, t: Token): Request { r.(tokens := r.tokens + [(key, t)]) }

  lemma SameCallback(d: Domain, r: Request, key: string, t: Token)
    requires r.operation.Some?
    ensures WithToken(r, key, t).TargetSet() == r.TargetSet()
    ensures Mutate(d, WithToken(r, key, t)) == Mutate(d, r)
  {
    assert WithToken(r, key, t).TargetSet() == r.TargetSet();
    hide RunCalls;
  }

  lemma SettlesIff(s: Store, model: string, r: Request, row: RunRow, m: Mutation)
    requires r.operation.Some?
    ensures Settle(s, model, r, row, m).Success?
            <==> && "" !in m.txn.touched && EventIsNew(s.events, r) && (r.restores.None? || r.restores.value < |s.events|)
                 && "" !in AffectedIds(r, m) && (forall id | id in LocalIds(AffectedIds(r, m)) :: IsUuid(id))
                 && RepairIntent !in r.faults && History !in r.faults && ReceiptPreparation !in r.faults && Commit !in r.faults
  {
    hide QueueOf, EventOf, ReceiptOf, LocalIds, AffectedIds, EventIsNew, IsUuid;
  }

  lemma SameSettling(s: Store, model: string, r: Request, key: string, t: Token, row: RunRow, m: Mutation)
    requires r.operation.Some?
    ensures Settle(s, model, WithToken(r, key, t), row, m).Success? <==> Settle(s, model, r, row, m).Success?
  {
    SameIdentity(s.events, r, key, t, m);
    hide *;
    SettlesIff(s, model, r, row, m);
    SettlesIff(s, model, WithToken(r, key, t), row, m);
  }

  lemma SameIdentity(events: seq<Event>, r: Request, key: string, t: Token, m: Mutation)
    ensures var more := WithToken(r, key, t);
            && (EventIsNew(events, more) <==> EventIsNew(events, r)) && AffectedIds(more, m) == AffectedIds(r, m)
            && more.faults == r.faults && more.restores == r.restores && more.operation == r.operation
  {
    assert WithToken(r, key, t).TargetSet() == r.TargetSet();
  }

  lemma SameAdmission(s: Store, r: Request, key: string, t: Token)
    requires Admit(s, r).Success?
    ensures Admit(s, WithToken(r, key, t))
         == if TokenFailure(s.domain, r.TargetSet(), r.tokens + [(key, t)]).None? then Admit(s, r)
            else Failure(TokenFailure(s.domain, r.TargetSet(), r.tokens + [(key, t)]).value)
  {
    assert WithToken(r, key, t).TargetSet() == r.TargetSet();
    hide TokenFailure, PreconditionFailure;
  }

  lemma StaysWellFormed(r: Request, key: string, t: Token)
    requires WellFormed(r) && t != Text("")
    ensures WellFormed(WithToken(r, key, t))
  {
    OneMoreToken(r.tokens, key, t);
    assert WithToken(r, key, t).TargetSet() == r.TargetSet();
  }

  /** One more token decides nothing but the token check. */
  lemma OnlyTheCheckDecides(s: Store, model: string, r: Request, key: string, t: Token)
    requires Commits(s, model, r) && t != Text("")
    ensures Commits(s, model, WithToken(r, key, t))
            <==> TokenFailure(s.domain, r.TargetSet(), r.tokens + [(key, t)]).None?
  {
    hide Settle, Mutate, Admit, TokenFailure, WellFormed;
    StaysWellFormed(r, key, t);
    assert r.operation.Some? by { CommitHasOperation(s, model, r); }
    SameAdmission(s, r, key, t);
    SameCallback(s.domain, r, key, t);
    SameSettling(s, model, r, key, t, Admit(s, r).value, Mutate(s.domain, r).value);
  }

  lemma CommitHasOperation(s: Store, model: string, r: Request)
    requires Commits(s, model, r)
    ensures r.operation.Some?
  {
    hide Attempt;
  }

  /**
   * To an action that commits, a token can be added under this key whatever the token says, exactly if
   * the key is ignored. A stale token under such a key is accepted in silence.
   */
  lemma CommitIgnoresTokenIff(s: Store, model: string, r: Request, key: string)
    requires Commits(s, model, r)
    ensures (forall t | t != Text("") :: Commits(s, model, WithToken(r, key, t)))
            <==> Ignored(r.TargetSet(), TokenMap(r.tokens), Canonical(key))
  {
    CommitPassesTokens(s, model, r);
    forall t | t != Text("")
      ensures Commits(s, model, WithToken(r, key, t)) <==> TokenFailure(s.domain, r.TargetSet(), r.tokens + [(key, t)]).None?
    {
      OnlyTheCheckDecides(s, model, r, key, t);
    }
    hide Commits, TokenFailure, LinkTokenKey, Guards, TokenMap;
    if Ignored(r.TargetSet(), TokenMap(r.tokens), Canonical(key)) {
      forall t | t != Text("") ensures Commits(s, model, WithToken(r, key, t)) {
        IgnoredPasses(s.domain, r.TargetSet(), r.tokens, key, t);
      }
    } else {
      NoPlainTextPasses(s.domain, r.TargetSet(), r.tokens, key);
      assert !Commits(s, model, WithToken(r, key, Text("no token")));
    }
  }

  /** A guard whose key reads as a link key can never be satisfied: the action never commits. */
  lemma MisreadGuardAlwaysRefused(s: Store, model: string, r: Request, key: string)
    requires key in TokenMap(r.tokens) && Guards(r.TargetSet(), TokenMap(r.tokens), key) && LinkTokenKey(key).Some?
    ensures !Commits(s, model, r)
  {
    if Commits(s, model, r) {
      CommitMeansFresh(s, model, r);
      TokensCheckedIff(s.domain, r.TargetSet(), r.tokens);
      CommitPassesTokens(s, model, r);
      hide Commits, TokenFailure, Guards, LinkTokenKey, KeyFailure, TargetStale;
    }
  }

  lemma CommitPassesTokens(s: Store, model: string, r: Request)
    requires Commits(s, model, r)
    ensures TokenFailure(s.domain, r.TargetSet(), r.tokens).None?
  {
    hide TokenFailure, Mutate, Settle, PreconditionFailure;
  }

  /** So an external target cannot be guarded by its graph. */
  lemma ExternalGraphTokenAlwaysRefused(s: Store, model: string, r: Request, x: string)
    requires ColonFree(x) && x != "" && "ext:" + x in r.TargetSet() && "graph:ext:" + x in TokenMap(r.tokens)
    ensures !Commits(s, model, r)
  {
    hide Commits, LinkTokenKey;
    assert "graph:" + ("ext:" + x) == "graph:ext:" + x;
    ExternalGraphKeyIsALinkKey(x);
    MisreadGuardAlwaysRefused(s, model, r, "graph:ext:" + x);
  }

  /** Nor can it, or any other target with one colon, by its record under the long spelling. */
  lemma ColonRecordTokenAlwaysRefused(s: Store, model: string, r: Request, a: string, b: string)
    requires ColonFree(a) && a != "" && ColonFree(b) && b != ""
    requires a + ":" + b in r.TargetSet() && a + ":" + b !in TokenMap(r.tokens)
    requires "record:" + (a + ":" + b) in TokenMap(r.tokens)
    ensures !Commits(s, model, r)
  {
    hide Commits, LinkTokenKey;
    RecordKeyIsALinkKey(a, b);
    MisreadGuardAlwaysRefused(s, model, r, "record:" + (a + ":" + b));
  }

  /** A target with two colons cannot be guarded by its record under the bare spelling. */
  lemma BareRecordTokenAlwaysRefused(s: Store, model: string, r: Request, a: string, b: string, c: string)
    requires ColonFree(a) && a != "" && a != "link" && ColonFree(b) && b != "" && ColonFree(c) && c != ""
    requires a + ":" + (b + ":" + c) in r.TargetSet() && a + ":" + (b + ":" + c) in TokenMap(r.tokens)
    ensures !Commits(s, model, r)
  {
    hide Commits, LinkTokenKey;
    BareKeyIsALinkKey(a, b, c);
    MisreadGuardAlwaysRefused(s, model, r, a + ":" + (b + ":" + c));
  }

  // ---------------------------------------------------------------- repair coverage

  ghost predicate QueueExtends(q: RepairQueue.Queue, r: RepairQueue.Queue) {
    && q.nextId <= r.nextId
    && (forall i | i in q.items :: i in r.items && r.items[i] == q.items[i])
    && (forall i | i in r.items && i !in q.items :: q.nextId <= i)
  }

  lemma {:induction false} IntentsCover(
      q: RepairQueue.Queue, ids: seq<Id>, before: map<Id, Memory>, after: map<Id, Memory>, model: string, now: real)
    requires RepairQueue.Inv(q)
    ensures var r := Intents(q, ids, before, after, model, now);
            && RepairQueue.Inv(r) && QueueExtends(q, r)
            && (forall id | id in ids && NeedsRepair(before, after, id) ::
                  RepairQueue.HasVersion(r, RepairVersion(id, after[id], model)))
            && (forall i | i in r.items && i !in q.items ::
                  var id := r.items[i].version.memoryId;
                  id in ids && NeedsRepair(before, after, id)
                  && r.items[i] == RepairQueue.FreshItem(RepairVersion(id, after[id], model), FirstWorkspace(after[id]), now, now))
  {
    if ids != [] {
      var init, last := ids[..|ids| - 1], ids[|ids| - 1];
      IntentsCover(q, init, before, after, model, now);
      var m := Intents(q, init, before, after, model, now);
      var r := Intents(q, ids, before, after, model, now);
      assert forall id :: id in ids <==> id in init || id == last;
      if NeedsRepair(before, after, last) {
        var v := RepairVersion(last, after[last], model);
        RepairQueue.StepKeepsInv(m, RepairQueue.Enqueue(v, FirstWorkspace(after[last]), now, now));
        InsertAdds(m, v, FirstWorkspace(after[last]), now, now);
        forall id | id in init && NeedsRepair(before, after, id)
          ensures RepairQueue.HasVersion(r, RepairVersion(id, after[id], model))
        {
          var i :| i in m.items && m.items[i].version == RepairVersion(id, after[id], model);
          assert i in r.items && r.items[i].version == RepairVersion(id, after[id], model);
        }
      }
    }
  }

  lemma InsertAdds(q: RepairQueue.Queue, v: RepairQueue.Version, w: Option<string>, readyAt: real, now: real)
    requires RepairQueue.Inv(q)
    ensures var r := RepairQueue.Insert(q, v, w, readyAt, now);
            && QueueExtends(q, r) && RepairQueue.HasVersion(r, v)
            && (forall i | i in r.items && i !in q.items :: r.items[i] == RepairQueue.FreshItem(v, w, readyAt, now))
  {
    var r := RepairQueue.Insert(q, v, w, readyAt, now);
    if !RepairQueue.HasVersion(q, v) { assert r.items[q.nextId].version == v; }
  }

  /** An action queues this record: it created it, changed it semantically, or hid it. */
  ghost predicate Queues(s: Store, r: Request, id: Id) {
    Snap(TxnOf(s, r).db.memories, id) != Snap(s.domain.memories, id) || Hidden(s, r, id)
  }

  lemma QueuesIffNeeded(s: Store, model: string, r: Request, id: Id)
    requires Commits(s, model, r) && SourcesLive(s.domain) && id in TxnOf(s, r).db.memories
    ensures var after := Restrict(TxnOf(s, r).db.memories, AfterIds(r, TxnOf(s, r)));
            && (id in after ==> after[id] == TxnOf(s, r).db.memories[id])
            && (NeedsRepair(Restrict(s.domain.memories, r.TargetSet()), after, id) <==> Queues(s, r, id))
            && (NeedsRepair(Restrict(s.domain.memories, r.TargetSet()), after, id) ==> id in after)
  {
    CommitRecordFrame(s, model, r);
    HiddenMeansReached(s, r);
    hide Commits, Body, After, RunCallback, SnapshotOf, AfterIds, Hidden;
  }

  /**
   * Every record that an action created or changed semantically has a queue row for its new version,
   * the rows already queued are untouched, and a row is added for a version not queued before exactly
   * if its record was created, changed or hidden: a hidden record is queued although it did not change.
   */
  lemma RepairCoverage(s: Store, model: string, r: Request)
    requires Commits(s, model, r) && SourcesLive(s.domain) && RepairQueue.Inv(s.queue)
    ensures var after := After(s, model, r);
            && after.domain == TxnOf(s, r).db
            && RepairQueue.Inv(after.queue) && QueueExtends(s.queue, after.queue)
            && (forall id | id in after.domain.memories && Queues(s, r, id) ::
                  RepairQueue.HasVersion(after.queue, RepairVersion(id, after.domain.memories[id], model)))
            && (forall i | i in after.queue.items && i !in s.queue.items ::
                  var id := after.queue.items[i].version.memoryId;
                  id in after.domain.memories && Queues(s, r, id)
                  && after.queue.items[i] == RepairQueue.FreshItem(RepairVersion(id, after.domain.memories[id], model),
                                                                  FirstWorkspace(after.domain.memories[id]), r.now, r.now))
  {
    CommitShape(s, model, r);
    forall id | id in TxnOf(s, r).db.memories
      ensures var after := Restrict(TxnOf(s, r).db.memories, AfterIds(r, TxnOf(s, r)));
              && (id in after ==> after[id] == TxnOf(s, r).db.memories[id])
              && (NeedsRepair(Restrict(s.domain.memories, r.TargetSet()), after, id) <==> Queues(s, r, id))
              && (NeedsRepair(Restrict(s.domain.memories, r.TargetSet()), after, id) ==> id in after)
    {
      QueuesIffNeeded(s, model, r, id);
    }
    hide Commits, Attempt, Body, SnapshotOf, RunCallback, EventOf, Queues, NeedsRepair, Framed;
    var t := TxnOf(s, r);
    var before, after := Restrict(s.domain.memories, r.TargetSet()), Restrict(t.db.memories, AfterIds(r, t));
    assert forall id | id in after :: id in t.db.memories;
    IntentsCover(s.queue, TextOrder.Sorted(after.Keys), before, after, model, r.now);
    forall id | id in t.db.memories && Queues(s, r, id)
      ensures RepairQueue.HasVersion(After(s, model, r).queue, RepairVersion(id, t.db.memories[id], model))
    {
      assert id in TextOrder.Sorted(after.Keys);
    }
  }

  /**
   * An added row says what is to be embedded: the record's text of this time of update, for the model in
   * use, from now on, on behalf of the first of the record's workspaces; nobody has worked on it.
   */
  lemma AddedRowTells(s: Store, model: string, r: Request, i: nat)
    requires Commits(s, model, r) && SourcesLive(s.domain) && RepairQueue.Inv(s.queue)
    requires i in After(s, model, r).queue.items && i !in s.queue.items
    ensures var after := After(s, model, r);
            var row := after.queue.items[i];
            var id := row.version.memoryId;
            && id in after.domain.memories
            && row.version.modelName == model && row.version.memoryUpdatedAt == after.domain.memories[id].updatedAt
            && (row.workspaceId.Some? <==> after.domain.memories[id].workspaces != {})
            && (row.workspaceId.Some? ==> TextOrder.Least(row.workspaceId.value, after.domain.memories[id].workspaces))
            && row.status.Pending? && row.attemptCount == 0 && row.availableAt == row.createdAt == row.updatedAt == r.now
            && row.claimedAt.None? && row.completedAt.None? && row.leaseOwner.None? && row.leaseExpiresAt.None? && row.lastError.None?
  {
    RepairCoverage(s, model, r);
    hide Commits, After, Body, RunCallback, Queues, FirstWorkspace, QueueExtends, RepairQueue.Inv;
    var after := After(s, model, r);
    FirstWorkspaceIsLeast(after.domain.memories[after.queue.items[i].version.memoryId]);
  }

  lemma FirstWorkspaceIsLeast(m: Memory)
    ensures FirstWorkspace(m).Some? <==> m.workspaces != {}
    ensures FirstWorkspace(m).Some? ==> TextOrder.Least(FirstWorkspace(m).value, m.workspaces)
  {
    var sorted := TextOrder.Sorted(m.workspaces);
    if w :| w in m.workspaces { assert w in sorted; }
    if sorted != [] {
      assert sorted[0] in sorted;
      forall x | x in m.workspaces ensures TextOrder.Leq(sorted[0], x) {
        assert x in sorted;
        TextOrder.Reflexive(x);
        var j :| 0 <= j < |sorted| && sorted[j] == x;
        assert j > 0 ==> TextOrder.Leq(sorted[0], sorted[j]);
      }
    } else {
      assert m.workspaces == {} by { assert forall x :: x in sorted <==> x in m.workspaces; }
    }
  }

  /** So whether an action adds a row for a version not queued before is known exactly. */
  lemma RepairRowAddedIff(s: Store, model: string, r: Request, id: Id)
    requires Commits(s, model, r) && SourcesLive(s.domain) && RepairQueue.Inv(s.queue)
    requires id in After(s, model, r).domain.memories
    requires !RepairQueue.HasVersion(s.queue, RepairVersion(id, After(s, model, r).domain.memories[id], model))
    ensures RepairQueue.HasVersion(After(s, model, r).queue, RepairVersion(id, After(s, model, r).domain.memories[id], model))
            <==> Snap(After(s, model, r).domain.memories, id) != Snap(s.domain.memories, id) || Hidden(s, r, id)
  {
    RepairCoverage(s, model, r);
    hide Commits, Body, After, RunCallback, SnapshotOf, Hidden;
    var v, q := RepairVersion(id, After(s, model, r).domain.memories[id], model), After(s, model, r).queue;
    if RepairQueue.HasVersion(q, v) {
      var i :| i in q.items && q.items[i].version == v;
      assert i !in s.queue.items;
    }
  }

  /**
   * A row is no promise of work: after the commit the version waits to be embedded exactly if it waited
   * before, or was never queued and is now. A version queued and completed earlier is not queued again.
   */
  lemma RepairWaitsIff(s: Store, model: string, r: Request, id: Id)
    requires Commits(s, model, r) && SourcesLive(s.domain) && RepairQueue.Inv(s.queue)
    requires id in After(s, model, r).domain.memories
    ensures var v := RepairVersion(id, After(s, model, r).domain.memories[id], model);
            RepairQueue.Waits(After(s, model, r).queue, v)
            <==> RepairQueue.Waits(s.queue, v) || (!RepairQueue.HasVersion(s.queue, v) && Queues(s, r, id))
  {
    RepairCoverage(s, model, r);
    var after := After(s, model, r);
    var v := RepairVersion(id, after.domain.memories[id], model);
    assert v.memoryId == id;
    hide Commits, Body, After, RunCallback, SnapshotOf, Queues, RepairVersion;
    if RepairQueue.Waits(s.queue, v) {
      var i :| i in s.queue.items && s.queue.items[i].version == v && RepairQueue.Unfinished(s.queue, i);
      assert after.queue.items[i] == s.queue.items[i];
    } else if RepairQueue.HasVersion(s.queue, v) {
      var i :| i in s.queue.items && s.queue.items[i].version == v;
      assert after.queue.items[i] == s.queue.items[i];
      hide QueueExtends;
      RepairQueue.OneRowWaits(after.queue, v, i);
    } else if Queues(s, r, id) {
      var i :| i in after.queue.items && after.queue.items[i].version == v;
      assert i !in s.queue.items;
    }
  }

  /** A hidden record is unchanged, and is queued for repair all the same. */
  lemma HiddenIsQueued(s: Store, model: string, r: Request, id: Id)
    requires Commits(s, model, r) && SourcesLive(s.domain) && RepairQueue.Inv(s.queue) && Hidden(s, r, id)
    ensures var after := After(s, model, r);
            && id in after.domain.memories && after.domain.memories[id] == s.domain.memories[id]
            && RepairQueue.HasVersion(after.queue, RepairVersion(id, s.domain.memories[id], model))
  {
    RepairCoverage(s, model, r);
    hide Commits, Body, After, RunCallback;
    CommitFrame(s, model, r, id);
  }
}
