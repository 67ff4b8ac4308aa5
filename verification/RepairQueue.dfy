/**
 * The embedding repair queue: versioned work items handed out under expiring leases.
 * A transaction of the queue is one step; a run is any sequence of legal steps by any callers.
 */
module RepairQueue {
  import opened Basics

  datatype Status = Pending | Running | Completed

  /** What the table keeps unique: one item per memory version and embedding model. */
  datatype Version = Version(memoryId: string, modelName: string, memoryUpdatedAt: string)

  datatype Item = Item(
    version: Version,
    workspaceId: Option<string>,
    status: Status,
    attemptCount: nat,
    availableAt: real,
    createdAt: real,
    updatedAt: real,
    claimedAt: Option<real>,
    completedAt: Option<real>,
    leaseOwner: Option<string>,
    leaseExpiresAt: Option<real>,
    lastError: Option<string>)

  /** Fresh random identifiers are modelled by a counter: an identifier is never used twice. */
  datatype Queue = Queue(items: map<nat, Item>, nextId: nat)

  datatype Step =
    | Enqueue(version: Version, workspaceId: Option<string>, readyAt: real, now: real)
    | Claim(owner: string, scope: Option<string>, limit: nat, now: real, ttl: real, picked: set<nat>)
    | Complete(id: nat, now: real)
    | Release(id: nat, now: real, error: Option<string>)
    | Prune(olderThan: real, limit: nat, now: real, picked: set<nat>)

  predicate HasVersion(q: Queue, v: Version) {
    exists id | id in q.items :: q.items[id].version == v
  }

  function FreshItem(v: Version, workspaceId: Option<string>, readyAt: real, now: real): Item {
    Item(v, workspaceId, Pending, 0, readyAt, now, now, None, None, None, None, None)
  }

  /** `INSERT` guarded by the version key: used by `enqueue_unique` and by curation actions. */
  function Insert(q: Queue, v: Version, workspaceId: Option<string>, readyAt: real, now: real): Queue {
    if HasVersion(q, v) then q
    else Queue(q.items[q.nextId := FreshItem(v, workspaceId, readyAt, now)], q.nextId + 1)
  }

  predicate InScope(item: Item, scope: Option<string>) {
    match scope
    case None => item.workspaceId.None?
    case Some(w) => w == "*" || item.workspaceId == Some(w)
  }

  predicate Claimable(item: Item, scope: Option<string>, now: real) {
    && InScope(item, scope)
    && (|| (item.status.Pending? && item.availableAt <= now)
        || (item.status.Running? && item.leaseExpiresAt.Some? && item.leaseExpiresAt.value <= now))
  }

  function ClaimKeys(q: Queue, scope: Option<string>, now: real): map<nat, real> {
    map id | id in q.items && Claimable(q.items[id], scope, now) :: q.items[id].createdAt
  }

  function PruneKeys(q: Queue, olderThan: real, now: real): map<nat, real> {
    map id | id in q.items && q.items[id].status.Completed? && q.items[id].completedAt.Some?
             && q.items[id].completedAt.value <= now - (if olderThan < 0.0 then 0.0 else olderThan)
      :: q.items[id].completedAt.value
  }

  /** `ORDER BY key ASC LIMIT limit`: which of several equal keys come first is left open. */
  ghost predicate FirstBy(keys: map<nat, real>, limit: nat, picked: set<nat>) {
    && picked <= keys.Keys
    && |picked| == (if limit < |keys| then limit else |keys|)
    && forall i, j | i in picked && j in keys.Keys - picked :: keys[i] <= keys[j]
  }

  ghost predicate Legal(q: Queue, step: Step) {
    match step
    case Claim(_, scope, limit, now, _, picked) => limit >= 1 && FirstBy(ClaimKeys(q, scope, now), limit, picked)
    case Prune(olderThan, limit, now, picked) => FirstBy(PruneKeys(q, olderThan, now), limit, picked)
    case _ => true
  }

  function Leased(item: Item, owner: string, now: real, ttl: real): Item {
    item.(status := Running, attemptCount := item.attemptCount + 1, updatedAt := now, claimedAt := Some(now),
          leaseOwner := Some(owner), leaseExpiresAt := Some(now + ttl), lastError := None)
  }

  function Done(item: Item, now: real): Item {
    item.(status := Completed, updatedAt := now, completedAt := Some(now),
          leaseOwner := None, leaseExpiresAt := None, lastError := None)
  }

  function Freed(item: Item, now: real, error: Option<string>): Item {
    item.(status := Pending, updatedAt := now, leaseOwner := None, leaseExpiresAt := None, lastError := error)
  }

  predicate IsRunning(q: Queue, id: nat) {
    id in q.items && q.items[id].status.Running?
  }

  function Next(q: Queue, step: Step): Queue {
    match step
    case Enqueue(v, w, readyAt, now) => Insert(q, v, w, readyAt, now)
    case Claim(owner, _, _, now, ttl, picked) =>
      q.(items := map id | id in q.items ::
                    if id in picked then Leased(q.items[id], owner, now, ttl) else q.items[id])
    case Complete(id, now) =>
      if IsRunning(q, id) then q.(items := q.items[id := Done(q.items[id], now)]) else q
    case Release(id, now, error) =>
      if IsRunning(q, id) then q.(items := q.items[id := Freed(q.items[id], now, error)]) else q
    case Prune(_, _, _, picked) => q.(items := q.items - picked)
  }

  function Run(q: Queue, steps: seq<Step>): Queue
    decreases steps
  {
    if steps == [] then q else Run(Next(q, steps[0]), steps[1..])
  }

  ghost predicate LegalRun(q: Queue, steps: seq<Step>)
    decreases steps
  {
    steps == [] || (Legal(q, steps[0]) && LegalRun(Next(q, steps[0]), steps[1..]))
  }

  // ---------------------------------------------------------------- what every step keeps

  predicate WellFormed(item: Item) {
    && (item.status.Running? <==> item.leaseOwner.Some?)
    && (item.status.Running? <==> item.leaseExpiresAt.Some?)
    && (item.status.Completed? <==> item.completedAt.Some?)
  }

  ghost predicate Inv(q: Queue) {
    && (forall id | id in q.items :: id < q.nextId && WellFormed(q.items[id]))
    && (forall i, j | i in q.items && j in q.items && q.items[i].version == q.items[j].version :: i == j)
  }

  lemma StepKeepsInv(q: Queue, step: Step)
    requires Inv(q) && Legal(q, step)
    ensures Inv(Next(q, step))
  {
    var r := Next(q, step);
    forall id | id in r.items ensures id < r.nextId && WellFormed(r.items[id]) {
      if step.Claim? && id in step.picked { assert id in ClaimKeys(q, step.scope, step.now); }
    }
  }

  lemma {:induction false} RunKeepsInv(q: Queue, steps: seq<Step>)
    requires Inv(q) && LegalRun(q, steps)
    ensures Inv(Run(q, steps))
    decreases steps
  {
    if steps != [] {
      StepKeepsInv(q, steps[0]);
      RunKeepsInv(Next(q, steps[0]), steps[1..]);
    }
  }

  // ---------------------------------------------------------------- which rows a step takes, and what it makes of them

  /** A row that a claim of this scope may take now: due or abandoned, and in a workspace asked for. */
  predicate MayTake(item: Item, scope: Option<string>, now: real) {
    && ((item.status == Pending && item.availableAt <= now)
        || (item.status == Running && item.leaseExpiresAt.Some? && item.leaseExpiresAt.value <= now))
    && (scope.None? ==> item.workspaceId.None?)
    && (scope.Some? && scope.value != "*" ==> item.workspaceId == scope)
  }

  /** A row that a pruning may remove: completed at least so long ago; a negative age counts as none. */
  predicate MayPrune(item: Item, olderThan: real, now: real) {
    && item.status == Completed && item.completedAt.Some?
    && item.completedAt.value <= now && item.completedAt.value + olderThan <= now
  }

  lemma FirstByIff(keys: map<nat, real>, limit: nat, picked: set<nat>)
    ensures FirstBy(keys, limit, picked)
            <==> && (forall i | i in picked :: i in keys) && |picked| <= limit
                 && (forall j | j in keys && j !in picked :: |picked| == limit)
                 && (forall i, j | i in picked && j in keys && j !in picked :: i in keys && keys[i] <= keys[j])
  {
    if picked <= keys.Keys {
      SubsetCount(picked, keys.Keys);
      assert keys.Keys == picked + (keys.Keys - picked);
      assert forall j :: j in keys.Keys - picked <==> j in keys && j !in picked;
      assert |keys| == |keys.Keys|;
    }
  }

  lemma SubsetCount(a: set<nat>, b: set<nat>)
    requires a <= b
    ensures |a| <= |b| && (|a| == |b| <==> a == b)
  {
    assert b == a + (b - a);
    assert |b| == |a| + |b - a|;
  }

  /**
   * A claim is legal exactly if it takes rows that may be taken, no more than its limit, leaves none of
   * them out unless the limit is reached, and none that is older than a row it takes.
   */
  lemma ClaimLegalIff(q: Queue, owner: string, scope: Option<string>, limit: nat, now: real, ttl: real, picked: set<nat>)
    ensures Legal(q, Claim(owner, scope, limit, now, ttl, picked))
            <==> && limit >= 1 && |picked| <= limit && (forall i | i in picked :: i in q.items && MayTake(q.items[i], scope, now))
                 && (forall j | j in q.items && MayTake(q.items[j], scope, now) && j !in picked :: |picked| == limit)
                 && (forall i, j | i in picked && j in q.items && MayTake(q.items[j], scope, now) && j !in picked ::
                       i in q.items && q.items[i].createdAt <= q.items[j].createdAt)
  {
    var keys := ClaimKeys(q, scope, now);
    assert forall i :: i in keys <==> i in q.items && MayTake(q.items[i], scope, now);
    assert forall i | i in keys :: keys[i] == q.items[i].createdAt;
    FirstByIff(keys, limit, picked);
    hide ClaimKeys, FirstBy, MayTake;
  }

  /** The same for pruning, the longest completed rows first. */
  lemma PruneLegalIff(q: Queue, olderThan: real, limit: nat, now: real, picked: set<nat>)
    ensures Legal(q, Prune(olderThan, limit, now, picked))
            <==> && |picked| <= limit && (forall i | i in picked :: i in q.items && MayPrune(q.items[i], olderThan, now))
                 && (forall j | j in q.items && MayPrune(q.items[j], olderThan, now) && j !in picked :: |picked| == limit)
                 && (forall i, j | i in picked && j in q.items && MayPrune(q.items[j], olderThan, now) && j !in picked ::
                       i in q.items && MayPrune(q.items[i], olderThan, now) && q.items[i].completedAt.value <= q.items[j].completedAt.value)
  {
    var keys := PruneKeys(q, olderThan, now);
    assert forall i :: i in keys <==> i in q.items && MayPrune(q.items[i], olderThan, now);
    assert forall i | i in keys :: keys[i] == q.items[i].completedAt.value;
    FirstByIff(keys, limit, picked);
    hide PruneKeys, FirstBy;
  }

  /** What was enqueued stays as it was: its version, its workspace, when it became due and when it was made. */
  predicate SameWork(a: Item, b: Item) {
    a.version == b.version && a.workspaceId == b.workspaceId && a.availableAt == b.availableAt && a.createdAt == b.createdAt
  }

  /**
   * What a step makes of a row, field by field. A claim leases exactly the rows it takes to its owner for
   * its time, a completion and a release end the lease of a running row alone, and everything else stays.
   */
  lemma RowAfter(q: Queue, step: Step, i: nat)
    requires Inv(q) && Legal(q, step) && i in q.items
    ensures i in Next(q, step).items <==> !(step.Prune? && i in step.picked)
    ensures i in Next(q, step).items ==>
              var (was, row) := (q.items[i], Next(q, step).items[i]);
              && SameWork(was, row)
              && (if step.Claim? && i in step.picked then
                    && row.status == Running && row.leaseOwner == Some(step.owner) && row.leaseExpiresAt == Some(step.now + step.ttl)
                    && row.claimedAt == Some(step.now) && row.updatedAt == step.now && row.attemptCount == was.attemptCount + 1
                    && row.lastError == None && row.completedAt == was.completedAt
                  else if step.Complete? && step.id == i && was.status == Running then
                    && row.status == Completed && row.completedAt == Some(step.now) && row.updatedAt == step.now
                    && row.leaseOwner == None && row.leaseExpiresAt == None && row.lastError == None
                    && row.attemptCount == was.attemptCount && row.claimedAt == was.claimedAt
                  else if step.Release? && step.id == i && was.status == Running then
                    && row.status == Pending && row.lastError == step.error && row.updatedAt == step.now
                    && row.leaseOwner == None && row.leaseExpiresAt == None
                    && row.attemptCount == was.attemptCount && row.claimedAt == was.claimedAt && row.completedAt == was.completedAt
                  else row == was)
  {}

  /** Enqueuing adds one pending row that nobody worked on, exactly if the version has none yet. */
  lemma EnqueueAdds(q: Queue, v: Version, w: Option<string>, readyAt: real, now: real)
    requires Inv(q)
    ensures var r := Next(q, Enqueue(v, w, readyAt, now));
            && ((exists i | i in q.items :: q.items[i].version == v) <==> r == q)
            && (r != q ==>
                  && r.items.Keys == q.items.Keys + {q.nextId} && (forall i | i in q.items :: r.items[i] == q.items[i])
                  && r.items[q.nextId].version == v && r.items[q.nextId].workspaceId == w && r.items[q.nextId].status == Pending
                  && r.items[q.nextId].availableAt == readyAt && r.items[q.nextId].createdAt == now && r.items[q.nextId].updatedAt == now
                  && r.items[q.nextId].attemptCount == 0 && r.items[q.nextId].claimedAt == None && r.items[q.nextId].completedAt == None
                  && r.items[q.nextId].leaseOwner == None && r.items[q.nextId].leaseExpiresAt == None && r.items[q.nextId].lastError == None)
  {}

  // ---------------------------------------------------------------- leases over whole runs

  predicate Claims(step: Step, id: nat) { step.Claim? && id in step.picked }

  predicate Releases(step: Step, id: nat) { step.Release? && step.id == id }

  /** The item is out of reach until `expiry`: still leased, or done, or gone for good. */
  ghost predicate HeldUntil(q: Queue, id: nat, expiry: real) {
    && id < q.nextId
    && (id in q.items ==> || q.items[id].status.Completed?
                          || (q.items[id].status.Running? && q.items[id].leaseExpiresAt == Some(expiry)))
  }

  lemma HeldStep(q: Queue, step: Step, id: nat, expiry: real)
    requires Inv(q) && Legal(q, step) && HeldUntil(q, id, expiry)
    requires !Claims(step, id) && !Releases(step, id)
    ensures HeldUntil(Next(q, step), id, expiry)
  {}

  lemma {:induction false} HeldRun(q: Queue, steps: seq<Step>, id: nat, expiry: real)
    requires Inv(q) && LegalRun(q, steps) && HeldUntil(q, id, expiry)
    requires forall s | s in steps :: !Claims(s, id) && !Releases(s, id)
    ensures HeldUntil(Run(q, steps), id, expiry)
    decreases steps
  {
    if steps != [] {
      StepKeepsInv(q, steps[0]);
      HeldStep(q, steps[0], id, expiry);
      HeldRun(Next(q, steps[0]), steps[1..], id, expiry);
    }
  }

  /**
   * Lease exclusivity. Between two successive claims of one item by anyone, with anything else
   * happening in between, either the item was released or the first lease had already expired.
   */
  lemma LeaseExclusive(q: Queue, first: Step, between: seq<Step>, second: Step, id: nat)
    requires Inv(q) && LegalRun(q, [first] + between + [second])
    requires first.Claim? && Claims(first, id) && second.Claim? && Claims(second, id)
    requires forall s | s in between :: !Claims(s, id)
    ensures (exists s | s in between :: Releases(s, id)) || first.now + first.ttl <= second.now
  {
    hide *;
    LegalSplit(q, [first] + between, [second]);
    LegalSplit(q, [first], between);
    RunSplit(q, [first], between);
    OneStep(q, first);
    var q1 := Next(q, first);
    var q2 := Run(q1, between);
    OneStep(q2, second);
    StepKeepsInv(q, first);
    RunKeepsInv(q1, between);
    if forall s | s in between :: !Releases(s, id) {
      ClaimHolds(q, first, id);
      HeldRun(q1, between, id, first.now + first.ttl);
      ClaimWaits(q2, second, id, first.now + first.ttl);
    }
  }

  lemma OneStep(q: Queue, step: Step)
    ensures Run(q, [step]) == Next(q, step) && (LegalRun(q, [step]) <==> Legal(q, step))
  {
    assert [step][1..] == [];
    hide Next, Legal;
  }

  lemma ClaimHolds(q: Queue, step: Step, id: nat)
    requires Inv(q) && Legal(q, step) && step.Claim? && Claims(step, id)
    ensures HeldUntil(Next(q, step), id, step.now + step.ttl)
  {
    assert id in ClaimKeys(q, step.scope, step.now);
  }

  lemma ClaimWaits(q: Queue, step: Step, id: nat, expiry: real)
    requires Inv(q) && Legal(q, step) && step.Claim? && Claims(step, id) && HeldUntil(q, id, expiry)
    ensures expiry <= step.now
  {
    assert id in ClaimKeys(q, step.scope, step.now);
  }

  /** A completed item is never handed out again, in any continuation. */
  lemma {:induction false} CompletedNeverClaimed(q: Queue, steps: seq<Step>, id: nat)
    requires Inv(q) && LegalRun(q, steps)
    requires id < q.nextId && (id in q.items ==> q.items[id].status.Completed?)
    ensures forall s | s in steps :: !Claims(s, id)
    decreases steps
  {
    if steps != [] {
      StepKeepsInv(q, steps[0]);
      CompletedNeverClaimed(Next(q, steps[0]), steps[1..], id);
    }
  }

  lemma {:induction false} RunSplit(q: Queue, a: seq<Step>, b: seq<Step>)
    ensures Run(q, a + b) == Run(Run(q, a), b)
    decreases a
  {
    if a == [] { assert a + b == b; } else {
      assert (a + b)[1..] == a[1..] + b;
      RunSplit(Next(q, a[0]), a[1..], b);
    }
  }

  lemma {:induction false} LegalSplit(q: Queue, a: seq<Step>, b: seq<Step>)
    ensures LegalRun(q, a + b) <==> LegalRun(q, a) && LegalRun(Run(q, a), b)
    decreases a
  {
    if a == [] { assert a + b == b; } else {
      assert (a + b)[1..] == a[1..] + b;
      LegalSplit(Next(q, a[0]), a[1..], b);
    }
  }

  // ---------------------------------------------------------------- counting over whole runs

  function ClaimCount(steps: seq<Step>, id: nat): nat {
    if steps == [] then 0 else (if Claims(steps[0], id) then 1 else 0) + ClaimCount(steps[1..], id)
  }

  function Attempts(q: Queue, id: nat): nat { if id in q.items then q.items[id].attemptCount else 0 }

  /** The attempt counter of every surviving item is the number of times it was claimed. */
  lemma {:induction false} AttemptsCountClaims(q: Queue, steps: seq<Step>, id: nat)
    requires Inv(q) && LegalRun(q, steps) && id in Run(q, steps).items
    ensures Run(q, steps).items[id].attemptCount == Attempts(q, id) + ClaimCount(steps, id)
    decreases steps
  {
    if steps != [] {
      StepKeepsInv(q, steps[0]);
      var r := Next(q, steps[0]);
      if id !in r.items && id < r.nextId { GoneForGood(r, steps[1..], id); }
      if Claims(steps[0], id) { assert id in ClaimKeys(q, steps[0].scope, steps[0].now); }
      AttemptsCountClaims(r, steps[1..], id);
    }
  }

  lemma {:induction false} GoneForGood(q: Queue, steps: seq<Step>, id: nat)
    requires id < q.nextId && id !in q.items
    ensures id !in Run(q, steps).items
    decreases steps
  {
    if steps != [] { GoneForGood(Next(q, steps[0]), steps[1..], id); }
  }

  function CreatedBy(q: Queue, steps: seq<Step>): nat
    decreases steps
  {
    if steps == [] then 0
    else (if steps[0].Enqueue? && !HasVersion(q, steps[0].version) then 1 else 0)
         + CreatedBy(Next(q, steps[0]), steps[1..])
  }

  function PrunedBy(steps: seq<Step>): nat {
    if steps == [] then 0 else (if steps[0].Prune? then |steps[0].picked| else 0) + PrunedBy(steps[1..])
  }

  function WithStatus(q: Queue, status: Status): set<nat> {
    set id | id in q.items && q.items[id].status == status
  }

  lemma StatusPartition(q: Queue)
    ensures |q.items| == |WithStatus(q, Pending)| + |WithStatus(q, Running)| + |WithStatus(q, Completed)|
  {
    var p, r, c := WithStatus(q, Pending), WithStatus(q, Running), WithStatus(q, Completed);
    assert q.items.Keys == p + r + c;
    assert |p + r| == |p| + |r|;
    assert |p + r + c| == |p + r| + |c|;
  }

  /** Items are neither lost nor duplicated: those created are pending, running, completed or pruned. */
  lemma {:induction false} Conservation(q: Queue, steps: seq<Step>)
    requires Inv(q) && LegalRun(q, steps)
    ensures var r := Run(q, steps);
            |q.items| + CreatedBy(q, steps)
            == |WithStatus(r, Pending)| + |WithStatus(r, Running)| + |WithStatus(r, Completed)| + PrunedBy(steps)
    decreases steps
  {
    if steps == [] {
      StatusPartition(q);
    } else {
      var r := Next(q, steps[0]);
      StepKeepsInv(q, steps[0]);
      StepCount(q, steps[0]);
      Conservation(r, steps[1..]);
    }
  }

  lemma StepCount(q: Queue, step: Step)
    requires Inv(q) && Legal(q, step)
    ensures |q.items| + (if step.Enqueue? && !HasVersion(q, step.version) then 1 else 0)
            == |Next(q, step).items| + (if step.Prune? then |step.picked| else 0)
  {
    KeysAfter(q, step);
    var r := Next(q, step);
    assert |r.items| == |r.items.Keys| && |q.items| == |q.items.Keys|;
    if step.Prune? { assert step.picked <= q.items.Keys; }
  }

  lemma KeysAfter(q: Queue, step: Step)
    ensures Next(q, step).items.Keys
            == (if step.Enqueue? && !HasVersion(q, step.version) then q.items.Keys + {q.nextId}
                else if step.Prune? then q.items.Keys - step.picked else q.items.Keys)
  {}

  /** Only pruning removes a version: it stays queued or completed under every other step. */
  lemma {:induction false} VersionPersists(q: Queue, steps: seq<Step>, v: Version)
    requires Inv(q) && LegalRun(q, steps)
    requires HasVersion(q, v) && forall s | s in steps :: !s.Prune?
    ensures HasVersion(Run(q, steps), v)
    decreases steps
  {
    if steps != [] {
      StepKeepsInv(q, steps[0]);
      var id :| id in q.items && q.items[id].version == v;
      assert id in Next(q, steps[0]).items && Next(q, steps[0]).items[id].version == v;
      VersionPersists(Next(q, steps[0]), steps[1..], v);
    }
  }

  // ---------------------------------------------------------------- work that waits

  predicate Unfinished(q: Queue, id: nat) { id in q.items && !q.items[id].status.Completed? }

  /** Some worker will still be handed this version. */
  predicate Waits(q: Queue, v: Version) {
    exists id | id in q.items :: q.items[id].version == v && Unfinished(q, id)
  }

  lemma OneRowWaits(q: Queue, v: Version, id: nat)
    requires Inv(q) && id in q.items && q.items[id].version == v
    ensures Waits(q, v) <==> Unfinished(q, id)
  {}

  /** Nothing but its completion ends the wait of an item: no claim, release, insert or pruning does. */
  lemma OnlyCompletionEnds(q: Queue, step: Step, id: nat)
    requires Inv(q) && Legal(q, step) && Unfinished(q, id)
    ensures (step.Complete? && step.id == id)
            || (Unfinished(Next(q, step), id) && Next(q, step).items[id].version == q.items[id].version)
  {
    if step.Prune? { assert step.picked <= PruneKeys(q, step.olderThan, step.now).Keys; }
  }
}
