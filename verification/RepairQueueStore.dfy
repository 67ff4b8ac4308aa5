/** The queue object itself: each method performs one legal step of the `RepairQueue` model. */
module RepairQueueStore {
  import opened Basics
  import opened RepairQueue

  /** The sequence enumerates the set without repetition. */
  ghost predicate Lists(order: seq<nat>, picked: set<nat>) {
    && |order| == |picked|
    && (forall i | 0 <= i < |order| :: order[i] in picked)
    && (forall id | id in picked :: id in order)
    && (forall i, j | 0 <= i < j < |order| :: order[i] != order[j])
  }

  ghost predicate Rising(keys: map<nat, real>, order: seq<nat>) {
    && (forall i | 0 <= i < |order| :: order[i] in keys)
    && (forall i, j | 0 <= i < j < |order| :: keys[order[i]] <= keys[order[j]])
  }

  /** The rows picked so far, smallest first, and the rows that remain, none of them smaller. */
  ghost predicate Picking(keys: map<nat, real>, order: seq<nat>, picked: set<nat>, rest: set<nat>) {
    && Lists(order, picked) && Rising(keys, order)
    && rest + picked == keys.Keys && rest !! picked
    && forall i, j | i in picked && j in rest :: keys[i] <= keys[j]
  }

  lemma PickMore(keys: map<nat, real>, order: seq<nat>, picked: set<nat>, rest: set<nat>, next: nat)
    requires Picking(keys, order, picked, rest) && next in rest && forall j | j in rest :: keys[next] <= keys[j]
    ensures Picking(keys, order + [next], picked + {next}, rest - {next})
  {
    ListsMore(order, picked, next);
    ListedArePicked(order, picked);
    hide Lists;
    RisingMore(keys, order, picked, next);
    hide Rising;
  }

  lemma ListedArePicked(order: seq<nat>, picked: set<nat>)
    requires Lists(order, picked)
    ensures forall i | 0 <= i < |order| :: order[i] in picked
  {}

  lemma RisingMore(keys: map<nat, real>, order: seq<nat>, picked: set<nat>, next: nat)
    requires Rising(keys, order) && next in keys && picked <= keys.Keys
    requires forall i | 0 <= i < |order| :: order[i] in picked
    requires forall i | i in picked :: keys[i] <= keys[next]
    ensures Rising(keys, order + [next])
  {}

  lemma PickedIsFirst(keys: map<nat, real>, limit: nat, order: seq<nat>, picked: set<nat>, rest: set<nat>)
    requires Picking(keys, order, picked, rest) && |order| <= limit && (|order| == limit || rest == {})
    ensures FirstBy(keys, limit, picked)
  {
    assert |keys.Keys| == |rest| + |picked| && rest == keys.Keys - picked;
  }

  /** `ORDER BY key ASC LIMIT limit` over the selected rows. */
  method SelectFirst(keys: map<nat, real>, limit: nat) returns (order: seq<nat>, picked: set<nat>)
    ensures FirstBy(keys, limit, picked)
    ensures Lists(order, picked)
    ensures Rising(keys, order)
  {
    order, picked := [], {};
    var rest := keys.Keys;
    while |order| < limit && rest != {}
      invariant |order| <= limit && Picking(keys, order, picked, rest) && rest <= keys.Keys
      decreases rest
    {
      hide *;
      var next := Smallest(keys, rest);
      PickMore(keys, order, picked, rest, next);
      order, picked, rest := order + [next], picked + {next}, rest - {next};
    }
    PickedIsFirst(keys, limit, order, picked, rest);
  }

  lemma ListsMore(order: seq<nat>, picked: set<nat>, next: nat)
    requires Lists(order, picked) && next !in picked
    ensures Lists(order + [next], picked + {next})
  {
    var longer := order + [next];
    forall id | id in picked + {next} ensures id in longer {
      if id != next { var k :| 0 <= k < |order| && order[k] == id; assert longer[k] == id; }
      else { assert longer[|order|] == next; }
    }
  }

  method Smallest(keys: map<nat, real>, among: set<nat>) returns (best: nat)
    requires among != {} && among <= keys.Keys
    ensures best in among && forall j | j in among :: keys[best] <= keys[j]
  {
    var pending := among;
    best :| best in among;
    while pending != {}
      invariant best in among && pending <= among
      invariant forall j | j in among - pending :: keys[best] <= keys[j]
      decreases pending
    {
      var id :| id in pending;
      pending := pending - {id};
      if keys[id] < keys[best] { best := id; }
    }
  }

  ghost function Among(items: map<nat, Item>, ids: set<nat>, status: Status): set<nat>
  {
    set id | id in ids && id in items && items[id].status == status
  }

  lemma AmongMore(items: map<nat, Item>, ids: set<nat>, id: nat, status: Status)
    requires id !in ids && id in items
    ensures |Among(items, ids + {id}, status)| == |Among(items, ids, status)| + (if items[id].status == status then 1 else 0)
  {
    var before := Among(items, ids, status);
    assert Among(items, ids + {id}, status) == if items[id].status == status then before + {id} else before;
  }

  /** The order of claimed items by creation is the same after the claim. */
  ghost predicate OldestFirst(items: map<nat, Item>, order: seq<nat>) {
    && (forall i | 0 <= i < |order| :: order[i] in items)
    && (forall i, j | 0 <= i < j < |order| :: items[order[i]].createdAt <= items[order[j]].createdAt)
  }

  lemma ClaimOrder(q: Queue, step: Step, keys: map<nat, real>, order: seq<nat>)
    requires step.Claim? && keys == ClaimKeys(q, step.scope, step.now) && Rising(keys, order)
    ensures OldestFirst(Next(q, step).items, order)
  {
    var after := Next(q, step).items;
    assert after.Keys == q.items.Keys && forall id | id in after :: after[id].createdAt == q.items[id].createdAt;
  }

  lemma ClaimLeases(q: Queue, step: Step)
    requires step.Claim?
    ensures Next(q, step) == q.(items := map id | id in q.items ::
              if id in step.picked then Leased(q.items[id], step.owner, step.now, step.ttl) else q.items[id])
  {}

  lemma LegalPick(q: Queue, step: Step)
    requires step.Claim? && step.limit >= 1 && FirstBy(ClaimKeys(q, step.scope, step.now), step.limit, step.picked)
    ensures Legal(q, step) && step.picked <= q.items.Keys
  {
    assert ClaimKeys(q, step.scope, step.now).Keys <= q.items.Keys;
  }

  method CountWith(items: map<nat, Item>, status: Status) returns (count: nat)
    ensures count == |Among(items, items.Keys, status)|
  {
    count := 0;
    ghost var seen: set<nat> := {};
    var pending := items.Keys;
    while pending != {}
      invariant pending + seen == items.Keys && pending !! seen
      invariant count == |Among(items, seen, status)|
      decreases pending
    {
      var id :| id in pending;
      AmongMore(items, seen, id, status);
      pending, seen := pending - {id}, seen + {id};
      if items[id].status == status { count := count + 1; }
    }
    assert seen == items.Keys;
  }

  /** `MIN(created_at)` over the pending rows. */
  method OldestQueued(items: map<nat, Item>) returns (oldest: Option<real>)
    ensures oldest.None? <==> Among(items, items.Keys, Pending) == {}
    ensures oldest.Some? ==> exists id | id in items && items[id].status.Pending? :: items[id].createdAt == oldest.value
    ensures forall id | id in items && items[id].status.Pending? :: oldest.Some? && oldest.value <= items[id].createdAt
  {
    oldest := None;
    var pending := items.Keys;
    while pending != {}
      invariant pending <= items.Keys
      invariant oldest.Some? ==> exists id | id in items && items[id].status.Pending? :: items[id].createdAt == oldest.value
      invariant forall id | id in items.Keys - pending && items[id].status.Pending? ::
                  oldest.Some? && oldest.value <= items[id].createdAt
      decreases pending
    {
      var id :| id in pending;
      pending := pending - {id};
      if items[id].status.Pending? && (oldest.None? || items[id].createdAt < oldest.value) {
        oldest := Some(items[id].createdAt);
      }
    }
    if oldest.Some? {
      var id :| id in items && items[id].status.Pending? && items[id].createdAt == oldest.value;
      assert id in Among(items, items.Keys, Pending);
    } else if id :| id in Among(items, items.Keys, Pending) {
      assert false;
    }
  }

  /** The batch update: exactly the listed rows are leased, each once. */
  method LeaseAll(items: map<nat, Item>, order: seq<nat>, picked: set<nat>, owner: string, now: real, ttl: real)
    returns (r: map<nat, Item>)
    requires Lists(order, picked) && picked <= items.Keys
    ensures r == map id | id in items :: if id in picked then Leased(items[id], owner, now, ttl) else items[id]
  {
    r := items;
    var i := 0;
    while i < |order|
      invariant 0 <= i <= |order| && r.Keys == items.Keys
      invariant forall k | 0 <= k < i :: r[order[k]] == Leased(items[order[k]], owner, now, ttl)
      invariant forall k | i <= k < |order| :: r[order[k]] == items[order[k]]
      invariant forall id | id in items && id !in picked :: r[id] == items[id]
    {
      r := r[order[i] := Leased(r[order[i]], owner, now, ttl)];
      i := i + 1;
    }
  }

  datatype Backlog = Backlog(queued: nat, running: nat, oldestAge: Option<real>)

  class SQLiteEmbeddingRepairQueue {
    var items: map<nat, Item>
    var nextId: nat

    ghost function View(): Queue
      reads this
    {
      Queue(items, nextId)
    }

    constructor ()
      ensures View() == Queue(map[], 0) && Inv(View())
    {
      items, nextId := map[], 0;
    }

    method FindByVersion(v: Version) returns (found: Option<nat>)
      ensures found.Some? ==> found.value in items && items[found.value].version == v
      ensures found.None? ==> !HasVersion(View(), v)
    {
      var pending := items.Keys;
      while pending != {}
        invariant pending <= items.Keys
        invariant forall id | id in items.Keys - pending :: items[id].version != v
        decreases |pending|
      {
        var id :| id in pending;
        if items[id].version == v { return Some(id); }
        pending := pending - {id};
      }
      return None;
    }

    method EnqueueUnique(v: Version, workspaceId: Option<string>, availableAt: Option<real>, now: real)
      returns (id: nat, inserted: bool)
      requires Inv(View())
      modifies this
      ensures var readyAt := if availableAt.Some? then availableAt.value else now;
              View() == Next(old(View()), Enqueue(v, workspaceId, readyAt, now))
      ensures Inv(View())
      ensures inserted <==> !HasVersion(old(View()), v)
      ensures inserted <==> id !in old(items)
      ensures id in items && items[id].version == v
    {
      ghost var readyAt := if availableAt.Some? then availableAt.value else now;
      StepKeepsInv(View(), Enqueue(v, workspaceId, readyAt, now));
      var existing := FindByVersion(v);
      if existing.Some? { return existing.value, false; }
      id, inserted := nextId, true;
      items := items[id := FreshItem(v, workspaceId, if availableAt.None? then now else availableAt.value, now)];
      nextId := nextId + 1;
    }

    /** Selects and leases in one transaction; refuses a limit below one. */
    method ClaimBatch(owner: string, limit: int, scope: Option<string>, now: real, ttl: real)
      returns (claimed: Result<seq<nat>, string>, ghost picked: set<nat>)
      requires Inv(View())
      modifies this
      ensures Inv(View())
      ensures claimed.Failure? <==> limit < 1
      ensures claimed.Failure? ==> View() == old(View())
      ensures claimed.Success? ==>
                && Legal(old(View()), Claim(owner, scope, limit, now, ttl, picked))
                && View() == Next(old(View()), Claim(owner, scope, limit, now, ttl, picked))
                && Lists(claimed.value, picked) && OldestFirst(items, claimed.value)
    {
      picked := {};
      if limit < 1 { return Failure("limit must be at least 1"), {}; }
      var keys := ClaimKeys(Queue(items, nextId), scope, now);
      var order, chosen := SelectFirst(keys, limit);
      picked := chosen;
      ghost var step := Claim(owner, scope, limit, now, ttl, picked);
      LegalPick(View(), step);
      StepKeepsInv(View(), step);
      ClaimOrder(View(), step, keys, order);
      ClaimLeases(View(), step);
      hide *;
      items := LeaseAll(items, order, chosen, owner, now, ttl);
      claimed := Success(order);
    }

    method CompleteItem(id: nat, now: real) returns (ok: bool)
      requires Inv(View())
      modifies this
      ensures Inv(View())
      ensures ok <==> IsRunning(old(View()), id)
      ensures View() == Next(old(View()), Complete(id, now))
    {
      StepKeepsInv(View(), Complete(id, now));
      ok := id in items && items[id].status.Running?;
      if ok { items := items[id := Done(items[id], now)]; }
    }

    method ReleaseItem(id: nat, now: real, error: Option<string>) returns (ok: bool)
      requires Inv(View())
      modifies this
      ensures Inv(View())
      ensures ok <==> IsRunning(old(View()), id)
      ensures View() == Next(old(View()), Release(id, now, error))
    {
      StepKeepsInv(View(), Release(id, now, error));
      ok := id in items && items[id].status.Running?;
      if ok { items := items[id := Freed(items[id], now, error)]; }
    }

    method PruneCompleted(olderThan: real, limit: int, now: real) returns (removed: nat, ghost picked: set<nat>)
      requires Inv(View())
      modifies this
      ensures Inv(View())
      ensures removed == |picked|
      ensures limit < 1 ==> View() == old(View()) && removed == 0
      ensures limit >= 1 ==> Legal(old(View()), Prune(olderThan, limit, now, picked))
                             && View() == Next(old(View()), Prune(olderThan, limit, now, picked))
    {
      if limit < 1 { return 0, {}; }
      var keys := PruneKeys(Queue(items, nextId), olderThan, now);
      var order, chosen := SelectFirst(keys, limit);
      picked := chosen;
      StepKeepsInv(View(), Prune(olderThan, limit, now, picked));
      items := items - chosen;
      removed := |order|;
    }

    /** One pass over the table; the counts are the sizes of the two live states. */
    method BacklogSnapshot(now: real) returns (b: Backlog)
      ensures b.queued == |WithStatus(View(), Pending)|
      ensures b.running == |WithStatus(View(), Running)|
      ensures b.oldestAge.None? <==> WithStatus(View(), Pending) == {}
      ensures b.oldestAge.Some? ==>
                && (exists id | id in items && items[id].status.Pending? ::
                      b.oldestAge.value == (if now - items[id].createdAt < 0.0 then 0.0 else now - items[id].createdAt))
                && forall id | id in items && items[id].status.Pending? :: now - items[id].createdAt <= b.oldestAge.value
    {
      var queued := CountWith(items, Pending);
      var running := CountWith(items, Running);
      var oldest := OldestQueued(items);
      assert WithStatus(View(), Pending) == Among(items, items.Keys, Pending);
      assert WithStatus(View(), Running) == Among(items, items.Keys, Running);
      var age := if oldest.None? then None
                 else Some(if now - oldest.value < 0.0 then 0.0 else now - oldest.value);
      b := Backlog(queued, running, age);
    }
  }
}
