/**
 * The counting semaphore of the request server, between await points: a value, and the waiters in
 * arrival order. A granted waiter keeps its place until its task runs again.
 */
module AsyncSemaphore {

  datatype Waiter = Waiter(task: nat, granted: bool)

  datatype Semaphore = Semaphore(value: nat, waiters: seq<Waiter>)

  predicate Locked(m: Semaphore) { m.value == 0 || m.waiters != [] }

  /** The position of the first waiter not yet granted; their number when all are. */
  function Granted(ws: seq<Waiter>): (g: nat)
    ensures g <= |ws|
    ensures forall i | 0 <= i < g :: ws[i].granted
    ensures g < |ws| ==> !ws[g].granted
  {
    if ws == [] || !ws[0].granted then 0 else 1 + Granted(ws[1..])
  }

  /** `_wake_up_next`: a free slot passes to the first waiter that has none. */
  function WakeNext(m: Semaphore): Semaphore
    requires m.value > 0
  {
    var g := Granted(m.waiters);
    if g == |m.waiters| then m else Semaphore(m.value - 1, m.waiters[g := m.waiters[g].(granted := true)])
  }

  function WakeAll(m: Semaphore): Semaphore
    decreases m.value
  {
    if m.value > 0 && Granted(m.waiters) < |m.waiters| then WakeAll(WakeNext(m)) else m
  }

  function Release(m: Semaphore): Semaphore { WakeNext(m.(value := m.value + 1)) }

  predicate IsWaiting(ws: seq<Waiter>, task: nat) { exists i :: 0 <= i < |ws| && ws[i].task == task }

  function Place(ws: seq<Waiter>, task: nat): (i: nat)
    requires IsWaiting(ws, task)
    ensures i < |ws| && ws[i].task == task
  {
    if ws[0].task == task then 0
    else assert forall i | 0 < i < |ws| :: ws[i] == ws[1..][i - 1]; 1 + Place(ws[1..], task)
  }

  function Without(ws: seq<Waiter>, i: nat): seq<Waiter>
    requires i < |ws|
  {
    ws[..i] + ws[i + 1..]
  }

  /** The end of `acquire` for a granted waiter: it leaves, and passes on what is still free. */
  function Resume(m: Semaphore, task: nat): Semaphore
    requires IsWaiting(m.waiters, task)
  {
    WakeAll(m.(waiters := Without(m.waiters, Place(m.waiters, task))))
  }

  function Enter(m: Semaphore, task: nat): Semaphore { m.(waiters := m.waiters + [Waiter(task, false)]) }

  /**
   * Grants go in arrival order; and whenever a slot is free while a task waits without one, some
   * granted task has still to run, and will pass the slot on: no wake-up is lost.
   */
  ghost predicate Fair(m: Semaphore) {
    && (forall i, j | 0 <= i < j < |m.waiters| :: m.waiters[i].task != m.waiters[j].task)
    && (forall i | 0 <= i < |m.waiters| :: m.waiters[i].granted <==> i < Granted(m.waiters))
    && (m.value > 0 && Granted(m.waiters) < |m.waiters| ==> Granted(m.waiters) > 0)
  }

  /** Slots not held by a running task. */
  function Unheld(m: Semaphore): nat { m.value + Granted(m.waiters) }

  function Tasks(ws: seq<Waiter>): seq<nat> { seq(|ws|, i requires 0 <= i < |ws| => ws[i].task) }

  lemma GrantedIs(ws: seq<Waiter>, g: nat)
    requires g <= |ws| && (forall i | 0 <= i < g :: ws[i].granted) && (g < |ws| ==> !ws[g].granted)
    ensures Granted(ws) == g
  {}

  /** The order clause alone: grants form a prefix of the queue. */
  ghost predicate Ordered(m: Semaphore) {
    && (forall i, j | 0 <= i < j < |m.waiters| :: m.waiters[i].task != m.waiters[j].task)
    && (forall i | 0 <= i < |m.waiters| :: m.waiters[i].granted <==> i < Granted(m.waiters))
  }

  lemma WakeNextKeeps(m: Semaphore)
    requires Ordered(m) && m.value > 0
    ensures Ordered(WakeNext(m)) && Unheld(WakeNext(m)) == Unheld(m)
    ensures Tasks(WakeNext(m).waiters) == Tasks(m.waiters)
    ensures Granted(m.waiters) < |m.waiters| ==> Granted(WakeNext(m).waiters) == Granted(m.waiters) + 1
  {
    var g := Granted(m.waiters);
    if g < |m.waiters| { GrantedIs(WakeNext(m).waiters, g + 1); }
  }

  lemma {:induction false} WakeAllKeeps(m: Semaphore)
    requires Ordered(m)
    ensures Ordered(WakeAll(m)) && Unheld(WakeAll(m)) == Unheld(m)
    ensures Tasks(WakeAll(m).waiters) == Tasks(m.waiters)
    ensures WakeAll(m).value == 0 || Granted(WakeAll(m).waiters) == |m.waiters|
    decreases m.value
  {
    if m.value > 0 && Granted(m.waiters) < |m.waiters| {
      WakeNextKeeps(m);
      assert |WakeNext(m).waiters| == |m.waiters|;
      WakeAllKeeps(WakeNext(m));
    } else {
      assert WakeAll(m) == m;
    }
  }

  lemma EnterKeeps(m: Semaphore, task: nat)
    requires Fair(m) && Locked(m) && !IsWaiting(m.waiters, task)
    ensures Fair(Enter(m, task)) && Unheld(Enter(m, task)) == Unheld(m)
    ensures Tasks(Enter(m, task).waiters) == Tasks(m.waiters) + [task]
  {
    GrantedIs(Enter(m, task).waiters, Granted(m.waiters));
  }

  lemma ReleaseKeeps(m: Semaphore)
    requires Fair(m)
    ensures Fair(Release(m)) && Unheld(Release(m)) == Unheld(m) + 1
    ensures Tasks(Release(m).waiters) == Tasks(m.waiters)
  {
    WakeNextKeeps(m.(value := m.value + 1));
  }

  lemma PlaceIs(ws: seq<Waiter>, task: nat, i: nat)
    requires i < |ws| && ws[i].task == task
    requires forall k, j | 0 <= k < j < |ws| :: ws[k].task != ws[j].task
    ensures IsWaiting(ws, task) && Place(ws, task) == i
  {}

  lemma WithoutAt(ws: seq<Waiter>, i: nat, k: nat)
    requires i < |ws| && k < |ws| - 1
    ensures Without(ws, i)[k] == ws[if k < i then k else k + 1]
  {}

  lemma TasksWithout(ws: seq<Waiter>, i: nat)
    requires i < |ws|
    ensures Tasks(Without(ws, i)) == Tasks(ws)[..i] + Tasks(ws)[i + 1..]
  {}

  lemma WithoutKeeps(m: Semaphore, i: nat)
    requires Ordered(m) && i < Granted(m.waiters)
    ensures var left := m.(waiters := Without(m.waiters, i));
            && Ordered(left) && Unheld(left) + 1 == Unheld(m)
            && Tasks(left.waiters) == Tasks(m.waiters)[..i] + Tasks(m.waiters)[i + 1..]
  {
    var ws, g := m.waiters, Granted(m.waiters);
    var left := Without(ws, i);
    TasksWithout(ws, i);
    hide Tasks;
    assert |left| == |ws| - 1;
    forall k | 0 <= k < |left| ensures left[k] == ws[if k < i then k else k + 1] { WithoutAt(ws, i, k); }
    hide Without;
    assert Granted(left) == g - 1 by { GrantedIs(left, g - 1); }
    hide Granted;
  }

  lemma ResumeKeeps(m: Semaphore, i: nat)
    requires Fair(m) && i < Granted(m.waiters)
    ensures IsWaiting(m.waiters, m.waiters[i].task)
    ensures var after := Resume(m, m.waiters[i].task);
            && Fair(after) && Unheld(after) + 1 == Unheld(m)
            && Tasks(after.waiters) == Tasks(m.waiters)[..i] + Tasks(m.waiters)[i + 1..]
  {
    PlaceIs(m.waiters, m.waiters[i].task, i);
    WithoutKeeps(m, i);
    hide Granted, Place;
    var left := m.(waiters := Without(m.waiters, i));
    WakeAllKeeps(left);
    hide WakeAll;
    assert |Tasks(WakeAll(left).waiters)| == |WakeAll(left).waiters| && |Tasks(left.waiters)| == |left.waiters|;
  }
}
