/**
 * The server and its semaphore as objects. Each method is the code between two await points, and is
 * proved to be the step of `RequestServer` it stands for.
 */
module RequestServerStore {
  import opened Basics
  import opened AsyncSemaphore
  import opened RequestServer

  class SlotSemaphore {
    var value: nat
    var waiters: seq<Waiter>

    function View(): Semaphore
      reads this
    {
      Semaphore(value, waiters)
    }

    constructor (value: nat)
      ensures View() == Semaphore(value, [])
    {
      this.value, waiters := value, [];
    }

    /** Gives a free slot to the first waiter without one; says whether there was such a waiter. */
    method WakeUpNext() returns (woke: bool)
      requires value > 0
      modifies this
      ensures View() == WakeNext(old(View()))
      ensures woke <==> Granted(old(waiters)) < |old(waiters)|
    {
      var i := 0;
      while i < |waiters| && waiters[i].granted
        invariant 0 <= i <= |waiters| && forall k | 0 <= k < i :: waiters[k].granted
      {
        i := i + 1;
      }
      GrantedIs(waiters, i);
      if i == |waiters| { return false; }
      value := value - 1;
      waiters := waiters[i := waiters[i].(granted := true)];
      return true;
    }

    method ReleaseSlot()
      modifies this
      ensures View() == Release(old(View()))
    {
      value := value + 1;
      var _ := WakeUpNext();
    }

    /** The start of `acquire`: take a slot if none waits, else join the queue. */
    method TryAcquire(task: nat) returns (acquired: bool)
      modifies this
      ensures acquired <==> !Locked(old(View()))
      ensures View() == if acquired then old(View()).(value := old(value) - 1) else Enter(old(View()), task)
    {
      if value == 0 || waiters != [] {
        waiters := waiters + [Waiter(task, false)];
        return false;
      }
      value := value - 1;
      return true;
    }

    /** The resumption of a granted `acquire`: leave the queue, then pass on every free slot. */
    method FinishAcquire(task: nat)
      requires IsWaiting(waiters, task)
      modifies this
      ensures View() == Resume(old(View()), task)
    {
      var i := 0;
      while waiters[i].task != task
        invariant 0 <= i < |waiters| && IsWaiting(waiters[i..], task)
        invariant Place(waiters, task) == i + Place(waiters[i..], task)
        decreases |waiters| - i
      {
        assert waiters[i..][1..] == waiters[i + 1..];
        assert exists k :: 0 <= k < |waiters[i..]| && waiters[i..][k].task == task;
        var k :| 0 <= k < |waiters[i..]| && waiters[i..][k].task == task;
        assert waiters[i + 1..][k - 1].task == task;
        i := i + 1;
      }
      waiters := Without(waiters, i);
      ghost var start := View();
      while value > 0
        invariant WakeAll(View()) == WakeAll(start)
        decreases value
      {
        ghost var before := View();
        var woke := WakeUpNext();
        if !woke { break; }
      }
    }
  }

  /** The three ways a dispatch can start, told by what they leave. */
  lemma StartCases(s: Server, t: nat, queueWait: real)
    requires Enabled(s, Start(t, queueWait))
    ensures t < |s.requests| && t < |s.stages|
    ensures !Bypasses(s.requests[t].path) && Locked(s.semaphore) ==>
              Next(s, Start(t, queueWait)) ==
                s.(nextId := s.nextId + 1,
                   tracked := s.tracked[s.nextId + 1 := Tracked(t, s.requests[t].path, "queued", 0.0, 0.0, None, None)],
                   stages := s.stages[t := Queued(s.nextId + 1)], semaphore := Enter(s.semaphore, t), queued := s.queued + 1)
    ensures !Bypasses(s.requests[t].path) && !Locked(s.semaphore) ==>
              Next(s, Start(t, queueWait)) ==
                s.(nextId := s.nextId + 1,
                   tracked := s.tracked[s.nextId + 1 := Tracked(t, s.requests[t].path, "dispatching", queueWait, 0.0, None, None)],
                   stages := s.stages[t := Running(s.nextId + 1, true)],
                   semaphore := s.semaphore.(value := s.semaphore.value - 1),
                   active := s.active + 1, constrained := s.constrained + 1)
    ensures Bypasses(s.requests[t].path) ==>
              Next(s, Start(t, queueWait)) ==
                s.(nextId := s.nextId + 1,
                   tracked := s.tracked[s.nextId + 1 := Tracked(t, s.requests[t].path, "dispatching", 0.0, 0.0, None, None)],
                   stages := s.stages[t := Running(s.nextId + 1, false)], active := s.active + 1)
  {}

  lemma ConcludeCases(s: Server, failure: Option<string>)
    requires Enabled(s, EndReply(failure))
    ensures s.batch != [] && s.batch[0] < |s.stages| && s.batch[0] < |s.requests|
    ensures s.stages[s.batch[0]].Sending? && s.stages[s.batch[0]].id in s.tracked
    ensures var t := s.batch[0];
            var (id, response) := (s.stages[t].id, s.stages[t].response);
            var settled := s.(tracked := s.tracked[id := if failure.Some? then s.tracked[id].(phase := "reply_failed", error := failure)
                                                         else s.tracked[id].(phase := "reply_sent")]);
            Next(s, EndReply(failure)) ==
              Finalise(settled, id).(
                stages := s.stages[t := Closed(id, if failure.Some? then None else Some(response))],
                sent := if failure.Some? then s.sent else s.sent + [Reply(t, s.requests[t].identity, response)],
                batch := s.batch[1..],
                sending := false)
  {
    hide Push;
  }

  class DaemonZmqServer {
    const maxConcurrentRequests: nat
    const requestSemaphore: SlotSemaphore
    var requests: seq<Request>
    var stages: seq<Stage>
    var inflightTasks: set<nat>
    var activeRequestCount: nat
    var activeConstrainedRequestCount: nat
    var queuedWaiterCount: nat
    var activeRequests: map<nat, Tracked>
    var nextRequestId: nat
    var recentRequestSamples: seq<Sample>
    var recentRequestDiagnostics: seq<Diagnostic>
    var completedRequests: seq<nat>
    var sending: bool
    /** What went out on the socket, and every finalisation, in order. */
    var sent: seq<Reply>
    var log: seq<Entry>

    function View(): Server
      reads this, requestSemaphore
    {
      Server(maxConcurrentRequests, requestSemaphore.View(), requests, stages, inflightTasks, activeRequestCount,
             activeConstrainedRequestCount, queuedWaiterCount, activeRequests, nextRequestId, recentRequestSamples,
             recentRequestDiagnostics, completedRequests, sending, sent, log)
    }

    constructor (maxConcurrent: int)
      ensures View() == Initial(maxConcurrent)
      ensures fresh(requestSemaphore)
    {
      var capacity := if maxConcurrent < 1 then 1 else maxConcurrent;
      maxConcurrentRequests := capacity;
      requestSemaphore := new SlotSemaphore(capacity);
      requests, stages, inflightTasks := [], [], {};
      activeRequestCount, activeConstrainedRequestCount, queuedWaiterCount := 0, 0, 0;
      activeRequests, nextRequestId := map[], 0;
      recentRequestSamples, recentRequestDiagnostics := [], [];
      completedRequests, sending, sent, log := [], false, [], [];
    }

    method ReceiveFrames(frames: nat, request: Request)
      requires Enabled(View(), Receive(frames, request))
      modifies this
      ensures View() == Next(old(View()), Receive(frames, request))
    {
      if frames < 2 { return; }
      inflightTasks := inflightTasks + {|stages|};
      requests := requests + [request];
      stages := stages + [Spawned];
    }

    /**
     * A dispatch task up to its first await: the handler, or the semaphore's queue. The tracked record
     * is an object shared with the table; `r` is its value, written back where it may stop.
     */
    method StartDispatch(task: nat, queueWait: real)
      requires Enabled(View(), Start(task, queueWait))
      modifies this, requestSemaphore
      ensures View() == Next(old(View()), Start(task, queueWait))
    {
      hide Granted, Enabled, Bypasses, Enter, Locked;
      StartCases(View(), task, queueWait);
      hide Next, StartTask;
      nextRequestId := nextRequestId + 1;
      var r := Tracked(task, requests[task].path, "received", 0.0, 0.0, None, None);
      var usesSemaphore := !Bypasses(r.path);
      if usesSemaphore {
        var acquired := JoinQueue(task, nextRequestId, r.(phase := "queued"));
        if !acquired { return; }
        r := r.(queueWait := queueWait, phase := "admitted");
        queuedWaiterCount := Down(queuedWaiterCount);
      }
      BeginDispatch(task, nextRequestId, r, usesSemaphore);
    }

    /** Counts the waiter and asks for a slot; without one it stops here. */
    method JoinQueue(task: nat, id: nat, r: Tracked) returns (acquired: bool)
      requires task < |stages|
      modifies this`queuedWaiterCount, this`activeRequests, this`stages, requestSemaphore
      ensures acquired <==> !Locked(old(View()).semaphore)
      ensures acquired ==>
                View() == old(View()).(queued := old(View()).queued + 1,
                                       semaphore := old(View()).semaphore.(value := old(View()).semaphore.value - 1))
      ensures !acquired ==>
                View() == old(View()).(queued := old(View()).queued + 1, semaphore := Enter(old(View()).semaphore, task),
                                       tracked := old(View()).tracked[id := r], stages := old(View()).stages[task := Queued(id)])
    {
      queuedWaiterCount := queuedWaiterCount + 1;
      acquired := requestSemaphore.TryAcquire(task);
      if !acquired { activeRequests, stages := activeRequests[id := r], stages[task := Queued(id)]; }
    }

    /** From admission to the await of the handler. */
    method BeginDispatch(task: nat, id: nat, r: Tracked, held: bool)
      requires task < |stages|
      modifies this`activeRequestCount, this`activeConstrainedRequestCount, this`activeRequests, this`stages
      ensures View() == old(View()).(active := old(View()).active + 1,
                                     constrained := old(View()).constrained + if held then 1 else 0,
                                     tracked := old(View()).tracked[id := r.(phase := "dispatching")],
                                     stages := old(View()).stages[task := Running(id, held)])
    {
      activeRequestCount := activeRequestCount + 1;
      if held { activeConstrainedRequestCount := activeConstrainedRequestCount + 1; }
      activeRequests := activeRequests[id := r.(phase := "dispatching")];
      stages := stages[task := Running(id, held)];
    }

    method ResumeAdmitted(task: nat, queueWait: real)
      requires Enabled(View(), Admit(task, queueWait))
      modifies this, requestSemaphore
      ensures View() == Next(old(View()), Admit(task, queueWait))
    {
      hide Granted, Resume;
      var id := stages[task].id;
      requestSemaphore.FinishAcquire(task);
      queuedWaiterCount := Down(queuedWaiterCount);
      BeginDispatch(task, id, activeRequests[id].(queueWait := queueWait, phase := "admitted"), true);
    }

    method RecordRequestSample(path: string, queueWait: real, execution: real)
      modifies this`recentRequestSamples
      ensures recentRequestSamples == Push(old(recentRequestSamples), Sample(path, Shown(queueWait), Shown(execution)))
    {
      if |recentRequestSamples| >= RECENT_LIMIT { recentRequestSamples := recentRequestSamples[1..]; }
      recentRequestSamples := recentRequestSamples + [Sample(path, Shown(queueWait), Shown(execution))];
    }

    method FinalizeRequestTracking(id: nat)
      requires id in activeRequests
      modifies this`recentRequestSamples, this`recentRequestDiagnostics, this`activeRequests, this`log
      ensures View() == Finalise(old(View()), id)
    {
      var r := activeRequests[id];
      var diagnostic := DiagnosticOf(id, r);
      RecordRequestSample(r.path, r.queueWait, r.execution);
      if |recentRequestDiagnostics| >= RECENT_LIMIT { recentRequestDiagnostics := recentRequestDiagnostics[1..]; }
      recentRequestDiagnostics := recentRequestDiagnostics + [diagnostic];
      activeRequests := activeRequests - {id};
      log := log + [Entry(r.task, diagnostic)];
    }

    /** The handler has ended one way or another: settle the record, then free the slot. */
    method EndDispatch(task: nat, outcome: Outcome, execution: real)
      requires Enabled(View(), Finish(task, outcome, execution))
      modifies this, requestSemaphore
      ensures View() == Next(old(View()), Finish(task, outcome, execution))
    {
      hide SettleTask, Release, Granted;
      var held := stages[task].held;
      SettleDispatch(task, outcome, execution);
      activeRequestCount := Down(activeRequestCount);
      if held {
        activeConstrainedRequestCount := Down(activeConstrainedRequestCount);
        requestSemaphore.ReleaseSlot();
      }
    }

    method SettleDispatch(task: nat, outcome: Outcome, execution: real)
      requires Enabled(View(), Finish(task, outcome, execution))
      modifies this`activeRequests, this`stages, this`recentRequestSamples, this`recentRequestDiagnostics, this`log
      ensures View() == SettleTask(old(View()), task, outcome, execution)
    {
      hide Push, Granted, TimeoutSeconds, StatusOf;
      var id := stages[task].id;
      var r := activeRequests[id].(execution := execution);
      match outcome {
        case Returned(reported, body) =>
          var response := Handled(reported, body);
          activeRequests := activeRequests[id := r.(status := StatusOf(response), phase := "dispatched")];
          stages := stages[task := Replying(id, response)];
        case TimedOut =>
          var response := TimeoutError(r.path, TimeoutSeconds(r.path));
          activeRequests := activeRequests[id := r.(phase := "timed_out", error := Some("daemon_request_timed_out"),
                                                    status := StatusOf(response))];
          stages := stages[task := Replying(id, response)];
        case Cancelled =>
          activeRequests := activeRequests[id := r.(phase := "cancelled", error := Some("cancelled"))];
          FinalizeRequestTracking(id);
          stages := stages[task := Abandoned(id)];
        case Raised(error) =>
          activeRequests := activeRequests[id := r.(phase := "dispatch_failed", error := Some(error),
                                                    status := StatusOf(DispatchError))];
          stages := stages[task := Replying(id, DispatchError)];
      }
    }

    method CollectDone(done: seq<nat>)
      requires Enabled(View(), Collect(done))
      modifies this`completedRequests
      ensures View() == Next(old(View()), Collect(done))
    {
      completedRequests := done;
    }

    /** The next completed task, up to the await of its send; a cancelled one has nothing to send. */
    method TakeCompleted()
      requires Enabled(View(), BeginReply)
      modifies this
      ensures View() == Next(old(View()), BeginReply)
    {
      hide Granted;
      var task := completedRequests[0];
      inflightTasks := inflightTasks - {task};
      match stages[task] {
        case Abandoned(id) =>
          stages := stages[task := Closed(id, None)];
          completedRequests := completedRequests[1..];
        case Replying(id, response) =>
          activeRequests := activeRequests[id := activeRequests[id].(phase := "reply_sending", status := StatusOf(response))];
          stages := stages[task := Sending(id, response)];
          sending := true;
      }
    }

    method ConcludeReply(failure: Option<string>)
      requires Enabled(View(), EndReply(failure))
      modifies this
      ensures View() == Next(old(View()), EndReply(failure))
    {
      hide Enabled, Finalise, Granted;
      ConcludeCases(View(), failure);
      hide Next;
      var task := completedRequests[0];
      var id, response := stages[task].id, stages[task].response;
      SettleReply(id, failure);
      FinalizeRequestTracking(id);
      if failure.None? { sent := sent + [Reply(task, requests[task].identity, response)]; }
      DropCompleted(task, Closed(id, if failure.Some? then None else Some(response)));
    }

    method DropCompleted(task: nat, closed: Stage)
      requires completedRequests != [] && task < |stages|
      modifies this`stages, this`completedRequests, this`sending
      ensures View() == old(View()).(stages := old(stages)[task := closed], batch := old(completedRequests)[1..], sending := false)
    {
      stages := stages[task := closed];
      completedRequests := completedRequests[1..];
      sending := false;
    }

    method SettleReply(id: nat, failure: Option<string>)
      requires id in activeRequests
      modifies this`activeRequests
      ensures activeRequests == old(activeRequests)[id :=
                if failure.Some? then old(activeRequests)[id].(phase := "reply_failed", error := failure)
                else old(activeRequests)[id].(phase := "reply_sent")]
    {
      if failure.Some? {
        activeRequests := activeRequests[id := activeRequests[id].(phase := "reply_failed", error := failure)];
      } else {
        activeRequests := activeRequests[id := activeRequests[id].(phase := "reply_sent")];
      }
    }
  }
}
