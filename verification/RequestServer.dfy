/**
 * The daemon's request loop as a step system: each step is what runs between two await points of
 * the loop or of one dispatch task. `sent` and `log` record every reply and every finalisation.
 */
module RequestServer {
  import opened Basics
  import opened AsyncSemaphore

  const UNCONSTRAINED_PATHS := {"/internal/health", "/internal/tools/record_thought", "/api/record-thought"}

  const RECENT_LIMIT: nat := 32

  predicate Bypasses(path: string) { path in UNCONSTRAINED_PATHS }

  datatype Request = Request(identity: string, path: string)

  /** What a handler returned, or what the server answers in its place. */
  datatype Response =
    | Handled(reported: Option<string>, body: string)
    | TimeoutError(path: string, seconds: real)
    | DispatchError

  function StatusOf(r: Response): Option<string> {
    match r
    case Handled(reported, _) => if reported == Some("") then None else reported
    case _ => Some("error")
  }

  const EXTENDED_TIMEOUT_PREFIXES: set<string> := {
    "/api/memories/search", "/api/admin/search/repair", "/api/memories/", "/api/mutation-history/", "/api/record-thought",
    "/internal/tools", "/internal/maintenance/tools"}

  function TimeoutSeconds(path: string): real {
    if exists prefix | prefix in EXTENDED_TIMEOUT_PREFIXES :: prefix <= path then 60.0 else 5.0
  }

  /** Where a received request is; a number from one up is its tracking id. */
  datatype Stage =
    | Spawned
    | Queued(id: nat)
    | Running(id: nat, held: bool)
    | Replying(id: nat, response: Response)
    | Sending(id: nat, response: Response)
    | Abandoned(id: nat)
    | Closed(id: nat, reply: Option<Response>)

  datatype Tracked = Tracked(task: nat, path: string, phase: string, queueWait: real, execution: real,
                             status: Option<string>, error: Option<string>)

  datatype Sample = Sample(path: string, queueWait: real, execution: real)

  datatype Diagnostic = Diagnostic(id: nat, path: string, phase: string, queueWait: real, execution: real,
                                   status: Option<string>, error: Option<string>)

  datatype Entry = Entry(task: nat, diagnostic: Diagnostic)

  datatype Reply = Reply(task: nat, identity: string, response: Response)

  datatype Server = Server(
    capacity: nat,
    semaphore: Semaphore,
    requests: seq<Request>,
    stages: seq<Stage>,
    inflight: set<nat>,
    active: nat,
    constrained: nat,
    queued: nat,
    tracked: map<nat, Tracked>,
    nextId: nat,
    samples: seq<Sample>,
    diagnostics: seq<Diagnostic>,
    batch: seq<nat>,
    sending: bool,
    sent: seq<Reply>,
    log: seq<Entry>)

  function Initial(maxConcurrent: int): Server {
    var capacity := if maxConcurrent < 1 then 1 else maxConcurrent;
    Server(capacity, Semaphore(capacity, []), [], [], {}, 0, 0, 0, map[], 0, [], [], [], false, [], [])
  }

  // ---------------------------------------------------------------- steps

  datatype Outcome = Returned(reported: Option<string>, body: string) | TimedOut | Raised(error: string) | Cancelled

  datatype Step =
    | Receive(frames: nat, request: Request)
    | Start(task: nat, queueWait: real)
    | Admit(task: nat, queueWait: real)
    | Finish(task: nat, outcome: Outcome, execution: real)
    | Collect(done: seq<nat>)
    | BeginReply
    | EndReply(failure: Option<string>)

  /** `max(n - 1, 0)`, as every counter is lowered. */
  function Down(n: nat): nat { if n == 0 then 0 else n - 1 }

  function Shown(x: real): real { if x < 0.0 then 0.0 else x }

  function DiagnosticOf(id: nat, r: Tracked): Diagnostic {
    Diagnostic(id, r.path, r.phase, Shown(r.queueWait), Shown(r.execution), r.status, r.error)
  }

  function SampleOf(d: Diagnostic): Sample { Sample(d.path, d.queueWait, d.execution) }

  /** Appending to a deque of bounded length. */
  function Push<T>(q: seq<T>, x: T): seq<T> { if |q| >= RECENT_LIMIT then q[1..] + [x] else q + [x] }

  function Finalise(s: Server, id: nat): Server
    requires id in s.tracked
  {
    var r := s.tracked[id];
    s.(samples := Push(s.samples, Sample(r.path, Shown(r.queueWait), Shown(r.execution))),
       diagnostics := Push(s.diagnostics, DiagnosticOf(id, r)),
       tracked := s.tracked - {id},
       log := s.log + [Entry(r.task, DiagnosticOf(id, r))])
  }

  predicate IsDone(st: Stage) { st.Replying? || st.Abandoned? }

  predicate AllDone(s: Server, ts: seq<nat>) {
    forall i | 0 <= i < |ts| :: ts[i] in s.inflight && ts[i] < |s.stages| && IsDone(s.stages[ts[i]])
  }

  predicate Enabled(s: Server, a: Step) {
    match a
    case Receive(_, _) => s.batch == []
    case Start(t, _) => t < |s.stages| && s.stages[t].Spawned? && t < |s.requests|
    case Admit(t, _) => t < |s.stages| && s.stages[t].Queued? && s.stages[t].id in s.tracked
                        && exists i :: 0 <= i < |s.semaphore.waiters| && s.semaphore.waiters[i] == Waiter(t, true)
    case Finish(t, _, _) => t < |s.stages| && s.stages[t].Running? && s.stages[t].id in s.tracked
    case Collect(done) => s.batch == [] && AllDone(s, done) && forall i, j | 0 <= i < j < |done| :: done[i] != done[j]
    case BeginReply => s.batch != [] && !s.sending && s.batch[0] < |s.stages| && IsDone(s.stages[s.batch[0]])
                       && (s.stages[s.batch[0]].Replying? ==> s.stages[s.batch[0]].id in s.tracked)
    case EndReply(_) => s.batch != [] && s.sending && s.batch[0] < |s.stages| && s.batch[0] < |s.requests|
                        && s.stages[s.batch[0]].Sending? && s.stages[s.batch[0]].id in s.tracked
  }

  function StartTask(s: Server, t: nat, queueWait: real): Server
    requires Enabled(s, Start(t, queueWait))
  {
    var id := s.nextId + 1;
    var path := s.requests[t].path;
    var known := s.(nextId := id);
    if Bypasses(path) then
      known.(tracked := s.tracked[id := Tracked(t, path, "dispatching", 0.0, 0.0, None, None)],
             stages := s.stages[t := Running(id, false)],
             active := s.active + 1)
    else if Locked(s.semaphore) then
      known.(tracked := s.tracked[id := Tracked(t, path, "queued", 0.0, 0.0, None, None)],
             stages := s.stages[t := Queued(id)],
             semaphore := Enter(s.semaphore, t),
             queued := s.queued + 1)
    else
      known.(tracked := s.tracked[id := Tracked(t, path, "dispatching", queueWait, 0.0, None, None)],
             stages := s.stages[t := Running(id, true)],
             semaphore := s.semaphore.(value := s.semaphore.value - 1),
             queued := Down(s.queued + 1),
             active := s.active + 1,
             constrained := s.constrained + 1)
  }

  function AdmitTask(s: Server, t: nat, queueWait: real): Server
    requires Enabled(s, Admit(t, queueWait))
  {
    var id := s.stages[t].id;
    s.(tracked := s.tracked[id := s.tracked[id].(phase := "dispatching", queueWait := queueWait)],
       stages := s.stages[t := Running(id, true)],
       semaphore := Resume(s.semaphore, t),
       queued := Down(s.queued),
       active := s.active + 1,
       constrained := s.constrained + 1)
  }

  /** What the dispatch task leaves in the request's record, and the reply it returns if any. */
  function Settled(r: Tracked, outcome: Outcome, execution: real): (Tracked, Option<Response>) {
    var timed := r.(execution := execution);
    match outcome
    case Returned(reported, body) =>
      var response := Handled(reported, body);
      (timed.(phase := "dispatched", status := StatusOf(response)), Some(response))
    case TimedOut =>
      var response := TimeoutError(r.path, TimeoutSeconds(r.path));
      (timed.(phase := "timed_out", error := Some("daemon_request_timed_out"), status := StatusOf(response)), Some(response))
    case Raised(error) =>
      (timed.(phase := "dispatch_failed", error := Some(error), status := StatusOf(DispatchError)), Some(DispatchError))
    case Cancelled => (timed.(phase := "cancelled", error := Some("cancelled")), None)
  }

  /** Freeing the slot of a finished dispatch, last of all. */
  function Vacate(s: Server, held: bool): Server {
    var less := s.(active := Down(s.active));
    if held then less.(constrained := Down(s.constrained), semaphore := Release(s.semaphore)) else less
  }

  function SettleTask(s: Server, t: nat, outcome: Outcome, execution: real): Server
    requires Enabled(s, Finish(t, outcome, execution))
  {
    var id := s.stages[t].id;
    var (r, response) := Settled(s.tracked[id], outcome, execution);
    var noted := s.(tracked := s.tracked[id := r]);
    if response.None? then Finalise(noted, id).(stages := s.stages[t := Abandoned(id)])
    else noted.(stages := s.stages[t := Replying(id, response.value)])
  }

  function FinishTask(s: Server, t: nat, outcome: Outcome, execution: real): Server
    requires Enabled(s, Finish(t, outcome, execution))
  {
    Vacate(SettleTask(s, t, outcome, execution), s.stages[t].held)
  }

  function TakeUp(s: Server): Server
    requires Enabled(s, BeginReply)
  {
    var t := s.batch[0];
    var gone := s.(inflight := s.inflight - {t});
    match s.stages[t]
    case Abandoned(id) => gone.(stages := s.stages[t := Closed(id, None)], batch := s.batch[1..])
    case Replying(id, response) =>
      gone.(stages := s.stages[t := Sending(id, response)],
            tracked := s.tracked[id := s.tracked[id].(phase := "reply_sending", status := StatusOf(response))],
            sending := true)
  }

  function Conclude(s: Server, failure: Option<string>): Server
    requires Enabled(s, EndReply(failure))
  {
    var t := s.batch[0];
    var (id, response) := (s.stages[t].id, s.stages[t].response);
    var r := if failure.Some? then s.tracked[id].(phase := "reply_failed", error := failure)
             else s.tracked[id].(phase := "reply_sent");
    Finalise(s.(tracked := s.tracked[id := r]), id).(
      stages := s.stages[t := Closed(id, if failure.Some? then None else Some(response))],
      sent := if failure.Some? then s.sent else s.sent + [Reply(t, s.requests[t].identity, response)],
      batch := s.batch[1..],
      sending := false)
  }

  /** A step that is not enabled cannot occur, and changes nothing. */
  function Next(s: Server, a: Step): Server {
    if !Enabled(s, a) then s
    else match a
      case Receive(frames, request) =>
        if frames < 2 then s
        else s.(requests := s.requests + [request], stages := s.stages + [Spawned], inflight := s.inflight + {|s.stages|})
      case Start(t, queueWait) => StartTask(s, t, queueWait)
      case Admit(t, queueWait) => AdmitTask(s, t, queueWait)
      case Finish(t, outcome, execution) => FinishTask(s, t, outcome, execution)
      case Collect(done) => s.(batch := done)
      case BeginReply => TakeUp(s)
      case EndReply(failure) => Conclude(s, failure)
  }

  function Run(s: Server, steps: seq<Step>): Server {
    if steps == [] then s else Next(Run(s, steps[..|steps| - 1]), steps[|steps| - 1])
  }

  // ---------------------------------------------------------------- counting tasks by stage

  datatype Kind = InQueue | InFlight | Holding

  predicate Is(st: Stage, k: Kind) {
    match k
    case InQueue => st.Queued?
    case InFlight => st.Running?
    case Holding => st.Running? && st.held
  }

  function Bit(b: bool): nat { if b then 1 else 0 }

  function Count(stages: seq<Stage>, k: Kind): nat {
    if stages == [] then 0 else Count(stages[..|stages| - 1], k) + Bit(Is(stages[|stages| - 1], k))
  }

  lemma {:induction false} CountMove(stages: seq<Stage>, t: nat, st: Stage, k: Kind)
    requires t < |stages|
    ensures Count(stages[t := st], k) + Bit(Is(stages[t], k)) == Count(stages, k) + Bit(Is(st, k))
    decreases |stages|
  {
    var n := |stages| - 1;
    if t == n {
      assert stages[t := st][..n] == stages[..n];
    } else {
      assert stages[t := st][..n] == stages[..n][t := st];
      CountMove(stages[..n], t, st, k);
    }
  }

  lemma CountsMove(stages: seq<Stage>, t: nat, st: Stage)
    requires t < |stages|
    ensures forall k :: Count(stages[t := st], k) + Bit(Is(stages[t], k)) == Count(stages, k) + Bit(Is(st, k))
  {
    forall k: Kind ensures Count(stages[t := st], k) + Bit(Is(stages[t], k)) == Count(stages, k) + Bit(Is(st, k)) {
      CountMove(stages, t, st, k);
    }
  }

  lemma CountSpawn(stages: seq<Stage>)
    ensures forall k :: Count(stages + [Spawned], k) == Count(stages, k)
  {
    assert (stages + [Spawned])[..|stages|] == stages;
  }

  // ---------------------------------------------------------------- capacity

  /** The waiters are the queued tasks, each once. */
  ghost predicate QueueIs(ws: seq<Waiter>, stages: seq<Stage>) {
    && (forall i | 0 <= i < |ws| :: ws[i].task < |stages| && stages[ws[i].task].Queued?)
    && (forall t | 0 <= t < |stages| && stages[t].Queued? :: IsWaiting(ws, t))
  }

  /** Capacity at every await point: slots are free, granted or held, and the counters are exact. */
  ghost predicate Capacity(s: Server) {
    && s.capacity >= 1
    && Fair(s.semaphore)
    && s.semaphore.value + Granted(s.semaphore.waiters) + s.constrained == s.capacity
    && s.constrained == Count(s.stages, Holding)
    && s.active == Count(s.stages, InFlight)
    && s.queued == |s.semaphore.waiters| == Count(s.stages, InQueue)
    && QueueIs(s.semaphore.waiters, s.stages)
  }

  lemma QueueKept(ws: seq<Waiter>, after: seq<Waiter>, stages: seq<Stage>, t: nat, st: Stage)
    requires QueueIs(ws, stages) && Tasks(after) == Tasks(ws)
    requires t < |stages| && !stages[t].Queued? && !st.Queued?
    ensures QueueIs(after, stages[t := st])
  {
    assert |Tasks(after)| == |after| && |Tasks(ws)| == |ws|;
    assert forall i | 0 <= i < |ws| :: Tasks(ws)[i] == ws[i].task && Tasks(after)[i] == after[i].task;
    forall u | 0 <= u < |stages| && stages[t := st][u].Queued? ensures IsWaiting(after, u) {
      assert IsWaiting(ws, u);
      var i :| 0 <= i < |ws| && ws[i].task == u;
      assert after[i].task == u;
    }
  }

  lemma QueueJoined(m: Semaphore, stages: seq<Stage>, t: nat, id: nat)
    requires QueueIs(m.waiters, stages) && t < |stages| && !stages[t].Queued?
    ensures !IsWaiting(m.waiters, t) && QueueIs(Enter(m, t).waiters, stages[t := Queued(id)])
  {
    var after := Enter(m, t).waiters;
    assert after[|m.waiters|].task == t;
    forall u | 0 <= u < |stages| && stages[t := Queued(id)][u].Queued? ensures IsWaiting(after, u) {
      if u != t {
        assert IsWaiting(m.waiters, u);
        var i :| 0 <= i < |m.waiters| && m.waiters[i].task == u;
        assert after[i].task == u;
      }
    }
  }

  lemma QueueLeft(ws: seq<Waiter>, after: seq<Waiter>, stages: seq<Stage>, i: nat, st: Stage)
    requires QueueIs(ws, stages) && i < |ws| && !st.Queued?
    requires forall j, k | 0 <= j < k < |ws| :: ws[j].task != ws[k].task
    requires Tasks(after) == Tasks(ws)[..i] + Tasks(ws)[i + 1..]
    ensures |after| + 1 == |ws| && QueueIs(after, stages[ws[i].task := st])
  {
    assert |Tasks(after)| == |after| && |Tasks(ws)| == |ws|;
    var moved := stages[ws[i].task := st];
    forall j | 0 <= j < |after| ensures after[j].task == ws[if j < i then j else j + 1].task {
      assert after[j].task == Tasks(after)[j];
    }
    forall u | 0 <= u < |moved| && moved[u].Queued? ensures IsWaiting(after, u) {
      assert IsWaiting(ws, u);
      var j :| 0 <= j < |ws| && ws[j].task == u;
      assert after[if j < i then j else j - 1].task == u;
    }
  }

  lemma StartKeepsCapacity(s: Server, t: nat, queueWait: real)
    requires Capacity(s) && Enabled(s, Start(t, queueWait))
    ensures Capacity(StartTask(s, t, queueWait))
  {
    var after := StartTask(s, t, queueWait);
    CountsMove(s.stages, t, after.stages[t]);
    if Bypasses(s.requests[t].path) || !Locked(s.semaphore) {
      QueueKept(s.semaphore.waiters, after.semaphore.waiters, s.stages, t, after.stages[t]);
      hide Granted, QueueIs, IsWaiting, Count, Tasks, Bypasses;
    } else {
      QueueJoined(s.semaphore, s.stages, t, s.nextId + 1);
      EnterKeeps(s.semaphore, t);
      hide Granted, QueueIs, Count, Fair, Tasks;
    }
  }

  lemma AdmitKeepsCapacity(s: Server, t: nat, queueWait: real)
    requires Capacity(s) && Enabled(s, Admit(t, queueWait))
    ensures Capacity(AdmitTask(s, t, queueWait))
  {
    var after := AdmitTask(s, t, queueWait);
    CountsMove(s.stages, t, after.stages[t]);
    var i :| 0 <= i < |s.semaphore.waiters| && s.semaphore.waiters[i] == Waiter(t, true);
    ResumeKeeps(s.semaphore, i);
    QueueLeft(s.semaphore.waiters, after.semaphore.waiters, s.stages, i, after.stages[t]);
    hide Granted, QueueIs, Count, Fair, Tasks, Resume;
  }

  lemma FinishFields(s: Server, t: nat, outcome: Outcome, execution: real)
    requires Enabled(s, Finish(t, outcome, execution))
    ensures var after := FinishTask(s, t, outcome, execution);
            && after.nextId == s.nextId && after.batch == s.batch && after.sending == s.sending && after.inflight == s.inflight
            && after.capacity == s.capacity && after.queued == s.queued && after.active == Down(s.active)
            && t < |after.stages| && (after.stages[t].Abandoned? || after.stages[t].Replying?)
            && after.stages == s.stages[t := after.stages[t]]
            && after.constrained == (if s.stages[t].held then Down(s.constrained) else s.constrained)
            && after.semaphore == (if s.stages[t].held then Release(s.semaphore) else s.semaphore)
  {
    hide Push, Release;
  }

  lemma FinishKeepsCapacity(s: Server, t: nat, outcome: Outcome, execution: real)
    requires Capacity(s) && Enabled(s, Finish(t, outcome, execution))
    ensures Capacity(FinishTask(s, t, outcome, execution))
  {
    FinishFields(s, t, outcome, execution);
    hide FinishTask, Enabled;
    var after := FinishTask(s, t, outcome, execution);
    CountsMove(s.stages, t, after.stages[t]);
    ReleaseKeeps(s.semaphore);
    QueueKept(s.semaphore.waiters, after.semaphore.waiters, s.stages, t, after.stages[t]);
    assert |Tasks(after.semaphore.waiters)| == |after.semaphore.waiters|;
    hide Granted, QueueIs, Count, Fair, Tasks, Release;
  }

  lemma ReplyKeepsCapacity(s: Server, a: Step)
    requires Capacity(s) && Enabled(s, a) && (a.BeginReply? || a.EndReply?)
    ensures Capacity(Next(s, a))
  {
    var t := s.batch[0];
    var after := Next(s, a);
    CountsMove(s.stages, t, after.stages[t]);
    QueueKept(s.semaphore.waiters, after.semaphore.waiters, s.stages, t, after.stages[t]);
    hide Granted, QueueIs, Count, Fair, Tasks, Push;
  }

  lemma NextKeepsCapacity(s: Server, a: Step)
    requires Capacity(s)
    ensures Capacity(Next(s, a))
  {
    if Enabled(s, a) {
      match a
      case Receive(frames, request) => CountSpawn(s.stages);
      case Start(t, w) => StartKeepsCapacity(s, t, w);
      case Admit(t, w) => AdmitKeepsCapacity(s, t, w);
      case Finish(t, o, x) => FinishKeepsCapacity(s, t, o, x);
      case Collect(done) =>
      case _ => ReplyKeepsCapacity(s, a);
    }
  }

  // ---------------------------------------------------------------- tracking and history

  predicate Live(st: Stage) { st.Queued? || st.Running? || st.Replying? || st.Sending? }

  predicate Ended(st: Stage) { st.Abandoned? || st.Closed? }

  /** What the diagnostics say a live request is doing is what it is doing. */
  predicate PhaseFits(st: Stage, phase: string) {
    match st
    case Queued(_) => phase == "queued"
    case Running(_, _) => phase == "dispatching"
    case Replying(_, _) => phase == "dispatched" || phase == "timed_out" || phase == "dispatch_failed"
    case Sending(_, _) => phase == "reply_sending"
    case _ => false
  }

  predicate Started(st: Stage) { !st.Spawned? }

  ghost predicate TracksTask(tracked: map<nat, Tracked>, requests: seq<Request>, stages: seq<Stage>, t: nat)
    requires t < |stages| == |requests| && Live(stages[t])
  {
    && stages[t].id in tracked && tracked[stages[t].id].task == t
    && tracked[stages[t].id].path == requests[t].path
    && PhaseFits(stages[t], tracked[stages[t].id].phase)
  }

  /** Every started task has its own id, and the tracked ids are exactly those of the live tasks. */
  ghost predicate TrackingOf(requests: seq<Request>, stages: seq<Stage>, tracked: map<nat, Tracked>, nextId: nat) {
    && |requests| == |stages|
    && (forall t | 0 <= t < |stages| && Started(stages[t]) :: stages[t].id <= nextId)
    && (forall t, u | 0 <= t < u < |stages| && Started(stages[t]) && Started(stages[u]) :: stages[t].id != stages[u].id)
    && (forall t | 0 <= t < |stages| && Live(stages[t]) :: TracksTask(tracked, requests, stages, t))
    && (forall id | id in tracked ::
          tracked[id].task < |stages| && Live(stages[tracked[id].task]) && stages[tracked[id].task].id == id)
  }

  ghost predicate Tracking(s: Server) { TrackingOf(s.requests, s.stages, s.tracked, s.nextId) }

  lemma TrackSpawn(requests: seq<Request>, stages: seq<Stage>, tracked: map<nat, Tracked>, nextId: nat, request: Request)
    requires TrackingOf(requests, stages, tracked, nextId)
    ensures TrackingOf(requests + [request], stages + [Spawned], tracked, nextId)
  {
    var more, after := requests + [request], stages + [Spawned];
    forall t | 0 <= t < |after| && Live(after[t]) ensures TracksTask(tracked, more, after, t) {
      assert TracksTask(tracked, requests, stages, t);
    }
  }

  lemma TrackStart(requests: seq<Request>, stages: seq<Stage>, tracked: map<nat, Tracked>, nextId: nat, t: nat, st: Stage, r: Tracked)
    requires TrackingOf(requests, stages, tracked, nextId) && t < |stages| && stages[t].Spawned?
    requires Live(st) && st.id == nextId + 1 && r.task == t && r.path == requests[t].path && PhaseFits(st, r.phase)
    ensures TrackingOf(requests, stages[t := st], tracked[st.id := r], nextId + 1)
  {
    hide PhaseFits;
    var after := stages[t := st];
    forall u | 0 <= u < |after| && Live(after[u]) ensures TracksTask(tracked[st.id := r], requests, after, u) {
      if u != t { assert TracksTask(tracked, requests, stages, u); }
    }
  }

  lemma TrackMove(requests: seq<Request>, stages: seq<Stage>, tracked: map<nat, Tracked>, nextId: nat, t: nat, st: Stage, r: Tracked)
    requires TrackingOf(requests, stages, tracked, nextId) && t < |stages| && Live(stages[t])
    requires Live(st) && st.id == stages[t].id && PhaseFits(st, r.phase)
    requires st.id in tracked && r.task == tracked[st.id].task && r.path == tracked[st.id].path
    ensures TrackingOf(requests, stages[t := st], tracked[st.id := r], nextId)
  {
    hide PhaseFits;
    var after := stages[t := st];
    assert TracksTask(tracked, requests, stages, t);
    forall u | 0 <= u < |after| && Live(after[u]) ensures TracksTask(tracked[st.id := r], requests, after, u) {
      if u != t { assert TracksTask(tracked, requests, stages, u); }
    }
  }

  lemma TrackEnd(requests: seq<Request>, stages: seq<Stage>, tracked: map<nat, Tracked>, nextId: nat, t: nat, st: Stage)
    requires TrackingOf(requests, stages, tracked, nextId) && t < |stages| && Started(stages[t])
    requires Ended(st) && st.id == stages[t].id
    ensures TrackingOf(requests, stages[t := st], tracked - {st.id}, nextId)
  {
    hide PhaseFits;
    var after := stages[t := st];
    forall u | 0 <= u < |after| && Live(after[u]) ensures TracksTask(tracked - {st.id}, requests, after, u) {
      assert TracksTask(tracked, requests, stages, u);
    }
  }

  lemma NextKeepsTracking(s: Server, a: Step)
    requires Tracking(s)
    ensures Tracking(Next(s, a))
  {
    hide TrackingOf, Push, Enter, Resume, Release, Locked, Bypasses;
    if Enabled(s, a) {
      var after := Next(s, a);
      match a
      case Receive(_, request) => TrackSpawn(s.requests, s.stages, s.tracked, s.nextId, request);
      case Start(t, _) =>
        TrackStart(s.requests, s.stages, s.tracked, s.nextId, t, after.stages[t], after.tracked[s.nextId + 1]);
      case Admit(t, _) =>
        TrackMove(s.requests, s.stages, s.tracked, s.nextId, t, after.stages[t], after.tracked[s.stages[t].id]);
      case Finish(t, outcome, execution) => FinishKeepsTracking(s, t, outcome, execution);
      case Collect(_) =>
      case BeginReply =>
        var t := s.batch[0];
        if s.stages[t].Abandoned? { AbandonedUntracked(s, t); TrackEnd(s.requests, s.stages, s.tracked, s.nextId, t, after.stages[t]); }
        else { TrackMove(s.requests, s.stages, s.tracked, s.nextId, t, after.stages[t], after.tracked[s.stages[t].id]); }
      case EndReply(_) =>
        var t := s.batch[0];
        TrackEnd(s.requests, s.stages, s.tracked, s.nextId, t, after.stages[t]);
        assert after.tracked == s.tracked - {s.stages[t].id};
    }
  }

  lemma AbandonedUntracked(s: Server, t: nat)
    requires Tracking(s) && t < |s.stages| && s.stages[t].Abandoned?
    ensures s.tracked - {s.stages[t].id} == s.tracked
  {}

  lemma FinishKeepsTracking(s: Server, t: nat, outcome: Outcome, execution: real)
    requires Tracking(s) && Enabled(s, Finish(t, outcome, execution))
    ensures Tracking(FinishTask(s, t, outcome, execution))
  {
    hide TrackingOf, Push, Release;
    var after := FinishTask(s, t, outcome, execution);
    if outcome.Cancelled? {
      TrackEnd(s.requests, s.stages, s.tracked, s.nextId, t, after.stages[t]);
      assert after.tracked == s.tracked - {s.stages[t].id};
    } else {
      TrackMove(s.requests, s.stages, s.tracked, s.nextId, t, after.stages[t], after.tracked[s.stages[t].id]);
    }
  }

  function Last<T>(log: seq<T>): seq<T> { if |log| <= RECENT_LIMIT then log else log[|log| - RECENT_LIMIT..] }

  function Diagnostics(log: seq<Entry>): seq<Diagnostic> { seq(|log|, i requires 0 <= i < |log| => log[i].diagnostic) }

  function Samples(ds: seq<Diagnostic>): seq<Sample> { seq(|ds|, i requires 0 <= i < |ds| => SampleOf(ds[i])) }

  /** Both recent deques are the last finalisations, in lockstep. */
  ghost predicate Recent(s: Server) {
    s.diagnostics == Last(Diagnostics(s.log)) && s.samples == Samples(s.diagnostics)
  }

  lemma PushIsLast<T>(log: seq<T>, x: T)
    ensures Push(Last(log), x) == Last(log + [x])
  {}

  lemma FinaliseKeepsRecent(s: Server, id: nat)
    requires Recent(s) && id in s.tracked
    ensures Recent(Finalise(s, id))
  {
    var entry := Entry(s.tracked[id].task, DiagnosticOf(id, s.tracked[id]));
    assert Diagnostics(s.log + [entry]) == Diagnostics(s.log) + [entry.diagnostic];
    PushIsLast(Diagnostics(s.log), entry.diagnostic);
    assert Samples(Push(s.diagnostics, entry.diagnostic)) == Push(s.samples, SampleOf(entry.diagnostic));
  }

  lemma NextKeepsRecent(s: Server, a: Step)
    requires Recent(s)
    ensures Recent(Next(s, a))
  {
    if Enabled(s, a) {
      match a
      case Finish(t, outcome, execution) =>
        var id := s.stages[t].id;
        FinaliseKeepsRecent(s.(tracked := s.tracked[id := Settled(s.tracked[id], outcome, execution).0]), id);
        hide Diagnostics, Last, Samples, Push, Release;
      case EndReply(failure) =>
        var id := s.stages[s.batch[0]].id;
        var r := if failure.Some? then s.tracked[id].(phase := "reply_failed", error := failure)
                 else s.tracked[id].(phase := "reply_sent");
        FinaliseKeepsRecent(s.(tracked := s.tracked[id := r]), id);
        hide Diagnostics, Last, Samples, Push;
      case _ => hide Diagnostics, Last, Samples, Push;
    }
  }

  /** Each ended request was finalised once, and none else was. */
  ghost predicate FinalisedOf(stages: seq<Stage>, log: seq<Entry>) {
    && (forall k | 0 <= k < |log| ::
          log[k].task < |stages| && Ended(stages[log[k].task]) && log[k].diagnostic.id == stages[log[k].task].id)
    && (forall j, k | 0 <= j < k < |log| :: log[j].task != log[k].task)
    && (forall t | 0 <= t < |stages| && Ended(stages[t]) :: Logged(log, t))
  }

  predicate Logged(log: seq<Entry>, t: nat) { exists k :: 0 <= k < |log| && log[k].task == t }

  ghost predicate Finalised(s: Server) { FinalisedOf(s.stages, s.log) }

  lemma LogKept(stages: seq<Stage>, log: seq<Entry>, t: nat, st: Stage)
    requires FinalisedOf(stages, log) && t < |stages|
    requires Ended(st) <==> Ended(stages[t])
    requires Ended(st) ==> st.id == stages[t].id
    ensures FinalisedOf(stages[t := st], log)
  {
    hide Logged;
    var after := stages[t := st];
    forall u | 0 <= u < |after| && Ended(after[u]) ensures Logged(log, u) { assert Ended(stages[u]); }
  }

  lemma LogSpawn(stages: seq<Stage>, log: seq<Entry>)
    requires FinalisedOf(stages, log)
    ensures FinalisedOf(stages + [Spawned], log)
  {
    hide Logged;
    var after := stages + [Spawned];
    forall u | 0 <= u < |after| && Ended(after[u]) ensures Logged(log, u) { assert Ended(stages[u]); }
  }

  lemma LogGrows(stages: seq<Stage>, log: seq<Entry>, t: nat, st: Stage, entry: Entry)
    requires FinalisedOf(stages, log) && t < |stages| && !Ended(stages[t])
    requires Ended(st) && entry.task == t && entry.diagnostic.id == st.id
    ensures FinalisedOf(stages[t := st], log + [entry])
  {
    var after, more := stages[t := st], log + [entry];
    forall u | 0 <= u < |after| && Ended(after[u]) ensures Logged(more, u) {
      if u == t { assert more[|log|].task == t; }
      else {
        assert Logged(log, u);
        var k :| 0 <= k < |log| && log[k].task == u;
        assert more[k].task == u;
      }
    }
  }

  /** Each answered request got the response of its own dispatch, once, at its own identity. */
  ghost predicate AnsweredOf(requests: seq<Request>, stages: seq<Stage>, sent: seq<Reply>) {
    && (forall k | 0 <= k < |sent| ::
          sent[k].task < |stages| && sent[k].task < |requests| && sent[k].identity == requests[sent[k].task].identity
          && stages[sent[k].task].Closed? && stages[sent[k].task].reply == Some(sent[k].response))
    && (forall j, k | 0 <= j < k < |sent| :: sent[j].task != sent[k].task)
    && (forall t | 0 <= t < |stages| && stages[t].Closed? && stages[t].reply.Some? :: Replied(sent, t))
  }

  predicate Replied(sent: seq<Reply>, t: nat) { exists k :: 0 <= k < |sent| && sent[k].task == t }

  ghost predicate Answered(s: Server) { AnsweredOf(s.requests, s.stages, s.sent) }

  lemma AnswersSpawn(requests: seq<Request>, stages: seq<Stage>, sent: seq<Reply>, request: Request)
    requires AnsweredOf(requests, stages, sent)
    ensures AnsweredOf(requests + [request], stages + [Spawned], sent)
  {
    hide Replied;
    var after := stages + [Spawned];
    forall u | 0 <= u < |after| && after[u].Closed? && after[u].reply.Some? ensures Replied(sent, u) { assert u < |stages|; }
  }

  lemma AnswersKept(requests: seq<Request>, stages: seq<Stage>, sent: seq<Reply>, t: nat, st: Stage)
    requires AnsweredOf(requests, stages, sent) && t < |stages| && !stages[t].Closed?
    requires st.Closed? ==> st.reply.None?
    ensures AnsweredOf(requests, stages[t := st], sent)
  {
    hide Replied;
    var after := stages[t := st];
    forall u | 0 <= u < |after| && after[u].Closed? && after[u].reply.Some? ensures Replied(sent, u) { assert u != t; }
  }

  lemma AnswersGrow(requests: seq<Request>, stages: seq<Stage>, sent: seq<Reply>, t: nat, st: Stage, reply: Reply)
    requires AnsweredOf(requests, stages, sent) && t < |stages| && t < |requests| && !stages[t].Closed?
    requires st.Closed? && st.reply == Some(reply.response) && reply.task == t && reply.identity == requests[t].identity
    ensures AnsweredOf(requests, stages[t := st], sent + [reply])
  {
    var after, more := stages[t := st], sent + [reply];
    forall u | 0 <= u < |after| && after[u].Closed? && after[u].reply.Some? ensures Replied(more, u) {
      if u == t { assert more[|sent|].task == t; }
      else {
        assert Replied(sent, u);
        var k :| 0 <= k < |sent| && sent[k].task == u;
        assert more[k].task == u;
      }
    }
  }

  lemma NextKeepsAnswered(s: Server, a: Step)
    requires Answered(s)
    ensures Answered(Next(s, a))
  {
    hide AnsweredOf, Push, Enter, Resume, Release, Locked, Bypasses, SampleOf, DiagnosticOf;
    if Enabled(s, a) {
      var after := Next(s, a);
      match a
      case Receive(_, request) => AnswersSpawn(s.requests, s.stages, s.sent, request);
      case Start(t, _) => AnswersKept(s.requests, s.stages, s.sent, t, after.stages[t]);
      case Admit(t, _) => AnswersKept(s.requests, s.stages, s.sent, t, after.stages[t]);
      case Finish(t, _, _) => AnswersKept(s.requests, s.stages, s.sent, t, after.stages[t]);
      case Collect(_) =>
      case BeginReply => AnswersKept(s.requests, s.stages, s.sent, s.batch[0], after.stages[s.batch[0]]);
      case EndReply(failure) =>
        var t := s.batch[0];
        if failure.Some? { AnswersKept(s.requests, s.stages, s.sent, t, after.stages[t]); }
        else {
          AnswersGrow(s.requests, s.stages, s.sent, t, after.stages[t],
                      Reply(t, s.requests[t].identity, s.stages[t].response));
        }
    }
  }

  lemma TrackedOwner(s: Server, t: nat)
    requires Tracking(s) && t < |s.stages| && Live(s.stages[t])
    ensures s.stages[t].id in s.tracked && s.tracked[s.stages[t].id].task == t
  {
    assert TracksTask(s.tracked, s.requests, s.stages, t);
  }

  lemma FinishKeepsFinalised(s: Server, t: nat, outcome: Outcome, execution: real)
    requires Tracking(s) && Finalised(s) && Enabled(s, Finish(t, outcome, execution))
    ensures Finalised(FinishTask(s, t, outcome, execution))
  {
    TrackedOwner(s, t);
    hide TrackingOf, FinalisedOf, Push, Release, SampleOf;
    var after := FinishTask(s, t, outcome, execution);
    if outcome.Cancelled? { LogGrows(s.stages, s.log, t, after.stages[t], after.log[|s.log|]); }
    else { LogKept(s.stages, s.log, t, after.stages[t]); }
  }

  lemma ConcludeKeepsFinalised(s: Server, failure: Option<string>)
    requires Tracking(s) && Finalised(s) && Enabled(s, EndReply(failure))
    ensures Finalised(Conclude(s, failure))
  {
    var t := s.batch[0];
    TrackedOwner(s, t);
    hide TrackingOf, FinalisedOf, Push, SampleOf;
    var after := Conclude(s, failure);
    LogGrows(s.stages, s.log, t, after.stages[t], after.log[|s.log|]);
  }

  lemma NextKeepsFinalised(s: Server, a: Step)
    requires Tracking(s) && Finalised(s)
    ensures Finalised(Next(s, a))
  {
    hide TrackingOf, FinalisedOf, Push, Enter, Resume, Locked, Bypasses, FinishTask, Conclude;
    if Enabled(s, a) {
      var after := Next(s, a);
      match a
      case Receive(_, request) => LogSpawn(s.stages, s.log);
      case Start(t, _) => LogKept(s.stages, s.log, t, after.stages[t]);
      case Admit(t, _) => LogKept(s.stages, s.log, t, after.stages[t]);
      case Finish(t, outcome, x) => FinishKeepsFinalised(s, t, outcome, x);
      case Collect(_) =>
      case BeginReply => LogKept(s.stages, s.log, s.batch[0], after.stages[s.batch[0]]);
      case EndReply(failure) => ConcludeKeepsFinalised(s, failure);
    }
  }

  /** The loop's own books: what it holds done, what it is sending, and which tasks it still watches. */
  ghost predicate Loop(s: Server) {
    && (forall t: nat :: t in s.inflight <==> t < |s.stages| && !s.stages[t].Sending? && !s.stages[t].Closed?)
    && (forall i, j | 0 <= i < j < |s.batch| :: s.batch[i] != s.batch[j])
    && (forall i | 0 <= i < |s.batch| :: s.batch[i] < |s.stages|
          && if s.sending && i == 0 then s.stages[s.batch[i]].Sending? else IsDone(s.stages[s.batch[i]]))
    && (s.sending ==> s.batch != [])
    && (forall t: nat | t < |s.stages| && s.stages[t].Sending? :: s.sending && s.batch[0] == t)
  }

  /** A task moves between stages the loop watches without touching its books. */
  lemma LoopKept(s: Server, after: Server, t: nat)
    requires Loop(s) && t < |s.stages| && !IsDone(s.stages[t]) && !s.stages[t].Sending? && !s.stages[t].Closed?
    requires |after.stages| == |s.stages| && after.stages == s.stages[t := after.stages[t]]
    requires !after.stages[t].Sending? && !after.stages[t].Closed?
    requires after.inflight == s.inflight && after.batch == s.batch && after.sending == s.sending
    ensures Loop(after)
  {}

  lemma TakeUpKeepsLoop(s: Server)
    requires Loop(s) && Enabled(s, BeginReply)
    ensures Loop(TakeUp(s))
  {
    var after := TakeUp(s);
    assert forall i | 0 < i < |s.batch| :: s.stages[s.batch[i]] == after.stages[s.batch[i]];
  }

  lemma ConcludeKeepsLoop(s: Server, failure: Option<string>)
    requires Loop(s) && Enabled(s, EndReply(failure))
    ensures Loop(Conclude(s, failure))
  {
    hide Push, SampleOf, DiagnosticOf;
    var after := Conclude(s, failure);
    assert forall i | 0 < i < |s.batch| :: s.stages[s.batch[i]] == after.stages[s.batch[i]];
  }

  lemma StartKeepsLoop(s: Server, t: nat, queueWait: real)
    requires Loop(s) && Enabled(s, Start(t, queueWait))
    ensures Loop(StartTask(s, t, queueWait))
  {
    hide Locked, Bypasses, Enter, Loop;
    LoopKept(s, StartTask(s, t, queueWait), t);
  }

  lemma AdmitKeepsLoop(s: Server, t: nat, queueWait: real)
    requires Loop(s) && Enabled(s, Admit(t, queueWait))
    ensures Loop(AdmitTask(s, t, queueWait))
  {
    hide Resume, Loop;
    LoopKept(s, AdmitTask(s, t, queueWait), t);
  }

  lemma FinishKeepsLoop(s: Server, t: nat, outcome: Outcome, execution: real)
    requires Loop(s) && Enabled(s, Finish(t, outcome, execution))
    ensures Loop(FinishTask(s, t, outcome, execution))
  {
    FinishFields(s, t, outcome, execution);
    hide FinishTask, Loop;
    LoopKept(s, FinishTask(s, t, outcome, execution), t);
  }

  lemma NextKeepsLoop(s: Server, a: Step)
    requires Loop(s)
    ensures Loop(Next(s, a))
  {
    hide StartTask, AdmitTask, FinishTask, TakeUp, Conclude;
    if Enabled(s, a) {
      match a
      case Start(t, w) => StartKeepsLoop(s, t, w);
      case Admit(t, w) => AdmitKeepsLoop(s, t, w);
      case Finish(t, outcome, x) => FinishKeepsLoop(s, t, outcome, x);
      case BeginReply => TakeUpKeepsLoop(s);
      case EndReply(failure) => ConcludeKeepsLoop(s, failure);
      case _ =>
    }
  }

  // ---------------------------------------------------------------- who waits, and in which order

  /** Only constrained requests wait or hold a slot, and every running constrained request holds one. */
  ghost predicate Paths(s: Server) {
    |s.requests| == |s.stages|
    && forall t: nat | t < |s.stages| ::
         && (s.stages[t].Queued? ==> !Bypasses(s.requests[t].path))
         && (s.stages[t].Running? ==> (s.stages[t].held <==> !Bypasses(s.requests[t].path)))
  }

  lemma NextKeepsPaths(s: Server, a: Step)
    requires Paths(s)
    ensures Paths(Next(s, a))
  {
    hide Push, Enter, Resume, Release, Locked, Bypasses, SampleOf, DiagnosticOf;
    if Enabled(s, a) && a.Finish? { FinishFields(s, a.task, a.outcome, a.execution); }
  }

  /** The queue is in the order in which the requests started. */
  ghost predicate Arrival(stages: seq<Stage>, queue: seq<nat>, nextId: nat) {
    && (forall i | 0 <= i < |queue| :: queue[i] < |stages| && stages[queue[i]].Queued? && stages[queue[i]].id <= nextId)
    && (forall i, j | 0 <= i < j < |queue| :: stages[queue[i]].id < stages[queue[j]].id)
  }

  ghost predicate InOrder(s: Server) { Arrival(s.stages, Tasks(s.semaphore.waiters), s.nextId) }

  lemma ArrivalKept(stages: seq<Stage>, queue: seq<nat>, nextId: nat, t: nat, st: Stage, later: nat)
    requires Arrival(stages, queue, nextId) && t < |stages| && !stages[t].Queued? && nextId <= later
    ensures Arrival(stages[t := st], queue, later)
  {}

  lemma ArrivalLeft(stages: seq<Stage>, queue: seq<nat>, nextId: nat, i: nat, st: Stage)
    requires Arrival(stages, queue, nextId) && i < |queue|
    ensures Arrival(stages[queue[i] := st], queue[..i] + queue[i + 1..], nextId)
  {
    var left := queue[..i] + queue[i + 1..];
    assert forall k | 0 <= k < |left| :: left[k] == queue[if k < i then k else k + 1] && left[k] != queue[i];
  }

  lemma NextKeepsOrder(s: Server, a: Step)
    requires Capacity(s) && InOrder(s)
    ensures InOrder(Next(s, a))
  {
    hide Arrival, Tasks, Granted, QueueIs, Count, Push, Bypasses;
    var queue := Tasks(s.semaphore.waiters);
    if Enabled(s, a) {
      var after := Next(s, a);
      match a
      case Receive(_, _) => ReceiveKeepsOrder(s, a);
      case Start(t, _) =>
        if after.stages[t].Queued? { StartKeepsOrder(s, t, a.queueWait); }
        else { ArrivalKept(s.stages, queue, s.nextId, t, after.stages[t], after.nextId); }
      case Admit(t, _) =>
        var i :| 0 <= i < |s.semaphore.waiters| && s.semaphore.waiters[i] == Waiter(t, true);
        AdmitKeepsOrder(s, t, a.queueWait, i);
      case Finish(t, o, x) =>
        FinishFields(s, t, o, x);
        ReleaseKeeps(s.semaphore);
        ArrivalKept(s.stages, queue, s.nextId, t, after.stages[t], after.nextId);
      case Collect(_) =>
      case _ => ArrivalKept(s.stages, queue, s.nextId, s.batch[0], after.stages[s.batch[0]], after.nextId);
    }
  }

  lemma ReceiveKeepsOrder(s: Server, a: Step)
    requires InOrder(s) && Enabled(s, a) && a.Receive?
    ensures InOrder(Next(s, a))
  {
    var queue := Tasks(s.semaphore.waiters);
    hide Tasks;
    assert forall i | 0 <= i < |queue| :: Next(s, a).stages[queue[i]] == s.stages[queue[i]];
  }

  lemma StartKeepsOrder(s: Server, t: nat, queueWait: real)
    requires InOrder(s) && Enabled(s, Start(t, queueWait)) && StartTask(s, t, queueWait).stages[t].Queued?
    ensures InOrder(StartTask(s, t, queueWait))
  {
    var after := StartTask(s, t, queueWait);
    var queue := Tasks(s.semaphore.waiters);
    assert Tasks(after.semaphore.waiters) == queue + [t];
    hide Tasks, Bypasses, Locked;
    assert forall i | 0 <= i < |queue| :: after.stages[queue[i]] == s.stages[queue[i]];
  }

  lemma AdmitKeepsOrder(s: Server, t: nat, queueWait: real, i: nat)
    requires Fair(s.semaphore) && InOrder(s) && Enabled(s, Admit(t, queueWait))
    requires i < |s.semaphore.waiters| && s.semaphore.waiters[i] == Waiter(t, true)
    ensures InOrder(AdmitTask(s, t, queueWait))
  {
    var queue := Tasks(s.semaphore.waiters);
    assert |queue| == |s.semaphore.waiters| && queue[i] == t;
    ResumeKeeps(s.semaphore, i);
    ArrivalLeft(s.stages, queue, s.nextId, i, AdmitTask(s, t, queueWait).stages[t]);
    hide Arrival, Tasks, Resume;
  }

  // ---------------------------------------------------------------- every reachable state

  ghost predicate Inv(s: Server) {
    Capacity(s) && Tracking(s) && Recent(s) && Finalised(s) && Answered(s) && Loop(s) && Paths(s) && InOrder(s)
  }

  lemma NextKeepsInv(s: Server, a: Step)
    requires Inv(s)
    ensures Inv(Next(s, a))
  {
    hide Capacity, Tracking, Recent, Finalised, Answered, Loop, Paths, InOrder, Next;
    NextKeepsCapacity(s, a);
    NextKeepsTracking(s, a);
    NextKeepsRecent(s, a);
    NextKeepsFinalised(s, a);
    NextKeepsAnswered(s, a);
    NextKeepsLoop(s, a);
    NextKeepsPaths(s, a);
    NextKeepsOrder(s, a);
  }

  lemma {:induction false} RunKeepsInv(s: Server, steps: seq<Step>)
    requires Inv(s)
    ensures Inv(Run(s, steps))
    decreases |steps|
  {
    hide Inv, Next;
    if steps != [] {
      RunKeepsInv(s, steps[..|steps| - 1]);
      NextKeepsInv(Run(s, steps[..|steps| - 1]), steps[|steps| - 1]);
    }
  }

  lemma Reachable(maxConcurrent: int, steps: seq<Step>)
    ensures Inv(Run(Initial(maxConcurrent), steps))
  {
    assert Inv(Initial(maxConcurrent));
    RunKeepsInv(Initial(maxConcurrent), steps);
  }

  /**
   * Capacity over every run: slots are free, granted or held; the constrained requests in flight
   * never exceed the limit; and the counters shown to operators are the true numbers. What the
   * snapshot calls available still includes the slots granted to requests that have not resumed.
   */
  lemma SlotsBalance(maxConcurrent: int, steps: seq<Step>)
    ensures var s := Run(Initial(maxConcurrent), steps);
            && s.semaphore.value + Granted(s.semaphore.waiters) + Count(s.stages, Holding) == s.capacity
            && s.constrained == Count(s.stages, Holding) <= s.capacity
            && s.active == Count(s.stages, InFlight)
            && s.queued == |s.semaphore.waiters| == Count(s.stages, InQueue)
            && s.capacity - s.constrained == s.semaphore.value + Granted(s.semaphore.waiters)
  {
    Reachable(maxConcurrent, steps);
  }

  /** One request runs, with the only slot, as task 0. */
  ghost predicate OneRuns(s: Server, a: Request) {
    && s.capacity == 1 && s.semaphore == Semaphore(0, []) && s.requests == [a] && s.stages == [Running(1, true)]
    && s.constrained == 1 && s.nextId == 1 && 1 in s.tracked && s.batch == []
  }

  lemma FirstRuns(a: Request)
    requires !Bypasses(a.path)
    ensures OneRuns(Next(Next(Initial(1), Receive(2, a)), Start(0, 0.0)), a)
  {
    hide Bypasses;
  }

  ghost predicate OneWaits(s: Server) {
    && s.capacity == 1 && s.semaphore == Semaphore(0, [Waiter(1, false)]) && s.stages == [Running(1, true), Queued(2)]
    && s.constrained == 1 && 1 in s.tracked
  }

  lemma SecondWaits(s: Server, a: Request, b: Request)
    requires OneRuns(s, a) && !Bypasses(b.path)
    ensures OneWaits(Next(Next(s, Receive(2, b)), Start(1, 0.0)))
  {
    hide Bypasses;
  }

  lemma FirstEnds(s: Server, body: string)
    requires OneWaits(s)
    ensures var last := Next(s, Finish(0, Returned(None, body), 0.0));
            && Granted(last.semaphore.waiters) == 1 && last.semaphore.value == 0 && last.capacity - last.constrained == 1
            && last.stages[1] == Queued(2)
  {
    FinishFields(s, 0, Returned(None, body), 0.0);
    assert Release(s.semaphore) == Semaphore(0, [Waiter(1, true)]);
    hide FinishTask;
  }

  /**
   * The slot of a finished request, passed to a waiting one that has not resumed yet: none is free,
   * and the snapshot calls one available.
   */
  lemma GrantedSlotHappens(a: Request, b: Request, body: string)
    requires !Bypasses(a.path) && !Bypasses(b.path)
    ensures var steps := [Receive(2, a), Start(0, 0.0), Receive(2, b), Start(1, 0.0), Finish(0, Returned(None, body), 0.0)];
            var s := Run(Initial(1), steps);
            Granted(s.semaphore.waiters) == 1 && s.semaphore.value == 0 && s.capacity - s.constrained == 1
  {
    var steps := [Receive(2, a), Start(0, 0.0), Receive(2, b), Start(1, 0.0), Finish(0, Returned(None, body), 0.0)];
    FirstRuns(a);
    hide Next, OneRuns, OneWaits, Bypasses;
    assert steps[..0] == [] && steps[..1] == steps[..0] + [steps[0]] && steps[..2] == steps[..1] + [steps[1]];
    assert steps[..3] == steps[..2] + [steps[2]] && steps[..4] == steps[..3] + [steps[3]] && steps == steps[..4] + [steps[4]];
    RunSnoc(Initial(1), steps[..0], steps[0]);
    RunSnoc(Initial(1), steps[..1], steps[1]);
    RunSnoc(Initial(1), steps[..2], steps[2]);
    RunSnoc(Initial(1), steps[..3], steps[3]);
    RunSnoc(Initial(1), steps[..4], steps[4]);
    hide Run;
    SecondWaits(Run(Initial(1), steps[..2]), a, b);
    FirstEnds(Run(Initial(1), steps[..4]), body);
  }

  lemma RunSnoc(s: Server, steps: seq<Step>, a: Step)
    ensures Run(s, steps + [a]) == Next(Run(s, steps), a)
  {
    assert (steps + [a])[..|steps|] == steps;
  }

  /** A bypass path never waits for a slot nor holds one, however full the server is. */
  lemma BypassNeverWaits(maxConcurrent: int, steps: seq<Step>, t: nat)
    requires t < |Run(Initial(maxConcurrent), steps).stages|
    ensures var s := Run(Initial(maxConcurrent), steps);
            && t < |s.requests|
            && (Bypasses(s.requests[t].path) ==>
                  && !s.stages[t].Queued? && !Is(s.stages[t], Holding)
                  && (s.stages[t].Spawned? ==> forall w :: Next(s, Start(t, w)).stages[t] == Running(s.nextId + 1, false)))
  {
    Reachable(maxConcurrent, steps);
  }

  /** Slots are granted in the order in which requests began to wait. */
  lemma NoOvertaking(maxConcurrent: int, steps: seq<Step>, i: nat, j: nat)
    requires i < |Run(Initial(maxConcurrent), steps).semaphore.waiters|
    requires j < |Run(Initial(maxConcurrent), steps).semaphore.waiters|
    ensures var s := Run(Initial(maxConcurrent), steps);
            var (w, v) := (s.semaphore.waiters[i], s.semaphore.waiters[j]);
            && w.task < |s.stages| && v.task < |s.stages| && s.stages[w.task].Queued? && s.stages[v.task].Queued?
            && (s.stages[w.task].id < s.stages[v.task].id && v.granted ==> w.granted)
  {
    Reachable(maxConcurrent, steps);
    var s := Run(Initial(maxConcurrent), steps);
    assert Tasks(s.semaphore.waiters)[i] == s.semaphore.waiters[i].task;
    assert Tasks(s.semaphore.waiters)[j] == s.semaphore.waiters[j].task;
    hide Run, Tracking, Recent, Finalised, Answered, Loop, Paths, Count, QueueIs;
  }

  /**
   * Every request is finalised exactly once, when and only when it has ended; it is answered at most
   * once, at its own identity, with the response of its own dispatch.
   */
  lemma FinalisedExactlyOnce(maxConcurrent: int, steps: seq<Step>, t: nat)
    requires t < |Run(Initial(maxConcurrent), steps).stages|
    ensures var s := Run(Initial(maxConcurrent), steps);
            && (Ended(s.stages[t]) <==> exists k :: 0 <= k < |s.log| && s.log[k].task == t)
            && (forall j, k | 0 <= j < |s.log| && 0 <= k < |s.log| && s.log[j].task == t && s.log[k].task == t :: j == k)
            && (forall j, k | 0 <= j < |s.sent| && 0 <= k < |s.sent| && s.sent[j].task == t && s.sent[k].task == t :: j == k)
            && (forall k | 0 <= k < |s.sent| && s.sent[k].task == t ::
                  t < |s.requests| && s.sent[k].identity == s.requests[t].identity
                  && s.stages[t].Closed? && s.stages[t].reply == Some(s.sent[k].response))
  {
    Reachable(maxConcurrent, steps);
    hide Run, Capacity, Tracking, Recent, Loop, Paths, InOrder;
    var s := Run(Initial(maxConcurrent), steps);
    if Ended(s.stages[t]) {
      assert Logged(s.log, t);
      var k :| 0 <= k < |s.log| && s.log[k].task == t;
    }
  }

  /** The two recent histories are the last 32 finalisations, record for record. */
  lemma RecentIsLast(maxConcurrent: int, steps: seq<Step>)
    ensures var s := Run(Initial(maxConcurrent), steps);
            && |s.diagnostics| == |s.samples| == (if |s.log| < 32 then |s.log| else 32)
            && forall i | 0 <= i < |s.diagnostics| ::
                 s.diagnostics[i] == s.log[|s.log| - |s.diagnostics| + i].diagnostic
                 && s.samples[i] == SampleOf(s.diagnostics[i])
  {
    Reachable(maxConcurrent, steps);
    hide Run, Capacity, Tracking, Finalised, Answered, Loop, Paths, InOrder;
  }

  // ---------------------------------------------------------------- progress

  /** A step of the server itself that does something. */
  predicate Moves(s: Server, a: Step) { Enabled(s, a) && !a.Receive? && (a.Collect? ==> a.done != []) }

  /**
   * While any received request is still open, some step can be taken. For a running one it is the end
   * that its time limit brings about, if its handler has not ended before.
   */
  lemma NoDeadlock(s: Server, t: nat)
    requires Inv(s) && t < |s.stages| && !s.stages[t].Closed?
    ensures exists a :: Moves(s, a)
  {
    hide Recent, Finalised, Answered, Paths, InOrder, TrackingOf, Count, Granted;
    if s.batch != [] {
      var u := s.batch[0];
      if s.stages[u].Sending? { TrackedOwner(s, u); TracksAll(s); assert Moves(s, EndReply(None)); }
      else {
        if s.stages[u].Replying? { TrackedOwner(s, u); }
        assert Moves(s, BeginReply);
      }
    } else {
      match s.stages[t]
      case Spawned => TracksAll(s); assert Moves(s, Start(t, 0.0));
      case Running(_, _) => TrackedOwner(s, t); assert Moves(s, Finish(t, TimedOut, 0.0));
      case Replying(_, _) => assert Moves(s, Collect([t]));
      case Abandoned(_) => assert Moves(s, Collect([t]));
      case Queued(_) => QueueMoves(s, t);
      case Sending(_, _) => assert false;
    }
  }

  lemma TracksAll(s: Server)
    requires Tracking(s)
    ensures |s.requests| == |s.stages|
  {}

  /** A waiting request has a granted one to resume, or a holder whose end will free a slot. */
  lemma QueueMoves(s: Server, t: nat)
    requires Capacity(s) && Tracking(s) && t < |s.stages| && s.stages[t].Queued?
    ensures exists a :: Moves(s, a)
  {
    hide TrackingOf;
    assert IsWaiting(s.semaphore.waiters, t);
    if Granted(s.semaphore.waiters) > 0 {
      var u := s.semaphore.waiters[0].task;
      assert s.semaphore.waiters[0] == Waiter(u, true);
      TrackedOwner(s, u);
      assert Moves(s, Admit(u, 0.0));
    } else {
      assert s.semaphore.value == 0 && Count(s.stages, Holding) > 0;
      var u := HolderExists(s.stages);
      TrackedOwner(s, u);
      assert Moves(s, Finish(u, TimedOut, 0.0));
    }
  }

  lemma {:induction false} HolderExists(stages: seq<Stage>) returns (u: nat)
    requires Count(stages, Holding) > 0
    ensures u < |stages| && stages[u].Running?
    decreases |stages|
  {
    if Is(stages[|stages| - 1], Holding) { u := |stages| - 1; } else { u := HolderExists(stages[..|stages| - 1]); }
  }

  function Rank(st: Stage): nat {
    match st
    case Spawned => 5
    case Queued(_) => 4
    case Running(_, _) => 3
    case Replying(_, _) => 2
    case Sending(_, _) => 1
    case Abandoned(_) => 1
    case Closed(_, _) => 0
  }

  function Work(stages: seq<Stage>): nat {
    if stages == [] then 0 else Work(stages[..|stages| - 1]) + Rank(stages[|stages| - 1])
  }

  lemma {:induction false} WorkMove(stages: seq<Stage>, t: nat, st: Stage)
    requires t < |stages|
    ensures Work(stages[t := st]) + Rank(stages[t]) == Work(stages) + Rank(st)
    decreases |stages|
  {
    var n := |stages| - 1;
    if t == n {
      assert stages[t := st][..n] == stages[..n];
    } else {
      assert stages[t := st][..n] == stages[..n][t := st];
      WorkMove(stages[..n], t, st);
    }
  }

  /** What is left to do: two for each stage to pass, and one for an idle loop. */
  function Remaining(s: Server): nat { 2 * Work(s.stages) + if s.batch == [] then 1 else 0 }

  lemma MovesDecrease(s: Server, a: Step)
    requires Moves(s, a)
    ensures Remaining(Next(s, a)) < Remaining(s)
  {
    hide Push, Enter, Resume, Release, Locked, Bypasses, SampleOf, DiagnosticOf, Work, FinishTask;
    match a
    case Start(t, _) => WorkMove(s.stages, t, Next(s, a).stages[t]);
    case Admit(t, _) => WorkMove(s.stages, t, Next(s, a).stages[t]);
    case Finish(t, o, x) =>
      FinishFields(s, t, o, x);
      WorkMove(s.stages, t, FinishTask(s, t, o, x).stages[t]);
    case Collect(_) =>
    case BeginReply => WorkMove(s.stages, s.batch[0], TakeUp(s).stages[s.batch[0]]);
    case EndReply(failure) => WorkMove(s.stages, s.batch[0], Conclude(s, failure).stages[s.batch[0]]);
  }

  /** A schedule of effective steps, without new arrivals. */
  ghost predicate Effective(s: Server, steps: seq<Step>) {
    steps == [] || (Effective(s, steps[..|steps| - 1]) && Moves(Run(s, steps[..|steps| - 1]), steps[|steps| - 1]))
  }

  /**
   * The server drains: without new arrivals, any schedule takes a bounded number of steps, and one
   * that can go no further has closed every received request.
   */
  lemma {:induction false} Drains(s: Server, steps: seq<Step>)
    requires Inv(s) && Effective(s, steps)
    ensures |steps| + Remaining(Run(s, steps)) <= Remaining(s)
    ensures (forall a :: !Moves(Run(s, steps), a)) ==>
              forall t: nat | t < |Run(s, steps).stages| :: Run(s, steps).stages[t].Closed?
    decreases |steps|
  {
    hide Inv, Next, Moves, Remaining;
    RunKeepsInv(s, steps);
    if steps != [] {
      var init := steps[..|steps| - 1];
      Drains(s, init);
      MovesDecrease(Run(s, init), steps[|steps| - 1]);
    }
    var last := Run(s, steps);
    if forall a :: !Moves(last, a) {
      forall t: nat | t < |last.stages| ensures last.stages[t].Closed? {
        if !last.stages[t].Closed? { NoDeadlock(last, t); }
      }
    }
  }
}
