/** What became of each request, told from the steps of a run alone: its reply and its last diagnostics. */
module RequestOutcomes {
  import opened Basics
  import opened AsyncSemaphore
  import opened RequestServer

  /**
   * A task's story so far: how long it waited for a slot, the one effective end of its dispatch with
   * the time it took, and the one effective end of its reply, with the failure of sending it if any.
   */
  datatype Story = Story(wait: real, end: Option<(Outcome, real)>, replied: Option<Option<string>>)

  const UNTOLD := Story(0.0, None, None)

  /** What a step adds to the story of task `t`; a step that cannot occur adds nothing. */
  function Tell(s: Server, a: Step, t: nat, story: Story): Story {
    if !Enabled(s, a) then story
    else match a
      case Start(u, w) =>
        if u == t && s.requests[u].path !in UNCONSTRAINED_PATHS && !Locked(s.semaphore) then story.(wait := w) else story
      case Admit(u, w) => if u == t then story.(wait := w) else story
      case Finish(u, outcome, execution) => if u == t then story.(end := Some((outcome, execution))) else story
      case EndReply(failure) => if s.batch[0] == t then story.(replied := Some(failure)) else story
      case _ => story
  }

  function StoryOf(maxConcurrent: int, steps: seq<Step>, t: nat): Story {
    if steps == [] then UNTOLD
    else
      var init := steps[..|steps| - 1];
      Tell(Run(Initial(maxConcurrent), init), steps[|steps| - 1], t, StoryOf(maxConcurrent, init, t))
  }

  // ---------------------------------------------------------------- what is due

  /** The reply due to the client of a dispatch that ended in this way; a cancelled one gets none. */
  predicate Due(path: string, outcome: Outcome, response: Response) {
    match outcome
    case Returned(reported, body) => response == Handled(reported, body)
    case TimedOut => response == TimeoutError(path, TimeoutSeconds(path))
    case Raised(_) => response == DispatchError
    case Cancelled => false
  }

  function StatusDue(outcome: Outcome): Option<string> {
    match outcome
    case Returned(reported, _) => if reported == Some("") then None else reported
    case TimedOut => Some("error")
    case Raised(_) => Some("error")
    case Cancelled => None
  }

  function ErrorDue(outcome: Outcome): Option<string> {
    match outcome
    case Returned(_, _) => None
    case TimedOut => Some("daemon_request_timed_out")
    case Raised(error) => Some(error)
    case Cancelled => Some("cancelled")
  }

  function NotNegative(x: real): real { if x >= 0.0 then x else 0.0 }

  /** The last diagnostics of a request with this path and story. */
  predicate Told(d: Diagnostic, path: string, story: Story) {
    && d.path == path && d.queueWait == NotNegative(story.wait)
    && story.end.Some? && d.execution == NotNegative(story.end.value.1)
    && d.status == StatusDue(story.end.value.0)
    && if story.end.value.0.Cancelled? then story.replied.None? && d.phase == "cancelled" && d.error == Some("cancelled")
       else story.replied.Some? && if story.replied.value.None? then d.phase == "reply_sent" && d.error == ErrorDue(story.end.value.0)
                                   else d.phase == "reply_failed" && d.error == story.replied.value
  }

  /** Searches, records, histories, tools and maintenance get a minute, everything else five seconds. */
  lemma TimeoutTells(path: string)
    ensures (|| "/api/memories/" <= path || "/api/memories/search" <= path || "/api/admin/search/repair" <= path
             || "/api/mutation-history/" <= path || "/api/record-thought" <= path
             || "/internal/tools" <= path || "/internal/maintenance/tools" <= path)
            <==> TimeoutSeconds(path) == 60.0
    ensures TimeoutSeconds(path) == 60.0 || TimeoutSeconds(path) == 5.0
  {}

  // ---------------------------------------------------------------- the invariant

  /** The record of a live request is what its story says. */
  predicate RecordFits(r: Tracked, story: Story) {
    && r.queueWait == story.wait
    && match story.end
       case None => r.execution == 0.0 && r.status.None? && r.error.None?
       case Some(end) => r.execution == end.1 && r.status == StatusDue(end.0) && r.error == ErrorDue(end.0)
  }

  predicate StageFits(st: Stage, path: string, story: Story) {
    match st
    case Spawned => story == UNTOLD
    case Queued(_) => story == UNTOLD
    case Running(_, _) => story.end.None? && story.replied.None?
    case Replying(_, response) => story.end.Some? && story.replied.None? && Due(path, story.end.value.0, response)
    case Sending(_, response) => story.end.Some? && story.replied.None? && Due(path, story.end.value.0, response)
    case Abandoned(_) => story.end.Some? && story.end.value.0.Cancelled? && story.replied.None?
    case Closed(_, reply) =>
      && story.end.Some? && (story.replied.None? <==> story.end.value.0.Cancelled?)
      && (reply.Some? <==> story.replied == Some(None))
      && (reply.Some? ==> Due(path, story.end.value.0, reply.value))
  }

  ghost predicate LogFits(log: seq<Entry>, t: nat, path: string, story: Story) {
    forall k | 0 <= k < |log| && log[k].task == t :: Told(log[k].diagnostic, path, story)
  }

  ghost predicate Fits(s: Server, t: nat, story: Story) {
    if t >= |s.stages| || t >= |s.requests| then story == UNTOLD
    else
      && StageFits(s.stages[t], s.requests[t].path, story)
      && (Live(s.stages[t]) ==> s.stages[t].id in s.tracked && RecordFits(s.tracked[s.stages[t].id], story))
      && LogFits(s.log, t, s.requests[t].path, story)
  }

  /** A step of another task leaves the story, the stage, the record and the log of this one. */
  lemma FitsStill(s: Server, after: Server, t: nat, story: Story)
    requires Fits(s, t, story) && t < |s.stages| && t < |s.requests|
    requires t < |after.stages| && t < |after.requests| && after.stages[t] == s.stages[t] && after.requests[t] == s.requests[t]
    requires Live(s.stages[t]) ==> s.stages[t].id in after.tracked
    requires Live(s.stages[t]) && s.stages[t].id in s.tracked ==> after.tracked[s.stages[t].id] == s.tracked[s.stages[t].id]
    requires after.log == s.log || (|after.log| > |s.log| && after.log == s.log + [after.log[|s.log|]] && after.log[|s.log|].task != t)
    ensures Fits(after, t, story)
  {
    hide Told, RecordFits, StageFits;
  }

  /** Two live tasks have two ids. */
  lemma OtherId(s: Server, t: nat, u: nat)
    requires Tracking(s) && t < |s.stages| && u < |s.stages| && t != u && Started(s.stages[t]) && Started(s.stages[u])
    ensures s.stages[t].id != s.stages[u].id
  {}

  lemma NotYetLogged(s: Server, t: nat)
    requires Finalised(s) && t < |s.stages| && !Ended(s.stages[t])
    ensures forall k | 0 <= k < |s.log| :: s.log[k].task != t
  {}

  lemma OwnStartTells(s: Server, t: nat, w: real, story: Story)
    requires Enabled(s, Start(t, w)) && Fits(s, t, story) && forall k | 0 <= k < |s.log| :: s.log[k].task != t
    ensures Fits(StartTask(s, t, w), t, Tell(s, Start(t, w), t, story))
  {
    hide Locked, Enter, Told;
  }

  lemma StartTells(s: Server, u: nat, w: real, t: nat, story: Story)
    requires Tracking(s) && Finalised(s) && Enabled(s, Start(u, w)) && Fits(s, t, story)
    ensures Fits(StartTask(s, u, w), t, Tell(s, Start(u, w), t, story))
  {
    if t == u {
      NotYetLogged(s, t);
      hide *;
      OwnStartTells(s, t, w, story);
    } else if t < |s.stages| && t < |s.requests| {
      hide StageFits, RecordFits, FinalisedOf, Told, Fits, Locked, Enter;
      FitsStill(s, StartTask(s, u, w), t, story);
    } else {
      hide StageFits, RecordFits, FinalisedOf, TrackingOf, Told, Locked, Enter;
    }
  }

  lemma AdmitTells(s: Server, u: nat, w: real, t: nat, story: Story)
    requires Tracking(s) && Finalised(s) && Enabled(s, Admit(u, w)) && Fits(s, t, story)
    ensures Fits(AdmitTask(s, u, w), t, Tell(s, Admit(u, w), t, story))
  {
    hide Resume, Told;
    if t < |s.stages| && t < |s.requests| {
      if t == u {
        NotYetLogged(s, t);
      } else {
        if Started(s.stages[t]) { OtherId(s, t, u); }
        hide StageFits, RecordFits, TrackingOf, FinalisedOf;
        FitsStill(s, AdmitTask(s, u, w), t, story);
      }
    }
  }

  lemma OwnFinishTells(s: Server, t: nat, o: Outcome, x: real, story: Story)
    requires Enabled(s, Finish(t, o, x)) && Fits(s, t, story) && t < |s.requests|
    requires s.tracked[s.stages[t].id].task == t && s.tracked[s.stages[t].id].path == s.requests[t].path
    requires forall k | 0 <= k < |s.log| :: s.log[k].task != t
    ensures Fits(FinishTask(s, t, o, x), t, story.(end := Some((o, x))))
  {
    hide Release, Push, TimeoutSeconds, SampleOf;
  }

  lemma OtherFinishTells(s: Server, u: nat, o: Outcome, x: real, t: nat, story: Story)
    requires Tracking(s) && Enabled(s, Finish(u, o, x)) && Fits(s, t, story) && t < |s.stages| && t < |s.requests| && t != u
    ensures Fits(FinishTask(s, u, o, x), t, story)
  {
    TrackedOwner(s, u);
    if Started(s.stages[t]) { OtherId(s, t, u); }
    hide StageFits, RecordFits, TrackingOf, Told, Release, Push, TimeoutSeconds, SampleOf, StatusOf, LogFits;
    FinishShape(s, u, o, x);
    hide FinishTask;
    FitsStill(s, FinishTask(s, u, o, x), t, story);
  }

  /** The end of a dispatch moves its own stage and record, and logs it if it was cancelled. */
  lemma FinishShape(s: Server, u: nat, o: Outcome, x: real)
    requires Enabled(s, Finish(u, o, x))
    ensures var (id, after) := (s.stages[u].id, FinishTask(s, u, o, x));
            && |after.stages| == |s.stages| && after.stages == s.stages[u := after.stages[u]] && after.requests == s.requests
            && (forall i | i != id :: (i in after.tracked <==> i in s.tracked) && (i in s.tracked ==> after.tracked[i] == s.tracked[i]))
            && (if o.Cancelled? then |after.log| == |s.log| + 1 && after.log == s.log + [after.log[|s.log|]] && after.log[|s.log|].task == s.tracked[id].task
                else after.log == s.log)
  {
    hide Release, Push, TimeoutSeconds, SampleOf, StatusOf;
  }

  lemma FinishTells(s: Server, u: nat, o: Outcome, x: real, t: nat, story: Story)
    requires Tracking(s) && Finalised(s) && Enabled(s, Finish(u, o, x)) && Fits(s, t, story)
    ensures Fits(FinishTask(s, u, o, x), t, Tell(s, Finish(u, o, x), t, story))
  {
    if t < |s.stages| && t < |s.requests| {
      if t == u {
        TrackedOwner(s, u);
        NotYetLogged(s, t);
        assert TracksTask(s.tracked, s.requests, s.stages, t);
        hide TrackingOf, FinalisedOf, FinishTask, Fits;
        OwnFinishTells(s, t, o, x, story);
      } else {
        hide TrackingOf, FinalisedOf, FinishTask, Fits;
        OtherFinishTells(s, u, o, x, t, story);
      }
    } else {
      FinishShape(s, u, o, x);
      hide FinishTask, TrackingOf, FinalisedOf;
    }
  }

  lemma TakeUpTells(s: Server, t: nat, story: Story)
    requires Tracking(s) && Finalised(s) && Enabled(s, BeginReply) && Fits(s, t, story)
    ensures Fits(TakeUp(s), t, story)
  {
    var u := s.batch[0];
    if t < |s.stages| && t < |s.requests| {
      if t == u {
        hide Told, TimeoutSeconds, TrackingOf, FinalisedOf;
      } else {
        if Started(s.stages[t]) { OtherId(s, t, u); }
        hide StageFits, RecordFits, TrackingOf, FinalisedOf, Told;
        FitsStill(s, TakeUp(s), t, story);
      }
    }
  }

  lemma OwnConcludeTells(s: Server, f: Option<string>, t: nat, story: Story)
    requires Enabled(s, EndReply(f)) && Fits(s, t, story) && t == s.batch[0]
    requires s.tracked[s.stages[t].id].task == t && s.tracked[s.stages[t].id].path == s.requests[t].path
    requires forall k | 0 <= k < |s.log| :: s.log[k].task != t
    ensures Fits(Conclude(s, f), t, story.(replied := Some(f)))
  {
    hide Push, TimeoutSeconds, SampleOf;
  }

  lemma ConcludeShape(s: Server, f: Option<string>)
    requires Enabled(s, EndReply(f))
    ensures var (u, after) := (s.batch[0], Conclude(s, f));
            && |after.stages| == |s.stages| && after.stages == s.stages[u := after.stages[u]] && after.requests == s.requests
            && (forall i | i != s.stages[u].id :: (i in after.tracked <==> i in s.tracked) && (i in s.tracked ==> after.tracked[i] == s.tracked[i]))
            && |after.log| == |s.log| + 1 && after.log == s.log + [after.log[|s.log|]] && after.log[|s.log|].task == s.tracked[s.stages[u].id].task
  {
    hide Push, SampleOf;
  }

  lemma ConcludeTells(s: Server, f: Option<string>, t: nat, story: Story)
    requires Tracking(s) && Finalised(s) && Enabled(s, EndReply(f)) && Fits(s, t, story)
    ensures Fits(Conclude(s, f), t, Tell(s, EndReply(f), t, story))
  {
    var u := s.batch[0];
    TrackedOwner(s, u);
    if t == u {
      NotYetLogged(s, t);
      assert TracksTask(s.tracked, s.requests, s.stages, t);
      hide TrackingOf, FinalisedOf, Conclude, Fits;
      OwnConcludeTells(s, f, t, story);
    } else if t < |s.stages| && t < |s.requests| {
      if Started(s.stages[t]) { OtherId(s, t, u); }
      ConcludeShape(s, f);
      hide StageFits, RecordFits, TrackingOf, FinalisedOf, Told, LogFits, Conclude;
      FitsStill(s, Conclude(s, f), t, story);
    } else {
      ConcludeShape(s, f);
      hide Conclude, TrackingOf, FinalisedOf;
    }
  }

  lemma NextIs(s: Server, a: Step)
    requires Enabled(s, a)
    ensures a.Start? ==> Next(s, a) == StartTask(s, a.task, a.queueWait)
    ensures a.Admit? ==> Next(s, a) == AdmitTask(s, a.task, a.queueWait)
    ensures a.Finish? ==> Next(s, a) == FinishTask(s, a.task, a.outcome, a.execution)
    ensures a.BeginReply? ==> Next(s, a) == TakeUp(s)
    ensures a.EndReply? ==> Next(s, a) == Conclude(s, a.failure)
    ensures a.Receive? || a.Collect? || a.BeginReply? ==> forall t, story :: Tell(s, a, t, story) == story
  {
    hide StartTask, AdmitTask, FinishTask, TakeUp, Conclude;
  }

  lemma NextTells(s: Server, a: Step, t: nat, story: Story)
    requires Inv(s) && Fits(s, t, story)
    ensures Fits(Next(s, a), t, Tell(s, a, t, story))
  {
    assert Tracking(s) && Finalised(s);
    assert !Enabled(s, a) ==> Next(s, a) == s && Tell(s, a, t, story) == story by { hide Enabled; }
    hide *;
    if Enabled(s, a) {
      NextIs(s, a);
      match a
      case Receive(frames, request) => ReceiveTells(s, frames, request, t, story);
      case Start(u, w) => StartTells(s, u, w, t, story);
      case Admit(u, w) => AdmitTells(s, u, w, t, story);
      case Finish(u, o, x) => FinishTells(s, u, o, x, t, story);
      case Collect(done) => CollectTells(s, done, t, story);
      case BeginReply => TakeUpTells(s, t, story);
      case EndReply(f) => ConcludeTells(s, f, t, story);
    }
  }

  lemma ReceiveTells(s: Server, frames: nat, request: Request, t: nat, story: Story)
    requires Tracking(s) && Finalised(s) && Enabled(s, Receive(frames, request)) && Fits(s, t, story)
    ensures Fits(Next(s, Receive(frames, request)), t, story)
  {
    if t < |s.stages| && t < |s.requests| { FitsStill(s, Next(s, Receive(frames, request)), t, story); }
  }

  lemma CollectTells(s: Server, done: seq<nat>, t: nat, story: Story)
    requires Enabled(s, Collect(done)) && Fits(s, t, story)
    ensures Fits(Next(s, Collect(done)), t, story)
  {
    hide StageFits, RecordFits, Told;
  }

  lemma {:induction false} RunTells(maxConcurrent: int, steps: seq<Step>, t: nat)
    ensures Fits(Run(Initial(maxConcurrent), steps), t, StoryOf(maxConcurrent, steps, t))
    decreases |steps|
  {
    if steps != [] {
      var init := steps[..|steps| - 1];
      RunTells(maxConcurrent, init, t);
      Reachable(maxConcurrent, init);
      hide Fits, Inv, Next, Tell;
      NextTells(Run(Initial(maxConcurrent), init), steps[|steps| - 1], t, StoryOf(maxConcurrent, init, t));
    }
  }

  // ---------------------------------------------------------------- over whole runs

  /**
   * Every reply is the one due to how its own dispatch ended, it is sent exactly if its sending did not
   * fail, and the last diagnostics of a request tell its own path, times, status and error.
   */
  lemma RepliesAreDue(maxConcurrent: int, steps: seq<Step>, t: nat)
    requires t < |Run(Initial(maxConcurrent), steps).stages|
    ensures var s := Run(Initial(maxConcurrent), steps);
            var story := StoryOf(maxConcurrent, steps, t);
            && t < |s.requests|
            && (forall k | 0 <= k < |s.sent| && s.sent[k].task == t ::
                  story.end.Some? && match story.end.value.0
                                     case Returned(reported, body) => s.sent[k].response == Handled(reported, body)
                                     case TimedOut => s.sent[k].response == TimeoutError(s.requests[t].path, TimeoutSeconds(s.requests[t].path))
                                     case Raised(_) => s.sent[k].response == DispatchError
                                     case Cancelled => false)
            && ((exists k :: 0 <= k < |s.sent| && s.sent[k].task == t) <==> story.replied == Some(None))
            && (forall k | 0 <= k < |s.log| && s.log[k].task == t :: Told(s.log[k].diagnostic, s.requests[t].path, story))
  {
    RunTells(maxConcurrent, steps, t);
    Reachable(maxConcurrent, steps);
    hide Run, Capacity, Recent, Loop, Paths, InOrder, StoryOf, Told, TimeoutSeconds;
    var s := Run(Initial(maxConcurrent), steps);
    if s.stages[t].Closed? && s.stages[t].reply.Some? { assert Replied(s.sent, t); }
  }

  /** A dispatch ends once, and so does a reply: what the story says of them is never said again. */
  lemma StoriesAreToldOnce(maxConcurrent: int, steps: seq<Step>, a: Step, t: nat)
    requires Enabled(Run(Initial(maxConcurrent), steps), a)
    ensures var (s, story) := (Run(Initial(maxConcurrent), steps), StoryOf(maxConcurrent, steps, t));
            && (a.Finish? && a.task == t ==> story.end.None?)
            && (a.EndReply? && s.batch[0] == t ==> story.end.Some? && story.replied.None?)
  {
    RunTells(maxConcurrent, steps, t);
    Reachable(maxConcurrent, steps);
    hide Run, Capacity, Recent, Loop, Paths, InOrder, StoryOf, Told, TimeoutSeconds;
  }

  // ---------------------------------------------------------------- what was received

  /** The requests of the steps that received one: in two frames or more, while the loop held no batch. */
  function Received(maxConcurrent: int, steps: seq<Step>): seq<Request> {
    if steps == [] then []
    else
      var init, last := steps[..|steps| - 1], steps[|steps| - 1];
      Received(maxConcurrent, init)
      + if last.Receive? && last.frames >= 2 && Run(Initial(maxConcurrent), init).batch == [] then [last.request] else []
  }

  /** The server's requests are those received, in order, each with a task of its own. */
  lemma {:induction false} RequestsAreReceived(maxConcurrent: int, steps: seq<Step>)
    ensures Run(Initial(maxConcurrent), steps).requests == Received(maxConcurrent, steps)
    ensures |Run(Initial(maxConcurrent), steps).stages| == |Received(maxConcurrent, steps)|
    decreases |steps|
  {
    if steps != [] {
      var init := steps[..|steps| - 1];
      RequestsAreReceived(maxConcurrent, init);
      OnlyReceiving(Run(Initial(maxConcurrent), init), steps[|steps| - 1]);
      hide Next;
    }
  }

  lemma OnlyReceiving(s: Server, a: Step)
    ensures Next(s, a).requests == s.requests + if a.Receive? && a.frames >= 2 && s.batch == [] then [a.request] else []
    ensures |Next(s, a).stages| == |s.stages| + if a.Receive? && a.frames >= 2 && s.batch == [] then 1 else 0
  {
    hide Enter, Resume, Release, Locked, Push, Settled, DiagnosticOf;
  }
}
