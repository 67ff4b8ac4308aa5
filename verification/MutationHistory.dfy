/**
 * The mutation-history store: events and restore requests that are appended under an identity and
 * terminalised once. Any number of callers race; each statement is one atomic step.
 */
module MutationHistory {
  import opened Basics

  /** What an event is, apart from its id, its status and its times. */
  datatype Identity = Identity(operation: string, actor: string, run: Option<string>, action: Option<string>,
                               restores: Option<string>, key: Option<string>, details: string)

  datatype EventRow = EventRow(identity: Identity, status: string, createdAt: string, terminalizedAt: Option<string>)

  datatype RestoreIdentity = RestoreIdentity(target: string, scope: string, recordTokens: map<string, string>,
                                             linkTokens: map<string, string>, actor: Option<string>, reason: string, confirmation: bool)

  datatype RestoreStatus = Applied | Conflict | Rejected | AlreadyApplied | Failed

  datatype RestoreResult = RestoreResult(status: RestoreStatus, event: Option<string>, conflict: string)

  datatype RestoreRow = RestoreRow(identity: RestoreIdentity, key: string, result: RestoreResult, createdAt: string, terminalizedAt: Option<string>)

  /** The tables with their unique indexes: by action, by idempotency key, by restore key. */
  datatype History = History(events: map<string, EventRow>, byAction: map<(string, string), string>, byKey: map<string, string>,
                             restores: map<string, RestoreRow>, byRestoreKey: map<string, string>)

  const EMPTY := History(map[], map[], map[], map[], map[])

  datatype Error = IdentityConflict | AlreadyTerminal | NotFound | IntegrityError

  function ActionOf(i: Identity): Option<(string, string)> {
    if i.run.Some? && i.action.Some? then Some((i.run.value, i.action.value)) else None
  }

  // ---------------------------------------------------------------- appending

  /** The row an insert collides with, in the order in which it is looked for. */
  function Existing(h: History, id: string, e: EventRow): Option<string> {
    var action := ActionOf(e.identity);
    if id in h.events then Some(id)
    else if action.Some? && action.value in h.byAction then Some(h.byAction[action.value])
    else if e.identity.key.Some? && e.identity.key.value in h.byKey then Some(h.byKey[e.identity.key.value])
    else None
  }

  predicate MissingParent(h: History, id: string, e: EventRow) {
    e.identity.restores.Some? && e.identity.restores.value !in h.events && e.identity.restores.value != id
  }

  predicate SameEvent(a: EventRow, b: EventRow) { a.identity == b.identity && a.status == b.status }

  datatype Reply<T> = Answer(value: T) | Refused(error: Error)

  /** What the database refuses to insert. */
  predicate Violates(h: History, id: string, e: EventRow) {
    || id in h.events
    || (e.identity.run.Some? && e.identity.action.Some? && (e.identity.run.value, e.identity.action.value) in h.byAction)
    || (e.identity.key.Some? && e.identity.key.value in h.byKey)
    || MissingParent(h, id, e)
  }

  lemma ViolatesIff(h: History, id: string, e: EventRow)
    ensures Violates(h, id, e) <==> Existing(h, id, e).Some? || MissingParent(h, id, e)
  {}

  function Inserted(h: History, id: string, e: EventRow): History {
    var action := ActionOf(e.identity);
    h.(events := h.events[id := e],
       byAction := if action.Some? then h.byAction[action.value := id] else h.byAction,
       byKey := if e.identity.key.Some? then h.byKey[e.identity.key.value := id] else h.byKey)
  }

  lemma InsertKeepsInv(h: History, id: string, e: EventRow)
    requires Inv(h) && Existing(h, id, e).None?
    ensures Inv(Inserted(h, id, e))
  {}

  function Append(h: History, id: string, e: EventRow): (r: (History, Reply<(string, EventRow)>))
    requires Inv(h)
    ensures Inv(r.0)
  {
    var existing := Existing(h, id, e);
    if existing.Some? then
      ExistingIsThere(h, id, e);
      var row := h.events[existing.value];
      (h, if SameEvent(row, e) then Answer((existing.value, row)) else Refused(IdentityConflict))
    else if MissingParent(h, id, e) then (h, Refused(IntegrityError))
    else
      InsertKeepsInv(h, id, e);
      (Inserted(h, id, e), Answer((id, e)))
  }

  lemma AppendCases(h: History, id: string, e: EventRow)
    requires Inv(h)
    ensures !Violates(h, id, e) ==> Append(h, id, e) == (Inserted(h, id, e), Answer((id, e)))
    ensures Violates(h, id, e) && Existing(h, id, e).None? ==> Append(h, id, e) == (h, Refused(IntegrityError))
    ensures Existing(h, id, e).Some? ==>
              var found := Existing(h, id, e).value;
              found in h.events
              && Append(h, id, e) == (h, if SameEvent(h.events[found], e) then Answer((found, h.events[found])) else Refused(IdentityConflict))
  {
    ViolatesIff(h, id, e);
    ExistingIsThere(h, id, e);
    hide Inv, Existing, Violates, MissingParent, SameEvent, Inserted;
  }

  // ---------------------------------------------------------------- terminalising

  function Terminalize(h: History, id: string, status: string, at: string): (History, Reply<EventRow>) {
    if id !in h.events then (h, Refused(NotFound))
    else
      var row := h.events[id];
      if row.terminalizedAt.None? then
        var done := row.(status := status, terminalizedAt := Some(at));
        (h.(events := h.events[id := done]), Answer(done))
      else (h, if row.status == status then Answer(row) else Refused(AlreadyTerminal))
  }

  // ---------------------------------------------------------------- restores

  datatype Restored = Restored(request: string, result: RestoreResult)

  /** What a caller is told of a stored request; a repeated request learns that it is already applied. */
  function Told(id: string, row: RestoreRow, replay: bool): Restored {
    Restored(id, if replay && row.result.status.Applied? then row.result.(status := AlreadyApplied) else row.result)
  }

  function RequestRestore(h: History, id: string, key: string, what: RestoreIdentity, at: string): (History, Reply<Restored>)
    requires Inv(h)
  {
    if id in h.restores || key in h.byRestoreKey || what.target !in h.events then
      if key !in h.byRestoreKey then (h, Refused(IntegrityError))
      else
        var row := h.restores[h.byRestoreKey[key]];
        (h, if row.identity == what then Answer(Told(h.byRestoreKey[key], row, true)) else Refused(IdentityConflict))
    else
      var row := RestoreRow(what, key, RestoreResult(Applied, None, ""), at, None);
      (h.(restores := h.restores[id := row], byRestoreKey := h.byRestoreKey[key := id]), Answer(Told(id, row, false)))
  }

  function TerminalizeRestore(h: History, id: string, result: RestoreResult, at: string): (History, Reply<Restored>) {
    if id !in h.restores then (h, Refused(NotFound))
    else
      var row := h.restores[id];
      if row.terminalizedAt.None? then
        if result.event.Some? && result.event.value !in h.events then (h, Refused(IntegrityError))
        else
          var done := row.(result := result, terminalizedAt := Some(at));
          (h.(restores := h.restores[id := done]), Answer(Told(id, done, false)))
      else (h, if row.result.status == result.status then Answer(Told(id, row, false)) else Refused(AlreadyTerminal))
  }

  // ---------------------------------------------------------------- runs

  datatype Write =
    | Appending(id: string, row: EventRow)
    | Terminalizing(id: string, status: string, at: string)
    | Requesting(id: string, key: string, what: RestoreIdentity, at: string)
    | Concluding(id: string, result: RestoreResult, at: string)

  /** The indexes are exact: an action, an event key and a restore key each name one row, their own. */
  ghost predicate Inv(h: History) {
    && (forall a | a in h.byAction :: h.byAction[a] in h.events && ActionOf(h.events[h.byAction[a]].identity) == Some(a))
    && (forall id | id in h.events && ActionOf(h.events[id].identity).Some? ::
          ActionOf(h.events[id].identity).value in h.byAction && h.byAction[ActionOf(h.events[id].identity).value] == id)
    && (forall k | k in h.byKey :: h.byKey[k] in h.events && h.events[h.byKey[k]].identity.key == Some(k))
    && (forall id | id in h.events && h.events[id].identity.key.Some? ::
          h.events[id].identity.key.value in h.byKey && h.byKey[h.events[id].identity.key.value] == id)
    && (forall k | k in h.byRestoreKey :: h.byRestoreKey[k] in h.restores && h.restores[h.byRestoreKey[k]].key == k)
    && (forall id | id in h.restores :: h.restores[id].key in h.byRestoreKey && h.byRestoreKey[h.restores[id].key] == id)
  }

  lemma ExistingIsThere(h: History, id: string, e: EventRow)
    requires Inv(h)
    ensures Existing(h, id, e).Some? ==> Existing(h, id, e).value in h.events
  {}

  lemma TerminalizeKeepsInv(h: History, id: string, status: string, at: string)
    requires Inv(h)
    ensures Inv(Terminalize(h, id, status, at).0)
  {
    hide ActionOf;
  }

  lemma RequestKeepsInv(h: History, id: string, key: string, what: RestoreIdentity, at: string)
    requires Inv(h)
    ensures Inv(RequestRestore(h, id, key, what, at).0)
  {
    hide ActionOf, Told;
  }

  lemma ConcludeKeepsInv(h: History, id: string, result: RestoreResult, at: string)
    requires Inv(h)
    ensures Inv(TerminalizeRestore(h, id, result, at).0)
  {
    hide ActionOf, Told;
  }

  lemma WriteKeepsInv(h: History, w: Write)
    requires Inv(h)
    ensures Inv(match w
                case Appending(id, row) => Append(h, id, row).0
                case Terminalizing(id, status, at) => Terminalize(h, id, status, at).0
                case Requesting(id, key, what, at) => RequestRestore(h, id, key, what, at).0
                case Concluding(id, result, at) => TerminalizeRestore(h, id, result, at).0)
  {
    hide *;
    match w
    case Appending(_, _) =>
    case Terminalizing(id, status, at) => TerminalizeKeepsInv(h, id, status, at);
    case Requesting(id, key, what, at) => RequestKeepsInv(h, id, key, what, at);
    case Concluding(id, result, at) => ConcludeKeepsInv(h, id, result, at);
  }

  function Next(h: History, w: Write): (after: History)
    requires Inv(h)
    ensures Inv(after)
  {
    WriteKeepsInv(h, w);
    match w
    case Appending(id, row) => Append(h, id, row).0
    case Terminalizing(id, status, at) => Terminalize(h, id, status, at).0
    case Requesting(id, key, what, at) => RequestRestore(h, id, key, what, at).0
    case Concluding(id, result, at) => TerminalizeRestore(h, id, result, at).0
  }

  function Run(h: History, ws: seq<Write>): (after: History)
    requires Inv(h)
    ensures Inv(after)
  {
    if ws == [] then h else Next(Run(h, ws[..|ws| - 1]), ws[|ws| - 1])
  }

  // ---------------------------------------------------------------- what each write does

  predicate SameAction(a: Identity, b: Identity) {
    a.run.Some? && a.action.Some? && a.run == b.run && a.action == b.action
  }

  predicate SameKey(a: Identity, b: Identity) { a.key.Some? && a.key == b.key }

  /** The stored event an append is about: by id, else by action, else by idempotency key. */
  ghost predicate About(h: History, id: string, e: EventRow, x: string) {
    x in h.events
    && (id in h.events ==> x == id)
    && (id !in h.events && (exists y | y in h.events :: SameAction(h.events[y].identity, e.identity)) ==> SameAction(h.events[x].identity, e.identity))
    && (id !in h.events && !(exists y | y in h.events :: SameAction(h.events[y].identity, e.identity)) ==> SameKey(h.events[x].identity, e.identity))
  }

  lemma ExistingIsAbout(h: History, id: string, e: EventRow)
    requires Inv(h)
    ensures forall x :: Existing(h, id, e) == Some(x) ==> About(h, id, e, x)
    ensures (exists x :: About(h, id, e, x)) ==> Existing(h, id, e).Some?
  {
    if x :| About(h, id, e, x) && id !in h.events {
      var i := h.events[x].identity;
      assert SameAction(i, e.identity) || SameKey(i, e.identity);
      assert SameAction(i, e.identity) ==> ActionOf(i) == ActionOf(e.identity) && ActionOf(i).Some?;
    }
    if Existing(h, id, e).Some? && id !in h.events {
      var x := Existing(h, id, e).value;
      assert x in h.events;
      forall y | y in h.events && SameAction(h.events[y].identity, e.identity) ensures x == y {
        assert ActionOf(h.events[y].identity) == ActionOf(e.identity) && ActionOf(e.identity).Some?;
      }
    }
  }

  /**
   * An append writes exactly if no stored event has its id, its action or its key, and the event it restores
   * is there; then it stores the event as it is. Otherwise nothing is written, and the answer is the stored
   * event it is about exactly if that has the same identity and status.
   */
  lemma AppendWritesIff(h: History, id: string, e: EventRow)
    requires Inv(h)
    ensures var (after, reply) := Append(h, id, e);
            var parent := e.identity.restores.None? || e.identity.restores.value in h.events || e.identity.restores.value == id;
            && (reply == Answer((id, e)) && id !in h.events <==> (forall x :: !About(h, id, e, x)) && parent)
            && (id !in h.events && reply == Answer((id, e)) ==> after.events == h.events[id := e] && after.restores == h.restores)
            && ((forall x :: !About(h, id, e, x)) && !parent ==> after == h && reply == Refused(IntegrityError))
            && (forall x | About(h, id, e, x) ::
                  after == h && reply == if h.events[x].identity == e.identity && h.events[x].status == e.status
                                         then Answer((x, h.events[x])) else Refused(IdentityConflict))
  {
    ExistingIsAbout(h, id, e);
    forall x, y | About(h, id, e, x) && About(h, id, e, y) ensures x == y { AboutOne(h, id, e, x, y); }
    hide Inv, Existing, About, ActionOf;
  }

  lemma AboutOne(h: History, id: string, e: EventRow, x: string, y: string)
    requires Inv(h) && About(h, id, e, x) && About(h, id, e, y)
    ensures x == y
  {
    if id !in h.events {
      var i, j := h.events[x].identity, h.events[y].identity;
      if SameAction(i, e.identity) {
        assert SameAction(j, e.identity);
        assert ActionOf(i) == ActionOf(j) && ActionOf(i).Some?;
      } else {
        assert SameKey(i, e.identity) && SameKey(j, e.identity);
      }
    }
  }

  /**
   * A restore request is recorded exactly if its id and its key are new and its event is there, and it is
   * recorded as applied. A known key is answered by its stored request exactly if that asked for the same.
   */
  lemma RequestWritesIff(h: History, id: string, key: string, what: RestoreIdentity, at: string)
    requires Inv(h)
    ensures var (after, reply) := RequestRestore(h, id, key, what, at);
            var known := exists x | x in h.restores :: h.restores[x].key == key;
            && (id !in h.restores && !known && what.target in h.events ==>
                  && after.restores == h.restores[id := RestoreRow(what, key, RestoreResult(Applied, None, ""), at, None)]
                  && after.events == h.events && reply == Answer(Restored(id, RestoreResult(Applied, None, ""))))
            && (id in h.restores || known || what.target !in h.events ==> after == h)
            && (!known && (id in h.restores || what.target !in h.events) ==> reply == Refused(IntegrityError))
            && (forall x | x in h.restores && h.restores[x].key == key ::
                  if h.restores[x].identity != what then reply == Refused(IdentityConflict)
                  else reply == Answer(Restored(x, h.restores[x].result.(
                         status := if h.restores[x].result.status == Applied then AlreadyApplied else h.restores[x].result.status))))
  {
    hide ActionOf;
    if x :| x in h.restores && h.restores[x].key == key { assert h.byRestoreKey[key] == x; }
  }

  /** A conclusion moves an open request exactly if the event it names is there; its answer is what is then stored. */
  lemma ConclusionWritesIff(h: History, id: string, result: RestoreResult, at: string)
    ensures var (after, reply) := TerminalizeRestore(h, id, result, at);
            && (id !in h.restores ==> after == h && reply == Refused(NotFound))
            && (id in h.restores && h.restores[id].terminalizedAt.None? && (result.event.Some? ==> result.event.value in h.events) ==>
                  after == h.(restores := h.restores[id := h.restores[id].(result := result, terminalizedAt := Some(at))])
                  && reply == Answer(Restored(id, result)))
            && (id in h.restores && h.restores[id].terminalizedAt.None? && result.event.Some? && result.event.value !in h.events ==>
                  after == h && reply == Refused(IntegrityError))
  {}

  /** One write changes no event but an open one it terminalises. */
  lemma EventStep(h: History, w: Write, id: string)
    requires Inv(h) && id in h.events
    ensures id in Next(h, w).events
    ensures Next(h, w).events[id]
         == if w.Terminalizing? && w.id == id && h.events[id].terminalizedAt.None?
            then h.events[id].(status := w.status, terminalizedAt := Some(w.at)) else h.events[id]
  {
    hide Inv, ActionOf, SameEvent, MissingParent, Told;
    if w.Appending? {
      hide Existing;
      ExistingIsThere(h, w.id, w.row);
    }
  }

  lemma RestoreStep(h: History, w: Write, id: string)
    requires Inv(h) && id in h.restores
    ensures id in Next(h, w).restores
    ensures Next(h, w).restores[id]
         == if w.Concluding? && w.id == id && h.restores[id].terminalizedAt.None?
               && (w.result.event.Some? ==> w.result.event.value in h.events)
            then h.restores[id].(result := w.result, terminalizedAt := Some(w.at)) else h.restores[id]
  {
    if w.Appending? { ExistingIsThere(h, w.id, w.row); }
    hide ActionOf, SameEvent, MissingParent, Told;
  }

  /** Rows are never removed, and neither an event's identity nor a request's ever changes. */
  lemma {:induction false} IdentitiesAreForever(h: History, ws: seq<Write>, id: string)
    requires Inv(h)
    ensures id in h.events ==> id in Run(h, ws).events && Run(h, ws).events[id].identity == h.events[id].identity
    ensures id in h.restores ==> id in Run(h, ws).restores && Run(h, ws).restores[id].identity == h.restores[id].identity
                                 && Run(h, ws).restores[id].key == h.restores[id].key
    decreases |ws|
  {
    hide Inv, Next;
    if ws != [] {
      var before := Run(h, ws[..|ws| - 1]);
      IdentitiesAreForever(h, ws[..|ws| - 1], id);
      if id in h.events { EventStep(before, ws[|ws| - 1], id); }
      if id in h.restores { RestoreStep(before, ws[|ws| - 1], id); }
    }
  }

  /** The position of the first terminal write of an event among `ws`, or their number. */
  function FirstTerminal(ws: seq<Write>, id: string): (n: nat)
    ensures n <= |ws|
    ensures n < |ws| ==> ws[n].Terminalizing? && ws[n].id == id
  {
    if ws == [] then 0
    else if ws[0].Terminalizing? && ws[0].id == id then 0
    else 1 + FirstTerminal(ws[1..], id)
  }

  lemma {:induction false} FirstTerminalSnoc(ws: seq<Write>, w: Write, id: string)
    ensures FirstTerminal(ws + [w], id)
         == if FirstTerminal(ws, id) < |ws| then FirstTerminal(ws, id)
            else if w.Terminalizing? && w.id == id then |ws| else |ws| + 1
    decreases |ws|
  {
    if ws == [] {
      assert ws + [w] == [w];
    } else {
      assert (ws + [w])[1..] == ws[1..] + [w];
      FirstTerminalSnoc(ws[1..], w, id);
    }
  }

  /**
   * First terminal write wins: after any interleaving, an open event carries exactly what the first
   * terminal write among them gave it, and is untouched when there was none.
   */
  lemma {:induction false} FirstTerminalWriteWins(h: History, ws: seq<Write>, id: string)
    requires Inv(h) && id in h.events && h.events[id].terminalizedAt.None?
    ensures id in Run(h, ws).events
    ensures var n := FirstTerminal(ws, id);
            Run(h, ws).events[id]
            == if n == |ws| then h.events[id]
               else h.events[id].(status := ws[n].status, terminalizedAt := Some(ws[n].at))
    decreases |ws|
  {
    hide Inv, Next;
    if ws != [] {
      var init, w := ws[..|ws| - 1], ws[|ws| - 1];
      FirstTerminalWriteWins(h, init, id);
      FirstTerminalSnoc(init, w, id);
      assert ws == init + [w];
      hide FirstTerminal;
      EventStep(Run(h, init), w, id);
    }
  }

  /** A terminal event never changes, and every later terminal write is told it, or refused, by status. */
  lemma {:induction false} TerminalEventsStay(h: History, ws: seq<Write>, id: string, status: string, at: string)
    requires Inv(h) && id in h.events && h.events[id].terminalizedAt.Some?
    ensures id in Run(h, ws).events && Run(h, ws).events[id] == h.events[id]
    ensures Terminalize(Run(h, ws), id, status, at)
         == (Run(h, ws), if status == h.events[id].status then Answer(h.events[id]) else Refused(AlreadyTerminal))
    decreases |ws|
  {
    hide Inv, Next;
    if ws != [] {
      TerminalEventsStay(h, ws[..|ws| - 1], id, status, at);
      EventStep(Run(h, ws[..|ws| - 1]), ws[|ws| - 1], id);
    }
  }

  /** What a caller is told that looks for the event, and updates it after anything in between. */
  function LookThenTerminalize(h: History, between: seq<Write>, id: string, status: string, at: string): Reply<EventRow>
    requires Inv(h)
  {
    if id !in h.events then Refused(NotFound) else Terminalize(Run(h, between), id, status, at).1
  }

  /**
   * The look outside the update can make the call fail only if the event was appended in between; a
   * look that found the event is never contradicted, because events are not removed.
   */
  lemma LookIsHarmlessIff(h: History, between: seq<Write>, id: string, status: string, at: string)
    requires Inv(h)
    ensures LookThenTerminalize(h, between, id, status, at) == Terminalize(Run(h, between), id, status, at).1
            <==> id in h.events || id !in Run(h, between).events
    ensures id in h.events ==> LookThenTerminalize(h, between, id, status, at) != Refused(NotFound)
  {
    IdentitiesAreForever(h, between, id);
    hide Run, Inv;
  }

  /** This write concludes the request, if it is open: the event it names, if any, is there. */
  predicate Concludes(h: History, w: Write, id: string) {
    w.Concluding? && w.id == id && (w.result.event.Some? ==> w.result.event.value in h.events)
  }

  /** The position of the first write that concludes the request, or their number. */
  function FirstConclusion(h: History, ws: seq<Write>, id: string): (n: nat)
    requires Inv(h)
    ensures n <= |ws| && (n < |ws| ==> ws[n].Concluding? && ws[n].id == id)
    decreases |ws|
  {
    if ws == [] then 0
    else
      var init := ws[..|ws| - 1];
      var n := FirstConclusion(h, init, id);
      if n < |init| then n else if Concludes(Run(h, init), ws[|ws| - 1], id) then |init| else |ws|
  }

  lemma {:induction false} FirstConclusionIsFirst(h: History, ws: seq<Write>, id: string, m: nat)
    requires Inv(h) && m <= FirstConclusion(h, ws, id) && m < |ws|
    ensures Concludes(Run(h, ws[..m]), ws[m], id) <==> m == FirstConclusion(h, ws, id)
    decreases |ws|
  {
    hide Run, Inv, Concludes;
    var init := ws[..|ws| - 1];
    if m < |init| {
      assert init[..m] == ws[..m];
      FirstConclusionIsFirst(h, init, id, m);
    }
  }

  /**
   * The first conclusion wins: after any interleaving, an open restore request carries exactly the
   * result of the first conclusion whose event was there when it was tried; conclusions that named an
   * event not yet there leave it open.
   */
  lemma {:induction false} FirstConclusionWins(h: History, ws: seq<Write>, id: string)
    requires Inv(h) && id in h.restores && h.restores[id].terminalizedAt.None?
    ensures id in Run(h, ws).restores
    ensures var n := FirstConclusion(h, ws, id);
            Run(h, ws).restores[id]
            == if n == |ws| then h.restores[id]
               else h.restores[id].(result := ws[n].result, terminalizedAt := Some(ws[n].at))
    decreases |ws|
  {
    hide Inv, Next;
    if ws != [] {
      var init := ws[..|ws| - 1];
      FirstConclusionWins(h, init, id);
      RestoreStep(Run(h, init), ws[|ws| - 1], id);
    }
  }

  /** The same for restore requests; a refused conclusion leaves the request open. */
  lemma {:induction false} ConcludedRestoresStay(h: History, ws: seq<Write>, id: string, result: RestoreResult, at: string)
    requires Inv(h) && id in h.restores && h.restores[id].terminalizedAt.Some?
    ensures id in Run(h, ws).restores && Run(h, ws).restores[id] == h.restores[id]
    ensures TerminalizeRestore(Run(h, ws), id, result, at)
         == (Run(h, ws), if result.status == h.restores[id].result.status then Answer(Told(id, h.restores[id], false))
                         else Refused(AlreadyTerminal))
    decreases |ws|
  {
    hide Inv, Next, Told;
    if ws != [] {
      ConcludedRestoresStay(h, ws[..|ws| - 1], id, result, at);
      RestoreStep(Run(h, ws[..|ws| - 1]), ws[|ws| - 1], id);
    }
  }

  /** An action and an idempotency key never name two events, in any reachable history. */
  lemma OneEventPerIdentity(ws: seq<Write>, a: string, b: string)
    requires a in Run(EMPTY, ws).events && b in Run(EMPTY, ws).events
    ensures var h := Run(EMPTY, ws);
            var (x, y) := (h.events[a].identity, h.events[b].identity);
            (ActionOf(x).Some? && ActionOf(x) == ActionOf(y)) || (x.key.Some? && x.key == y.key) ==> a == b
  {
    var h := Run(EMPTY, ws);
    hide Run;
  }

  /**
   * Appending an event again, after anything else: nothing is written, and the stored event comes
   * back exactly when its status is still the one given. A retry after the event was terminalised
   * under another status is therefore a conflict, although it is the same request.
   */
  lemma AppendAgain(h: History, stored: string, e: EventRow, ws: seq<Write>, again: string)
    requires Inv(h) && stored in h.events && h.events[stored].identity == e.identity
    requires again == stored
             || (again !in Run(h, ws).events && (ActionOf(e.identity).Some? || e.identity.key.Some?))
    ensures var later := Run(h, ws);
            && stored in later.events
            && Append(later, again, e).0 == later
            && (Append(later, again, e).1 == Answer((stored, later.events[stored])) <==> later.events[stored].status == e.status)
            && (later.events[stored].status != e.status ==> Append(later, again, e).1 == Refused(IdentityConflict))
  {
    hide Append, Run, Inv, Existing, SameEvent;
    IdentitiesAreForever(h, ws, stored);
    FoundAgain(Run(h, ws), again, stored, e);
  }

  /** It does happen: the retry of an append whose event was given another final status meanwhile. */
  lemma AppendConflictHappens(id: string, e: EventRow, other: string, at: string)
    requires e.identity.restores.None? && e.terminalizedAt.None? && other != e.status
    ensures Append(EMPTY, id, e).1 == Answer((id, e))
    ensures var later := Run(EMPTY, [Appending(id, e), Terminalizing(id, other, at)]);
            Append(later, id, e) == (later, Refused(IdentityConflict))
  {
    var ws := [Appending(id, e), Terminalizing(id, other, at)];
    AppendCases(EMPTY, id, e);
    OneWrite(EMPTY, Appending(id, e));
    assert ws[..1] == [Appending(id, e)];
    var first := Run(EMPTY, ws[..1]);
    assert first == Inserted(EMPTY, id, e);
    hide Inv;
    assert Run(EMPTY, ws) == Terminalize(first, id, other, at).0;
    hide Run;
    FoundAgain(Terminalize(first, id, other, at).0, id, id, e);
  }

  lemma OneWrite(h: History, w: Write)
    requires Inv(h)
    ensures Run(h, [w]) == Next(h, w)
  {
    assert [w][..0] == [];
    hide Next, Inv;
  }

  lemma FoundAgain(h: History, again: string, stored: string, e: EventRow)
    requires Inv(h) && stored in h.events && h.events[stored].identity == e.identity
    requires again == stored || (again !in h.events && (ActionOf(e.identity).Some? || e.identity.key.Some?))
    ensures Append(h, again, e) == (h, if h.events[stored].status == e.status then Answer((stored, h.events[stored]))
                                      else Refused(IdentityConflict))
  {}

  // ---------------------------------------------------------------- repeated restores

  /**
   * A repeated restore request writes nothing, and is told the stored result; it is called already
   * applied exactly when the stored status is applied, which a request carries from the moment it is
   * recorded, before anything has been restored.
   */
  lemma RestoreAgain(h: History, id: string, key: string, what: RestoreIdentity, at: string, ws: seq<Write>, again: string, later: string)
    requires Inv(h) && RequestRestore(h, id, key, what, at).1.Answer? && key !in h.byRestoreKey
    ensures Inv(RequestRestore(h, id, key, what, at).0)
    ensures var after := Run(RequestRestore(h, id, key, what, at).0, ws);
            && id in after.restores
            && RequestRestore(after, again, key, what, later) == (after, Answer(Told(id, after.restores[id], true)))
            && (Told(id, after.restores[id], true).result.status.AlreadyApplied?
                <==> after.restores[id].result.status.Applied? || after.restores[id].result.status.AlreadyApplied?)
    ensures var first := RequestRestore(h, id, key, what, at).0;
            RequestRestore(first, again, key, what, later).1.value.result.status.AlreadyApplied?
            && id in first.restores && first.restores[id].terminalizedAt.None?
  {
    var first := RequestRestore(h, id, key, what, at).0;
    assert Next(h, Requesting(id, key, what, at)) == first;
    IdentitiesAreForever(first, ws, id);
    hide Run;
  }

  // ---------------------------------------------------------------- the store

  class SQLiteMutationHistoryStore {
    var events: map<string, EventRow>
    var byAction: map<(string, string), string>
    var byKey: map<string, string>
    var restores: map<string, RestoreRow>
    var byRestoreKey: map<string, string>

    function View(): History
      reads this
    {
      History(events, byAction, byKey, restores, byRestoreKey)
    }

    constructor ()
      ensures View() == EMPTY && Inv(View())
    {
      events, byAction, byKey, restores, byRestoreKey := map[], map[], map[], map[], map[];
    }

    /** The insert; on a violated constraint, the three look-ups in turn. */
    method AppendEvent(id: string, e: EventRow) returns (r: Reply<(string, EventRow)>)
      requires Inv(View())
      modifies this
      ensures Inv(View()) && (View(), r) == Append(old(View()), id, e)
    {
      AppendCases(View(), id, e);
      hide Append, Inv, Existing, Violates, MissingParent, SameEvent, Inserted;
      var violated := Violates(View(), id, e);
      if violated {
        var existing := FindExistingEvent(id, e);
        if existing.None? { return Refused(IntegrityError); }
        var row := events[existing.value];
        if !SameEvent(row, e) { return Refused(IdentityConflict); }
        return Answer((existing.value, row));
      }
      InsertEvent(id, e);
      return Answer((id, e));
    }

    method InsertEvent(id: string, e: EventRow)
      modifies this`events, this`byAction, this`byKey
      ensures View() == Inserted(old(View()), id, e)
    {
      events := events[id := e];
      var action := ActionOf(e.identity);
      if action.Some? { byAction := byAction[action.value := id]; }
      if e.identity.key.Some? { byKey := byKey[e.identity.key.value := id]; }
    }

    method FindExistingEvent(id: string, e: EventRow) returns (found: Option<string>)
      ensures found == Existing(View(), id, e)
    {
      if id in events { return Some(id); }
      if e.identity.run.Some? && e.identity.action.Some? {
        var action := (e.identity.run.value, e.identity.action.value);
        if action in byAction { return Some(byAction[action]); }
      }
      if e.identity.key.Some? && e.identity.key.value in byKey { return Some(byKey[e.identity.key.value]); }
      return None;
    }

    /** The update guarded by `terminalized_at IS NULL`; says whether a row changed. */
    method UpdateOpenEvent(id: string, status: string, at: string) returns (changed: bool)
      requires Inv(View())
      modifies this`events
      ensures Inv(View()) && View() == Terminalize(old(View()), id, status, at).0
      ensures changed == (id in old(events) && old(events)[id].terminalizedAt.None?)
    {
      changed := id in events && events[id].terminalizedAt.None?;
      TerminalizeKeepsInv(View(), id, status, at);
      hide Inv;
      if changed { events := events[id := events[id].(status := status, terminalizedAt := Some(at))]; }
    }

    /** What other connections write between two statements of a call. */
    method Perform(ws: seq<Write>)
      requires Inv(View())
      modifies this
      ensures Inv(View()) && View() == Run(old(View()), ws)
    {
      hide Inv, Append, Terminalize, RequestRestore, TerminalizeRestore;
      assert ws[..0] == [];
      for i := 0 to |ws|
        invariant Inv(View()) && View() == Run(old(View()), ws[..i])
      {
        assert ws[..i + 1][..i] == ws[..i];
        match ws[i] {
          case Appending(id, row) => var _ := AppendEvent(id, row);
          case Terminalizing(id, status, at) => var _ := UpdateOpenEvent(id, status, at);
          case Requesting(id, key, what, at) => var _ := RequestRestoreOf(id, key, what, at);
          case Concluding(id, result, at) => var _ := TerminalizeRestoreRequest(id, result, at);
        }
      }
      assert ws[..|ws|] == ws;
    }

    /** The look, the update and the second look, with other connections at work before and after the update. */
    method TerminalizeEvent(id: string, status: string, at: string, meanwhile: seq<Write>, afterwards: seq<Write>)
      returns (r: Reply<EventRow>)
      requires Inv(View())
      modifies this
      ensures Inv(View()) && r == LookThenTerminalize(old(View()), meanwhile, id, status, at)
      ensures View() == if id !in old(events) then old(View())
                        else Run(Terminalize(Run(old(View()), meanwhile), id, status, at).0, afterwards)
    {
      hide Inv, Run;
      if id !in events { return Refused(NotFound); }
      IdentitiesAreForever(View(), meanwhile, id);
      Perform(meanwhile);
      var changed := UpdateOpenEvent(id, status, at);
      TerminalEventsStay(View(), afterwards, id, status, at);
      Perform(afterwards);
      var updated := events[id];
      if !changed && updated.status != status { return Refused(AlreadyTerminal); }
      return Answer(updated);
    }

    method RequestRestoreOf(id: string, key: string, what: RestoreIdentity, at: string) returns (r: Reply<Restored>)
      requires Inv(View())
      modifies this`restores, this`byRestoreKey
      ensures Inv(View()) && (View(), r) == RequestRestore(old(View()), id, key, what, at)
    {
      if id in restores || key in byRestoreKey || what.target !in events {
        if key !in byRestoreKey { return Refused(IntegrityError); }
        var existing := restores[byRestoreKey[key]];
        if existing.identity != what { return Refused(IdentityConflict); }
        return Answer(Told(byRestoreKey[key], existing, true));
      }
      var row := RestoreRow(what, key, RestoreResult(Applied, None, ""), at, None);
      restores := restores[id := row];
      byRestoreKey := byRestoreKey[key := id];
      return Answer(Told(id, row, false));
    }

    method TerminalizeRestoreRequest(id: string, result: RestoreResult, at: string) returns (r: Reply<Restored>)
      requires Inv(View())
      modifies this`restores
      ensures Inv(View()) && (View(), r) == TerminalizeRestore(old(View()), id, result, at)
    {
      var open := id in restores && restores[id].terminalizedAt.None?;
      if open {
        if result.event.Some? && result.event.value !in events { return Refused(IntegrityError); }
        restores := restores[id := restores[id].(result := result, terminalizedAt := Some(at))];
      }
      if id !in restores { return Refused(NotFound); }
      if !open && restores[id].result.status != result.status { return Refused(AlreadyTerminal); }
      return Answer(Told(id, restores[id], false));
    }
  }
}
