/** When an action commits, condition by condition, and what its event, its receipt and its run row then say. */
module CurationAdmission {
  import opened Basics
  import opened CurationModel
  import opened CurationUow
  import opened CurationSurface
  import opened CurationAction
  import opened CurationHistory

  // ---------------------------------------------------------------- preconditions

  predicate StatusMet(d: Domain, targets: set<Id>, entry: (string, string)) {
    var id := Canonical(entry.0);
    id in targets && id in d.memories && d.memories[id].status == entry.1
  }

  function AssertedLink(a: LinkAssertion): LinkKey { LinkKey(Canonical(a.source), Canonical(a.target), LinkTypeForm(a.kind)) }

  /** The assertion is about a link between targets, of a proper type. */
  predicate InReach(targets: set<Id>, a: LinkAssertion) {
    AssertedLink(a).source in targets && AssertedLink(a).target in targets && AssertedLink(a).kind != ""
  }

  /** The link is stored, with the given context if one is given. */
  predicate RequiredMet(d: Domain, targets: set<Id>, a: LinkAssertion) {
    && InReach(targets, a) && AssertedLink(a) in d.links
    && (a.context.Some? ==> d.links[AssertedLink(a)] == a.context.value)
  }

  /** The link is not stored; no context may be given. */
  predicate AbsentMet(d: Domain, targets: set<Id>, a: LinkAssertion) {
    InReach(targets, a) && a.context.None? && AssertedLink(a) !in d.links
  }

  predicate AllMet(d: Domain, targets: set<Id>, p: Preconditions) {
    && (forall entry | entry in p.statuses :: StatusMet(d, targets, entry))
    && (forall a | a in p.requiredLinks :: RequiredMet(d, targets, a))
    && (forall a | a in p.absentLinks :: AbsentMet(d, targets, a))
  }

  lemma {:induction false} StatusesPassIff(d: Domain, targets: set<Id>, statuses: seq<(string, string)>)
    ensures StatusFailure(d, targets, statuses).None? <==> forall entry | entry in statuses :: StatusMet(d, targets, entry)
  {
    if statuses != [] {
      StatusesPassIff(d, targets, statuses[1..]);
      assert statuses == [statuses[0]] + statuses[1..];
      assert StatusFailure(d, targets, statuses).None? <==> StatusMet(d, targets, statuses[0]) && StatusFailure(d, targets, statuses[1..]).None?;
    }
  }

  lemma {:induction false} AssertionsPassIff(d: Domain, targets: set<Id>, all: seq<LinkAssertion>, shouldExist: bool)
    ensures AssertionsFailure(d, targets, all, shouldExist).None?
            <==> forall a | a in all :: if shouldExist then RequiredMet(d, targets, a) else AbsentMet(d, targets, a)
  {
    if all != [] {
      AssertionsPassIff(d, targets, all[1..], shouldExist);
      assert all == [all[0]] + all[1..];
      assert AssertionFailure(d, targets, all[0], shouldExist).None?
             <==> if shouldExist then RequiredMet(d, targets, all[0]) else AbsentMet(d, targets, all[0]);
    }
  }

  /**
   * The preconditions pass exactly if every status entry names a target of that status, every required
   * link is stored between targets, with its context if one is given, and every absent link is a link
   * between targets that is not stored.
   */
  lemma PreconditionsPassIff(d: Domain, targets: set<Id>, p: Preconditions)
    ensures PreconditionFailure(d, targets, Some(p)).None? <==> AllMet(d, targets, p)
  {
    StatusesPassIff(d, targets, p.statuses);
    AssertionsPassIff(d, targets, p.requiredLinks, true);
    AssertionsPassIff(d, targets, p.absentLinks, false);
    hide StatusFailure, AssertionsFailure, StatusMet, RequiredMet, AbsentMet;
  }

  /** What refuses a link assertion: a link beyond the targets and a context where none may be are errors, the rest is stale. */
  predicate RefusesLink(d: Domain, targets: set<Id>, a: LinkAssertion, shouldExist: bool, why: Raise) {
    match why
    case Fatal => AssertedLink(a).source !in targets || AssertedLink(a).target !in targets
                  || (AssertedLink(a).kind != "" && !shouldExist && a.context.Some?)
    case BadValue => AssertedLink(a).source in targets && AssertedLink(a).target in targets && AssertedLink(a).kind == ""
    case Stale => InReach(targets, a) && (!shouldExist ==> a.context.None?)
                  && !(if shouldExist then RequiredMet(d, targets, a) else AbsentMet(d, targets, a))
    case _ => false
  }

  lemma {:induction false} StatusRefusal(d: Domain, targets: set<Id>, statuses: seq<(string, string)>, n: nat)
    requires n < |statuses| && !StatusMet(d, targets, statuses[n])
    requires forall i | 0 <= i < n :: StatusMet(d, targets, statuses[i])
    ensures StatusFailure(d, targets, statuses) == Some(if Canonical(statuses[n].0) in targets then Stale else Fatal)
  {
    if n > 0 {
      assert StatusMet(d, targets, statuses[0]);
      assert forall i | 0 <= i < n - 1 :: statuses[1..][i] == statuses[i + 1];
      StatusRefusal(d, targets, statuses[1..], n - 1);
    }
  }

  lemma {:induction false} AssertionRefusal(d: Domain, targets: set<Id>, all: seq<LinkAssertion>, shouldExist: bool, n: nat, why: Raise)
    requires n < |all| && RefusesLink(d, targets, all[n], shouldExist, why)
    requires forall i | 0 <= i < n :: if shouldExist then RequiredMet(d, targets, all[i]) else AbsentMet(d, targets, all[i])
    ensures AssertionsFailure(d, targets, all, shouldExist) == Some(why)
  {
    if n > 0 {
      assert if shouldExist then RequiredMet(d, targets, all[0]) else AbsentMet(d, targets, all[0]);
      assert forall i | 0 <= i < n - 1 :: all[1..][i] == all[i + 1];
      AssertionRefusal(d, targets, all[1..], shouldExist, n - 1, why);
    }
  }

  /** The first entry that is not met decides how the preconditions are refused: statuses first, then required, then absent links. */
  lemma FirstUnmetDecides(d: Domain, targets: set<Id>, p: Preconditions, n: nat, why: Raise)
    ensures n < |p.statuses| && !StatusMet(d, targets, p.statuses[n]) && (forall i | 0 <= i < n :: StatusMet(d, targets, p.statuses[i])) ==>
              PreconditionFailure(d, targets, Some(p)) == Some(if Canonical(p.statuses[n].0) in targets then Stale else Fatal)
    ensures (forall entry | entry in p.statuses :: StatusMet(d, targets, entry))
            && n < |p.requiredLinks| && RefusesLink(d, targets, p.requiredLinks[n], true, why)
            && (forall i | 0 <= i < n :: RequiredMet(d, targets, p.requiredLinks[i])) ==>
              PreconditionFailure(d, targets, Some(p)) == Some(why)
    ensures (forall entry | entry in p.statuses :: StatusMet(d, targets, entry))
            && (forall a | a in p.requiredLinks :: RequiredMet(d, targets, a))
            && n < |p.absentLinks| && RefusesLink(d, targets, p.absentLinks[n], false, why)
            && (forall i | 0 <= i < n :: AbsentMet(d, targets, p.absentLinks[i])) ==>
              PreconditionFailure(d, targets, Some(p)) == Some(why)
  {
    StatusesPassIff(d, targets, p.statuses);
    AssertionsPassIff(d, targets, p.requiredLinks, true);
    hide StatusFailure, AssertionsFailure, StatusMet, RequiredMet, AbsentMet, RefusesLink;
    if n < |p.statuses| && !StatusMet(d, targets, p.statuses[n]) && forall i | 0 <= i < n :: StatusMet(d, targets, p.statuses[i]) {
      StatusRefusal(d, targets, p.statuses, n);
    }
    if n < |p.requiredLinks| && RefusesLink(d, targets, p.requiredLinks[n], true, why)
       && forall i | 0 <= i < n :: RequiredMet(d, targets, p.requiredLinks[i]) {
      AssertionRefusal(d, targets, p.requiredLinks, true, n, why);
    }
    if n < |p.absentLinks| && RefusesLink(d, targets, p.absentLinks[n], false, why)
       && forall i | 0 <= i < n :: AbsentMet(d, targets, p.absentLinks[i]) {
      AssertionRefusal(d, targets, p.absentLinks, false, n, why);
    }
  }

  // ---------------------------------------------------------------- the normalised tokens

  /** Where a key is last given under some spelling, or the number of tokens. */
  function LastGiven(tokens: seq<(string, Token)>, key: string): (n: nat)
    ensures n < |tokens| ==> Canonical(tokens[n].0) == key && forall i | n < i < |tokens| :: Canonical(tokens[i].0) != key
    ensures n >= |tokens| ==> n == |tokens| && forall i | 0 <= i < |tokens| :: Canonical(tokens[i].0) != key
  {
    if tokens == [] then 0
    else
      var init := tokens[..|tokens| - 1];
      if Canonical(tokens[|tokens| - 1].0) == key then |init|
      else var n := LastGiven(init, key); if n < |init| then n else |tokens|
  }

  /** The token of a key is the one given last under any spelling of it. */
  lemma {:induction false} LastSpellingWins(tokens: seq<(string, Token)>, key: string)
    ensures key in TokenMap(tokens) <==> LastGiven(tokens, key) < |tokens|
    ensures key in TokenMap(tokens) ==> TokenMap(tokens)[key] == tokens[LastGiven(tokens, key)].1
    decreases |tokens|
  {
    if tokens != [] { LastSpellingWins(tokens[..|tokens| - 1], key); }
  }

  /** Where a key is first given under some spelling, or the number of tokens. */
  function FirstGiven(tokens: seq<(string, Token)>, key: string): (n: nat)
    ensures n <= |tokens| && (n < |tokens| ==> Canonical(tokens[n].0) == key) && forall i | 0 <= i < n :: Canonical(tokens[i].0) != key
  {
    if tokens == [] || Canonical(tokens[0].0) == key then 0 else 1 + FirstGiven(tokens[1..], key)
  }

  lemma FirstGivenSnoc(init: seq<(string, Token)>, last: (string, Token), key: string)
    ensures FirstGiven(init + [last], key)
         == if FirstGiven(init, key) < |init| then FirstGiven(init, key) else if Canonical(last.0) == key then |init| else |init| + 1
  {
    var all := init + [last];
    assert forall i | 0 <= i < |init| :: all[i] == init[i];
    var n := FirstGiven(init, key);
    if n < |init| { assert Canonical(all[n].0) == key; } else if Canonical(last.0) == key { assert Canonical(all[|init|].0) == key; }
  }

  /** The keys are checked in the order in which they are first given. */
  lemma {:induction false} KeysComeInOrder(tokens: seq<(string, Token)>)
    ensures forall i | 0 <= i < |TokenKeys(tokens)| :: FirstGiven(tokens, TokenKeys(tokens)[i]) < |tokens|
    ensures forall i, j | 0 <= i < j < |TokenKeys(tokens)| :: FirstGiven(tokens, TokenKeys(tokens)[i]) < FirstGiven(tokens, TokenKeys(tokens)[j])
    decreases |tokens|
  {
    if tokens != [] {
      var init, last := tokens[..|tokens| - 1], tokens[|tokens| - 1];
      var k := Canonical(last.0);
      KeysComeInOrder(init);
      assert tokens == init + [last];
      forall key ensures FirstGiven(tokens, key)
          == if FirstGiven(init, key) < |init| then FirstGiven(init, key) else if k == key then |init| else |init| + 1
      {
        FirstGivenSnoc(init, last, key);
      }
      if k !in TokenKeys(init) { NeverGiven(init, k); }
      hide FirstGiven;
    }
  }

  lemma NeverGiven(tokens: seq<(string, Token)>, key: string)
    requires key !in TokenKeys(tokens)
    ensures FirstGiven(tokens, key) == |tokens|
  {
    TokenKeysAreKeys(tokens);
    LastSpellingWins(tokens, key);
  }

  lemma {:induction false} FirstKeyDecides(d: Domain, tokens: map<string, Token>, keys: seq<string>, n: nat)
    requires (forall k | k in keys :: k in tokens) && n < |keys| && KeyFailure(d, tokens, keys[n]).Some?
    requires forall i | 0 <= i < n :: KeyFailure(d, tokens, keys[i]).None?
    ensures KeysFailure(d, tokens, keys) == KeyFailure(d, tokens, keys[n])
    decreases keys
  {
    if n > 0 {
      assert keys[1..][n - 1] == keys[n] && forall i | 0 <= i < n - 1 :: keys[1..][i] == keys[i + 1];
      FirstKeyDecides(d, tokens, keys[1..], n - 1);
    }
  }

  /**
   * How the token check refuses: a record or graph of a target first, as stale; else the first key given
   * that reads as a link key of an empty type, as a bad value, or of a link that has changed, as stale.
   */
  lemma TokenRefusal(d: Domain, targets: set<Id>, tokens: seq<(string, Token)>, n: nat)
    ensures (exists id | id in targets :: TargetStale(d, TokenMap(tokens), id)) ==> TokenFailure(d, targets, tokens) == Some(Stale)
    ensures (forall id | id in targets :: !TargetStale(d, TokenMap(tokens), id))
            && n < |TokenKeys(tokens)| && TokenKeys(tokens)[n] in TokenMap(tokens) && KeyFailure(d, TokenMap(tokens), TokenKeys(tokens)[n]).Some?
            && (forall i | 0 <= i < n :: TokenKeys(tokens)[i] in TokenMap(tokens) && KeyFailure(d, TokenMap(tokens), TokenKeys(tokens)[i]).None?) ==>
              && LinkTokenKey(TokenKeys(tokens)[n]).Some?
              && TokenFailure(d, targets, tokens) == Some(if LinkTypeForm(LinkTokenKey(TokenKeys(tokens)[n]).value.kind) == "" then BadValue else Stale)
  {
    TokenKeysAreKeys(tokens);
    hide TokenMap, TokenKeys, LinkTokenKey, TargetStale;
    if n < |TokenKeys(tokens)| && KeyFailure(d, TokenMap(tokens), TokenKeys(tokens)[n]).Some?
       && forall i | 0 <= i < n :: KeyFailure(d, TokenMap(tokens), TokenKeys(tokens)[i]).None? {
      FirstKeyDecides(d, TokenMap(tokens), TokenKeys(tokens), n);
    }
  }

  // ---------------------------------------------------------------- admission

  predicate HoldsToken(d: Domain, id: Id, token: Token) { id in d.memories && token == RecordTokenOf(id, d.memories[id]) }

  /** Every token that is looked at holds: records by the bare or else the long key, graphs, links. */
  predicate TokensHold(d: Domain, targets: set<Id>, tokens: map<string, Token>) {
    && (forall id | id in targets && id in tokens :: HoldsToken(d, id, tokens[id]))
    && (forall id | id in targets && id !in tokens && "record:" + id in tokens :: HoldsToken(d, id, tokens["record:" + id]))
    && (forall id | id in targets && "graph:" + id in tokens :: tokens["graph:" + id] == GraphTokenOf(id, d.links))
    && (forall key | key in tokens && LinkTokenKey(key).Some? ::
          var k := LinkTokenKey(key).value;
          LinkTypeForm(k.kind) != ""
          && tokens[key] == LinkTokenOf(k.source, k.target, k.kind, LinkKey(k.source, k.target, LinkTypeForm(k.kind)), d.links))
  }

  lemma TokensPassIff(d: Domain, targets: set<Id>, tokens: seq<(string, Token)>)
    ensures TokenFailure(d, targets, tokens).None? <==> TokensHold(d, targets, TokenMap(tokens))
  {
    TokenKeysAreKeys(tokens);
    NoKeyFails(d, TokenMap(tokens), TokenKeys(tokens));
    hide TokenMap, TokenKeys, LinkTokenKey, RecordTokenOf, GraphTokenOf, LinkTokenOf;
    var all := TokenMap(tokens);
    assert forall id :: TargetStale(d, all, id) <==>
      !((id in all ==> HoldsToken(d, id, all[id])) && (id !in all && "record:" + id in all ==> HoldsToken(d, id, all["record:" + id]))
        && ("graph:" + id in all ==> all["graph:" + id] == GraphTokenOf(id, d.links)));
  }

  /** Everything the action is checked for before its callback runs. */
  predicate Admissible(s: Store, r: Request) {
    && (r.run !in s.runs ==> r.restores.Some?)
    && (r.run in s.runs && s.runs[r.run].state == Terminal ==> r.restores.Some?)
    && (forall x | x in r.targets :: IsExternal(Canonical(x)) || Canonical(x) in s.domain.memories)
    && TokensHold(s.domain, r.TargetSet(), TokenMap(r.tokens))
    && (r.preconditions.Some? ==> AllMet(s.domain, r.TargetSet(), r.preconditions.value))
  }

  lemma AdmittedIff(s: Store, r: Request)
    ensures Admit(s, r).Success? <==> Admissible(s, r)
    ensures Admit(s, r).Success? ==> Admit(s, r).value == RunOf(s, r)
  {
    TokensPassIff(s.domain, r.TargetSet(), r.tokens);
    if r.preconditions.Some? { PreconditionsPassIff(s.domain, r.TargetSet(), r.preconditions.value); }
    hide TokenFailure, TokensHold, PreconditionFailure, AllMet;
    assert PreconditionFailure(s.domain, r.TargetSet(), None).None? by { NoPreconditions(s.domain, r.TargetSet()); }
  }

  lemma NoPreconditions(d: Domain, targets: set<Id>)
    ensures PreconditionFailure(d, targets, None).None?
  {}

  predicate TargetMissing(d: Domain, r: Request) {
    exists x | x in r.targets :: !IsExternal(Canonical(x)) && Canonical(x) !in d.memories
  }

  /** Why an action is refused admission: no run or a finished one is an error, a missing target is stale, and tokens come next. */
  lemma AdmissionRefusal(s: Store, r: Request)
    ensures (r.run !in s.runs || s.runs[r.run].state == Terminal) && r.restores.None? ==> Admit(s, r) == Failure(Fatal)
    ensures r.run in s.runs && s.runs[r.run].state != Terminal && TargetMissing(s.domain, r) ==> Admit(s, r) == Failure(Stale)
    ensures Admit(s, r).Failure? && Admit(s, r).error.Stale? ==>
              || TargetMissing(s.domain, r)
              || !TokensHold(s.domain, r.TargetSet(), TokenMap(r.tokens))
              || (r.preconditions.Some? && !AllMet(s.domain, r.TargetSet(), r.preconditions.value))
  {
    AdmittedIff(s, r);
    hide TokenFailure, TokensHold, PreconditionFailure, AllMet;
    if x :| x in r.targets && !IsExternal(Canonical(x)) && Canonical(x) !in s.domain.memories { assert Canonical(x) in r.TargetSet(); }
  }

  // ---------------------------------------------------------------- commits

  predicate Sound(r: Request) {
    && r.targets != [] && (forall x | x in r.targets :: Canonical(x) != "")
    && (forall k | k in TokenMap(r.tokens) :: TokenMap(r.tokens)[k] != Text(""))
    && r.operation.Some? && Strip(r.operation.value) != ""
  }

  /** The callback raised nothing unswallowed, and returned a result of the operation asked for. */
  predicate CallbackReturned(d: Domain, r: Request)
    requires r.operation.Some?
  {
    && RunCallback(d, r).raised.None? && r.apply(d).ending.Returned?
    && Strip(r.apply(d).ending.operation) == Strip(r.operation.value)
  }

  /** The ids a receipt reports: those the result names, or else those touched, or else the targets. */
  function Reported(d: Domain, r: Request): set<Id>
    requires r.apply(d).ending.Returned?
  {
    if r.apply(d).ending.affected != [] then set x | x in r.apply(d).ending.affected :: Canonical(x)
    else if RunCallback(d, r).txn.touched != [] then set x | x in RunCallback(d, r).txn.touched
    else set x | x in r.targets :: Canonical(x)
  }

  /** The ids written are proper, and so are the local ones reported. */
  predicate ProperIds(d: Domain, r: Request)
    requires r.apply(d).ending.Returned?
  {
    && "" !in RunCallback(d, r).txn.touched && "" !in Reported(d, r)
    && forall id | id in Reported(d, r) && !IsExternal(id) :: IsUuid(id)
  }

  /** No event has this run and action, or this idempotency key, and the event restored is there. */
  predicate FreshEvent(s: Store, r: Request) {
    && (forall e | e in s.events :: !(e.run == r.run && e.action == r.action))
    && (forall e | e in s.events ::
          e.idempotencyKey != if r.idempotencyKey.Some? && r.idempotencyKey.value != "" then r.idempotencyKey.value else r.run + ":" + r.action)
    && (r.restores.Some? ==> r.restores.value < |s.events|)
  }

  lemma MutatesIff(d: Domain, r: Request)
    requires r.operation.Some? && Strip(r.operation.value) != ""
    ensures Mutate(d, r).Success? <==> CallbackReturned(d, r) && AfterDomain !in r.faults
    ensures Mutate(d, r).Success? ==>
              Mutate(d, r).value == Mutation(RunCallback(d, r).txn, r.apply(d).ending.affected, r.apply(d).ending.descriptor)
  {
    hide RunCalls;
  }

  lemma ReportedAre(d: Domain, r: Request)
    requires CallbackReturned.requires(d, r) && CallbackReturned(d, r)
    ensures AffectedIds(r, Mutation(RunCallback(d, r).txn, r.apply(d).ending.affected, r.apply(d).ending.descriptor)) == Reported(d, r)
  {
    hide RunCalls;
    assert r.TargetSet() == set x | x in r.targets :: Canonical(x);
  }

  /**
   * An action commits exactly if it is sound and not done before, is admitted, its callback returns, no
   * stage fails, its ids are proper and its event is new.
   */
  lemma CommitsIff(s: Store, model: string, r: Request)
    ensures Commits(s, model, r)
            <==> && Sound(r) && r.Id() !in s.receipts && r.faults == map[] && Admissible(s, r)
                 && CallbackReturned(s.domain, r) && ProperIds(s.domain, r) && FreshEvent(s, r)
  {
    assert WellFormed(r) <==> Sound(r) by { SoundIsWellFormed(r); }
    hide WellFormed, Sound, TokensHold;
    if WellFormed(r) {
      assert r.operation.Some? && Strip(r.operation.value) != "" by { SoundHasOperation(r); }
      AdmittedIff(s, r);
      MutatesIff(s.domain, r);
      NoFaultIff(r);
      hide Admit, Mutate, Settle, Admissible, CallbackReturned, ProperIds, FreshEvent;
      if Admit(s, r).Success? && Mutate(s.domain, r).Success? { SettledIff(s, model, r, Admit(s, r).value); }
    }
  }

  lemma SoundIsWellFormed(r: Request)
    ensures WellFormed(r) <==> Sound(r)
  {
    assert "" in r.TargetSet() <==> exists x | x in r.targets :: Canonical(x) == "";
  }

  lemma SoundHasOperation(r: Request)
    requires WellFormed(r)
    ensures r.operation.Some? && Strip(r.operation.value) != ""
  {}

  lemma NoFaultIff(r: Request)
    ensures r.faults == map[]
            <==> Begin !in r.faults && AfterDomain !in r.faults && RepairIntent !in r.faults && History !in r.faults
                 && ReceiptPreparation !in r.faults && Commit !in r.faults
  {
    if r.faults != map[] {
      assert r.faults.Keys != {};
      var stage :| stage in r.faults.Keys;
      match stage {
        case Begin =>
        case AfterDomain =>
        case RepairIntent =>
        case History =>
        case ReceiptPreparation =>
        case Commit =>
      }
    }
  }

  lemma SettledIff(s: Store, model: string, r: Request, row: RunRow)
    requires r.operation.Some? && CallbackReturned(s.domain, r)
    ensures var ending := r.apply(s.domain).ending;
            Settle(s, model, r, row, Mutation(RunCallback(s.domain, r).txn, ending.affected, ending.descriptor)).Success?
            <==> && ProperIds(s.domain, r) && FreshEvent(s, r)
                 && RepairIntent !in r.faults && History !in r.faults && ReceiptPreparation !in r.faults && Commit !in r.faults
  {
    var m := Mutation(RunCallback(s.domain, r).txn, r.apply(s.domain).ending.affected, r.apply(s.domain).ending.descriptor);
    SettlesIff(s, model, r, row, m);
    ReportedAre(s.domain, r);
    hide Settle, RunCallback, AffectedIds, Reported, IsUuid, CallbackReturned;
    assert forall id :: id in LocalIds(Reported(s.domain, r)) <==> id in Reported(s.domain, r) && !IsExternal(id);
  }

  /** So an action commits only on a store that meets its preconditions. */
  lemma CommitMeetsPreconditions(s: Store, model: string, r: Request)
    requires Commits(s, model, r) && r.preconditions.Some?
    ensures var (d, p) := (s.domain, r.preconditions.value);
            && (forall entry | entry in p.statuses ::
                  Canonical(entry.0) in r.TargetSet() && Canonical(entry.0) in d.memories && d.memories[Canonical(entry.0)].status == entry.1)
            && (forall a | a in p.requiredLinks ::
                  AssertedLink(a) in d.links && (a.context.Some? ==> d.links[AssertedLink(a)] == a.context.value))
            && (forall a | a in p.absentLinks :: AssertedLink(a) !in d.links)
  {
    CommitsIff(s, model, r);
    hide Commits, Sound, ProperIds, FreshEvent, CallbackReturned, TokensHold;
    assert forall entry | entry in r.preconditions.value.statuses :: StatusMet(s.domain, r.TargetSet(), entry);
    assert forall a | a in r.preconditions.value.requiredLinks :: RequiredMet(s.domain, r.TargetSet(), a);
    assert forall a | a in r.preconditions.value.absentLinks :: AbsentMet(s.domain, r.TargetSet(), a);
  }

  /** A refusal can be retried exactly if the database was busy, and is called stale exactly if a guard was. */
  lemma ErrorsAreTold(raised: Raise)
    ensures CurationAction.Reported(raised) == TransientError <==> raised in {Transient, Busy}
    ensures CurationAction.Reported(raised) == StaleError <==> raised == Stale
  {}

  /** A request that is not sound is refused for good, before anything is looked up. */
  lemma UnsoundIsRefused(s: Store, model: string, r: Request)
    requires !Sound(r)
    ensures Execute(s, model, r) == (s, Refused(FatalError))
  {
    SoundIsWellFormed(r);
    hide WellFormed, Sound, Body;
  }

  /** The same operation on the same targets, under the same tokens and preconditions, with the same payload. */
  predicate SamePlan(a: Request, b: Request)
    requires a.operation.Some? && b.operation.Some?
  {
    && Strip(a.operation.value) == Strip(b.operation.value)
    && (set x | x in a.targets :: Canonical(x)) == (set x | x in b.targets :: Canonical(x))
    && TokenMap(a.tokens) == TokenMap(b.tokens) && a.preconditions == b.preconditions && a.payload == b.payload
  }

  /**
   * Any request under the identity of a commit changes nothing, and is answered with its receipt exactly
   * if it is the same plan and no two verification descriptors differ; otherwise it is refused for good.
   */
  lemma CollisionIff(s: Store, model: string, r: Request, other: Request)
    requires Commits(s, model, r) && Sound(other) && other.run == r.run && other.action == r.action
    ensures r.operation.Some? && r.apply(s.domain).ending.Returned? && r.Id() in After(s, model, r).receipts
    ensures var after := After(s, model, r);
            var returned := r.apply(s.domain).ending.descriptor;
            var kept := if returned.Some? then returned else r.descriptor;
            Execute(after, model, other)
            == (after, if SamePlan(r, other) && !(kept.Some? && other.descriptor.Some? && kept != other.descriptor)
                       then Accepted(after.receipts[r.Id()]) else Refused(FatalError))
  {
    ReceiptTells(s, model, r);
    SoundIsWellFormed(other);
    hide Commits, After, Body, WellFormed, TokenMap, StateTold, Reported, RunCallback;
    assert other.TargetSet() == set x | x in other.targets :: Canonical(x);
    assert r.TargetSet() == set x | x in r.targets :: Canonical(x);
    assert other.Id() == r.Id();
  }

  // ---------------------------------------------------------------- what the rows of a commit say

  /** The snapshots of those of these ids that have a record. */
  ghost predicate SnapshotsOf(d: Domain, ids: set<Id>, records: map<Id, Snapshot>) {
    && (forall id :: id in records <==> id in ids && id in d.memories)
    && forall id | id in records :: records[id] == SnapshotOf(id, d.memories[id])
  }

  /** The token of the joint state of these ids, none if none of them has a record. */
  ghost predicate StateTold(d: Domain, ids: set<Id>, token: Option<Token>) {
    if forall id | id in ids :: id !in d.memories then token.None?
    else token.Some? && token.value.StateToken? && token.value.targets == ids && SnapshotsOf(d, ids, token.value.records)
  }

  lemma StateTokenTells(d: Domain, ids: set<Id>)
    ensures StateTold(d, ids, StateTokenOf(Restrict(d.memories, ids), ids))
  {
    hide SnapshotOf;
    var near := Restrict(d.memories, ids);
    assert forall id :: id in near <==> id in ids && id in d.memories;
    if id :| id in ids && id in d.memories { assert id in near; }
  }

  /**
   * The receipt of a commit: the trimmed operation, the local ids reported, both joint states, the new
   * event, the whole intent, and the descriptor that the callback returned or else the caller's.
   */
  lemma ReceiptTells(s: Store, model: string, r: Request)
    requires Commits(s, model, r)
    ensures r.Id() in After(s, model, r).receipts && r.apply(s.domain).ending.Returned? && r.operation.Some?
    ensures var receipt := After(s, model, r).receipts[r.Id()];
            && receipt.operation == Strip(r.operation.value) && receipt.status == AppliedUnverified && receipt.errorCode == None
            && (forall id :: id in receipt.affected <==> id in Reported(s.domain, r) && !IsExternal(id))
            && StateTold(s.domain, r.TargetSet(), receipt.beforeToken)
            && StateTold(After(s, model, r).domain, r.TargetSet() + (set id | id in TxnOf(s, r).touched), receipt.afterToken)
            && receipt.eventId == Some(|s.events|)
            && receipt.intent == Some(Intent(Strip(r.operation.value), r.TargetSet(), TokenMap(r.tokens), r.preconditions, r.payload))
            && receipt.descriptor == (if r.apply(s.domain).ending.descriptor.Some? then r.apply(s.domain).ending.descriptor else r.descriptor)
  {
    CommitsIff(s, model, r);
    CommitIsSettled(s, model, r);
    CommitReceipt(s, model, r);
    ReportedAre(s.domain, r);
    StateTokenTells(s.domain, r.TargetSet());
    StateTokenTells(TxnOf(s, r).db, AfterIds(r, TxnOf(s, r)));
    hide Commits, Body, After, RunCallback, Admissible, FreshEvent, ProperIds, StateTokenOf, AffectedIds, Reported, StateTold, EventOf, QueueOf, EventIsNew,
      TokenMap, Sound, CallbackReturned, RunOf;
  }

  lemma CommitReceipt(s: Store, model: string, r: Request)
    requires Commits(s, model, r)
    ensures r.operation.Some? && CallbackReturned(s.domain, r) && r.Id() in After(s, model, r).receipts
    ensures After(s, model, r).receipts[r.Id()]
         == ReceiptOf(s, r, Mutation(TxnOf(s, r), r.apply(s.domain).ending.affected, r.apply(s.domain).ending.descriptor))
  {
    CommitsIff(s, model, r);
    assert r.operation.Some? && Strip(r.operation.value) != "" by { assert Sound(r); }
    MutatesIff(s.domain, r);
    hide Admit, Mutate, EventOf, QueueOf, ReceiptOf, AffectedIds, LocalIds, Sound, Admissible, ProperIds, FreshEvent, EventIsNew, CallbackReturned, RunCallback;
  }

  /** The event of a commit, apart from its revisions. */
  lemma EventTells(s: Store, model: string, r: Request)
    requires Commits(s, model, r)
    ensures r.operation.Some?
    ensures var e := EventOf(s, r, TxnOf(s, r));
            && After(s, model, r).events == s.events + [e]
            && e.run == r.run && e.action == r.action && e.operation == Strip(r.operation.value) && e.actor == r.actor
            && e.family == "curation" && e.schemaVersion == 1 && e.status == "applied" && e.restores == r.restores
            && e.idempotencyKey == (if r.idempotencyKey.Some? && r.idempotencyKey.value != "" then r.idempotencyKey.value else r.run + ":" + r.action)
            && (r.run in s.runs ==> e.task == s.runs[r.run].task && e.plan == s.runs[r.run].plan && e.policy == s.runs[r.run].policy)
            && (r.run !in s.runs ==> e.task == None && e.plan == None && e.policy == Some("1"))
  {
    CommitIsSettled(s, model, r);
    CommitHasOperation(s, model, r);
    hide Commits, Body, After, RunCallback, RecordRevisions, LinkRevisions;
  }

  /** A restore under an unknown run makes that run, executing; any other commit leaves the runs alone. */
  lemma RunRowTells(s: Store, model: string, r: Request)
    requires Commits(s, model, r)
    ensures r.run in s.runs ==> After(s, model, r).runs == s.runs
    ensures r.run !in s.runs ==>
              var after := After(s, model, r).runs;
              && r.restores.Some? && after.Keys == s.runs.Keys + {r.run} && (forall run | run in s.runs :: after[run] == s.runs[run])
              && after[r.run].state == Executing && after[r.run].outcome == None && after[r.run].terminalizedAt == None
              && after[r.run].details == (if r.idempotencyKey.Some? && r.idempotencyKey.value != "" then r.idempotencyKey.value else r.action)
  {
    CommitRow(s, model, r);
    hide Commits, After;
  }

  lemma CommitRow(s: Store, model: string, r: Request)
    requires Commits(s, model, r)
    ensures After(s, model, r).runs == s.runs[r.run := RunOf(s, r)] && (r.run !in s.runs ==> r.restores.Some?)
  {
    assert r.run !in s.runs ==> r.restores.Some? by {
      CommitsIff(s, model, r);
      hide Commits, Sound, ProperIds, FreshEvent, CallbackReturned, TokensHold, AllMet;
    }
    hide *;
    CommitIsSettled(s, model, r);
  }

  /** A commit writes a revision of exactly the records that it created, deleted, changed or hid. */
  lemma RecordRevisedIff(s: Store, model: string, r: Request, id: Id)
    requires Commits(s, model, r) && SourcesLive(s.domain)
    ensures id in EventOf(s, r, TxnOf(s, r)).records
            <==> Snap(After(s, model, r).domain.memories, id) != Snap(s.domain.memories, id) || Hidden(s, r, id)
  {
    if id !in EventOf(s, r, TxnOf(s, r)).records {
      UnrevisedByCommit(s, model, r, id);
    } else {
      BeforeIff(s, model, r, id);
      RevisionIsChange(s, r, id);
    }
  }

  lemma RevisionIsChange(s: Store, r: Request, id: Id)
    requires r.operation.Some? && id in EventOf(s, r, TxnOf(s, r)).records
    ensures EventOf(s, r, TxnOf(s, r)).records[id].before != EventOf(s, r, TxnOf(s, r)).records[id].after
  {
    hide RunCallback, LinkRevisions, SnapshotOf, Restrict;
  }

  /** And of exactly the links that it added, removed, gave another context or hid. */
  lemma LinkRevisedIff(s: Store, model: string, r: Request, k: LinkKey)
    requires Commits(s, model, r) && SourcesLive(s.domain)
    ensures k in EventOf(s, r, TxnOf(s, r)).links
            <==> ContextOf(After(s, model, r).domain.links, k) != ContextOf(s.domain.links, k) || HiddenLink(s, r, k)
  {
    if k !in EventOf(s, r, TxnOf(s, r)).links { UnrevisedLink(s, model, r, k); } else { LinkBeforeIff(s, model, r, k); }
  }
}
