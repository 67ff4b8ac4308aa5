/** The accumulator as the object it is, and the pass that groups samples and summarises each group. */
module ProviderUsageStore {
  import opened Basics
  import opened ProviderUsage

  /** The sums after the first `n` fields have been added. */
  function AddFirst(sums: map<TokenField, int>, tokens: map<TokenField, int>, n: nat): map<TokenField, int>
    requires n <= |FIELDS|
  {
    map f | f in sums :: sums[f] + if f in tokens && f in FIELDS[..n] then tokens[f] else 0
  }

  lemma AddNone(sums: map<TokenField, int>, tokens: map<TokenField, int>)
    ensures AddFirst(sums, tokens, 0) == sums
  {}

  lemma AddOne(sums: map<TokenField, int>, tokens: map<TokenField, int>, i: nat)
    requires i < |FIELDS| && sums.Keys == NoTokens().Keys
    ensures var (f, before) := (FIELDS[i], AddFirst(sums, tokens, i));
            && f in before
            && AddFirst(sums, tokens, i + 1) == if f in tokens then before[f := before[f] + tokens[f]] else before
  {
    var f, before := FIELDS[i], AddFirst(sums, tokens, i);
    assert f in NoTokens();
    assert f !in FIELDS[..i];
    assert FIELDS[..i + 1] == FIELDS[..i] + [f];
  }

  lemma AddEvery(sums: map<TokenField, int>, tokens: map<TokenField, int>)
    ensures AddFirst(sums, tokens, |FIELDS|) == AddTokens(sums, tokens)
    ensures AddTokens(sums, tokens).Keys == sums.Keys
  {
    assert FIELDS[..|FIELDS|] == FIELDS;
    forall f: TokenField ensures f in FIELDS {
      match f
      case Input => assert FIELDS[0] == f;
      case Output => assert FIELDS[1] == f;
      case CachedInput => assert FIELDS[2] == f;
      case CacheWrite => assert FIELDS[3] == f;
      case Reasoning => assert FIELDS[4] == f;
      case AllTokens => assert FIELDS[5] == f;
    }
  }

  class ProviderUsageAccumulator {
    var callsLastHour: nat
    var callsLastDay: nat
    var failuresLastHour: nat
    var failuresLastDay: nat
    var skipsLastHour: nat
    var skipsLastDay: nat
    var durationLastHour: seq<real>
    var durationLastDay: seq<real>
    var failureReasons: map<string, nat>
    var skipReasons: map<string, nat>
    var tokensLastHour: map<TokenField, int>
    var tokensLastDay: map<TokenField, int>
    var tokenUsageSources: map<string, nat>

    function View(): Bucket
      reads this
    {
      Bucket(Window(callsLastHour, failuresLastHour, skipsLastHour, durationLastHour, tokensLastHour),
             Window(callsLastDay, failuresLastDay, skipsLastDay, durationLastDay, tokensLastDay),
             failureReasons, skipReasons, tokenUsageSources)
    }

    constructor ()
      ensures View() == EMPTY_BUCKET
    {
      callsLastHour, callsLastDay, failuresLastHour, failuresLastDay, skipsLastHour, skipsLastDay := 0, 0, 0, 0, 0, 0;
      durationLastHour, durationLastDay := [], [];
      failureReasons, skipReasons, tokenUsageSources := map[], map[], map[];
      tokensLastHour, tokensLastDay := NoTokens(), NoTokens();
    }

    /** Each reported field in turn, into the day and, if recent, into the hour. */
    method ObserveTokens(s: Sample, inLastHour: bool)
      requires tokensLastHour.Keys == tokensLastDay.Keys == NoTokens().Keys
      modifies this`tokensLastHour, this`tokensLastDay, this`tokenUsageSources
      ensures View() == WithTokens(old(View()), s, inLastHour)
      ensures tokensLastHour.Keys == tokensLastDay.Keys == NoTokens().Keys
    {
      hide AddTokens, AddFirst, NoTokens, Bump;
      ghost var hour, day := tokensLastHour, tokensLastDay;
      AddNone(hour, s.tokens);
      AddNone(day, s.tokens);
      for i := 0 to |FIELDS|
        invariant tokensLastDay == AddFirst(day, s.tokens, i)
        invariant tokensLastHour == if inLastHour then AddFirst(hour, s.tokens, i) else hour
        invariant tokenUsageSources == old(tokenUsageSources)
      {
        AddOne(day, s.tokens, i);
        AddOne(hour, s.tokens, i);
        var field := FIELDS[i];
        if field in s.tokens {
          tokensLastDay := tokensLastDay[field := tokensLastDay[field] + s.tokens[field]];
          if inLastHour { tokensLastHour := tokensLastHour[field := tokensLastHour[field] + s.tokens[field]]; }
        }
      }
      AddEvery(day, s.tokens);
      AddEvery(hour, s.tokens);
      if s.source.Some? && s.source.value != "" { tokenUsageSources := Bump(tokenUsageSources, s.source.value); }
    }

    method ObserveSample(s: Sample, lastHour: real, lastDay: real)
      requires tokensLastHour.Keys == tokensLastDay.Keys == NoTokens().Keys
      modifies this
      ensures View() == Observe(old(View()), s, lastHour, lastDay)
      ensures tokensLastHour.Keys == tokensLastDay.Keys == NoTokens().Keys
    {
      hide Bump, WithTokens, NoTokens, Or, WithSkip, WithFailure, WithCall;
      var inLastHour, inLastDay := s.createdAt >= lastHour, s.createdAt >= lastDay;
      if inLastDay { ObserveTokens(s, inLastHour); }
      if s.status == "skipped" {
        ObserveSkip(s, inLastHour, inLastDay);
        return;
      }
      ObserveCall(s, inLastHour, inLastDay);
      if s.status == "success" || !inLastDay { return; }
      ObserveFailure(s, inLastHour);
    }

    method ObserveSkip(s: Sample, inLastHour: bool, inLastDay: bool)
      modifies this`skipsLastHour, this`skipsLastDay, this`skipReasons
      ensures View() == WithSkip(old(View()), s, inLastHour, inLastDay)
    {
      if inLastDay {
        skipsLastDay := skipsLastDay + 1;
        var key := Or(s.reason, "unclassified_skip");
        skipReasons := skipReasons[key := (if key in skipReasons then skipReasons[key] else 0) + 1];
      }
      if inLastHour { skipsLastHour := skipsLastHour + 1; }
    }

    method ObserveCall(s: Sample, inLastHour: bool, inLastDay: bool)
      modifies this`callsLastHour, this`callsLastDay, this`durationLastHour, this`durationLastDay
      ensures View() == old(View()).(day := WithCall(old(View()).day, s, inLastDay), hour := WithCall(old(View()).hour, s, inLastHour))
    {
      if inLastDay {
        callsLastDay := callsLastDay + 1;
        durationLastDay := durationLastDay + [s.duration];
      }
      if inLastHour {
        callsLastHour := callsLastHour + 1;
        durationLastHour := durationLastHour + [s.duration];
      }
    }

    method ObserveFailure(s: Sample, inLastHour: bool)
      modifies this`failuresLastHour, this`failuresLastDay, this`failureReasons
      ensures View() == WithFailure(old(View()), s, inLastHour)
    {
      failuresLastDay := failuresLastDay + 1;
      var key := Or(s.reason, "unclassified_error");
      failureReasons := failureReasons[key := (if key in failureReasons then failureReasons[key] else 0) + 1];
      if inLastHour { failuresLastHour := failuresLastHour + 1; }
    }

    method ToSummary(key: GroupKey, state: Option<Admission>, now: real, ghost samples: seq<Sample>, ghost states: seq<Admission>)
      returns (u: Summary)
      requires Exact(View(), samples, now - 3600.0, now - 86400.0)
      requires state == LastState(states, key.provider, key.model)
      ensures u.key == key && Describes(u, samples, states, now)
    {
      FiguresOfExact(View().hour, samples, now - 3600.0);
      FiguresOfExact(View().day, samples, now - 86400.0);
      hide WindowIs, FiguresAre, TallyIs, TopFor, IsTop, Mean, LastState;
      var topFailure := TopReason(failureReasons);
      TopIsTopFor(failureReasons, topFailure, r => FailedFor(r), samples, now - 86400.0);
      var topSkip := TopReason(skipReasons);
      TopIsTopFor(skipReasons, topSkip, r => SkippedFor(r), samples, now - 86400.0);
      var source := TopReason(tokenUsageSources);
      TopIsTopFor(tokenUsageSources, source, r => UsageFrom(r), samples, now - 86400.0);
      u := Summary(key,
                   Figures(callsLastHour, failuresLastHour, skipsLastHour, Mean(durationLastHour), tokensLastHour),
                   Figures(callsLastDay, failuresLastDay, skipsLastDay, Mean(durationLastDay), tokensLastDay),
                   topFailure, topSkip, source, state,
                   if state.None? then None
                   else Some(if state.value.activeUntil - now < 0.0 then 0.0 else state.value.activeUntil - now));
    }
  }

  lemma FiguresOfExact(w: Window, samples: seq<Sample>, since: real)
    requires WindowIs(w, samples, since)
    ensures FiguresAre(Figures(w.calls, w.failures, w.skips, Mean(w.durations), w.tokens), samples, since)
  {
    MeanIsAverage(samples, since);
    hide Durations, DurationTotal, Sum, Total, NoTokens;
  }

  lemma GroupSnoc(samples: seq<Sample>, s: Sample, key: GroupKey)
    ensures Group(samples + [s], key) == Group(samples, key) + if s.key == key then [s] else []
  {
    assert (samples + [s])[..|samples|] == samples;
  }

  lemma {:induction false} NoSuchGroup(samples: seq<Sample>, key: GroupKey)
    requires key !in KeysOf(samples)
    ensures Group(samples, key) == []
    decreases |samples|
  {
    if samples != [] {
      assert samples[|samples| - 1] in samples;
      NoSuchGroup(samples[..|samples| - 1], key);
    }
  }

  /** The grouping loop's invariant: one accumulator of its own for each key seen, exact so far. */
  ghost predicate Grouped(aggregate: map<GroupKey, ProviderUsageAccumulator>, samples: seq<Sample>, lastHour: real, lastDay: real)
    reads aggregate.Values
  {
    && aggregate.Keys == KeysOf(samples)
    && (forall k, l | k in aggregate && l in aggregate && k != l :: aggregate[k] != aggregate[l])
    && (forall k | k in aggregate :: Exact(aggregate[k].View(), Group(samples, k), lastHour, lastDay))
  }

  /** The dictionary of groups, and its keys in the order in which they were put in. */
  method GroupSamples(samples: seq<Sample>, lastHour: real, lastDay: real)
    returns (aggregate: map<GroupKey, ProviderUsageAccumulator>, order: seq<GroupKey>)
    requires lastDay <= lastHour
    ensures fresh(aggregate.Values) && Grouped(aggregate, samples, lastHour, lastDay)
    ensures order == FirstKeys(samples)
  {
    hide Grouped;
    aggregate, order := map[], [];
    assert Grouped(aggregate, samples[..0], lastHour, lastDay) by { NothingGrouped(lastHour, lastDay); }
    for i := 0 to |samples|
      invariant fresh(aggregate.Values)
      invariant Grouped(aggregate, samples[..i], lastHour, lastDay) && order == FirstKeys(samples[..i])
    {
      assert samples[..i + 1] == samples[..i] + [samples[i]];
      if samples[i].key !in order { order := order + [samples[i].key]; }
      aggregate := Observed(aggregate, samples[..i], samples[i], lastHour, lastDay);
    }
    assert samples[..|samples|] == samples;
  }

  lemma GroupedKeys(aggregate: map<GroupKey, ProviderUsageAccumulator>, samples: seq<Sample>, lastHour: real, lastDay: real)
    requires Grouped(aggregate, samples, lastHour, lastDay)
    ensures aggregate.Keys == KeysOf(samples)
  {}

  lemma GroupedIsExact(aggregate: map<GroupKey, ProviderUsageAccumulator>, samples: seq<Sample>, lastHour: real, lastDay: real, k: GroupKey)
    requires Grouped(aggregate, samples, lastHour, lastDay) && k in aggregate
    ensures Exact(aggregate[k].View(), Group(samples, k), lastHour, lastDay)
  {}

  lemma NothingGrouped(lastHour: real, lastDay: real)
    ensures Grouped(map[], [], lastHour, lastDay)
  {}

  ghost function KeysIn(us: seq<Summary>): set<GroupKey> { set u | u in us :: u.key }

  ghost predicate KeysDiffer(us: seq<Summary>) { forall i, j | 0 <= i < j < |us| :: us[i].key != us[j].key }

  /** The keys of these summaries, each told once, are those of the set. */
  ghost predicate OnePerKey(us: seq<Summary>, keys: set<GroupKey>) { KeysIn(us) == keys && KeysDiffer(us) }

  lemma OneMoreKey(us: seq<Summary>, u: Summary, i: nat)
    requires i <= |us|
    ensures KeysIn(us[..i] + [u] + us[i..]) == KeysIn(us) + {u.key}
  {
    var more := us[..i] + [u] + us[i..];
    assert us == us[..i] + us[i..];
    assert forall x :: x in more <==> x in us || x == u;
  }

  lemma StillDiffer(us: seq<Summary>, u: Summary, i: nat)
    requires i <= |us| && KeysDiffer(us) && u.key !in KeysIn(us)
    ensures KeysDiffer(us[..i] + [u] + us[i..])
  {
    assert forall k | 0 <= k < |us| :: us[k].key != u.key by {
      forall k | 0 <= k < |us| ensures us[k].key != u.key { assert us[k] in us; }
    }
    hide KeysIn;
    var more := us[..i] + [u] + us[i..];
    forall j, k | 0 <= j < k < |more| ensures more[j].key != more[k].key {
      assert more[j] == if j < i then us[j] else if j == i then u else us[j - 1];
      assert more[k] == if k < i then us[k] else if k == i then u else us[k - 1];
    }
  }

  ghost predicate AllDescribe(us: seq<Summary>, samples: seq<Sample>, states: seq<Admission>, now: real) {
    forall i | 0 <= i < |us| :: Describes(us[i], Group(samples, us[i].key), states, now)
  }

  lemma OneMoreDescribes(us: seq<Summary>, u: Summary, i: nat, samples: seq<Sample>, states: seq<Admission>, now: real)
    requires AllDescribe(us, samples, states, now) && Describes(u, Group(samples, u.key), states, now) && i <= |us|
    ensures AllDescribe(us[..i] + [u] + us[i..], samples, states, now)
  {
    hide Describes, Group;
    var more := us[..i] + [u] + us[i..];
    assert forall k | 0 <= k < |more| :: more[k] == if k < i then us[k] else if k == i then u else us[k - 1];
  }

  /**
   * One summary for each key that occurs, however old its samples; each tells exactly its group, they
   * come most used first, and those that tie come in the order in which their groups first occurred.
   */
  method BuildProviderUsageSummaries(samples: seq<Sample>, states: seq<Admission>, now: real) returns (summaries: seq<Summary>)
    ensures OnePerKey(summaries, KeysOf(samples))
    ensures AllDescribe(summaries, samples, states, now)
    ensures InOrder(summaries) && TiesInOrder(summaries, FirstKeys(samples))
  {
    hide Grouped, Exact, Describes, KeysOf, Group, LastState, KeysIn, KeysDiffer, InOrder, AllDescribe, TiesInOrder, Before;
    var aggregate, order := GroupSamples(samples, now - 3600.0, now - 86400.0);
    GroupedKeys(aggregate, samples, now - 3600.0, now - 86400.0);
    FirstKeysAreKeys(samples);
    summaries := [];
    ghost var done: set<GroupKey> := {};
    NoSummaries(samples, states, now);
    for n := 0 to |order|
      invariant OnePerKey(summaries, done) && InOrder(summaries) && AllDescribe(summaries, samples, states, now)
      invariant Grouped(aggregate, samples, now - 3600.0, now - 86400.0)
      invariant (forall i | 0 <= i < n :: order[i] in done) && forall key | key in done :: key in order && PlaceIn(order, key) < n
      invariant TiesInOrder(summaries, order)
    {
      var key := order[n];
      assert key in order;
      PlaceOfNth(order, n);
      GroupedIsExact(aggregate, samples, now - 3600.0, now - 86400.0, key);
      var u := aggregate[key].ToSummary(key, LastState(states, key.provider, key.model), now, Group(samples, key), states);
      var i := PlaceOf(summaries, u);
      PlacesBelow(summaries, done, order, n);
      TiesStayInOrder(summaries, u, i, order);
      OneMoreKey(summaries, u, i);
      StillDiffer(summaries, u, i);
      OneMoreDescribes(summaries, u, i, samples, states, now);
      summaries := summaries[..i] + [u] + summaries[i..];
      done := done + {key};
    }
    assert done == KeysOf(samples) by {
      assert forall key :: key in done <==> key in order;
    }
  }

  lemma PlacesBelow(us: seq<Summary>, keys: set<GroupKey>, order: seq<GroupKey>, n: nat)
    requires KeysIn(us) == keys && forall key | key in keys :: PlaceIn(order, key) < n
    ensures forall k | 0 <= k < |us| :: PlaceIn(order, us[k].key) < n
  {
    forall k | 0 <= k < |us| ensures PlaceIn(order, us[k].key) < n { assert us[k] in us; }
  }

  lemma NoSummaries(samples: seq<Sample>, states: seq<Admission>, now: real)
    ensures OnePerKey([], {}) && InOrder([]) && AllDescribe([], samples, states, now) && TiesInOrder([], FirstKeys(samples))
  {}

  /** `setdefault(...).observe(...)`: the sample's own accumulator, made on first sight, and no other. */
  method Observed(aggregate: map<GroupKey, ProviderUsageAccumulator>, samples: seq<Sample>, s: Sample, lastHour: real, lastDay: real)
    returns (after: map<GroupKey, ProviderUsageAccumulator>)
    requires lastDay <= lastHour && Grouped(aggregate, samples, lastHour, lastDay)
    modifies aggregate.Values
    ensures Grouped(after, samples + [s], lastHour, lastDay)
    ensures fresh(after.Values - aggregate.Values)
  {
    hide Exact, Group;
    after := aggregate;
    if s.key !in after {
      var made := new ProviderUsageAccumulator();
      after := after[s.key := made];
      NoSuchGroup(samples, s.key);
      assert Exact(made.View(), [], lastHour, lastDay) by { FoldIsExact([], lastHour, lastDay); }
    }
    var mine := after[s.key];
    ExactKeys(mine.View(), Group(samples, s.key), lastHour, lastDay);
    ObserveIsExact(mine.View(), Group(samples, s.key), s, lastHour, lastDay);
    mine.ObserveSample(s, lastHour, lastDay);
    forall k | k in after ensures Exact(after[k].View(), Group(samples + [s], k), lastHour, lastDay) {
      GroupSnoc(samples, s, k);
      assert k != s.key ==> Group(samples + [s], k) == Group(samples, k);
    }
    assert after.Keys == KeysOf(samples + [s]);
  }

  lemma ExactKeys(b: Bucket, samples: seq<Sample>, lastHour: real, lastDay: real)
    requires Exact(b, samples, lastHour, lastDay)
    ensures b.hour.tokens.Keys == b.day.tokens.Keys == NoTokens().Keys
  {}
}
