/**
 * Provider usage: what the counters of a group mean, as totals over its samples in a window, and
 * the accumulator that computes all of them in one pass.
 */
module ProviderUsage {
  import opened Basics
  import TextOrder

  datatype TokenField = Input | Output | CachedInput | CacheWrite | Reasoning | AllTokens

  const FIELDS: seq<TokenField> := [Input, Output, CachedInput, CacheWrite, Reasoning, AllTokens]

  datatype GroupKey = GroupKey(task: Option<string>, provider: string, providerName: string, model: string)

  /** `tokens` holds the token counts the provider reported; an absent one is null. */
  datatype Sample = Sample(key: GroupKey, status: string, duration: real, createdAt: real, reason: Option<string>,
                           tokens: map<TokenField, int>, source: Option<string>)

  function Or(text: Option<string>, otherwise: string): string {
    if text.None? || text.value == "" then otherwise else text.value
  }

  // ---------------------------------------------------------------- what is counted

  datatype Question =
    | Calls
    | Failures
    | Skips
    | FailedFor(reason: string)
    | SkippedFor(reason: string)
    | UsageFrom(source: string)
    | TokensOf(field: TokenField)

  predicate Skipped(s: Sample) { s.status == "skipped" }

  predicate Failed(s: Sample) { s.status != "skipped" && s.status != "success" }

  function Bit(b: bool): int { if b then 1 else 0 }

  function Weight(q: Question, s: Sample): int {
    match q
    case Calls => Bit(!Skipped(s))
    case Failures => Bit(Failed(s))
    case Skips => Bit(Skipped(s))
    case FailedFor(reason) => Bit(Failed(s) && Or(s.reason, "unclassified_error") == reason)
    case SkippedFor(reason) => Bit(Skipped(s) && Or(s.reason, "unclassified_skip") == reason)
    case UsageFrom(source) => Bit(source != "" && s.source == Some(source))
    case TokensOf(field) => if field in s.tokens then s.tokens[field] else 0
  }

  /** The sum of a question's answers over the samples created at or after `since`. */
  function Total(q: Question, samples: seq<Sample>, since: real): int {
    if samples == [] then 0
    else
      var s := samples[|samples| - 1];
      Total(q, samples[..|samples| - 1], since) + if s.createdAt >= since then Weight(q, s) else 0
  }

  function Durations(samples: seq<Sample>, since: real): seq<real> {
    if samples == [] then []
    else
      var s := samples[|samples| - 1];
      Durations(samples[..|samples| - 1], since) + if s.createdAt >= since && !Skipped(s) then [s.duration] else []
  }

  function Sum(xs: seq<real>): real { if xs == [] then 0.0 else Sum(xs[..|xs| - 1]) + xs[|xs| - 1] }

  function Mean(xs: seq<real>): real { if xs == [] then 0.0 else Sum(xs) / |xs| as real }

  // ---------------------------------------------------------------- the accumulator

  datatype Window = Window(calls: nat, failures: nat, skips: nat, durations: seq<real>, tokens: map<TokenField, int>)

  datatype Bucket = Bucket(hour: Window, day: Window, failureReasons: map<string, nat>, skipReasons: map<string, nat>,
                           sources: map<string, nat>)

  function NoTokens(): map<TokenField, int> { map f | f in FIELDS :: 0 }

  const EMPTY_WINDOW := Window(0, 0, 0, [], NoTokens())

  const EMPTY_BUCKET := Bucket(EMPTY_WINDOW, EMPTY_WINDOW, map[], map[], map[])

  function Bump(counts: map<string, nat>, key: string): map<string, nat> {
    counts[key := (if key in counts then counts[key] else 0) + 1]
  }

  function AddTokens(sums: map<TokenField, int>, tokens: map<TokenField, int>): map<TokenField, int> {
    map f | f in sums :: sums[f] + if f in tokens then tokens[f] else 0
  }

  function WithTokens(b: Bucket, s: Sample, inHour: bool): Bucket {
    var summed := b.(day := b.day.(tokens := AddTokens(b.day.tokens, s.tokens)),
                     hour := if inHour then b.hour.(tokens := AddTokens(b.hour.tokens, s.tokens)) else b.hour);
    if s.source.Some? && s.source.value != "" then summed.(sources := Bump(b.sources, s.source.value)) else summed
  }

  function WithSkip(b: Bucket, s: Sample, inHour: bool, inDay: bool): Bucket {
    var daily := if inDay then b.(day := b.day.(skips := b.day.skips + 1),
                                  skipReasons := Bump(b.skipReasons, Or(s.reason, "unclassified_skip"))) else b;
    if inHour then daily.(hour := b.hour.(skips := b.hour.skips + 1)) else daily
  }

  function WithCall(w: Window, s: Sample, inside: bool): Window {
    if inside then w.(calls := w.calls + 1, durations := w.durations + [s.duration]) else w
  }

  function WithFailure(b: Bucket, s: Sample, inHour: bool): Bucket {
    b.(day := b.day.(failures := b.day.failures + 1),
       hour := if inHour then b.hour.(failures := b.hour.failures + 1) else b.hour,
       failureReasons := Bump(b.failureReasons, Or(s.reason, "unclassified_error")))
  }

  /** `observe`, branch for branch. */
  function Observe(b: Bucket, s: Sample, lastHour: real, lastDay: real): Bucket {
    var inHour, inDay := s.createdAt >= lastHour, s.createdAt >= lastDay;
    var counted := if inDay then WithTokens(b, s, inHour) else b;
    if s.status == "skipped" then WithSkip(counted, s, inHour, inDay)
    else
      var called := counted.(day := WithCall(counted.day, s, inDay), hour := WithCall(counted.hour, s, inHour));
      if s.status == "success" || !inDay then called else WithFailure(called, s, inHour)
  }

  function Fold(samples: seq<Sample>, lastHour: real, lastDay: real): Bucket {
    if samples == [] then EMPTY_BUCKET
    else Observe(Fold(samples[..|samples| - 1], lastHour, lastDay), samples[|samples| - 1], lastHour, lastDay)
  }

  // ---------------------------------------------------------------- the counters are the totals

  function Tally(counts: map<string, nat>, key: string): nat { if key in counts then counts[key] else 0 }

  ghost predicate WindowIs(w: Window, samples: seq<Sample>, since: real) {
    && w.calls == Total(Calls, samples, since)
    && w.failures == Total(Failures, samples, since)
    && w.skips == Total(Skips, samples, since)
    && w.durations == Durations(samples, since)
    && w.tokens.Keys == NoTokens().Keys
    && forall f | f in w.tokens :: w.tokens[f] == Total(TokensOf(f), samples, since)
  }

  /** A tally of reasons: right for every reason, and with no entry for a reason that never occurred. */
  ghost predicate TallyIs(counts: map<string, nat>, ask: string -> Question, samples: seq<Sample>, since: real) {
    && (forall r :: Tally(counts, r) == Total(ask(r), samples, since))
    && (forall r | r in counts :: counts[r] > 0)
  }

  /** One sample more, counter by counter. */
  function Grown(w: Window, s: Sample, since: real): Window {
    if s.createdAt < since then w
    else Window(w.calls + Bit(!Skipped(s)), w.failures + Bit(Failed(s)), w.skips + Bit(Skipped(s)),
                w.durations + (if Skipped(s) then [] else [s.duration]), AddTokens(w.tokens, s.tokens))
  }

  lemma WindowStep(w: Window, samples: seq<Sample>, since: real, s: Sample)
    requires WindowIs(w, samples, since)
    ensures WindowIs(Grown(w, s, since), samples + [s], since)
  {
    TotalSnoc(Calls, samples, s, since);
    TotalSnoc(Failures, samples, s, since);
    TotalSnoc(Skips, samples, s, since);
    forall f | f in w.tokens
      ensures Total(TokensOf(f), samples + [s], since)
           == Total(TokensOf(f), samples, since) + if s.createdAt >= since then Weight(TokensOf(f), s) else 0
    {
      TotalSnoc(TokensOf(f), samples, s, since);
    }
    DurationsSnoc(samples, s, since);
    hide Total, Durations;
  }

  lemma TotalSnoc(q: Question, samples: seq<Sample>, s: Sample, since: real)
    ensures Total(q, samples + [s], since) == Total(q, samples, since) + if s.createdAt >= since then Weight(q, s) else 0
  {
    assert (samples + [s])[..|samples|] == samples;
  }

  lemma DurationsSnoc(samples: seq<Sample>, s: Sample, since: real)
    ensures Durations(samples + [s], since)
         == Durations(samples, since) + if s.createdAt >= since && !Skipped(s) then [s.duration] else []
  {
    assert (samples + [s])[..|samples|] == samples;
  }

  lemma TallyStep(counts: map<string, nat>, ask: string -> Question, samples: seq<Sample>, since: real, s: Sample, reason: Option<string>)
    requires TallyIs(counts, ask, samples, since)
    requires forall r :: (if s.createdAt >= since then Weight(ask(r), s) else 0) == Bit(reason == Some(r))
    ensures TallyIs(if reason.Some? then Bump(counts, reason.value) else counts, ask, samples + [s], since)
  {
    hide Total, Weight;
    forall r ensures Total(ask(r), samples + [s], since) == Total(ask(r), samples, since) + Bit(reason == Some(r)) {
      TotalSnoc(ask(r), samples, s, since);
    }
  }

  /** Every counter of an accumulator is the total it stands for, in its window. */
  ghost predicate Exact(b: Bucket, samples: seq<Sample>, lastHour: real, lastDay: real) {
    && WindowIs(b.hour, samples, lastHour)
    && WindowIs(b.day, samples, lastDay)
    && TallyIs(b.failureReasons, r => FailedFor(r), samples, lastDay)
    && TallyIs(b.skipReasons, r => SkippedFor(r), samples, lastDay)
    && TallyIs(b.sources, r => UsageFrom(r), samples, lastDay)
  }

  /** The reason a sample is filed under in a daily tally, if any. */
  function FiledFailure(s: Sample, lastDay: real): Option<string> {
    if s.createdAt >= lastDay && Failed(s) then Some(Or(s.reason, "unclassified_error")) else None
  }

  function FiledSkip(s: Sample, lastDay: real): Option<string> {
    if s.createdAt >= lastDay && Skipped(s) then Some(Or(s.reason, "unclassified_skip")) else None
  }

  function FiledSource(s: Sample, lastDay: real): Option<string> {
    if s.createdAt >= lastDay && s.source.Some? && s.source.value != "" then s.source else None
  }

  function File(counts: map<string, nat>, reason: Option<string>): map<string, nat> {
    if reason.Some? then Bump(counts, reason.value) else counts
  }

  /** What each counter becomes, on its own. */
  function GrownBucket(b: Bucket, s: Sample, lastHour: real, lastDay: real): Bucket {
    Bucket(Grown(b.hour, s, lastHour), Grown(b.day, s, lastDay), File(b.failureReasons, FiledFailure(s, lastDay)),
           File(b.skipReasons, FiledSkip(s, lastDay)), File(b.sources, FiledSource(s, lastDay)))
  }

  lemma ObserveSkipped(b: Bucket, s: Sample, lastHour: real, lastDay: real)
    requires lastDay <= lastHour && Skipped(s)
    ensures Observe(b, s, lastHour, lastDay) == GrownBucket(b, s, lastHour, lastDay)
  {
    hide AddTokens, Bump, Or, WithCall, WithFailure;
    assert b.day.durations + [] == b.day.durations && b.hour.durations + [] == b.hour.durations;
  }

  lemma ObserveCalled(b: Bucket, s: Sample, lastHour: real, lastDay: real)
    requires lastDay <= lastHour && !Skipped(s)
    ensures Observe(b, s, lastHour, lastDay) == GrownBucket(b, s, lastHour, lastDay)
  {
    hide AddTokens, Bump, Or, WithSkip;
  }

  /** The branches of `observe` together: each counter grows on its own. */
  lemma ObserveFields(b: Bucket, s: Sample, lastHour: real, lastDay: real)
    requires lastDay <= lastHour
    ensures Observe(b, s, lastHour, lastDay) == GrownBucket(b, s, lastHour, lastDay)
  {
    hide *;
    if Skipped(s) { ObserveSkipped(b, s, lastHour, lastDay); } else { ObserveCalled(b, s, lastHour, lastDay); }
  }

  lemma ObserveIsExact(b: Bucket, samples: seq<Sample>, s: Sample, lastHour: real, lastDay: real)
    requires Exact(b, samples, lastHour, lastDay) && lastDay <= lastHour
    ensures Exact(Observe(b, s, lastHour, lastDay), samples + [s], lastHour, lastDay)
  {
    ObserveFields(b, s, lastHour, lastDay);
    hide Observe;
    WindowStep(b.hour, samples, lastHour, s);
    WindowStep(b.day, samples, lastDay, s);
    hide WindowIs, Grown;
    TallyStep(b.failureReasons, r => FailedFor(r), samples, lastDay, s, FiledFailure(s, lastDay));
    TallyStep(b.skipReasons, r => SkippedFor(r), samples, lastDay, s, FiledSkip(s, lastDay));
    TallyStep(b.sources, r => UsageFrom(r), samples, lastDay, s, FiledSource(s, lastDay));
    hide TallyIs, Bump, Or;
  }

  lemma {:induction false} FoldIsExact(samples: seq<Sample>, lastHour: real, lastDay: real)
    requires lastDay <= lastHour
    ensures Exact(Fold(samples, lastHour, lastDay), samples, lastHour, lastDay)
    decreases |samples|
  {
    hide Observe;
    if samples != [] {
      var init := samples[..|samples| - 1];
      FoldIsExact(init, lastHour, lastDay);
      assert samples == init + [samples[|samples| - 1]];
      hide Exact;
      ObserveIsExact(Fold(init, lastHour, lastDay), init, samples[|samples| - 1], lastHour, lastDay);
    }
  }

  // ---------------------------------------------------------------- tallies add up

  /** One of the keys; any would do. */
  ghost function Pick<T(!new)>(keys: set<T>): (k: T)
    requires keys != {}
    ensures k in keys
  {
    var k :| k in keys; k
  }

  ghost function SumOf(counts: map<string, nat>): nat
    decreases counts.Keys
  {
    if counts.Keys == {} then 0 else var k := Pick(counts.Keys); counts[k] + SumOf(counts - {k})
  }

  lemma {:induction false} SumWithout(counts: map<string, nat>, k: string)
    requires k in counts
    ensures SumOf(counts) == counts[k] + SumOf(counts - {k})
    decreases counts.Keys
  {
    var p := Pick(counts.Keys);
    if p != k {
      SumWithout(counts - {p}, k);
      SumWithout(counts - {k}, p);
      assert counts - {p} - {k} == counts - {k} - {p};
    }
  }

  lemma SumBump(counts: map<string, nat>, k: string)
    ensures SumOf(Bump(counts, k)) == SumOf(counts) + 1
  {
    var more := Bump(counts, k);
    SumWithout(more, k);
    if k in counts {
      SumWithout(counts, k);
      assert more - {k} == counts - {k};
    } else {
      assert more - {k} == counts;
    }
  }

  /** Every failure and every skip of the day is filed under exactly one reason. */
  lemma {:induction false} TalliesAddUp(samples: seq<Sample>, lastHour: real, lastDay: real)
    requires lastDay <= lastHour
    ensures SumOf(Fold(samples, lastHour, lastDay).failureReasons) == Total(Failures, samples, lastDay)
    ensures SumOf(Fold(samples, lastHour, lastDay).skipReasons) == Total(Skips, samples, lastDay)
    decreases |samples|
  {
    if samples != [] {
      var init, s := samples[..|samples| - 1], samples[|samples| - 1];
      TalliesAddUp(init, lastHour, lastDay);
      var b := Fold(init, lastHour, lastDay);
      ObserveFields(b, s, lastHour, lastDay);
      hide Observe, Bump, SumOf;
      SumBump(b.failureReasons, Or(s.reason, "unclassified_error"));
      SumBump(b.skipReasons, Or(s.reason, "unclassified_skip"));
    }
  }

  /** A count over the last hour never exceeds the count over the last day. */
  lemma {:induction false} HourWithinDay(q: Question, samples: seq<Sample>, lastHour: real, lastDay: real)
    requires lastDay <= lastHour && (q.TokensOf? ==> forall s | s in samples :: Weight(q, s) >= 0)
    ensures 0 <= Total(q, samples, lastHour) <= Total(q, samples, lastDay)
    decreases |samples|
  {
    if samples != [] {
      assert samples[|samples| - 1] in samples;
      HourWithinDay(q, samples[..|samples| - 1], lastHour, lastDay);
    }
  }

  // ---------------------------------------------------------------- groups

  function Group(samples: seq<Sample>, key: GroupKey): seq<Sample> {
    if samples == [] then []
    else
      Group(samples[..|samples| - 1], key)
      + if samples[|samples| - 1].key == key then [samples[|samples| - 1]] else []
  }

  function KeysOf(samples: seq<Sample>): set<GroupKey> { set s | s in samples :: s.key }

  ghost function TotalOfGroups(q: Question, keys: set<GroupKey>, samples: seq<Sample>, since: real): int {
    if keys == {} then 0
    else var k := Pick(keys); Total(q, Group(samples, k), since) + TotalOfGroups(q, keys - {k}, samples, since)
  }

  function Outside(samples: seq<Sample>, keys: set<GroupKey>): seq<Sample> {
    if samples == [] then []
    else
      Outside(samples[..|samples| - 1], keys)
      + if samples[|samples| - 1].key in keys then [] else [samples[|samples| - 1]]
  }

  lemma {:induction false} SplitOff(q: Question, samples: seq<Sample>, keys: set<GroupKey>, k: GroupKey, since: real)
    requires k in keys
    ensures Total(q, Outside(samples, keys - {k}), since) == Total(q, Outside(samples, keys), since) + Total(q, Group(samples, k), since)
    decreases |samples|
  {
    if samples != [] {
      var init, s := samples[..|samples| - 1], samples[|samples| - 1];
      SplitOff(q, init, keys, k, since);
      var without, within, group := Outside(init, keys - {k}), Outside(init, keys), Group(init, k);
      assert Outside(samples, keys - {k}) == if s.key in keys && s.key != k then without else without + [s];
      assert Outside(samples, keys) == if s.key in keys then within else within + [s];
      assert Group(samples, k) == if s.key == k then group + [s] else group;
      hide Weight, Outside, Group;
      TotalSnoc(q, without, s, since);
      TotalSnoc(q, within, s, since);
      TotalSnoc(q, group, s, since);
      hide Total;
    }
  }

  lemma {:induction false} GroupsAndRest(q: Question, samples: seq<Sample>, keys: set<GroupKey>, since: real)
    ensures TotalOfGroups(q, keys, samples, since) + Total(q, Outside(samples, keys), since) == Total(q, samples, since)
    decreases keys
  {
    if keys == {} {
      NothingOutside(samples);
    } else {
      var k := Pick(keys);
      GroupsAndRest(q, samples, keys - {k}, since);
      SplitOff(q, samples, keys, k, since);
    }
  }

  lemma {:induction false} NothingOutside(samples: seq<Sample>)
    ensures Outside(samples, {}) == samples
    decreases |samples|
  {
    if samples != [] {
      NothingOutside(samples[..|samples| - 1]);
      assert samples == samples[..|samples| - 1] + [samples[|samples| - 1]];
    }
  }

  lemma {:induction false} AllInside(samples: seq<Sample>, keys: set<GroupKey>)
    requires KeysOf(samples) <= keys
    ensures Outside(samples, keys) == []
    decreases |samples|
  {
    if samples != [] {
      var init := samples[..|samples| - 1];
      assert samples[|samples| - 1].key in KeysOf(samples);
      assert KeysOf(init) <= KeysOf(samples);
      AllInside(init, keys);
    }
  }

  /** Conservation: whatever is counted, the totals of all groups add up to the total of all samples. */
  lemma GroupsConserve(q: Question, samples: seq<Sample>, since: real)
    ensures TotalOfGroups(q, KeysOf(samples), samples, since) == Total(q, samples, since)
  {
    GroupsAndRest(q, samples, KeysOf(samples), since);
    AllInside(samples, KeysOf(samples));
  }

  // ---------------------------------------------------------------- order of the samples

  function DurationTotal(samples: seq<Sample>, since: real): real {
    if samples == [] then 0.0
    else
      var s := samples[|samples| - 1];
      DurationTotal(samples[..|samples| - 1], since) + if s.createdAt >= since && !Skipped(s) then s.duration else 0.0
  }

  lemma {:induction false} MeanIsAverage(samples: seq<Sample>, since: real)
    ensures |Durations(samples, since)| == Total(Calls, samples, since)
    ensures Sum(Durations(samples, since)) == DurationTotal(samples, since)
    decreases |samples|
  {
    if samples != [] {
      var init := samples[..|samples| - 1];
      MeanIsAverage(init, since);
      var before, after := Durations(init, since), Durations(samples, since);
      if |after| > |before| { assert after[..|after| - 1] == before; } else { assert after == before; }
    }
  }

  function Drop(samples: seq<Sample>, i: nat): seq<Sample>
    requires i < |samples|
  {
    samples[..i] + samples[i + 1..]
  }

  lemma DropSnoc(samples: seq<Sample>, i: nat)
    requires i < |samples| - 1
    ensures Drop(samples, i) == Drop(samples[..|samples| - 1], i) + [samples[|samples| - 1]]
  {}

  lemma {:induction false} TotalWithout(q: Question, samples: seq<Sample>, i: nat, since: real)
    requires i < |samples|
    ensures Total(q, samples, since) == Total(q, Drop(samples, i), since) + if samples[i].createdAt >= since then Weight(q, samples[i]) else 0
    decreases |samples|
  {
    hide Weight;
    var n := |samples| - 1;
    if i == n {
      assert Drop(samples, i) == samples[..n];
    } else {
      TotalWithout(q, samples[..n], i, since);
      DropSnoc(samples, i);
      hide Drop;
      TotalSnoc(q, Drop(samples[..n], i), samples[n], since);
    }
  }

  lemma {:induction false} DurationWithout(samples: seq<Sample>, i: nat, since: real)
    requires i < |samples|
    ensures DurationTotal(samples, since) == DurationTotal(Drop(samples, i), since)
              + if samples[i].createdAt >= since && !Skipped(samples[i]) then samples[i].duration else 0.0
    decreases |samples|
  {
    var n := |samples| - 1;
    if i == n {
      assert Drop(samples, i) == samples[..n];
    } else {
      DurationWithout(samples[..n], i, since);
      DropSnoc(samples, i);
      hide Drop, Skipped;
      var left := Drop(samples[..n], i);
      assert (left + [samples[n]])[..|left|] == left;
    }
  }

  lemma DropIsRemove(b: seq<Sample>, i: nat)
    requires i < |b|
    ensures multiset(Drop(b, i)) == multiset(b) - multiset{b[i]}
  {
    assert b == b[..i] + [b[i]] + b[i + 1..];
    assert multiset(b) == multiset(Drop(b, i)) + multiset{b[i]};
  }

  lemma DropBoth(a: seq<Sample>, b: seq<Sample>, i: nat)
    requires multiset(a) == multiset(b) && a != [] && i < |b| && b[i] == a[|a| - 1]
    ensures multiset(a[..|a| - 1]) == multiset(Drop(b, i))
  {
    DropIsRemove(b, i);
    DropIsRemove(a, |a| - 1);
    assert Drop(a, |a| - 1) == a[..|a| - 1];
    hide Drop;
  }

  /** No total depends on the order in which the samples were read. */
  lemma {:induction false} OrderDoesNotMatter(q: Question, a: seq<Sample>, b: seq<Sample>, since: real)
    requires multiset(a) == multiset(b)
    ensures Total(q, a, since) == Total(q, b, since) && DurationTotal(a, since) == DurationTotal(b, since)
    decreases |a|
  {
    hide Weight;
    assert |a| == |multiset(a)| == |multiset(b)| == |b|;
    if a != [] {
      var n := |a| - 1;
      assert a[n] in multiset(b);
      var i :| 0 <= i < |b| && b[i] == a[n];
      DropBoth(a, b, i);
      hide Total, DurationTotal, Drop;
      OrderDoesNotMatter(q, a[..n], Drop(b, i), since);
      TotalWithout(q, b, i, since);
      DurationWithout(b, i, since);
    }
  }

  // ---------------------------------------------------------------- the most frequent reason

  /** Greatest count first, then greatest text. */
  predicate Outranks(n: int, r: string, m: int, q: string) { m < n || (m == n && TextOrder.Leq(q, r)) }

  predicate IsTop(counts: map<string, nat>, r: string) {
    r in counts && forall q | q in counts :: Outranks(counts[r], r, counts[q], q)
  }

  /** `_top_reason`, one item at a time. */
  method TopReason(counts: map<string, nat>) returns (top: Option<string>)
    ensures top.None? <==> counts == map[]
    ensures top.Some? ==> IsTop(counts, top.value)
    ensures top.Some? ==>
              && top.value in counts
              && forall q | q in counts :: counts[q] < counts[top.value]
                                           || (counts[q] == counts[top.value] && TextOrder.Precedes(q, top.value))
  {
    if counts == map[] { return None; }
    var rest := counts.Keys;
    var best: string :| best in rest;
    rest := rest - {best};
    TextOrder.Reflexive(best);
    while rest != {}
      invariant rest <= counts.Keys && best in counts
      invariant forall q | q in counts.Keys - rest :: Outranks(counts[best], best, counts[q], q)
      decreases |rest|
    {
      var r: string :| r in rest;
      rest := rest - {r};
      TextOrder.Total(r, best);
      TextOrder.Reflexive(r);
      if Outranks(counts[r], r, counts[best], best) {
        forall q | q in counts.Keys - rest ensures Outranks(counts[r], r, counts[q], q) {
          if q != r && counts[q] == counts[best] == counts[r] { TextOrder.Transitive(q, best, r); }
        }
        best := r;
      }
    }
    assert counts.Keys - rest == counts.Keys;
    forall q | q in counts ensures counts[q] < counts[best] || (counts[q] == counts[best] && TextOrder.Precedes(q, best)) {
      assert Outranks(counts[best], best, counts[q], q);
      TextOrder.LeqIff(q, best);
    }
    return Some(best);
  }

  /** What a summary says of a reason, told by the samples alone. */
  ghost predicate TopFor(top: Option<string>, ask: string -> Question, samples: seq<Sample>, since: real) {
    match top
    case None => forall r :: Total(ask(r), samples, since) == 0
    case Some(t) => Total(ask(t), samples, since) > 0
                    && forall r :: Outranks(Total(ask(t), samples, since), t, Total(ask(r), samples, since), r)
                                   || Total(ask(r), samples, since) == 0
  }

  lemma TopIsTopFor(counts: map<string, nat>, top: Option<string>, ask: string -> Question, samples: seq<Sample>, since: real)
    requires TallyIs(counts, ask, samples, since)
    requires (top.None? <==> counts == map[]) && (top.Some? ==> IsTop(counts, top.value))
    ensures TopFor(top, ask, samples, since)
  {
    hide Total, Outranks;
    if top.None? {
      forall r ensures Total(ask(r), samples, since) == 0 { assert Tally(counts, r) == 0; }
    } else {
      assert Tally(counts, top.value) == Total(ask(top.value), samples, since);
      forall r ensures Outranks(Total(ask(top.value), samples, since), top.value, Total(ask(r), samples, since), r)
                       || Total(ask(r), samples, since) == 0
      {
        assert Tally(counts, r) == Total(ask(r), samples, since);
      }
    }
  }

  // ---------------------------------------------------------------- summaries

  datatype Figures = Figures(calls: nat, failures: nat, skips: nat, avgDuration: real, tokens: map<TokenField, int>)

  datatype Admission = Admission(provider: string, model: string, reason: string, category: string, activeUntil: real)

  datatype Summary = Summary(key: GroupKey, hour: Figures, day: Figures, topFailure: Option<string>, topSkip: Option<string>,
                             source: Option<string>, admission: Option<Admission>, retryDelay: Option<real>)

  function LastState(states: seq<Admission>, provider: string, model: string): Option<Admission> {
    if states == [] then None
    else
      var s := states[|states| - 1];
      if s.provider == provider && s.model == model then Some(s) else LastState(states[..|states| - 1], provider, model)
  }

  /** The state that counts is the last one given for the provider and the model, if there is one. */
  lemma {:induction false} LastStateTells(states: seq<Admission>, provider: string, model: string)
    ensures LastState(states, provider, model).None?
            <==> forall i | 0 <= i < |states| :: !(states[i].provider == provider && states[i].model == model)
    ensures forall i | 0 <= i < |states| && states[i].provider == provider && states[i].model == model
                       && (forall j | i < j < |states| :: !(states[j].provider == provider && states[j].model == model)) ::
              LastState(states, provider, model) == Some(states[i])
  {
    if states != [] {
      var init := states[..|states| - 1];
      LastStateTells(init, provider, model);
      assert forall i | 0 <= i < |init| :: init[i] == states[i];
    }
  }

  ghost predicate FiguresAre(v: Figures, samples: seq<Sample>, since: real) {
    && v.calls == Total(Calls, samples, since)
    && v.failures == Total(Failures, samples, since)
    && v.skips == Total(Skips, samples, since)
    && v.avgDuration == (if v.calls == 0 then 0.0 else DurationTotal(samples, since) / v.calls as real)
    && v.tokens.Keys == NoTokens().Keys
    && forall f | f in v.tokens :: v.tokens[f] == Total(TokensOf(f), samples, since)
  }

  /** A summary is what the samples of its group and the admission states say, and nothing else. */
  ghost predicate Describes(u: Summary, samples: seq<Sample>, states: seq<Admission>, now: real) {
    && FiguresAre(u.hour, samples, now - 3600.0)
    && FiguresAre(u.day, samples, now - 86400.0)
    && TopFor(u.topFailure, r => FailedFor(r), samples, now - 86400.0)
    && TopFor(u.topSkip, r => SkippedFor(r), samples, now - 86400.0)
    && TopFor(u.source, r => UsageFrom(r), samples, now - 86400.0)
    && u.admission == LastState(states, u.key.provider, u.key.model)
    && u.retryDelay == if u.admission.None? then None
                       else Some(if u.admission.value.activeUntil - now < 0.0 then 0.0 else u.admission.value.activeUntil - now)
  }

  lemma TopAgrees(t: Option<string>, u: Option<string>, ask: string -> Question, a: seq<Sample>, b: seq<Sample>, since: real)
    requires TopFor(t, ask, a, since) && TopFor(u, ask, b, since) && multiset(a) == multiset(b)
    ensures t == u
  {
    forall r ensures Total(ask(r), a, since) == Total(ask(r), b, since) { OrderDoesNotMatter(ask(r), a, b, since); }
    hide Total;
    if t.Some? && u.Some? {
      assert Outranks(Total(ask(t.value), a, since), t.value, Total(ask(u.value), a, since), u.value);
      if t != u { if TextOrder.Leq(t.value, u.value) && TextOrder.Leq(u.value, t.value) { TextOrder.Antisymmetric(t.value, u.value); } }
    }
  }

  lemma FiguresAgree(v: Figures, w: Figures, a: seq<Sample>, b: seq<Sample>, since: real)
    requires FiguresAre(v, a, since) && FiguresAre(w, b, since) && multiset(a) == multiset(b)
    ensures v == w
  {
    forall q: Question ensures Total(q, a, since) == Total(q, b, since) && DurationTotal(a, since) == DurationTotal(b, since) {
      OrderDoesNotMatter(q, a, b, since);
    }
    hide Total, DurationTotal;
    assert v.tokens == w.tokens;
  }

  /** Samples determine their group's summary, in whatever order they are read. */
  lemma SummaryIsDetermined(u: Summary, v: Summary, a: seq<Sample>, b: seq<Sample>, states: seq<Admission>, now: real)
    requires u.key == v.key && multiset(a) == multiset(b)
    requires Describes(u, a, states, now) && Describes(v, b, states, now)
    ensures u == v
  {
    FiguresAgree(u.hour, v.hour, a, b, now - 3600.0);
    FiguresAgree(u.day, v.day, a, b, now - 86400.0);
    TopAgrees(u.topFailure, v.topFailure, r => FailedFor(r), a, b, now - 86400.0);
    TopAgrees(u.topSkip, v.topSkip, r => SkippedFor(r), a, b, now - 86400.0);
    TopAgrees(u.source, v.source, r => UsageFrom(r), a, b, now - 86400.0);
  }

  // ---------------------------------------------------------------- the order of the summaries

  function TaskText(u: Summary): string { if u.key.task.None? then "" else u.key.task.value }

  predicate TextBefore(a: string, b: string, otherwise: bool) { if a == b then otherwise else TextOrder.Leq(a, b) }

  /** Most calls of the day first, then most skips, then by task and provider; it holds both ways of a tie. */
  predicate Before(a: Summary, b: Summary) {
    if a.day.calls != b.day.calls then a.day.calls > b.day.calls
    else if a.day.skips != b.day.skips then a.day.skips > b.day.skips
    else TextBefore(TaskText(a), TaskText(b), TextOrder.Leq(a.key.provider, b.key.provider))
  }

  ghost predicate InOrder(us: seq<Summary>) { forall i, j | 0 <= i < j < |us| :: Before(us[i], us[j]) }

  /** In an ordered list calls fall; with equal calls skips fall; with equal skips tasks rise; within a task providers rise. */
  lemma MostUsedFirst(us: seq<Summary>, i: nat, j: nat)
    requires InOrder(us) && i < j < |us|
    ensures var (a, b) := (us[i], us[j]);
            var (x, y) := (if a.key.task.Some? then a.key.task.value else "", if b.key.task.Some? then b.key.task.value else "");
            && a.day.calls >= b.day.calls
            && (a.day.calls == b.day.calls ==> a.day.skips >= b.day.skips)
            && (a.day.calls == b.day.calls && a.day.skips == b.day.skips ==> TextOrder.Precedes(x, y))
            && (a.day.calls == b.day.calls && a.day.skips == b.day.skips && x == y ==> TextOrder.Precedes(a.key.provider, b.key.provider))
  {
    assert Before(us[i], us[j]);
    TextOrder.LeqIff(TaskText(us[i]), TaskText(us[j]));
    TextOrder.LeqIff(us[i].key.provider, us[j].key.provider);
    TextOrder.Reflexive(TaskText(us[i]));
    hide InOrder, TextOrder.Leq, TextOrder.Precedes;
  }

  lemma BeforeTotal(a: Summary, b: Summary)
    ensures Before(a, b) || Before(b, a)
  {
    TextOrder.Total(TaskText(a), TaskText(b));
    TextOrder.Total(a.key.provider, b.key.provider);
  }

  lemma BeforeTransitive(a: Summary, b: Summary, c: Summary)
    requires Before(a, b) && Before(b, c)
    ensures Before(a, c)
  {
    var x, y, z := TaskText(a), TaskText(b), TaskText(c);
    if a.day.calls == c.day.calls && a.day.skips == c.day.skips {
      if x == y && y == z {
        TextOrder.Transitive(a.key.provider, b.key.provider, c.key.provider);
      } else {
        TextOrder.Reflexive(x);
        TextOrder.Reflexive(z);
        TextOrder.Transitive(x, y, z);
        if x == z { TextOrder.Antisymmetric(x, y); }
      }
    }
  }

  /** The place of a key in the order in which groups were first seen. */
  function PlaceIn(order: seq<GroupKey>, key: GroupKey): nat {
    if order == [] || order[0] == key then 0 else 1 + PlaceIn(order[1..], key)
  }

  /** The keys of these samples, each once, in the order in which they first occur. */
  function FirstKeys(samples: seq<Sample>): seq<GroupKey> {
    if samples == [] then []
    else
      var earlier, key := FirstKeys(samples[..|samples| - 1]), samples[|samples| - 1].key;
      if key in earlier then earlier else earlier + [key]
  }

  ghost predicate Distinct(order: seq<GroupKey>) { forall i, j | 0 <= i < j < |order| :: order[i] != order[j] }

  lemma {:induction false} FirstKeysAreKeys(samples: seq<Sample>)
    ensures Distinct(FirstKeys(samples))
    ensures forall key :: key in FirstKeys(samples) <==> key in KeysOf(samples)
  {
    if samples != [] {
      var init, s := samples[..|samples| - 1], samples[|samples| - 1];
      FirstKeysAreKeys(init);
      assert samples == init + [s];
    }
  }

  lemma {:induction false} PlaceOfNth(order: seq<GroupKey>, n: nat)
    requires Distinct(order) && n < |order|
    ensures PlaceIn(order, order[n]) == n
  {
    if n > 0 {
      assert order[0] != order[n] && order[1..][n - 1] == order[n];
      PlaceOfNth(order[1..], n - 1);
    }
  }

  /** The sort is stable: of two summaries that tie, the one whose group was seen first comes first. */
  ghost predicate TiesInOrder(us: seq<Summary>, order: seq<GroupKey>) {
    forall i, j | 0 <= i < j < |us| && Before(us[j], us[i]) :: PlaceIn(order, us[i].key) < PlaceIn(order, us[j].key)
  }

  /** The same summaries can be listed in this order in one way only. */
  lemma {:induction false} OrderIsDetermined(us: seq<Summary>, vs: seq<Summary>, order: seq<GroupKey>)
    requires InOrder(us) && TiesInOrder(us, order) && Different(us)
    requires InOrder(vs) && TiesInOrder(vs, order) && Different(vs)
    requires forall u :: u in us <==> u in vs
    ensures us == vs
    decreases us
  {
    hide Before, PlaceIn;
    assert vs == [] || vs[0] in us;
    if us != [] {
      assert us[0] in vs;
      var j := IndexIn(vs, us[0]);
      var i := IndexIn(us, vs[0]);
      assert i == 0 || j == 0;
      OthersAreOthers(us);
      OthersAreOthers(vs);
      OrderIsDetermined(us[1..], vs[1..], order);
    }
  }

  ghost predicate Different(us: seq<Summary>) { forall i, j | 0 <= i < j < |us| :: us[i] != us[j] }

  lemma IndexIn(us: seq<Summary>, u: Summary) returns (i: nat)
    requires u in us
    ensures i < |us| && us[i] == u
  {
    i :| i < |us| && us[i] == u;
  }

  lemma OthersAreOthers(us: seq<Summary>)
    requires us != [] && Different(us)
    ensures forall u :: u in us[1..] <==> u in us && u != us[0]
  {
    assert us == [us[0]] + us[1..];
    forall u | u in us[1..] ensures u != us[0] {
      var i := IndexIn(us[1..], u);
      assert us[i + 1] == u;
    }
  }

  lemma TiesStayInOrder(us: seq<Summary>, u: Summary, i: nat, order: seq<GroupKey>)
    requires i <= |us| && TiesInOrder(us, order)
    requires forall k | 0 <= k < |us| :: PlaceIn(order, us[k].key) < PlaceIn(order, u.key)
    requires forall k | i <= k < |us| :: !Before(us[k], u)
    ensures TiesInOrder(us[..i] + [u] + us[i..], order)
  {
    hide Before, PlaceIn;
    var more := us[..i] + [u] + us[i..];
    forall j, k | 0 <= j < k < |more| && Before(more[k], more[j])
      ensures PlaceIn(order, more[j].key) < PlaceIn(order, more[k].key)
    {
      assert more[j] == if j < i then us[j] else if j == i then u else us[j - 1];
      assert more[k] == if k < i then us[k] else if k == i then u else us[k - 1];
    }
  }

  /** Where a summary goes among ordered ones: behind those that are before it, and no further. */
  method PlaceOf(us: seq<Summary>, u: Summary) returns (i: nat)
    requires InOrder(us)
    ensures i <= |us| && InOrder(us[..i] + [u] + us[i..])
    ensures forall k | i <= k < |us| :: !Before(us[k], u)
  {
    hide Before;
    i := 0;
    while i < |us| && Before(us[i], u)
      invariant i <= |us| && forall k | 0 <= k < i :: Before(us[k], u)
    {
      i := i + 1;
    }
    if i < |us| {
      BeforeTotal(us[i], u);
      forall k | i < k < |us| ensures Before(u, us[k]) && !Before(us[k], u) {
        BeforeTransitive(u, us[i], us[k]);
        if Before(us[k], u) { BeforeTransitive(us[i], us[k], u); }
      }
    }
  }
}
