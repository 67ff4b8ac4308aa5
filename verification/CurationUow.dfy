/** The dialect-independent rules: how a callback's values become a row, and how a key is read. */
module CurationUow {
  import opened Basics
  import opened CurationModel

  /** A keyword argument: not passed, passed as null, or passed with a value. */
  datatype Field<T> = Absent | Null | Given(value: T)

  datatype Changes = Changes(
    title: Field<string>,
    content: Field<string>,
    memoryType: Field<string>,
    kind: Field<string>,
    status: Field<string>,
    summary: Field<string>,
    workspaces: Field<set<string>>,
    tags: Field<set<string>>,
    metadata: Field<map<string, string>>,
    optional: map<string, string>)

  const NO_CHANGES := Changes(Absent, Absent, Absent, Absent, Absent, Absent, Absent, Absent, Absent, map[])

  function TextOr(f: Field<string>, fallback: string): string {
    if f.Given? then Strip(f.value) else fallback
  }

  /** `str(changes.get(name, default))`: a null becomes the text of null. */
  function Spelled(f: Field<string>, fallback: string): string {
    match f case Absent => fallback case Null => "None" case Given(v) => v
  }

  /** Trimmed and without blanks; a null or missing collection means the fallback. */
  function Cleaned(f: Field<set<string>>, fallback: set<string>): set<string> {
    set x | x in (if f.Given? then f.value else fallback) && Strip(x) != "" :: Strip(x)
  }

  function UpdatedSummary(previous: Option<string>, c: Changes, title: string, content: string, kind: string): Option<string> {
    if c.summary.Absent? && (!c.title.Absent? || !c.content.Absent? || !c.kind.Absent? || !c.memoryType.Absent?)
    then Some(BuildSummary(title, content, kind))
    else match c.summary case Null => None case Given(v) => Some(v) case Absent => previous
  }

  /** The row an update leaves, or a refusal. */
  function PrepareUpdate(m: Memory, c: Changes, now: string): Result<Memory, string> {
    var title := TextOr(c.title, m.title);
    var content := TextOr(c.content, m.content);
    var kind := Spelled(c.memoryType, Spelled(c.kind, m.kind));
    var status := Spelled(c.status, m.status);
    :- Need(title != "" && content != "", "title and content must be non-empty");
    :- Need(kind in MEMORY_TYPES, "invalid memory_type");
    :- Need(status in MEMORY_STATUSES, "invalid status");
    :- Need(!c.metadata.Null?, "metadata must be a mapping");
    Success(Memory(m.ref, title, content, UpdatedSummary(m.summary, c, title, content, kind), kind, status,
                   m.createdAt, now, if c.metadata.Given? then c.metadata.value else m.metadata,
                   Cleaned(c.workspaces, m.workspaces), Cleaned(c.tags, m.tags), m.access + c.optional))
  }

  datatype Values = Values(
    memoryId: string,
    title: string,
    content: string,
    memoryType: Field<string>,
    kind: Field<string>,
    status: Field<string>,
    summary: Field<string>,
    workspaces: Field<set<string>>,
    tags: Field<set<string>>,
    metadata: Field<map<string, string>>,
    createdAt: Field<string>,
    updatedAt: Field<string>)

  function PrepareCreate(v: Values, ref: int, now: string): Result<Memory, string> {
    var title := Strip(v.title);
    var content := Strip(v.content);
    var kind := Spelled(v.memoryType, Spelled(v.kind, "journal"));
    var status := Spelled(v.status, "active");
    var workspaces := Cleaned(v.workspaces, {});
    :- Need(title != "" && content != "", "title and content must be non-empty");
    :- Need(kind in MEMORY_TYPES && status in MEMORY_STATUSES, "invalid memory type or status");
    :- Need(workspaces != {}, "workspace_ids must contain at least one non-empty value");
    :- Need(!v.metadata.Null?, "metadata must be a mapping");
    var summary := if v.summary.Given? && v.summary.value != "" then v.summary.value else BuildSummary(title, content, kind);
    var createdAt := Spelled(v.createdAt, now);
    Success(Memory(Some(ref), title, content, Some(summary), kind, status, createdAt, Spelled(v.updatedAt, createdAt),
                   if v.metadata.Given? then v.metadata.value else map[], workspaces, Cleaned(v.tags, {}), map[]))
  }

  // ---------------------------------------------------------------- what a prepared row holds

  /** The trimmed texts of a collection, without blanks. */
  ghost predicate TrimmedFrom(given: set<string>, stored: set<string>) {
    forall x :: x in stored <==> x != "" && exists y | y in given :: Strip(y) == x
  }

  /** A row after an update, field by field: what was given, and otherwise what was there. */
  ghost predicate UpdatedAsAsked(m: Memory, c: Changes, now: string, u: Memory) {
    && u.title == (if c.title.Given? then Strip(c.title.value) else m.title)
    && u.content == (if c.content.Given? then Strip(c.content.value) else m.content)
    && !c.memoryType.Null? && !c.status.Null? && !c.metadata.Null? && (c.kind.Null? ==> c.memoryType.Given?)
    && (c.memoryType.Given? ==> u.kind == c.memoryType.value)
    && (c.memoryType.Absent? && c.kind.Given? ==> u.kind == c.kind.value)
    && (c.memoryType.Absent? && c.kind.Absent? ==> u.kind == m.kind)
    && u.status == (if c.status.Given? then c.status.value else m.status)
    && (c.summary.Given? ==> u.summary == Some(c.summary.value))
    && (c.summary.Null? ==> u.summary == None)
    && (c.summary.Absent? && c.title.Absent? && c.content.Absent? && c.kind.Absent? && c.memoryType.Absent? ==> u.summary == m.summary)
    && (c.summary.Absent? && !(c.title.Absent? && c.content.Absent? && c.kind.Absent? && c.memoryType.Absent?) ==>
          u.summary == Some(BuildSummary(u.title, u.content, u.kind)))
    && TrimmedFrom(if c.workspaces.Given? then c.workspaces.value else m.workspaces, u.workspaces)
    && TrimmedFrom(if c.tags.Given? then c.tags.value else m.tags, u.tags)
    && u.metadata == (if c.metadata.Given? then c.metadata.value else m.metadata)
    && (forall name :: name in u.access <==> name in c.optional || name in m.access)
    && (forall name | name in u.access :: u.access[name] == if name in c.optional then c.optional[name] else m.access[name])
    && u.ref == m.ref && u.createdAt == m.createdAt && u.updatedAt == now
  }

  lemma PreparedUpdateIsAsAsked(m: Memory, c: Changes, now: string)
    requires PrepareUpdate(m, c, now).Success?
    ensures UpdatedAsAsked(m, c, now, PrepareUpdate(m, c, now).value) && ValidMemory(PrepareUpdate(m, c, now).value)
  {
    NullIsNoName();
    CleanedIsTrimmed(c.workspaces, m.workspaces);
    CleanedIsTrimmed(c.tags, m.tags);
    hide Cleaned, TrimmedFrom;
  }

  lemma AskedUpdateIsPrepared(m: Memory, c: Changes, now: string, u: Memory)
    requires UpdatedAsAsked(m, c, now, u) && ValidMemory(u)
    ensures PrepareUpdate(m, c, now).Success?
  {
    hide Cleaned, TrimmedFrom;
  }

  lemma UpdatedOnce(m: Memory, c: Changes, now: string, a: Memory, b: Memory)
    requires UpdatedAsAsked(m, c, now, a) && UpdatedAsAsked(m, c, now, b)
    ensures a == b
  {
    TrimmedOnce(if c.workspaces.Given? then c.workspaces.value else m.workspaces, a.workspaces, b.workspaces);
    TrimmedOnce(if c.tags.Given? then c.tags.value else m.tags, a.tags, b.tags);
    hide TrimmedFrom;
    assert a.access.Keys == b.access.Keys;
    assert a.access == b.access;
  }

  /**
   * An update is prepared exactly if some valid row is what was asked for, and then it is that row. A null
   * title, content or collection counts as not given; a null type, status or metadata is refused.
   */
  lemma UpdateIsAsAsked(m: Memory, c: Changes, now: string, u: Memory)
    ensures PrepareUpdate(m, c, now) == Success(u) <==> UpdatedAsAsked(m, c, now, u) && ValidMemory(u)
  {
    hide *;
    var p := PrepareUpdate(m, c, now);
    if p.Success? {
      PreparedUpdateIsAsAsked(m, c, now);
      if UpdatedAsAsked(m, c, now, u) && ValidMemory(u) { UpdatedOnce(m, c, now, u, p.value); }
    } else if UpdatedAsAsked(m, c, now, u) && ValidMemory(u) {
      AskedUpdateIsPrepared(m, c, now, u);
    }
  }

  /** An update is refused exactly if no valid row is what was asked for. */
  lemma UpdatePossibleIff(m: Memory, c: Changes, now: string)
    ensures PrepareUpdate(m, c, now).Success? <==> exists u :: ValidMemory(u) && UpdatedAsAsked(m, c, now, u)
  {
    hide *;
    if PrepareUpdate(m, c, now).Success? {
      UpdateIsAsAsked(m, c, now, PrepareUpdate(m, c, now).value);
    } else {
      forall u ensures !(ValidMemory(u) && UpdatedAsAsked(m, c, now, u)) { UpdateIsAsAsked(m, c, now, u); }
    }
  }

  lemma NullIsNoName()
    ensures "None" !in MEMORY_TYPES && "None" !in MEMORY_STATUSES
  {
    assert forall x | x in MEMORY_TYPES + MEMORY_STATUSES :: x[0] != 'N';
  }

  lemma CleanedIsTrimmed(f: Field<set<string>>, fallback: set<string>)
    ensures TrimmedFrom(if f.Given? then f.value else fallback, Cleaned(f, fallback))
  {}

  lemma TrimmedOnce(given: set<string>, a: set<string>, b: set<string>)
    requires TrimmedFrom(given, a) && TrimmedFrom(given, b)
    ensures a == b
  {}

  /** A new row, field by field. */
  ghost predicate CreatedAsAsked(v: Values, ref: int, now: string, u: Memory) {
    && u.ref == Some(ref) && u.title == Strip(v.title) && u.content == Strip(v.content)
    && !v.memoryType.Null? && !v.status.Null? && !v.metadata.Null? && (v.kind.Null? ==> v.memoryType.Given?)
    && (v.memoryType.Given? ==> u.kind == v.memoryType.value)
    && (v.memoryType.Absent? && v.kind.Given? ==> u.kind == v.kind.value)
    && (v.memoryType.Absent? && v.kind.Absent? ==> u.kind == "journal")
    && u.status == (if v.status.Given? then v.status.value else "active")
    && u.summary == Some(if v.summary.Given? && v.summary.value != "" then v.summary.value else BuildSummary(u.title, u.content, u.kind))
    && u.workspaces != {} && TrimmedFrom(if v.workspaces.Given? then v.workspaces.value else {}, u.workspaces)
    && TrimmedFrom(if v.tags.Given? then v.tags.value else {}, u.tags)
    && u.metadata == (if v.metadata.Given? then v.metadata.value else map[]) && u.access == map[]
    && (v.createdAt.Given? ==> u.createdAt == v.createdAt.value)
    && (v.createdAt.Absent? ==> u.createdAt == now)
    && (v.createdAt.Null? ==> u.createdAt == "None")
    && (v.updatedAt.Given? ==> u.updatedAt == v.updatedAt.value)
    && (v.updatedAt.Absent? ==> u.updatedAt == u.createdAt)
    && (v.updatedAt.Null? ==> u.updatedAt == "None")
  }

  lemma PreparedIsAsAsked(v: Values, ref: int, now: string)
    requires PrepareCreate(v, ref, now).Success?
    ensures CreatedAsAsked(v, ref, now, PrepareCreate(v, ref, now).value) && ValidMemory(PrepareCreate(v, ref, now).value)
  {
    NullIsNoName();
    CleanedIsTrimmed(v.workspaces, {});
    CleanedIsTrimmed(v.tags, {});
    hide Cleaned, TrimmedFrom;
  }

  lemma AskedIsPrepared(v: Values, ref: int, now: string, u: Memory)
    requires CreatedAsAsked(v, ref, now, u) && ValidMemory(u)
    ensures PrepareCreate(v, ref, now).Success?
  {
    CleanedIsTrimmed(v.workspaces, {});
    hide Cleaned;
    TrimmedOnce(if v.workspaces.Given? then v.workspaces.value else {}, u.workspaces, Cleaned(v.workspaces, {}));
    hide TrimmedFrom;
  }

  lemma CreatedOnce(v: Values, ref: int, now: string, a: Memory, b: Memory)
    requires CreatedAsAsked(v, ref, now, a) && CreatedAsAsked(v, ref, now, b)
    ensures a == b
  {
    TrimmedOnce(if v.workspaces.Given? then v.workspaces.value else {}, a.workspaces, b.workspaces);
    TrimmedOnce(if v.tags.Given? then v.tags.value else {}, a.tags, b.tags);
    hide TrimmedFrom;
  }

  /** The same for creation: exactly the valid row that was asked for, in some workspace. */
  lemma CreateIsAsAsked(v: Values, ref: int, now: string, u: Memory)
    ensures PrepareCreate(v, ref, now) == Success(u) <==> CreatedAsAsked(v, ref, now, u) && ValidMemory(u)
  {
    hide *;
    var p := PrepareCreate(v, ref, now);
    if p.Success? {
      PreparedIsAsAsked(v, ref, now);
      if CreatedAsAsked(v, ref, now, u) && ValidMemory(u) { CreatedOnce(v, ref, now, u, p.value); }
    } else if CreatedAsAsked(v, ref, now, u) && ValidMemory(u) {
      AskedIsPrepared(v, ref, now, u);
    }
  }

  lemma CreatePossibleIff(v: Values, ref: int, now: string)
    ensures PrepareCreate(v, ref, now).Success? <==> exists u :: ValidMemory(u) && CreatedAsAsked(v, ref, now, u)
  {
    hide *;
    if PrepareCreate(v, ref, now).Success? {
      CreateIsAsAsked(v, ref, now, PrepareCreate(v, ref, now).value);
    } else {
      forall u ensures !(ValidMemory(u) && CreatedAsAsked(v, ref, now, u)) { CreateIsAsAsked(v, ref, now, u); }
    }
  }

  lemma UpdatedIsValid(m: Memory, c: Changes, now: string)
    ensures PrepareUpdate(m, c, now).Success? ==>
              ValidMemory(PrepareUpdate(m, c, now).value) && PrepareUpdate(m, c, now).value.ref == m.ref
  {}

  lemma CreatedIsValid(v: Values, ref: int, now: string)
    ensures PrepareCreate(v, ref, now).Success? ==>
              ValidMemory(PrepareCreate(v, ref, now).value) && PrepareCreate(v, ref, now).value.ref == Some(ref)
  {}

  // ---------------------------------------------------------------- link token keys

  /** `text.split(":")`. */
  function Split(s: string): (parts: seq<string>)
    ensures parts != []
  {
    if s == "" then [""]
    else if s[0] == ':' then [""] + Split(s[1..])
    else var rest := Split(s[1..]); [[s[0]] + rest[0]] + rest[1..]
  }

  function LinkTokenKey(key: string): Option<LinkKey> {
    var parts := Split(if "link:" <= key then key[5..] else key);
    if |parts| == 3 && parts[0] != "" && parts[1] != "" && parts[2] != ""
    then Some(LinkKey(parts[0], parts[1], parts[2])) else None
  }

  predicate ColonFree(s: string) { ':' !in s }

  lemma {:induction false} SplitColonFree(s: string)
    requires ColonFree(s)
    ensures Split(s) == [s]
  {
    if s != "" {
      SplitColonFree(s[1..]);
      assert [s[0]] + s[1..] == s;
    }
  }

  lemma {:induction false} SplitAtColon(a: string, b: string)
    requires ColonFree(a)
    ensures Split(a + ":" + b) == [a] + Split(b)
  {
    if a == "" {
      assert (a + ":" + b)[1..] == b;
    } else {
      SplitAtColon(a[1..], b);
      assert (a + ":" + b)[1..] == a[1..] + ":" + b;
      assert [a[0]] + a[1..] == a;
    }
  }

  /** The three keys under which a colon-free id is guarded are never read as a link key. */
  lemma PlainKeysAreNotLinkKeys(id: Id)
    requires ColonFree(id)
    ensures LinkTokenKey(id).None? && LinkTokenKey("record:" + id).None? && LinkTokenKey("graph:" + id).None?
  {
    SplitColonFree(id);
    SplitAtColon("record", id);
    SplitAtColon("graph", id);
    assert "link:"[4] == ':';
    assert "record" + ":" + id == "record:" + id && "graph" + ":" + id == "graph:" + id;
    assert ("record:" + id)[0] == 'r' && ("graph:" + id)[0] == 'g';
  }

  /** The graph key of an external id is always read as the link key graph -> ext. */
  lemma ExternalGraphKeyIsALinkKey(x: string)
    requires ColonFree(x) && x != ""
    ensures LinkTokenKey("graph:ext:" + x) == Some(LinkKey("graph", "ext", x))
  {
    SplitColonFree(x);
    SplitAtColon("ext", x);
    SplitAtColon("graph", "ext:" + x);
    assert "graph" + ":" + ("ext" + ":" + x) == "graph:ext:" + x;
    assert "ext" + ":" + x == "ext:" + x;
    assert ("graph:ext:" + x)[0] == 'g';
  }

  /** The long record key of an id with one colon is read as a link key from `record`. */
  lemma RecordKeyIsALinkKey(a: string, b: string)
    requires ColonFree(a) && a != "" && ColonFree(b) && b != ""
    ensures LinkTokenKey("record:" + (a + ":" + b)) == Some(LinkKey("record", a, b))
  {
    SplitColonFree(b);
    SplitAtColon(a, b);
    SplitAtColon("record", a + ":" + b);
    assert "record" + ":" + (a + ":" + b) == "record:" + (a + ":" + b);
    assert ("record:" + (a + ":" + b))[0] == 'r';
  }

  /** The bare key of an id with two colons is itself a link key. */
  lemma BareKeyIsALinkKey(a: string, b: string, c: string)
    requires ColonFree(a) && a != "" && a != "link" && ColonFree(b) && b != "" && ColonFree(c) && c != ""
    ensures LinkTokenKey(a + ":" + (b + ":" + c)) == Some(LinkKey(a, b, c))
  {
    SplitColonFree(c);
    SplitAtColon(b, c);
    SplitAtColon(a, b + ":" + c);
    NoLinkPrefix(a, b + ":" + c);
  }

  lemma NoLinkPrefix(word: string, rest: string)
    requires ColonFree(word) && word != "link"
    ensures !("link:" <= word + ":" + rest)
  {
    var s := word + ":" + rest;
    assert s[|word|] == ':' && forall i | 0 <= i < |word| :: s[i] == word[i] != ':';
    assert forall i | 0 <= i < 4 :: "link:"[i] != ':';
    if |word| < 4 {
      assert "link:"[|word|] != s[|word|];
    } else if |word| > 4 {
      assert "link:"[4] == ':' != s[4];
    } else {
      assert s[..4] == word && "link:"[..4] == "link";
      assert exists i :: 0 <= i < 4 && word[i] != "link"[i];
    }
  }

  function Colons(s: string): nat { if s == "" then 0 else (if s[0] == ':' then 1 else 0) + Colons(s[1..]) }

  lemma {:induction false} SplitCounts(s: string)
    ensures |Split(s)| == Colons(s) + 1
  {
    if s != "" { SplitCounts(s[1..]); }
  }

  lemma {:induction false} ColonsAdd(a: string, b: string)
    ensures Colons(a + b) == Colons(a) + Colons(b)
  {
    if a == "" {
      assert a + b == b;
    } else {
      ColonsAdd(a[1..], b);
      assert (a + b)[1..] == a[1..] + b;
    }
  }

  lemma {:induction false} ColonFreeIff(s: string)
    ensures ColonFree(s) <==> Colons(s) == 0
  {
    if s != "" {
      ColonFreeIff(s[1..]);
      assert s == [s[0]] + s[1..];
    }
  }

  predicate FullParts(s: string, n: nat) { |Split(s)| == n && forall i | 0 <= i < n :: Split(s)[i] != "" }

  /**
   * Which spellings of a guard are read as a link key: the two long ones of an id with exactly one
   * colon, the bare one of an id with exactly two (three after `link:`), with text on every side.
   */
  lemma SpellingsReadIff(id: Id)
    ensures LinkTokenKey("record:" + id).Some? <==> FullParts(id, 2)
    ensures LinkTokenKey("graph:" + id).Some? <==> FullParts(id, 2)
    ensures LinkTokenKey(id).Some? <==> FullParts(if "link:" <= id then id[5..] else id, 3)
  {
    assert "record" + ":" + id == "record:" + id && "graph" + ":" + id == "graph:" + id;
    NoLinkPrefix("record", id);
    NoLinkPrefix("graph", id);
    SplitAtColon("record", id);
    SplitAtColon("graph", id);
  }

  /** So one of a record's two spellings is always free to guard it. */
  lemma SomeRecordSpellingIsPlain(id: Id)
    ensures LinkTokenKey(id).None? || LinkTokenKey("record:" + id).None?
  {
    SpellingsReadIff(id);
    SplitCounts(id);
    if "link:" <= id {
      SplitCounts(id[5..]);
      ColonsAdd(id[..5], id[5..]);
      assert id == id[..5] + id[5..] && id[..5] == "link:";
    }
  }

  // ---------------------------------------------------------------- naming a link

  /** The key under which a link is guarded. */
  function LinkKeyText(k: LinkKey): string { "link:" + (k.source + ":" + (k.target + ":" + k.kind)) }

  predicate PlainPart(s: string) { s != "" && ColonFree(s) }

  /**
   * The key of a link is read back as that link exactly when its source, target and type are free of
   * colons and not empty; otherwise it is read as no link at all, as every link to an external id is.
   */
  lemma LinkKeyRoundTripsIff(k: LinkKey)
    ensures LinkTokenKey(LinkKeyText(k)) == Some(k) <==> PlainPart(k.source) && PlainPart(k.target) && PlainPart(k.kind)
    ensures LinkTokenKey(LinkKeyText(k)).Some? ==> LinkTokenKey(LinkKeyText(k)) == Some(k)
  {
    var raw := k.source + ":" + (k.target + ":" + k.kind);
    assert LinkKeyText(k)[5..] == raw;
    RawColons(k);
    SplitCounts(raw);
    ColonFreeIff(k.source);
    ColonFreeIff(k.target);
    ColonFreeIff(k.kind);
    if ColonFree(k.source) && ColonFree(k.target) && ColonFree(k.kind) {
      SplitColonFree(k.kind);
      SplitAtColon(k.target, k.kind);
      SplitAtColon(k.source, k.target + ":" + k.kind);
    }
  }

  lemma RawColons(k: LinkKey)
    ensures Colons(k.source + ":" + (k.target + ":" + k.kind)) == Colons(k.source) + Colons(k.target) + Colons(k.kind) + 2
  {
    ColonsAdd(k.source + ":", k.target + ":" + k.kind);
    ColonsAdd(k.source, ":");
    ColonsAdd(k.target + ":", k.kind);
    ColonsAdd(k.target, ":");
    assert Colons(":") == 1;
  }
}
