/**
 * Records, links and the identities derived from them.
 *
 * Text normalisers (Unicode form, trimming, link-type spelling) and the summary builder are
 * arbitrary fixed functions: every theorem holds for all of them. A hash is modelled by the value
 * it is computed from, so two tokens are equal exactly when what they identify is equal.
 */
module CurationModel {
  import opened Basics
  import TextOrder

  type Id = string

  type Idempotent = f: string -> string | forall x :: f(f(x)) == f(x) witness (x: string) => x

  const Canonical: Idempotent
  const Norm: string -> string
  const Ident: string -> string
  const Strip: string -> string
  const LinkTypeForm: string -> string
  const BuildSummary: (string, string, string) -> string
  const IsUuid: string -> bool

  const MEMORY_TYPES := {"journal", "plan", "fact", "observation", "reflection"}
  const MEMORY_STATUSES := {"active", "stale", "degraded", "archived"}

  datatype Memory = Memory(
    ref: Option<int>,
    title: string,
    content: string,
    summary: Option<string>,
    kind: string,
    status: string,
    createdAt: string,
    updatedAt: string,
    metadata: map<string, string>,
    workspaces: set<string>,
    tags: set<string>,
    access: map<string, string>)

  datatype LinkKey = LinkKey(source: Id, target: Id, kind: string)

  datatype FtsRow = FtsRow(title: string, summary: string, content: string, tags: string)

  /** The tables a callback may change. Search rows of one memory are kept in insertion order. */
  datatype Domain = Domain(
    memories: map<Id, Memory>,
    links: map<LinkKey, string>,
    fts: map<Id, seq<FtsRow>>)

  predicate IsExternal(id: Id) { "ext:" <= id }

  // ---------------------------------------------------------------- semantic identity

  datatype Snapshot = Snapshot(
    id: string, title: string, content: string, summary: Option<string>, kind: string, status: string,
    tags: set<string>, workspaces: set<string>, lineage: string, mutationMetadata: string)

  datatype Edge = Edge(source: string, target: string, kind: string, context: string)

  datatype Token =
    | Text(text: string)
    | RecordToken(record: Snapshot)
    | GraphToken(id: string, edges: set<Edge>)
    | LinkToken(source: string, target: string, kind: string, context: Option<string>, present: bool)
    | StateToken(targets: set<Id>, records: map<Id, Snapshot>)

  function MetadataValue(m: map<string, string>, name: string): string {
    Norm(if name in m then m[name] else "{}")
  }

  /** The semantic snapshot of a record; access telemetry, times and the reference are not in it. */
  function SnapshotOf(id: Id, m: Memory): Snapshot {
    Snapshot(Ident(id), Norm(m.title), Norm(m.content),
             if m.summary.None? then None else Some(Norm(m.summary.value)),
             Ident(m.kind), Ident(m.status),
             set t | t in m.tags :: Ident(t), set w | w in m.workspaces :: Ident(w),
             MetadataValue(m.metadata, "lineage"), MetadataValue(m.metadata, "mutation_metadata"))
  }

  function Snapshots(memories: map<Id, Memory>): map<Id, Snapshot> {
    map id | id in memories :: SnapshotOf(id, memories[id])
  }

  function RecordTokenOf(id: Id, m: Memory): Token { RecordToken(SnapshotOf(id, m)) }

  function EdgeOf(k: LinkKey, context: string): Edge {
    Edge(Ident(k.source), Ident(k.target), Ident(k.kind), Norm(context))
  }

  function GraphTokenOf(id: Id, links: map<LinkKey, string>): Token {
    GraphToken(Ident(id), set k | k in links && (k.source == id || k.target == id) :: EdgeOf(k, links[k]))
  }

  /** The identity of one relationship state; the type is used as spelled by the caller. */
  function LinkTokenOf(source: Id, target: Id, kind: string, stored: LinkKey, links: map<LinkKey, string>): Token {
    LinkToken(Ident(source), Ident(target), Ident(kind),
              if stored in links then Some(Norm(links[stored])) else None, stored in links)
  }

  /** A text as it counts for identity, or its absence. */
  function Meaning(text: Option<string>): Option<string> { if text.None? then None else Some(Norm(text.value)) }

  function Names(texts: set<string>): set<string> { set x | x in texts :: Ident(x) }

  function EntryOr(m: map<string, string>, name: string, otherwise: string): string { if name in m then m[name] else otherwise }

  /** Two states of a record have one token exactly if they agree, up to normalisation, in everything that has meaning. */
  lemma SameRecordTokenIff(id: Id, a: Memory, b: Memory)
    ensures RecordTokenOf(id, a) == RecordTokenOf(id, b)
            <==> && Norm(a.title) == Norm(b.title) && Norm(a.content) == Norm(b.content) && Meaning(a.summary) == Meaning(b.summary)
                 && Ident(a.kind) == Ident(b.kind) && Ident(a.status) == Ident(b.status)
                 && Names(a.tags) == Names(b.tags) && Names(a.workspaces) == Names(b.workspaces)
                 && Norm(EntryOr(a.metadata, "lineage", "{}")) == Norm(EntryOr(b.metadata, "lineage", "{}"))
                 && Norm(EntryOr(a.metadata, "mutation_metadata", "{}")) == Norm(EntryOr(b.metadata, "mutation_metadata", "{}"))
  {}

  /** Some link of this record has these names and this context. */
  predicate HasEdge(id: Id, links: map<LinkKey, string>, source: string, target: string, kind: string, context: string) {
    exists k | k in links && (k.source == id || k.target == id) ::
      Ident(k.source) == source && Ident(k.target) == target && Ident(k.kind) == kind && Norm(links[k]) == context
  }

  /** Two link tables give a record one graph token exactly if they have the same links of it, in either direction. */
  lemma SameGraphTokenIff(id: Id, a: map<LinkKey, string>, b: map<LinkKey, string>)
    ensures GraphTokenOf(id, a) == GraphTokenOf(id, b)
            <==> forall source, target, kind, context ::
                   HasEdge(id, a, source, target, kind, context) <==> HasEdge(id, b, source, target, kind, context)
  {
    GraphTokenIsEdges(id, a);
    GraphTokenIsEdges(id, b);
    hide HasEdge, GraphTokenOf;
    var x, y := GraphTokenOf(id, a), GraphTokenOf(id, b);
    if forall source, target, kind, context :: HasEdge(id, a, source, target, kind, context) <==> HasEdge(id, b, source, target, kind, context) {
      forall e: Edge ensures e in x.edges <==> e in y.edges { assert e == Edge(e.source, e.target, e.kind, e.context); }
      assert x.edges == y.edges;
    }
  }

  lemma GraphTokenIsEdges(id: Id, links: map<LinkKey, string>)
    ensures GraphTokenOf(id, links).GraphToken? && GraphTokenOf(id, links).id == Ident(id)
    ensures forall source, target, kind, context ::
              Edge(source, target, kind, context) in GraphTokenOf(id, links).edges <==> HasEdge(id, links, source, target, kind, context)
  {
    forall source, target, kind, context
      ensures Edge(source, target, kind, context) in GraphTokenOf(id, links).edges <==> HasEdge(id, links, source, target, kind, context)
    {
      if HasEdge(id, links, source, target, kind, context) {
        var k :| k in links && (k.source == id || k.target == id)
                 && Ident(k.source) == source && Ident(k.target) == target && Ident(k.kind) == kind && Norm(links[k]) == context;
        assert EdgeOf(k, links[k]) == Edge(source, target, kind, context);
      }
    }
  }

  /** A link has one token in two tables exactly if it is in both with one context, up to normalisation, or in neither. */
  lemma SameLinkTokenIff(source: Id, target: Id, kind: string, stored: LinkKey, a: map<LinkKey, string>, b: map<LinkKey, string>)
    ensures LinkTokenOf(source, target, kind, stored, a) == LinkTokenOf(source, target, kind, stored, b)
            <==> (stored in a <==> stored in b) && (stored in a && stored in b ==> Norm(a[stored]) == Norm(b[stored]))
  {}

  predicate IncidentTo(k: LinkKey, ids: set<Id>) { k.source in ids || k.target in ids }

  function RelatedLinks(links: map<LinkKey, string>, ids: set<Id>): map<LinkKey, string> {
    map k | k in links && IncidentTo(k, ids) :: links[k]
  }

  function Restrict(memories: map<Id, Memory>, ids: set<Id>): map<Id, Memory> {
    map id | id in ids && id in memories :: memories[id]
  }

  // ---------------------------------------------------------------- the search index

  function Joined(words: seq<string>): string {
    if |words| == 0 then "" else if |words| == 1 then words[0] else words[0] + " " + Joined(words[1..])
  }

  /** One more word goes to the end, behind a blank. */
  lemma {:induction false} JoinedSnoc(words: seq<string>, word: string)
    requires words != []
    ensures Joined(words + [word]) == Joined(words) + " " + word
    decreases words
  {
    if |words| > 1 {
      assert (words + [word])[0] == words[0] && (words + [word])[1..] == words[1..] + [word];
      JoinedSnoc(words[1..], word);
    } else {
      assert (words + [word])[1..] == [word];
    }
  }

  function Projection(m: Memory): FtsRow {
    FtsRow(m.title, if m.summary.None? then "" else m.summary.value, m.content, Joined(TextOrder.Sorted(m.tags)))
  }

  predicate ValidMemory(m: Memory) {
    m.title != "" && m.content != "" && m.kind in MEMORY_TYPES && m.status in MEMORY_STATUSES
  }

  /** Exactly one search row per memory, equal to its projection, and none without a memory. */
  ghost predicate Indexed(d: Domain) {
    && d.fts.Keys == d.memories.Keys
    && (forall id | id in d.memories :: d.fts[id] == [Projection(d.memories[id])])
  }

  ghost predicate RefsDistinct(memories: map<Id, Memory>) {
    forall a, b | a in memories && b in memories && a != b ::
      memories[a].ref.Some? && memories[b].ref.Some? ==> memories[a].ref != memories[b].ref
  }

  /** What holds of the records and links whatever a callback does. */
  ghost predicate RecordsInv(d: Domain) {
    && RefsDistinct(d.memories)
    && (forall id | id in d.memories :: ValidMemory(d.memories[id]))
    && (forall k | k in d.links :: k.source in d.memories)
  }

  function RefsOf(memories: map<Id, Memory>): set<int> {
    set id | id in memories && memories[id].ref.Some? :: memories[id].ref.value
  }

  /** `COALESCE(MAX(memory_ref), 0) + 1`. */
  function NextRef(memories: map<Id, Memory>): (r: int)
    ensures RefsOf(memories) == {} ==> r == 1
    ensures RefsOf(memories) != {} ==> r - 1 in RefsOf(memories)
    ensures forall x | x in RefsOf(memories) :: x < r
  {
    if RefsOf(memories) == {} then 1 else MaxOf(RefsOf(memories)) + 1
  }

  function MaxOf(s: set<int>): (m: int)
    requires s != {}
    ensures m in s && forall x | x in s :: x <= m
  {
    assert exists m :: m in s && forall x | x in s :: x <= m by { var m := MaxExists(s); }
    var m :| m in s && forall x | x in s :: x <= m;
    m
  }

  lemma MaxExists(s: set<int>) returns (m: int)
    requires s != {}
    ensures m in s && forall x | x in s :: x <= m
  {
    assert (forall x: int :: x !in s) ==> s == {};
    var x :| x in s;
    var rest := s - {x};
    if rest == {} {
      m := x;
      assert s == {x};
    } else {
      var n := MaxExists(rest);
      m := if n <= x then x else n;
      forall y | y in s ensures y <= m { assert y == x || y in rest; }
    }
  }
}
