/**
 * The vector table and its version-guarded upsert, over runs in which memories move on while
 * vectors computed from their earlier texts are still on the way.
 */
module VectorStore {
  import opened Basics
  import TextOrder

  type Vector = seq<real>

  datatype Key = Key(kind: string, id: string, model: string)

  /** `version` is the memory's updated_at the vector was computed from; unguarded writes leave it null. */
  datatype Row = Row(workspaceId: Option<string>, vector: Vector, version: Option<string>, updatedAt: real)

  /** `memories` gives the updated_at of every live memory. */
  datatype Tables = Tables(memories: map<string, string>, rows: map<Key, Row>)

  datatype Write =
    | Upsert(key: Key, workspaceId: Option<string>, vector: Vector, version: Option<string>, now: real)
    | SetMemory(id: string, updatedAt: string)
    | DropMemory(id: string)

  /** The conflict clause of the guarded statement. */
  predicate Replaceable(row: Row, version: string) {
    row.version.None? || TextOrder.Leq(row.version.value, version)
  }

  predicate Accepted(s: Tables, w: Write)
    requires w.Upsert?
  {
    w.version.None?
    || (w.key.id in s.memories && s.memories[w.key.id] == w.version.value
        && (w.key in s.rows ==> Replaceable(s.rows[w.key], w.version.value)))
  }

  function Next(s: Tables, w: Write): Tables {
    match w
    case Upsert(key, workspaceId, vector, version, now) =>
      if Accepted(s, w) then s.(rows := s.rows[key := Row(workspaceId, vector, version, now)]) else s
    case SetMemory(id, updatedAt) => s.(memories := s.memories[id := updatedAt])
    case DropMemory(id) => s.(memories := s.memories - {id})
  }

  function Run(s: Tables, ws: seq<Write>): Tables {
    if ws == [] then s else Next(Run(s, ws[..|ws| - 1]), ws[|ws| - 1])
  }

  function VersionOf(s: Tables, key: Key): Option<string> {
    if key in s.rows then s.rows[key].version else None
  }

  predicate NotBelow(before: Option<string>, after: Option<string>) {
    before.None? || (after.Some? && TextOrder.Leq(before.value, after.value))
  }

  /** Writes that leave a key's version guard in force. */
  predicate Guarded(w: Write, key: Key) { w.Upsert? && w.key == key ==> w.version.Some? }

  /** A version, once set, never goes back: whatever the memories do and whatever arrives late. */
  lemma {:induction false} VersionsNeverDecrease(s: Tables, ws: seq<Write>, key: Key)
    requires forall w | w in ws :: Guarded(w, key)
    ensures NotBelow(VersionOf(s, key), VersionOf(Run(s, ws), key))
    decreases |ws|
  {
    var before := VersionOf(s, key);
    if ws == [] {
      if before.Some? { TextOrder.Reflexive(before.value); }
    } else {
      var w, init := ws[|ws| - 1], ws[..|ws| - 1];
      assert Guarded(w, key);
      VersionsNeverDecrease(s, init, key);
      var mid := Run(s, init);
      if w.Upsert? && w.key == key && before.Some? && Accepted(mid, w) {
        TextOrder.Transitive(before.value, VersionOf(mid, key).value, w.version.value);
      }
    }
  }

  /** The guard is needed: an unguarded write of the key is the one write that can lose a set version. */
  lemma OnlyUnguardedWritesRegress(w: Write, key: Key)
    ensures (exists t: Tables :: !NotBelow(VersionOf(t, key), VersionOf(Next(t, w), key))) <==> !Guarded(w, key)
  {
    if Guarded(w, key) {
      forall t: Tables ensures NotBelow(VersionOf(t, key), VersionOf(Next(t, w), key)) {
        assert Run(t, []) == t && Run(t, [w]) == Next(t, w) by { assert [w][..0] == []; }
        VersionsNeverDecrease(t, [w], key);
      }
    } else {
      var t := Tables(map[], map[key := Row(None, [], Some(""), 0.0)]);
      assert VersionOf(t, key) == Some("") && VersionOf(Next(t, w), key) == None;
      assert !NotBelow(VersionOf(t, key), VersionOf(Next(t, w), key));
    }
  }

  // ---------------------------------------------------------------- which write a row came from

  /** The writes of a run that the table took for a key, in order. */
  function Taken(s: Tables, ws: seq<Write>, key: Key): seq<Write> {
    if ws == [] then []
    else
      var earlier := Taken(s, ws[..|ws| - 1], key);
      var w := ws[|ws| - 1];
      if w.Upsert? && w.key == key && Accepted(Run(s, ws[..|ws| - 1]), w) then earlier + [w] else earlier
  }

  /** A row is exactly what the last accepted write of its key gave; refused writes leave no trace. */
  lemma {:induction false} RowIsTheLastTaken(s: Tables, ws: seq<Write>, key: Key)
    ensures var taken := Taken(s, ws, key);
            && (forall w | w in taken :: w.Upsert? && w.key == key)
            && (taken == [] ==> (key in Run(s, ws).rows <==> key in s.rows)
                                && (key in s.rows ==> Run(s, ws).rows[key] == s.rows[key]))
            && (taken != [] ==> var w := taken[|taken| - 1];
                                key in Run(s, ws).rows
                                && Run(s, ws).rows[key] == Row(w.workspaceId, w.vector, w.version, w.now))
    decreases |ws|
  {
    if ws != [] { RowIsTheLastTaken(s, ws[..|ws| - 1], key); }
  }

  // ---------------------------------------------------------------- agreement with the texts

  /** `enc(model, text)` is the vector of a text; `text(id, version)` is the text a version names. */
  datatype World = World(enc: (string, string) -> Vector, text: (string, string) -> string)

  /** A worker that read the memory at the version it reports, and encoded what it read. */
  predicate Honest(world: World, w: Write) {
    w.Upsert? && w.version.Some? ==> w.vector == world.enc(w.key.model, world.text(w.key.id, w.version.value))
  }

  /** Every versioned row encodes the text of its version. */
  ghost predicate RowsEncodeTheirVersion(world: World, s: Tables) {
    forall key | key in s.rows && s.rows[key].version.Some? ::
      s.rows[key].vector == world.enc(key.model, world.text(key.id, s.rows[key].version.value))
  }

  /**
   * However writes are delayed and reordered, a row whose version is its memory's current one holds
   * the encoding of the memory's current text.
   */
  lemma {:induction false} CurrentRowsAreFresh(world: World, s: Tables, ws: seq<Write>)
    requires RowsEncodeTheirVersion(world, s) && forall w | w in ws :: Honest(world, w)
    ensures RowsEncodeTheirVersion(world, Run(s, ws))
    ensures var t := Run(s, ws);
            forall key | key in t.rows && key.id in t.memories && t.rows[key].version == Some(t.memories[key.id]) ::
              t.rows[key].vector == world.enc(key.model, world.text(key.id, t.memories[key.id]))
    decreases |ws|
  {
    if ws != [] {
      assert Honest(world, ws[|ws| - 1]);
      CurrentRowsAreFresh(world, s, ws[..|ws| - 1]);
    }
  }

  // ---------------------------------------------------------------- when the guard refuses

  /** No row is ahead of its live memory: the invariant of runs whose memories only move forward. */
  ghost predicate NoneAhead(s: Tables) {
    forall key | key in s.rows && s.rows[key].version.Some? && key.id in s.memories ::
      TextOrder.Leq(s.rows[key].version.value, s.memories[key.id])
  }

  /** A memory write that does not set a live memory's clock back, nor reuse an id that has vectors. */
  predicate Advances(s: Tables, w: Write) {
    w.SetMemory? ==>
      if w.id in s.memories then TextOrder.Leq(s.memories[w.id], w.updatedAt)
      else forall key | key in s.rows && key.id == w.id :: s.rows[key].version.None?
  }

  ghost predicate Advancing(s: Tables, ws: seq<Write>) {
    forall i | 0 <= i < |ws| :: Advances(Run(s, ws[..i]), ws[i])
  }

  lemma AdvanceKeepsNoneAhead(s: Tables, w: Write)
    requires NoneAhead(s) && Advances(s, w)
    ensures NoneAhead(Next(s, w))
  {
    forall key | key in Next(s, w).rows && Next(s, w).rows[key].version.Some? && key.id in Next(s, w).memories
      ensures TextOrder.Leq(Next(s, w).rows[key].version.value, Next(s, w).memories[key.id])
    {
      if w.SetMemory? && w.id == key.id {
        TextOrder.Transitive(s.rows[key].version.value, s.memories[key.id], w.updatedAt);
      } else if w.Upsert? && w.key == key && Accepted(s, w) {
        TextOrder.Reflexive(w.version.value);
      }
    }
  }

  /**
   * While memories only move forward, a guarded write is taken exactly when it names its memory's
   * current version: the order clause refuses nothing the version check lets through.
   */
  lemma {:induction false} TakenIffCurrent(s: Tables, ws: seq<Write>, w: Write)
    requires NoneAhead(s) && Advancing(s, ws) && w.Upsert? && w.version.Some?
    ensures NoneAhead(Run(s, ws))
    ensures Accepted(Run(s, ws), w) <==>
              w.key.id in Run(s, ws).memories && Run(s, ws).memories[w.key.id] == w.version.value
    decreases |ws|
  {
    if ws != [] {
      var init := ws[..|ws| - 1];
      assert forall i | 0 <= i < |init| :: init[..i] == ws[..i] && init[i] == ws[i];
      TakenIffCurrent(s, init, w);
      assert Advances(Run(s, ws[..|ws| - 1]), ws[|ws| - 1]);
      AdvanceKeepsNoneAhead(Run(s, init), ws[|ws| - 1]);
    }
  }

  /**
   * After a memory's clock went back, a row ahead of it refuses even the current version. Whenever
   * the version named is current, this is the only way to be refused.
   */
  lemma RefusedIffAhead(s: Tables, w: Write)
    requires w.Upsert? && w.version.Some? && w.key.id in s.memories && s.memories[w.key.id] == w.version.value
    ensures !Accepted(s, w) <==> VersionOf(s, w.key).Some? && VersionOf(s, w.key).value != w.version.value
                                 && TextOrder.Leq(w.version.value, VersionOf(s, w.key).value)
  {
    if w.key in s.rows && s.rows[w.key].version.Some? {
      var v := s.rows[w.key].version.value;
      TextOrder.Total(v, w.version.value);
      TextOrder.Reflexive(v);
      if TextOrder.Leq(v, w.version.value) && TextOrder.Leq(w.version.value, v) { TextOrder.Antisymmetric(v, w.version.value); }
    }
  }

  /**
   * An upsert stores its row exactly if it is unguarded, or its version is the live memory's and the stored
   * version, if any, is no later; otherwise it changes nothing, and other rows never change.
   */
  lemma UpsertStoresIff(s: Tables, key: Key, workspaceId: Option<string>, vector: Vector, version: Option<string>, now: real)
    ensures var after := Next(s, Upsert(key, workspaceId, vector, version, now));
            var taken := version.None?
                         || (key.id in s.memories && s.memories[key.id] == version.value
                             && (key in s.rows && s.rows[key].version.Some? ==> TextOrder.Leq(s.rows[key].version.value, version.value)));
            && after.memories == s.memories
            && (taken ==> key in after.rows && after.rows[key].workspaceId == workspaceId && after.rows[key].vector == vector
                          && after.rows[key].version == version && after.rows[key].updatedAt == now)
            && (!taken ==> after == s)
            && (taken <==> Accepted(s, Upsert(key, workspaceId, vector, version, now)))
            && (forall x | x != key :: (x in after.rows <==> x in s.rows) && (x in s.rows ==> after.rows[x] == s.rows[x]))
  {}

  // ---------------------------------------------------------------- the store

  class SQLiteVectorStore {
    var memories: map<string, string>
    var rows: map<Key, Row>

    function View(): Tables
      reads this
    {
      Tables(memories, rows)
    }

    constructor (memories: map<string, string>)
      ensures View() == Tables(memories, map[])
    {
      this.memories, rows := memories, map[];
    }

    /** One transaction. `ok` is the row count of the statement compared with one. */
    method UpsertVector(key: Key, workspaceId: Option<string>, vector: Vector, sourceUpdatedAt: Option<string>, now: real)
      returns (ok: bool)
      modifies this`rows
      ensures View() == Next(old(View()), Upsert(key, workspaceId, vector, sourceUpdatedAt, now))
      ensures ok <==> Accepted(old(View()), Upsert(key, workspaceId, vector, sourceUpdatedAt, now))
      ensures ok ==> key in rows && rows[key].vector == vector
      ensures ok && sourceUpdatedAt.Some? ==> key.id in memories && rows[key].version == Some(memories[key.id])
      ensures !ok ==> rows == old(rows)
    {
      if sourceUpdatedAt.Some? {
        var version := sourceUpdatedAt.value;
        if key.id !in memories || memories[key.id] != version { return false; }
        if key !in rows {
          rows := rows[key := Row(workspaceId, vector, Some(version), now)];
          return true;
        }
        var stored := rows[key];
        if stored.version.None? || TextOrder.Leq(stored.version.value, version) {
          rows := rows[key := stored.(workspaceId := workspaceId, vector := vector, version := Some(version), updatedAt := now)];
          return true;
        }
        return false;
      }
      rows := rows[key := Row(workspaceId, vector, None, now)];
      return true;
    }
  }
}
