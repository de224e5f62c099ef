/**
 * Schema migrations (backend/database.py): `user_version` says how many of three
 * steps have been applied; the second rebuilds two tables under a wider key.
 */
module Migration {
  import opened Sorting
  import opened Sums
  import opened Database

  datatype KeyShape = SingleKey | CompositeKey

  datatype Table = Absent | Present(key: KeyShape, rows: seq<Row>)

  datatype InvestigationsTable = Missing | Investigations(hasScoreScope: bool, ids: seq<string>)

  datatype Schema = Schema(
    version: nat, sessions: Table, findings: Table, investigations: InvestigationsTable)

  const SCHEMA_VERSION: nat := 3

  /** The rows satisfy the key the table declares. */
  ghost predicate KeyHolds(t: Table) {
    t.Present? ==>
      match t.key
      case SingleKey => forall i, j :: 0 <= i < j < |t.rows| ==> t.rows[i].id != t.rows[j].id
      case CompositeKey => UniqueKeys(t.rows)
  }

  function RowsOf(t: Table): seq<Row> { if t.Present? then t.rows else [] }

  /** A file some version of the application wrote. */
  ghost predicate WellFormed(s: Schema) {
    && KeyHolds(s.sessions) && KeyHolds(s.findings)
    && (s.version >= 1 ==> s.sessions.Present? && s.findings.Present? && s.investigations != Missing)
    && (s.version >= 2 ==> s.sessions.key == CompositeKey && s.findings.key == CompositeKey)
    && (s.version >= 3 ==> s.investigations.hasScoreScope)
  }

  /** Where every migration should end: the current shape around the rows there were. */
  function Current(s: Schema): Schema {
    Schema(if s.version > SCHEMA_VERSION then s.version else SCHEMA_VERSION,
           Present(CompositeKey, RowsOf(s.sessions)),
           Present(CompositeKey, RowsOf(s.findings)),
           Investigations(true, if s.investigations == Missing then [] else s.investigations.ids))
  }

  class SchemaStore {
    var version: nat
    var sessions: Table
    var findings: Table
    var investigations: InvestigationsTable

    ghost function Snapshot(): Schema
      reads this
    {
      Schema(version, sessions, findings, investigations)
    }

    /** `create_all`: create what is missing, in the current shape. */
    method CreateAll()
      modifies this`sessions, this`findings, this`investigations
      ensures sessions == if old(sessions) == Absent then Present(CompositeKey, []) else old(sessions)
      ensures findings == if old(findings) == Absent then Present(CompositeKey, []) else old(findings)
      ensures investigations ==
              if old(investigations) == Missing then Investigations(true, []) else old(investigations)
    {
      if sessions == Absent { sessions := Present(CompositeKey, []); }
      if findings == Absent { findings := Present(CompositeKey, []); }
      if investigations == Missing { investigations := Investigations(true, []); }
    }

    /** `INSERT INTO new SELECT … FROM old`: row by row, refused on a repeated composite key. */
    static method CopyRows(source: seq<Row>) returns (ok: bool, target: seq<Row>)
      ensures ok <==> UniqueKeys(source)
      ensures ok ==> target == source
    {
      target := [];
      for n := 0 to |source|
        invariant target == source[..n] && UniqueKeys(target)
      {
        if Taken(target, source[n]) {
          var i :| 0 <= i < |target| && target[i].id == source[n].id
                   && target[i].investigation == source[n].investigation;
          assert source[i] == target[i];
          return false, target;
        }
        target := target + [source[n]];
        assert forall i :: 0 <= i < n ==> source[i] == source[..n][i];
      }
      return true, target;
    }

    /** One pass of `_migration_2` over one table. */
    static method Widen(t: Table) returns (ok: bool, r: Table)
      ensures t == Absent || t.key == CompositeKey ==> ok && r == t
      ensures t.Present? && t.key == SingleKey ==> (ok <==> UniqueKeys(t.rows))
      ensures t.Present? && t.key == SingleKey && ok ==> r == Present(CompositeKey, t.rows)
    {
      if t == Absent || t.key == CompositeKey {
        return true, t;
      }
      var copied, rows := CopyRows(t.rows);
      return copied, Present(CompositeKey, rows);
    }

    /** Apply the migration with the given index; false is the exception that rolls everything back. */
    method Apply(index: nat) returns (ok: bool)
      requires index < SCHEMA_VERSION && WellFormed(Snapshot()) && version == index
      modifies this
      ensures ok && version == index && Current(Snapshot()) == Current(old(Snapshot()))
      ensures WellFormed(Snapshot().(version := index + 1))
    {
      if index == 0 {
        CreateAll();
        ok := true;
      } else if index == 1 {
        OldKeyIsStricter(sessions);
        OldKeyIsStricter(findings);
        var okSessions, newSessions := Widen(sessions);
        var okFindings, newFindings := Widen(findings);
        ok := okSessions && okFindings;
        if ok { sessions, findings := newSessions, newFindings; }
      } else {
        ok := investigations != Missing;
        if ok && !investigations.hasScoreScope {
          investigations := Investigations(true, investigations.ids);
        }
      }
    }

    /** `migrate`: apply what is pending inside one transaction. */
    method Migrate() returns (ok: bool)
      requires WellFormed(Snapshot())
      modifies this
      ensures ok && Snapshot() == Current(old(Snapshot())) && WellFormed(Snapshot())
    {
      ok := true;
      ghost var start := version;
      for index := version to (if version > SCHEMA_VERSION then version else SCHEMA_VERSION)
        invariant ok && WellFormed(Snapshot())
        invariant version == index && start <= version
        invariant Current(Snapshot()) == Current(old(Snapshot()))
      {
        ok := Apply(index);
        version := index + 1;
      }
    }
  }

  /** Uniqueness under the single-column key is uniqueness under the wider one. */
  lemma OldKeyIsStricter(t: Table)
    requires KeyHolds(t)
    ensures t.Present? ==> UniqueKeys(t.rows)
  {
  }

  /**
   * What migrating means: the version and the shape are the current ones, no
   * session, finding or investigation is lost or reordered, the composite key holds,
   * and migrating again changes nothing.
   */
  lemma MigrationMeaning(s: Schema)
    requires WellFormed(s)
    ensures var r := Current(s);
            && (s.version <= SCHEMA_VERSION ==> r.version == SCHEMA_VERSION)
            && r.version >= SCHEMA_VERSION && WellFormed(r)
            && RowsOf(r.sessions) == RowsOf(s.sessions) && UniqueKeys(RowsOf(r.sessions))
            && RowsOf(r.findings) == RowsOf(s.findings) && UniqueKeys(RowsOf(r.findings))
            && r.investigations.ids == (if s.investigations == Missing then [] else s.investigations.ids)
            && r.sessions.key == CompositeKey && r.findings.key == CompositeKey && r.investigations.hasScoreScope
            && Current(r) == r
            && (s.version >= SCHEMA_VERSION ==> r == s)
  {
    OldKeyIsStricter(s.sessions);
    OldKeyIsStricter(s.findings);
  }
}
