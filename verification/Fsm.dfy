/** The replicated state machine as the program holds it: fields updated in
    place over a database whose tables and position row change together. */
module Fsm {
  import opened Outcomes
  import opened Graph
  import opened Definitions
  import opened CommittedLog
  import opened Replica

  /** The replicated tables and the position row of one database file. */
  class Database {
    var tables: Tables
    var meta: Option<Meta>

    constructor ()
      ensures Value() == FRESH_DISK
    {
      tables, meta := EMPTY_TABLES, None;
    }

    function Value(): Durable reads this { Durable(tables, meta) }
  }

  /** A snapshot file: the exported body and the checksum of that body. Checksums
      are modelled as collision free. */
  datatype Checksum = ChecksumOf(body: Envelope)

  datatype SnapshotFile = SnapshotFile(formatVersion: int, replicationVersion: int, body: Envelope, integrity: Checksum)

  const FORMAT_VERSION := 1

  predicate Verified(file: SnapshotFile) {
    && file.formatVersion == FORMAT_VERSION && file.replicationVersion <= SUPPORTED_VERSION
    && file.integrity == ChecksumOf(file.body)
  }

  /** One row per key, in some order. */
  method ListMap<T(!new)>(m: map<Id, T>) returns (rows: seq<(Id, T)>)
    ensures Lists(rows, m)
  {
    rows := [];
    var left := m.Keys;
    while left != {}
      invariant left <= m.Keys
      invariant DistinctKeys(rows)
      invariant forall x :: x in rows <==> x.0 in m && x.0 !in left && m[x.0] == x.1
      decreases left
    {
      var k :| k in left;
      rows, left := rows + [(k, m[k])], left - {k};
    }
  }

  method ListSet<T(!new)>(s: set<T>) returns (rows: seq<T>)
    ensures Distinct(rows) && Members(rows) == s
  {
    rows := [];
    var left := s;
    while left != {}
      invariant left <= s && Distinct(rows)
      invariant forall x :: x in rows <==> x in s - left
      decreases left
    {
      var x :| x in left;
      assert x !in rows && forall i | 0 <= i < |rows| :: rows[i] in rows;
      rows, left := rows + [x], left - {x};
    }
  }

  /** SELECT COUNT(*) FROM posts WHERE id IN (a, b). */
  method CountEndpoints(posts: map<Id, PostRow>, a: Id, b: Id) returns (n: nat)
    requires a != b
    ensures n == 2 <==> a in posts && b in posts
  {
    var found := set p | p in {a, b} && p in posts;
    if a in posts && b in posts {
      assert found == {a, b};
    } else if a in posts {
      assert found == {a};
    } else if b in posts {
      assert found == {b};
    } else {
      assert found == {};
    }
    return |found|;
  }

  lemma DistinctPrefix<T>(rows: seq<(Id, T)>, n: nat)
    requires n <= |rows|
    ensures DistinctKeys(rows) ==> DistinctKeys(rows[..n])
  {
  }

  /** Inserts rows one by one into an empty table with a primary key. */
  method InsertRows<T>(rows: seq<(Id, T)>) returns (table: Option<map<Id, T>>)
    ensures table.Some? <==> DistinctKeys(rows)
    ensures table.Some? ==> table.value == Rows(rows)
  {
    var m: map<Id, T> := map[];
    for i := 0 to |rows|
      invariant DistinctKeys(rows[..i]) && m == Rows(rows[..i])
    {
      assert rows[..i + 1] == rows[..i] + [rows[i]];
      RowsPush(rows[..i], rows[i]);
      if rows[i].0 in m {
        DistinctPrefix(rows, i + 1);
        return None;
      }
      m := m[rows[i].0 := rows[i].1];
    }
    assert rows[..|rows|] == rows;
    return Some(m);
  }

  /** Inserts dependency rows: both ends must exist, differ, and be new. */
  method InsertEdges(rows: seq<Edge>, posts: map<Id, PostRow>) returns (table: Option<set<Edge>>)
    ensures table.Some? <==>
              Distinct(rows) && forall d | d in rows :: d.0 in posts && d.1 in posts && d.0 != d.1
    ensures table.Some? ==> table.value == Members(rows)
  {
    var edges: set<Edge> := {};
    for i := 0 to |rows|
      invariant Distinct(rows[..i]) && edges == Members(rows[..i])
      invariant forall k | 0 <= k < i :: rows[k].0 in posts && rows[k].1 in posts && rows[k].0 != rows[k].1
    {
      var d := rows[i];
      if d in edges || d.0 !in posts || d.1 !in posts || d.0 == d.1 {
        assert d in rows;
        return None;
      }
      edges := edges + {d};
      assert rows[..i + 1] == rows[..i] + [d];
    }
    assert rows[..|rows|] == rows;
    return Some(edges);
  }

  /** The foreign key and CHECK constraints of the rules table. */
  method RulesAttached(rows: seq<(Id, RuleRow)>, posts: map<Id, PostRow>) returns (ok: bool)
    ensures ok <==> forall r | r in rows :: r.1.postId in posts && r.1.operator in OPERATORS
  {
    for i := 0 to |rows|
      invariant forall k | 0 <= k < i :: rows[k].1.postId in posts && rows[k].1.operator in OPERATORS
    {
      if rows[i].1.postId !in posts || rows[i].1.operator !in OPERATORS {
        assert rows[i] in rows;
        return false;
      }
    }
    return true;
  }

  class FSM {
    const db: Database
    var graphRev: int
    var applied: map<Id, AppliedOp>
    var appliedIndex: nat
    var appliedTerm: nat
    var persistedIndex: nat
    var applyFailure: Option<nat>

    ghost function Value(): State
      reads this, db
    {
      State(db.Value(), Memory(graphRev, applied, appliedIndex, appliedTerm, persistedIndex, applyFailure))
    }

    constructor At(db: Database, position: Meta, persisted: nat)
      ensures this.db == db
      ensures graphRev == position.graphRev && applied == map[] && appliedIndex == position.index
      ensures appliedTerm == position.term && persistedIndex == persisted && applyFailure.None?
    {
      this.db := db;
      graphRev, applied, appliedIndex, appliedTerm := position.graphRev, map[], position.index, position.term;
      persistedIndex, applyFailure := persisted, None;
    }

    /** Opens a database; refuses one that has posts but no position row. */
    static method New(db: Database) returns (r: Result<FSM, string>)
      ensures r.Success? <==> Open(db.Value()).Some?
      ensures r.Success? ==> fresh(r.value) && r.value.db == db && Open(db.Value()) == Some(r.value.Value())
      ensures db.Value() == old(db.Value())
    {
      var f: FSM;
      if db.meta.Some? {
        f := new FSM.At(db, db.meta.value, db.meta.value.index);
      } else {
        if db.tables.posts != map[] {
          return Failure("replicated materialization exists without replication metadata; recovery required");
        }
        f := new FSM.At(db, Meta(0, 0, 0), 0);
      }
      return Success(f);
    }

    /** What one transaction of an operation does: everything it realizes, with
        its position, or nothing at all. */
    twostate predicate Transacted(op: Operation, index: nat, term: nat, storageFault: bool,
                                  new r: Result<ApplyResult, string>)
      reads this, db
    {
      var z := old(Realize(db.tables, graphRev, op));
      if storageFault || z.Unrealizable? then
        r.Failure? && db.Value() == old(db.Value()) && graphRev == old(graphRev)
      else
        && r == Success(ApplyResult(index, term, op.id, op.objectId, op.kind, op.version, z.revision))
        && db.Value() == Durable(z.tables, Some(Meta(index, term, z.graphRev)))
        && graphRev == z.graphRev
    }

    method ApplyPostCreate(op: Operation, index: nat, term: nat, storageFault: bool)
      returns (r: Result<ApplyResult, string>)
      requires op.kind.PostCreate?
      modifies db, this`graphRev
      ensures Transacted(op, index, term, storageFault, r)
    {
      if op.payload.post.None? { return Failure("undecodable payload"); }
      var posts := db.tables.posts;
      if op.objectId in posts { return Failure("post.create duplicate or invalid"); }
      posts := posts[op.objectId := NewPost(op.payload.post.value)];
      if storageFault { return Failure("storage error"); }
      db.tables, db.meta := db.tables.(posts := posts), Some(Meta(index, term, graphRev));
      return Success(ApplyResult(index, term, op.id, op.objectId, op.kind, op.version, 1));
    }

    method ApplyPostUpdate(op: Operation, index: nat, term: nat, storageFault: bool)
      returns (r: Result<ApplyResult, string>)
      requires op.kind.PostUpdate?
      modifies db, this`graphRev
      ensures Transacted(op, index, term, storageFault, r)
    {
      if op.payload.post.None? { return Failure("undecodable payload"); }
      var posts, affected := db.tables.posts, 0;
      if op.objectId in posts && posts[op.objectId].version == op.revision {
        posts, affected := posts[op.objectId := EditedPost(posts[op.objectId], op.payload.post.value)], 1;
      }
      if affected != 1 { return Failure("post.update stale revision"); }
      if storageFault { return Failure("storage error"); }
      db.tables, db.meta := db.tables.(posts := posts), Some(Meta(index, term, graphRev));
      return Success(ApplyResult(index, term, op.id, op.objectId, op.kind, op.version, op.revision + 1));
    }

    /** Phase 2 of a post deletion. Phase 1 clears node-local rows (module
        ForeignKeys); when it is blocked, that is a storage fault here. */
    method ApplyPostDelete(op: Operation, index: nat, term: nat, storageFault: bool)
      returns (r: Result<ApplyResult, string>)
      requires op.kind.PostDelete?
      modifies db, this`graphRev
      ensures Transacted(op, index, term, storageFault, r)
    {
      if op.domainRevision != graphRev { return Failure("post.delete was validated against another graph revision"); }
      if storageFault { return Failure("storage error"); }
      var t := db.tables;
      t := t.(edges := set e | e in t.edges && e.0 != op.objectId && e.1 != op.objectId);
      t := t.(rules := map r | r in t.rules && t.rules[r].postId != op.objectId :: t.rules[r]);
      var affected := if op.objectId in t.posts then 1 else 0;
      t := t.(posts := t.posts - {op.objectId});
      if affected != 1 { return Failure("post.delete target missing"); }
      var newRev := graphRev + 1;
      db.tables, db.meta := t, Some(Meta(index, term, newRev));
      graphRev := newRev;
      return Success(ApplyResult(index, term, op.id, op.objectId, op.kind, op.version, 0));
    }

    method ApplyDependencyAdd(op: Operation, index: nat, term: nat, storageFault: bool)
      returns (r: Result<ApplyResult, string>)
      requires op.kind.DependencyAdd?
      modifies db, this`graphRev
      ensures Transacted(op, index, term, storageFault, r)
    {
      hide Reaches, WithoutPost, NewPost, EditedPost, NewRule;
      if op.domainRevision != graphRev { return Failure("validated against another graph revision"); }
      if op.objectId == "" { return Failure("dependency source is empty"); }
      if op.payload.dependsOn.None? { return Failure("undecodable payload"); }
      var depends := op.payload.dependsOn.value;
      ghost var allowed := EdgeAllowed(db.tables, op.objectId, depends);
      ghost var z := Realize(db.tables, graphRev, op);
      assert z.Realized? <==> allowed;
      if op.objectId == depends { return Failure("self dependency"); }
      var endpoints := CountEndpoints(db.tables.posts, op.objectId, depends);
      if endpoints != 2 { return Failure("dependency endpoints missing"); }
      if (op.objectId, depends) in db.tables.edges { return Failure("duplicate dependency"); }
      var cycle := CountReach(db.tables.edges, depends, op.objectId);
      if cycle > 0 { return Failure("dependency cycle"); }
      if storageFault { return Failure("storage error"); }
      var newRev := graphRev + 1;
      db.tables := db.tables.(edges := db.tables.edges + {(op.objectId, depends)});
      db.meta := Some(Meta(index, term, newRev));
      graphRev := newRev;
      return Success(ApplyResult(index, term, op.id, op.objectId, op.kind, op.version, 0));
    }

    method ApplyRuleCreate(op: Operation, index: nat, term: nat, storageFault: bool)
      returns (r: Result<ApplyResult, string>)
      requires op.kind.RuleCreate?
      modifies db, this`graphRev
      ensures Transacted(op, index, term, storageFault, r)
    {
      if op.payload.rule.None? { return Failure("undecodable payload"); }
      var p, rules := op.payload.rule.value, db.tables.rules;
      if op.objectId in rules || p.postId !in db.tables.posts || p.operator !in OPERATORS {
        return Failure("rule.create duplicate or invalid");
      }
      rules := rules[op.objectId := NewRule(p)];
      if storageFault { return Failure("storage error"); }
      db.tables, db.meta := db.tables.(rules := rules), Some(Meta(index, term, graphRev));
      return Success(ApplyResult(index, term, op.id, op.objectId, op.kind, op.version, 1));
    }

    method ApplyRuleSetEnabled(op: Operation, index: nat, term: nat, storageFault: bool)
      returns (r: Result<ApplyResult, string>)
      requires op.kind.RuleSetEnabled?
      modifies db, this`graphRev
      ensures Transacted(op, index, term, storageFault, r)
    {
      if op.payload.rule.None? { return Failure("undecodable payload"); }
      var rules, affected := db.tables.rules, 0;
      if op.objectId in rules && rules[op.objectId].version == op.revision {
        var row := rules[op.objectId];
        rules := rules[op.objectId := row.(enabled := op.payload.rule.value.enabled, version := row.version + 1)];
        affected := 1;
      }
      if affected != 1 { return Failure("rule.set_enabled stale revision"); }
      if storageFault { return Failure("storage error"); }
      db.tables, db.meta := db.tables.(rules := rules), Some(Meta(index, term, graphRev));
      return Success(ApplyResult(index, term, op.id, op.objectId, op.kind, op.version, op.revision + 1));
    }

    /** Applies one committed entry. */
    method ApplyEntry(e: LogEntry, index: nat, storageFault: bool) returns (reply: Reply)
      modifies this, db
      ensures Value() == old(Apply(Value(), e, index, storageFault))
      ensures reply == old(Answer(Value(), e, index, storageFault))
    {
      match e.body
      case Internal => return Silent;
      case Corrupt =>
        if applyFailure.None? { applyFailure := Some(index); }
        return Fail(index);
      case Command(op) =>
        if applyFailure.Some? { return Fail(applyFailure.value); }
        if op.version > SUPPORTED_VERSION || op.kind.Unknown? || op.digest.None? {
          applyFailure := Some(index);
          return Fail(index);
        }
        if op.id in applied {
          if applied[op.id].digest != op.digest.value { return Conflict; }
          return Done(applied[op.id].result);
        }
        if index <= persistedIndex {
          applied := applied[op.id := Recorded(op, index, e.term, op.revision)];
          appliedIndex, appliedTerm := index, e.term;
          return Done(applied[op.id].result);
        }
        var r: Result<ApplyResult, string>;
        match op.kind {
          case PostCreate => r := ApplyPostCreate(op, index, e.term, storageFault);
          case PostUpdate => r := ApplyPostUpdate(op, index, e.term, storageFault);
          case PostDelete => r := ApplyPostDelete(op, index, e.term, storageFault);
          case DependencyAdd => r := ApplyDependencyAdd(op, index, e.term, storageFault);
          case RuleCreate => r := ApplyRuleCreate(op, index, e.term, storageFault);
          case RuleSetEnabled => r := ApplyRuleSetEnabled(op, index, e.term, storageFault);
        }
        if r.Failure? {
          applyFailure := Some(index);
          return Fail(index);
        }
        applied := applied[op.id := AppliedOp(op.digest.value, r.value, op.payload, op.revision)];
        appliedIndex, appliedTerm := index, e.term;
        return Done(r.value);
    }

    /** Exports the definitions, the graph revision, the applied position as this
        process reports it, and the remembered operations. */
    method Snapshot() returns (file: SnapshotFile)
      ensures Verified(file) && Exports(Value(), file.body)
      ensures file == SnapshotFile(1, SUPPORTED_VERSION, file.body, ChecksumOf(file.body))
      ensures Value() == old(Value())
    {
      var posts := ListMap(db.tables.posts);
      var deps := ListSet(db.tables.edges);
      var rules := ListMap(db.tables.rules);
      var body := Envelope(graphRev, appliedIndex, appliedTerm, posts, deps, rules, applied);
      return SnapshotFile(FORMAT_VERSION, SUPPORTED_VERSION, body, ChecksumOf(body));
    }

    /** Installs a snapshot file. A file that fails verification, or whose rows
        the schema rejects, changes nothing. */
    method RestoreFrom(file: SnapshotFile) returns (r: Result<(), string>)
      modifies this, db
      ensures file.integrity != ChecksumOf(file.body) ==> r.Failure? && Value() == old(Value())
      ensures file.formatVersion != 1 || file.replicationVersion > SUPPORTED_VERSION ==>
                r.Failure? && Value() == old(Value())
      ensures !Verified(file) ==> r.Failure? && Value() == old(Value())
      ensures Verified(file) ==>
                && Value() == old(Restore(Value(), file.body))
                && (r.Success? <==> file.body.index <= old(persistedIndex) || Installable(file.body))
    {
      if file.formatVersion != FORMAT_VERSION { return Failure("unsupported snapshot format version"); }
      if file.replicationVersion > SUPPORTED_VERSION { return Failure("unsupported snapshot replication version"); }
      var env := file.body;
      if file.integrity != ChecksumOf(env) { return Failure("snapshot integrity mismatch"); }
      if env.index <= persistedIndex {
        applied := Merge(applied, env.ops);
        return Success(());
      }
      var posts := InsertRows(env.posts);
      if posts.None? { return Failure("post row rejected"); }
      var edges := InsertEdges(env.deps, posts.value);
      if edges.None? { return Failure("dependency row rejected"); }
      var rules := InsertRows(env.rules);
      var attached := RulesAttached(env.rules, posts.value);
      if rules.None? || !attached { return Failure("rule row rejected"); }
      db.tables := Tables(posts.value, edges.value, rules.value);
      db.meta := Some(Meta(env.index, env.term, env.graphRev));
      graphRev, appliedIndex, persistedIndex, appliedTerm := env.graphRev, env.index, env.index, env.term;
      applied := env.ops;
      return Success(());
    }
  }

  // ----- Snapshot files

  /** Which files are accepted: those of the current format, of a supported version,
      and with the checksum of the body they carry. */
  lemma VerifiedExactly(file: SnapshotFile)
    ensures Verified(file) <==>
            && file.formatVersion == 1 && file.replicationVersion <= SUPPORTED_VERSION
            && file.integrity == ChecksumOf(file.body)
  {
  }

  /** The file of a snapshot is accepted by any process, and installs there whatever
      the coherent source held. */
  method CopyInstalls(source: FSM, target: FSM) returns (file: SnapshotFile, r: Result<(), string>)
    requires Coherent(source.db.tables) && source != target && source.db != target.db
    modifies target, target.db
    ensures r.Success? && target.Value() == old(Restore(target.Value(), file.body))
    ensures Exports(source.Value(), file.body)
    ensures old(target.persistedIndex) < source.appliedIndex ==>
              && target.db.tables == source.db.tables && target.graphRev == source.graphRev
              && target.appliedIndex == source.appliedIndex && target.applied == source.applied
  {
    file := source.Snapshot();
    ExportInstalls(source.Value(), file.body);
    r := target.RestoreFrom(file);
  }

  /** The same file with any edit of its body under the checksum it had is refused,
      and nothing is changed. */
  method EditedCopyRefused(source: FSM, target: FSM, body: Envelope) returns (file: SnapshotFile, r: Result<(), string>)
    modifies target, target.db
    ensures body != file.body ==> r.Failure? && target.Value() == old(target.Value())
  {
    file := source.Snapshot();
    r := target.RestoreFrom(file.(body := body));
  }
}
