/** The ensure-steps of the install orchestrator and their fail-fast
    execution against the gateway (the step bodies of `install` in
    db_installer/DatabaseInstaller.go, lines 201-465). */
module Provisioning {
  import opened Gateway

  /** One step of a provisioning plan. The plan itself does not depend on
      the state of the world; only which requests a step issues does. */
  datatype Step =
      /** One request that has no effect besides succeeding or failing. */
    | Do(command: Command)
      /** Create the database, with this encoding, unless it exists. */
    | EnsureDatabase(name: string, encoding: Encoding)
      /** Create the user and then set its password, unless it exists. */
    | EnsureUser(name: string, password: string, host: string)
    | GrantPrivilege(grant: GrantRow)
      /** Write (or overwrite) one credential file. */
    | Persist(path: string, body: string)
      /** Create the table unless it exists, then insert one row with default
          values if it has none. */
    | EnsureSeededTable(name: string, schema: Schema)

  /** Lines 219-236: ask whether the database exists and create it, with
      the given encoding, only when it does not. */
  function RunEnsureDatabase(r: Run, name: string, encoding: Encoding, fails: set<nat>): (r': Run)
    ensures FollowsFailFast(r, r', fails)
    ensures Extends(r.world, r'.world)
  {
    var r1 := Issue(r, DatabaseExists(name), fails);
    IssueFollows(r, DatabaseExists(name), fails);
    if r1.failed || name in r1.world.databases then r1
    else
      var r2 := Issue(r1, CreateDatabase(name, encoding), fails);
      IssueFollows(r1, CreateDatabase(name, encoding), fails);
      FollowsTransitive(r, r1, r2, fails);
      r2
  }

  /** Lines 268-288 (and their pool twins): ask whether the user exists; only
      when it does not, create it and then set its password again. */
  function RunEnsureUser(r: Run, name: string, password: string, host: string, fails: set<nat>): (r': Run)
    ensures FollowsFailFast(r, r', fails)
    ensures Extends(r.world, r'.world)
  {
    var r1 := Issue(r, UserExists(name), fails);
    IssueFollows(r, UserExists(name), fails);
    if r1.failed || name in r1.world.users then r1
    else
      var r2 := Issue(r1, CreateUser(name, password, host), fails);
      var r3 := Issue(r2, UpdatePassword(name, password), fails);
      IssueFollows(r1, CreateUser(name, password, host), fails);
      IssueFollows(r2, UpdatePassword(name, password), fails);
      FollowsTransitive(r, r1, r2, fails);
      FollowsTransitive(r, r2, r3, fails);
      r3
  }

  /** Lines 400-434: create the table, with the given schema, only when it
      does not exist. */
  function RunEnsureTable(r: Run, name: string, schema: Schema, fails: set<nat>): (r': Run)
    ensures FollowsFailFast(r, r', fails)
    ensures Extends(r.world, r'.world)
  {
    var r1 := Issue(r, TableExists(name), fails);
    IssueFollows(r, TableExists(name), fails);
    if r1.failed || name in r1.world.tables then r1
    else
      var r2 := Issue(r1, CreateTable(name, schema), fails);
      IssueFollows(r1, CreateTable(name, schema), fails);
      FollowsTransitive(r, r1, r2, fails);
      r2
  }

  /** Lines 436-465: fetch the table and count its rows; only when there are
      none, insert a row of default values and read back its key. */
  function RunSeedRow(r: Run, name: string, fails: set<nat>): (r': Run)
    ensures FollowsFailFast(r, r', fails)
    ensures Extends(r.world, r'.world)
  {
    var r1 := Issue(r, Perform(GetTable(name)), fails);
    var r2 := Issue(r1, CountRows(name), fails);
    IssueFollows(r, Perform(GetTable(name)), fails);
    IssueFollows(r1, CountRows(name), fails);
    FollowsTransitive(r, r1, r2, fails);
    if r2.failed || RowCount(r2.world, name) > 0 then r2
    else
      var r3 := Issue(r2, InsertRow(name), fails);
      var r4 := Issue(r3, ReadInsertedId(name), fails);
      IssueFollows(r2, InsertRow(name), fails);
      IssueFollows(r3, ReadInsertedId(name), fails);
      FollowsTransitive(r, r2, r3, fails);
      FollowsTransitive(r, r3, r4, fails);
      assert r2.world == r.world && r4.world == r3.world;
      InsertExtends(r.world, name);
      r4
  }

  /** Inserting a row only adds to an existing table. */
  lemma InsertExtends(w: World, name: string)
    ensures Extends(w, Apply(w, InsertRow(name)))
  {
  }

  function RunEnsureSeededTable(r: Run, name: string, schema: Schema, fails: set<nat>): (r': Run)
    ensures FollowsFailFast(r, r', fails)
    ensures Extends(r.world, r'.world)
  {
    var r1 := RunEnsureTable(r, name, schema, fails);
    var r2 := RunSeedRow(r1, name, fails);
    FollowsTransitive(r, r1, r2, fails);
    r2
  }

  /** Execute one step, issuing its requests in the source's order and
      stopping at the first failure. */
  function ExecStep(r: Run, s: Step, fails: set<nat>): (r': Run)
    ensures FollowsFailFast(r, r', fails)
    ensures Extends(r.world, r'.world)
  {
    match s
    case Do(c) =>
      IssueFollows(r, Perform(c), fails);
      Issue(r, Perform(c), fails)
    case EnsureDatabase(name, encoding) => RunEnsureDatabase(r, name, encoding, fails)
    case EnsureUser(name, password, host) => RunEnsureUser(r, name, password, host, fails)
    case GrantPrivilege(g) =>
      IssueFollows(r, Grant(g), fails);
      Issue(r, Grant(g), fails)
    case Persist(path, body) =>
      IssueFollows(r, WriteArtifact(path, body), fails);
      Issue(r, WriteArtifact(path, body), fails)
    case EnsureSeededTable(name, schema) => RunEnsureSeededTable(r, name, schema, fails)
  }

  /** Execute a plan step by step; after the first failure nothing more is
      issued. */
  function Exec(r: Run, plan: seq<Step>, fails: set<nat>): (r': Run)
    ensures FollowsFailFast(r, r', fails)
    ensures Extends(r.world, r'.world)
    decreases |plan|
  {
    if |plan| == 0 then
      assert r.trace[|r.trace|..] == [];
      r
    else
      var r1 := ExecStep(r, plan[0], fails);
      var r2 := Exec(r1, plan[1..], fails);
      FollowsTransitive(r, r1, r2, fails);
      ExtendsTransitive(r.world, r1.world, r2.world);
      r2
  }

  /** Running `a` and then `b` is running `a + b`. */
  lemma {:induction false} ExecConcat(r: Run, a: seq<Step>, b: seq<Step>, fails: set<nat>)
    ensures Exec(r, a + b, fails) == Exec(Exec(r, a, fails), b, fails)
    decreases |a|
  {
    if |a| == 0 {
      assert a + b == b;
    } else {
      assert (a + b)[0] == a[0];
      assert (a + b)[1..] == a[1..] + b;
      ExecConcat(ExecStep(r, a[0], fails), a[1..], b, fails);
    }
  }

  // ---------------------------------------------------------------------
  // What each step leaves in place, and what happens when it is already
  // in place.

  /** The part of the world a step is responsible for is in place. */
  ghost predicate Ensured(w: World, s: Step) {
    match s
    case Do(_) => true
    case EnsureDatabase(name, _) => name in w.databases
    case EnsureUser(name, _, _) => name in w.users
    case GrantPrivilege(g) => g in w.grants
    case Persist(_, _) => true
    case EnsureSeededTable(name, _) => name in w.tables && w.tables[name].rows > 0
  }

  lemma EnsuredStable(w: World, w': World, s: Step)
    requires Ensured(w, s) && Extends(w, w')
    ensures Ensured(w', s)
  {
  }

  // With nothing failing, each kind of step issues exactly these requests.

  lemma EnsureDatabaseRequests(r: Run, name: string, encoding: Encoding)
    requires !r.failed
    ensures RunEnsureDatabase(r, name, encoding, {})
            == if name in r.world.databases then Run(r.world, r.trace + [DatabaseExists(name)], false)
               else Run(r.world.(databases := r.world.databases[name := encoding]),
                        r.trace + [DatabaseExists(name), CreateDatabase(name, encoding)], false)
  {
  }

  lemma EnsureUserRequests(r: Run, name: string, password: string, host: string)
    requires !r.failed
    ensures RunEnsureUser(r, name, password, host, {})
            == if name in r.world.users then Run(r.world, r.trace + [UserExists(name)], false)
               else Run(r.world.(users := r.world.users[name := password]),
                        r.trace + [UserExists(name), CreateUser(name, password, host), UpdatePassword(name, password)], false)
  {
  }

  lemma EnsureTableRequests(r: Run, name: string, schema: Schema)
    requires !r.failed
    ensures RunEnsureTable(r, name, schema, {})
            == if name in r.world.tables then Run(r.world, r.trace + [TableExists(name)], false)
               else Run(r.world.(tables := r.world.tables[name := Table(schema, 0)]),
                        r.trace + [TableExists(name), CreateTable(name, schema)], false)
  {
  }

  lemma SeedRowRequests(r: Run, name: string)
    requires !r.failed && name in r.world.tables
    ensures RunSeedRow(r, name, {})
            == if r.world.tables[name].rows > 0
               then Run(r.world, r.trace + [Perform(GetTable(name)), CountRows(name)], false)
               else Run(r.world.(tables := r.world.tables[name := r.world.tables[name].(rows := 1)]),
                        r.trace + [Perform(GetTable(name)), CountRows(name), InsertRow(name), ReadInsertedId(name)], false)
  {
    var r1 := Issue(r, Perform(GetTable(name)), {});
    var r2 := Issue(r1, CountRows(name), {});
    assert r2 == Run(r.world, r.trace + [Perform(GetTable(name)), CountRows(name)], false);
    if r.world.tables[name].rows == 0 {
      var r3 := Issue(r2, InsertRow(name), {});
      assert r3 == Run(Apply(r.world, InsertRow(name)), r2.trace + [InsertRow(name)], false);
      assert r3.trace + [ReadInsertedId(name)]
          == r.trace + [Perform(GetTable(name)), CountRows(name), InsertRow(name), ReadInsertedId(name)];
    }
  }

  /** With nothing failing, a step puts its part of the world in place and
      changes the credential files only if it writes one. */
  lemma ExecStepEstablishes(r: Run, s: Step)
    requires !r.failed
    ensures var r' := ExecStep(r, s, {});
            && !r'.failed
            && Ensured(r'.world, s)
            && r'.world.artifacts == (if s.Persist? then r.world.artifacts[s.path := s.body] else r.world.artifacts)
  {
    match s
    case EnsureDatabase(name, encoding) => EnsureDatabaseRequests(r, name, encoding);
    case EnsureUser(name, password, host) => EnsureUserRequests(r, name, password, host);
    case EnsureSeededTable(name, schema) =>
      EnsureTableRequests(r, name, schema);
      SeedRowRequests(RunEnsureTable(r, name, schema, {}), name);
    case _ =>
  }

  /** With nothing failing, a step whose part is already in place changes
      nothing but the file it writes, and issues no creating request. */
  lemma ExecStepWhenEnsured(r: Run, s: Step)
    requires !r.failed && Ensured(r.world, s)
    ensures var r' := ExecStep(r, s, {});
            && !r'.failed
            && r'.world == r.world.(artifacts := r'.world.artifacts)
            && forall i :: |r.trace| <= i < |r'.trace| ==> !Creates(r'.trace[i])
  {
    match s
    case EnsureDatabase(name, encoding) => EnsureDatabaseRequests(r, name, encoding);
    case EnsureUser(name, password, host) => EnsureUserRequests(r, name, password, host);
    case EnsureSeededTable(name, schema) =>
      EnsureTableRequests(r, name, schema);
      SeedRowRequests(RunEnsureTable(r, name, schema, {}), name);
    case GrantPrivilege(g) =>
      assert r.world.(grants := r.world.grants + {g}) == r.world;
    case _ =>
  }

  /** The credential files written by a plan, in order. */
  function Writes(plan: seq<Step>): seq<(string, string)> {
    if |plan| == 0 then []
    else (if plan[0].Persist? then [(plan[0].path, plan[0].body)] else []) + Writes(plan[1..])
  }

  /** Overwrite files one after another: the last write to a path wins. */
  function ApplyWrites(m: map<string, string>, ws: seq<(string, string)>): map<string, string>
    decreases |ws|
  {
    if |ws| == 0 then m else ApplyWrites(m[ws[0].0 := ws[0].1], ws[1..])
  }

  function WrittenPaths(ws: seq<(string, string)>): set<string> {
    set i | 0 <= i < |ws| :: ws[i].0
  }

  /** Paths that are not written keep what they had. */
  lemma {:induction false} ApplyWritesElsewhere(m: map<string, string>, ws: seq<(string, string)>, p: string)
    requires p !in WrittenPaths(ws)
    ensures p in ApplyWrites(m, ws) <==> p in m
    ensures p in m ==> ApplyWrites(m, ws)[p] == m[p]
    decreases |ws|
  {
    if |ws| > 0 {
      assert ws[0].0 in WrittenPaths(ws);
      assert WrittenPaths(ws[1..]) <= WrittenPaths(ws) by {
        forall q | q in WrittenPaths(ws[1..]) ensures q in WrittenPaths(ws) {
          var i :| 0 <= i < |ws[1..]| && ws[1..][i].0 == q;
          assert ws[i + 1].0 == q;
        }
      }
      ApplyWritesElsewhere(m[ws[0].0 := ws[0].1], ws[1..], p);
    }
  }

  /** Two maps that agree away from the written paths agree after the writes. */
  lemma {:induction false} ApplyWritesAgree(m1: map<string, string>, m2: map<string, string>, ws: seq<(string, string)>)
    requires forall p :: p !in WrittenPaths(ws) ==> (p in m1 <==> p in m2)
    requires forall p :: p !in WrittenPaths(ws) && p in m1 ==> m1[p] == m2[p]
    ensures ApplyWrites(m1, ws) == ApplyWrites(m2, ws)
    decreases |ws|
  {
    if |ws| == 0 {
      assert m1.Keys == m2.Keys;
    } else {
      var n1 := m1[ws[0].0 := ws[0].1];
      var n2 := m2[ws[0].0 := ws[0].1];
      forall p | p !in WrittenPaths(ws[1..])
        ensures (p in n1 <==> p in n2) && (p in n1 ==> n1[p] == n2[p])
      {
        if p != ws[0].0 {
          assert p !in WrittenPaths(ws);
        }
      }
      ApplyWritesAgree(n1, n2, ws[1..]);
    }
  }

  /** Writing the same files twice leaves what writing them once leaves. */
  lemma ApplyWritesIdempotent(m: map<string, string>, ws: seq<(string, string)>)
    ensures ApplyWrites(ApplyWrites(m, ws), ws) == ApplyWrites(m, ws)
  {
    forall p | p !in WrittenPaths(ws)
      ensures (p in ApplyWrites(m, ws) <==> p in m) && (p in ApplyWrites(m, ws) ==> ApplyWrites(m, ws)[p] == m[p])
    {
      ApplyWritesElsewhere(m, ws, p);
    }
    ApplyWritesAgree(ApplyWrites(m, ws), m, ws);
  }

  /** With nothing failing, the files after a plan are the files before it
      overwritten by the plan's writes in order. */
  lemma {:induction false} ExecArtifacts(r: Run, plan: seq<Step>)
    requires !r.failed
    ensures !Exec(r, plan, {}).failed
    ensures Exec(r, plan, {}).world.artifacts == ApplyWrites(r.world.artifacts, Writes(plan))
    decreases |plan|
  {
    if |plan| > 0 {
      var r1 := ExecStep(r, plan[0], {});
      ExecStepEstablishes(r, plan[0]);
      ExecArtifacts(r1, plan[1..]);
      assert Exec(r, plan, {}) == Exec(r1, plan[1..], {});
      if plan[0].Persist? {
        assert Writes(plan) == [(plan[0].path, plan[0].body)] + Writes(plan[1..]);
        assert ([(plan[0].path, plan[0].body)] + Writes(plan[1..]))[1..] == Writes(plan[1..]);
      } else {
        assert Writes(plan) == Writes(plan[1..]);
      }
    }
  }

  /** Writing keeps every file and adds the written ones. */
  lemma {:induction false} ApplyWritesKeys(m: map<string, string>, ws: seq<(string, string)>)
    ensures ApplyWrites(m, ws).Keys == m.Keys + WrittenPaths(ws)
    decreases |ws|
  {
    if |ws| > 0 {
      ApplyWritesKeys(m[ws[0].0 := ws[0].1], ws[1..]);
      assert WrittenPaths(ws) == {ws[0].0} + WrittenPaths(ws[1..]) by {
        forall p | p in WrittenPaths(ws) ensures p in {ws[0].0} + WrittenPaths(ws[1..]) {
          var i :| 0 <= i < |ws| && ws[i].0 == p;
          if i > 0 { assert ws[1..][i - 1] == ws[i]; }
        }
        forall p | p in WrittenPaths(ws[1..]) ensures p in WrittenPaths(ws) {
          var i :| 0 <= i < |ws[1..]| && ws[1..][i].0 == p;
          assert ws[i + 1] == ws[1..][i];
        }
      }
    }
  }

  lemma {:induction false} PersistIsWritten(plan: seq<Step>, k: nat)
    requires k < |plan| && plan[k].Persist?
    ensures plan[k].path in WrittenPaths(Writes(plan))
    decreases |plan|
  {
    var head := if plan[0].Persist? then [(plan[0].path, plan[0].body)] else [];
    assert Writes(plan) == head + Writes(plan[1..]);
    if k == 0 {
      assert Writes(plan)[0] == (plan[0].path, plan[0].body);
    } else {
      PersistIsWritten(plan[1..], k - 1);
      var j :| 0 <= j < |Writes(plan[1..])| && Writes(plan[1..])[j].0 == plan[k].path;
      assert Writes(plan)[|head| + j] == Writes(plan[1..])[j];
    }
  }

  /** With nothing failing, every file a plan writes exists at its end, and
      no file that existed is removed. */
  lemma ExecWritesEvery(r: Run, plan: seq<Step>)
    requires !r.failed
    ensures r.world.artifacts.Keys <= Exec(r, plan, {}).world.artifacts.Keys
    ensures forall k :: 0 <= k < |plan| && plan[k].Persist? ==> plan[k].path in Exec(r, plan, {}).world.artifacts
  {
    ExecArtifacts(r, plan);
    ApplyWritesKeys(r.world.artifacts, Writes(plan));
    forall k | 0 <= k < |plan| && plan[k].Persist? ensures plan[k].path in WrittenPaths(Writes(plan)) {
      PersistIsWritten(plan, k);
    }
  }

  /** With nothing failing, every step of a plan is in place at its end. */
  lemma {:induction false} ExecEnsuresAll(r: Run, plan: seq<Step>)
    requires !r.failed
    ensures forall k :: 0 <= k < |plan| ==> Ensured(Exec(r, plan, {}).world, plan[k])
    decreases |plan|
  {
    if |plan| > 0 {
      var r1 := ExecStep(r, plan[0], {});
      var r' := Exec(r, plan, {});
      ExecStepEstablishes(r, plan[0]);
      EnsuredStable(r1.world, r'.world, plan[0]);
      ExecEnsuresAll(r1, plan[1..]);
      forall k | 1 <= k < |plan| ensures Ensured(r'.world, plan[k]) {
        assert plan[k] == plan[1..][k - 1];
      }
    }
  }

  /** What a run has sent stays sent as the plan goes on. */
  lemma SentStaysSent(r: Run, plan: seq<Step>)
    ensures forall q :: q in r.trace ==> q in Exec(r, plan, {}).trace
  {
    var r' := Exec(r, plan, {});
    forall q | q in r.trace ensures q in r'.trace {
      var i :| 0 <= i < |r.trace| && r.trace[i] == q;
      assert r'.trace[..|r.trace|] == r.trace;
      assert r'.trace[i] == q;
    }
  }

  /** With nothing failing, every grant step's `GRANT` is sent, whether or
      not the privilege is already held. */
  lemma {:induction false} ExecSendsGrants(r: Run, plan: seq<Step>)
    requires !r.failed
    ensures forall k :: 0 <= k < |plan| && plan[k].GrantPrivilege? ==> Grant(plan[k].grant) in Exec(r, plan, {}).trace
    decreases |plan|
  {
    if |plan| > 0 {
      var r1 := ExecStep(r, plan[0], {});
      assert Exec(r, plan, {}) == Exec(r1, plan[1..], {});
      ExecSendsGrants(r1, plan[1..]);
      SentStaysSent(r1, plan[1..]);
      if plan[0].GrantPrivilege? {
        assert r1.trace == r.trace + [Grant(plan[0].grant)];
      }
      forall k | 1 <= k < |plan| && plan[k].GrantPrivilege?
        ensures Grant(plan[k].grant) in Exec(r1, plan[1..], {}).trace
      {
        assert plan[k] == plan[1..][k - 1];
      }
    }
  }

  /** With nothing failing, a plan whose every step is already in place
      changes nothing but the files it writes and creates nothing. */
  lemma {:induction false} ExecWhenEnsured(r: Run, plan: seq<Step>)
    requires !r.failed
    requires forall k :: 0 <= k < |plan| ==> Ensured(r.world, plan[k])
    ensures var r' := Exec(r, plan, {});
            && !r'.failed
            && r'.world == r.world.(artifacts := r'.world.artifacts)
            && forall i :: |r.trace| <= i < |r'.trace| ==> !Creates(r'.trace[i])
    decreases |plan|
  {
    if |plan| > 0 {
      var r1 := ExecStep(r, plan[0], {});
      ExecStepWhenEnsured(r, plan[0]);
      forall k | 0 <= k < |plan[1..]| ensures Ensured(r1.world, plan[1..][k]) {
        assert plan[1..][k] == plan[k + 1];
      }
      ExecWhenEnsured(r1, plan[1..]);
      var r' := Exec(r1, plan[1..], {});
      forall i | |r.trace| <= i < |r'.trace| ensures !Creates(r'.trace[i]) {
        if i >= |r1.trace| {
        } else {
          assert r'.trace[..|r1.trace|] == r1.trace;
          assert r'.trace[i] == r1.trace[i];
        }
      }
    }
  }

  // Whatever fails: accounts that already exist are never re-passworded,
  // and steps other than the table step leave the tables alone.

  /** Issuing `q` appends at most `q` itself to the trace. */
  lemma IssueAppends(r: Run, q: Request, fails: set<nat>)
    ensures var r' := Issue(r, q, fails);
            && r'.trace[..|r.trace|] == r.trace
            && (r'.trace == r.trace || r'.trace == r.trace + [q])
            && (r'.failed || q.UserExists? ==> r'.world == r.world)
            && (!q.CreateTable? && !q.InsertRow? ==> r'.world.tables == r.world.tables)
  {
    assert (r.trace + [q])[..|r.trace|] == r.trace;
  }

  /** The user step sends `CreateUser` and `UpdatePassword` only for a user
      the world does not have. */
  lemma UserStepRequests(r: Run, name: string, password: string, host: string, fails: set<nat>)
    ensures var r' := RunEnsureUser(r, name, password, host, fails);
            forall i :: |r.trace| <= i < |r'.trace| ==>
              || r'.trace[i] == UserExists(name)
              || (name !in r.world.users && (r'.trace[i] == CreateUser(name, password, host) || r'.trace[i] == UpdatePassword(name, password)))
  {
    var r1 := Issue(r, UserExists(name), fails);
    IssueAppends(r, UserExists(name), fails);
    if !(r1.failed || name in r1.world.users) {
      var r2 := Issue(r1, CreateUser(name, password, host), fails);
      var r3 := Issue(r2, UpdatePassword(name, password), fails);
      IssueAppends(r1, CreateUser(name, password, host), fails);
      IssueAppends(r2, UpdatePassword(name, password), fails);
    }
  }

  /** The requests the table step may send. */
  predicate TableRequest(q: Request, name: string, schema: Schema) {
    q in {TableExists(name), CreateTable(name, schema), Perform(GetTable(name)),
          CountRows(name), InsertRow(name), ReadInsertedId(name)}
  }

  lemma EnsureTableSends(r: Run, name: string, schema: Schema, fails: set<nat>)
    ensures var r' := RunEnsureTable(r, name, schema, fails);
            forall i :: |r.trace| <= i < |r'.trace| ==> TableRequest(r'.trace[i], name, schema)
  {
    var a := Issue(r, TableExists(name), fails);
    IssueAppends(r, TableExists(name), fails);
    IssueAppends(a, CreateTable(name, schema), fails);
  }

  lemma SeedRowSends(r: Run, name: string, schema: Schema, fails: set<nat>)
    ensures var r' := RunSeedRow(r, name, fails);
            forall i :: |r.trace| <= i < |r'.trace| ==> TableRequest(r'.trace[i], name, schema)
  {
    var b := Issue(r, Perform(GetTable(name)), fails);
    var c := Issue(b, CountRows(name), fails);
    IssueAppends(r, Perform(GetTable(name)), fails);
    IssueAppends(b, CountRows(name), fails);
    if !(c.failed || RowCount(c.world, name) > 0) {
      var d := Issue(c, InsertRow(name), fails);
      IssueAppends(c, InsertRow(name), fails);
      IssueAppends(d, ReadInsertedId(name), fails);
    }
  }

  lemma TableStepSends(r: Run, name: string, schema: Schema, fails: set<nat>)
    ensures var r' := RunEnsureSeededTable(r, name, schema, fails);
            forall i :: |r.trace| <= i < |r'.trace| ==> TableRequest(r'.trace[i], name, schema)
  {
    var r1 := RunEnsureTable(r, name, schema, fails);
    var r2 := RunSeedRow(r1, name, fails);
    EnsureTableSends(r, name, schema, fails);
    SeedRowSends(r1, name, schema, fails);
    forall i | |r.trace| <= i < |r1.trace| ensures r2.trace[i] == r1.trace[i] {
      assert r2.trace[i] == r2.trace[..|r1.trace|][i];
    }
  }

  /** No request `r'` added to `r` sets the password of a user `r`'s world
      already has. */
  ghost predicate NoRepassword(r: Run, r': Run) {
    forall i :: |r.trace| <= i < |r'.trace| && SetsPassword(r'.trace[i]) ==> r'.trace[i].name !in r.world.users
  }

  lemma NoRepasswordChain(r: Run, r1: Run, r2: Run)
    requires NoRepassword(r, r1) && NoRepassword(r1, r2)
    requires |r1.trace| <= |r2.trace| && r2.trace[..|r1.trace|] == r1.trace
    requires forall u :: u in r.world.users ==> u in r1.world.users
    ensures NoRepassword(r, r2)
  {
    forall i | |r.trace| <= i < |r2.trace| && SetsPassword(r2.trace[i])
      ensures r2.trace[i].name !in r.world.users
    {
      if i < |r1.trace| {
        assert r2.trace[i] == r2.trace[..|r1.trace|][i];
      }
    }
  }

  lemma DatabaseStepNeverRepasswords(r: Run, name: string, encoding: Encoding, fails: set<nat>)
    ensures NoRepassword(r, RunEnsureDatabase(r, name, encoding, fails))
  {
    var a := Issue(r, DatabaseExists(name), fails);
    IssueAppends(r, DatabaseExists(name), fails);
    IssueAppends(a, CreateDatabase(name, encoding), fails);
  }

  lemma StepNeverRepasswords(r: Run, s: Step, fails: set<nat>)
    ensures NoRepassword(r, ExecStep(r, s, fails))
  {
    match s
    case EnsureUser(name, password, host) => UserStepRequests(r, name, password, host, fails);
    case EnsureSeededTable(name, schema) => TableStepSends(r, name, schema, fails);
    case EnsureDatabase(name, encoding) => DatabaseStepNeverRepasswords(r, name, encoding, fails);
    case Do(c) => IssueAppends(r, Perform(c), fails);
    case GrantPrivilege(g) => IssueAppends(r, Grant(g), fails);
    case Persist(path, body) => IssueAppends(r, WriteArtifact(path, body), fails);
  }

  /** An account the world already has is never sent `CreateUser` or
      `UpdatePassword`: its password is never changed. */
  lemma {:induction false} ExecNeverRepasswords(r: Run, plan: seq<Step>, fails: set<nat>)
    ensures NoRepassword(r, Exec(r, plan, fails))
    decreases |plan|
  {
    if |plan| > 0 {
      var r1 := ExecStep(r, plan[0], fails);
      var r2 := Exec(r1, plan[1..], fails);
      StepNeverRepasswords(r, plan[0], fails);
      ExecNeverRepasswords(r1, plan[1..], fails);
      NoRepasswordChain(r, r1, r2);
    }
  }

  lemma StepKeepsTables(r: Run, s: Step, fails: set<nat>)
    requires !s.EnsureSeededTable?
    ensures var r' := ExecStep(r, s, fails);
            && r'.world.tables == r.world.tables
            && forall i :: |r.trace| <= i < |r'.trace| ==> !r'.trace[i].CreateTable? && !r'.trace[i].InsertRow?
  {
    match s
    case EnsureUser(name, password, host) =>
      var r1 := Issue(r, UserExists(name), fails);
      IssueAppends(r, UserExists(name), fails);
      if !(r1.failed || name in r1.world.users) {
        var r2 := Issue(r1, CreateUser(name, password, host), fails);
        IssueAppends(r1, CreateUser(name, password, host), fails);
        IssueAppends(r2, UpdatePassword(name, password), fails);
      }
    case EnsureDatabase(name, encoding) => DatabaseStepNeverRepasswords(r, name, encoding, fails);
    case Do(c) => IssueAppends(r, Perform(c), fails);
    case GrantPrivilege(g) => IssueAppends(r, Grant(g), fails);
    case Persist(path, body) => IssueAppends(r, WriteArtifact(path, body), fails);
  }

  /** A plan without the table step changes no table and issues no
      `CreateTable` or `InsertRow`. */
  lemma {:induction false} ExecKeepsTables(r: Run, plan: seq<Step>, fails: set<nat>)
    requires forall k :: 0 <= k < |plan| ==> !plan[k].EnsureSeededTable?
    ensures var r' := Exec(r, plan, fails);
            && r'.world.tables == r.world.tables
            && forall i :: |r.trace| <= i < |r'.trace| ==> !r'.trace[i].CreateTable? && !r'.trace[i].InsertRow?
    decreases |plan|
  {
    if |plan| > 0 {
      var r1 := ExecStep(r, plan[0], fails);
      var r2 := Exec(r1, plan[1..], fails);
      assert Exec(r, plan, fails) == r2;
      StepKeepsTables(r, plan[0], fails);
      ExecKeepsTables(r1, plan[1..], fails);
      forall i | |r.trace| <= i < |r1.trace|
        ensures r2.trace[i] == r1.trace[i]
      {
        assert r2.trace[i] == r2.trace[..|r1.trace|][i];
      }
    }
  }

  /** With nothing failing, the table step seeds its table exactly once. */
  lemma SeedStepOnce(r: Run, name: string, schema: Schema)
    requires !r.failed
    ensures var r' := ExecStep(r, EnsureSeededTable(name, schema), {});
            var before := RowCount(r.world, name);
            && name in r'.world.tables
            && r'.world.tables[name].rows == (if before > 0 then before else 1)
            && r'.world.tables[name].schema == (if name in r.world.tables then r.world.tables[name].schema else schema)
            && InsertCount(r'.trace, name) == InsertCount(r.trace, name) + (if before > 0 then 0 else 1)
  {
    var r2 := RunEnsureTable(r, name, schema, {});
    EnsureTableRequests(r, name, schema);
    SeedRowRequests(r2, name);
    var r3 := RunSeedRow(r2, name, {});
    TableRequestsCount(r.trace, name, schema, name in r.world.tables);
    SeedRequestsCount(r2.trace, name, RowCount(r2.world, name) > 0);
  }

  lemma TableRequestsCount(t: seq<Request>, name: string, schema: Schema, exists_: bool)
    ensures InsertCount(t + (if exists_ then [TableExists(name)] else [TableExists(name), CreateTable(name, schema)]), name)
            == InsertCount(t, name)
  {
    var u := if exists_ then [TableExists(name)] else [TableExists(name), CreateTable(name, schema)];
    InsertCountConcat(t, u, name);
    assert u[1..] == [] || u[1..][1..] == [];
  }

  lemma SeedRequestsCount(t: seq<Request>, name: string, seeded: bool)
    ensures InsertCount(t + (if seeded then [Perform(GetTable(name)), CountRows(name)]
                             else [Perform(GetTable(name)), CountRows(name), InsertRow(name), ReadInsertedId(name)]), name)
            == InsertCount(t, name) + (if seeded then 0 else 1)
  {
    var u := if seeded then [Perform(GetTable(name)), CountRows(name)]
             else [Perform(GetTable(name)), CountRows(name), InsertRow(name), ReadInsertedId(name)];
    InsertCountConcat(t, u, name);
    var tail := [InsertRow(name), ReadInsertedId(name)];
    assert InsertCount(tail, name) == 1 by {
      assert tail[1..] == [ReadInsertedId(name)] && tail[1..][1..] == [];
    }
    assert [Perform(GetTable(name)), CountRows(name)] + tail
        == [Perform(GetTable(name)), CountRows(name), InsertRow(name), ReadInsertedId(name)];
    InsertCountConcat([Perform(GetTable(name)), CountRows(name)], tail, name);
    var head := [Perform(GetTable(name)), CountRows(name)];
    assert InsertCount(head, name) == 0 by {
      assert head[1..] == [CountRows(name)] && head[1..][1..] == [];
    }
  }

  /** Exactly-once seeding: with nothing failing, a plan whose only table
      step is its last leaves that table with one row if it had none (and
      creates it, with the step's schema, if it was absent), and with its
      rows untouched otherwise; `InsertRow` is sent exactly once in the
      first case and never in the second. */
  lemma ExecSeedsOnce(w: World, prefix: seq<Step>, name: string, schema: Schema)
    requires forall k :: 0 <= k < |prefix| ==> !prefix[k].EnsureSeededTable?
    ensures var r := Exec(Start(w), prefix + [EnsureSeededTable(name, schema)], {});
            var before := RowCount(w, name);
            && name in r.world.tables
            && r.world.tables[name].rows == (if before > 0 then before else 1)
            && r.world.tables[name].schema == (if name in w.tables then w.tables[name].schema else schema)
            && InsertCount(r.trace, name) == (if before > 0 then 0 else 1)
  {
    var last := EnsureSeededTable(name, schema);
    var r1 := Exec(Start(w), prefix, {});
    ExecArtifacts(Start(w), prefix);
    ExecKeepsTables(Start(w), prefix, {});
    InsertCountNone(r1.trace, name);
    ExecConcat(Start(w), prefix, [last], {});
    ExecSingle(r1, last);
    SeedStepOnce(r1, name, schema);
  }

  lemma ExecSingle(r: Run, s: Step)
    ensures Exec(r, [s], {}) == ExecStep(r, s, {})
  {
    assert [s][1..] == [];
  }

  /** Idempotence: running a plan again, with nothing failing, on the world
      a successful run of it left, issues no creating request (no database,
      user, password, table or row) and leaves that world exactly as it is. */
  lemma ExecIdempotent(w: World, plan: seq<Step>)
    ensures var first := Exec(Start(w), plan, {});
            var second := Exec(Start(first.world), plan, {});
            && !first.failed && !second.failed
            && second.world == first.world
            && forall i :: 0 <= i < |second.trace| ==> !Creates(second.trace[i])
  {
    var first := Exec(Start(w), plan, {});
    ExecArtifacts(Start(w), plan);
    ExecEnsuresAll(Start(w), plan);
    ExecWhenEnsured(Start(first.world), plan);
    ExecArtifacts(Start(first.world), plan);
    ApplyWritesIdempotent(w.artifacts, Writes(plan));
  }
}
