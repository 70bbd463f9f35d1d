/** The database-administration client and the file system as the
    installer sees them: an abstract world that requests read or change, and
    a fail-fast way of issuing requests.

    Whether a request fails is decided by an oracle: the set of positions in
    the run's request trace at which the outside world reports an error.
    The first failing request is recorded, has no effect, and ends the run;
    nothing is issued after it. */
module Gateway {
  import opened Base

  datatype Encoding = Encoding(characterSet: string, collation: string)

  /** The character set and collation a new database is created with. */
  const Utf8mb4 := Encoding("utf8mb4", "utf8mb4_0900_ai_ci")

  datatype Column = Column(name: string, columnType: string, autoIncrement: bool, primaryKey: bool, defaultValue: Option<int>)

  type Schema = seq<Column>

  datatype Table = Table(schema: Schema, rows: nat)

  /** One privilege on (database filter, table filter) held by a user. */
  datatype GrantRow = GrantRow(user: string, privilege: string, database: string, table: string)

  /** Databases with their encodings, users with their passwords, grants,
      tables with their schemas and row counts, and the credential files
      written so far (path to body). */
  datatype World = World(
    databases: map<string, Encoding>,
    users: map<string, string>,
    grants: set<GrantRow>,
    tables: map<string, Table>,
    artifacts: map<string, string>)

  /** Requests whose only observable outcome is success or failure. */
  datatype Command =
    | OpenClientManager
    | GetClient(host: string, port: string, database: string, user: string)
    | SetDatabaseUsername(user: string)
    | UseDatabase(name: string)
    | DisableGeneralLog
    | SetTimeZoneUtc
    | SetSqlMode
    | GetUser(name: string)
    | SetClientUsername(user: string)
    | GetTable(name: string)

  datatype Request =
    | Perform(command: Command)
    | DatabaseExists(name: string)
    | CreateDatabase(name: string, encoding: Encoding)
    | UserExists(name: string)
    | CreateUser(name: string, password: string, host: string)
    | UpdatePassword(name: string, password: string)
    | Grant(grant: GrantRow)
    | WriteArtifact(path: string, body: string)
    | TableExists(name: string)
    | CreateTable(name: string, schema: Schema)
    | CountRows(table: string)
    | InsertRow(table: string)
    | ReadInsertedId(table: string)

  /** Requests that create or rewrite database state (grants and credential
      files are re-issued on every run and are not among them). */
  predicate Creates(q: Request) {
    q.CreateDatabase? || q.CreateUser? || q.UpdatePassword? || q.CreateTable? || q.InsertRow?
  }

  /** Requests that set a user's password: creating the user, or updating it. */
  predicate SetsPassword(q: Request) {
    q.CreateUser? || q.UpdatePassword?
  }

  function RowCount(w: World, table: string): nat {
    if table in w.tables then w.tables[table].rows else 0
  }

  /** The number of `InsertRow(table)` requests in a trace. */
  function InsertCount(qs: seq<Request>, table: string): (n: nat)
    ensures n <= |qs|
  {
    if |qs| == 0 then 0 else (if qs[0] == InsertRow(table) then 1 else 0) + InsertCount(qs[1..], table)
  }

  lemma {:induction false} InsertCountConcat(a: seq<Request>, b: seq<Request>, table: string)
    ensures InsertCount(a + b, table) == InsertCount(a, table) + InsertCount(b, table)
    decreases |a|
  {
    if |a| > 0 {
      assert (a + b)[0] == a[0];
      assert (a + b)[1..] == a[1..] + b;
      InsertCountConcat(a[1..], b, table);
      assert InsertCount(a + b, table)
             == (if a[0] == InsertRow(table) then 1 else 0) + InsertCount(a[1..] + b, table);
    } else {
      assert a + b == b;
    }
  }

  lemma {:induction false} InsertCountNone(qs: seq<Request>, table: string)
    requires forall i :: 0 <= i < |qs| ==> !qs[i].InsertRow?
    ensures InsertCount(qs, table) == 0
    decreases |qs|
  {
    if |qs| > 0 {
      InsertCountNone(qs[1..], table);
    }
  }

  /** The effect of a request that succeeds. */
  function Apply(w: World, q: Request): World {
    match q
    case CreateDatabase(name, encoding) => w.(databases := w.databases[name := encoding])
    case CreateUser(name, password, _) => w.(users := w.users[name := password])
    case UpdatePassword(name, password) => w.(users := w.users[name := password])
    case Grant(g) => w.(grants := w.grants + {g})
    case WriteArtifact(path, body) => w.(artifacts := w.artifacts[path := body])
    case CreateTable(name, schema) => w.(tables := w.tables[name := Table(schema, 0)])
    case InsertRow(table) =>
      if table in w.tables then w.(tables := w.tables[table := w.tables[table].(rows := w.tables[table].rows + 1)])
      else w
    case _ => w
  }

  /** The effect of a sequence of successful requests, in order. */
  function Replay(w: World, qs: seq<Request>): World
    decreases |qs|
  {
    if |qs| == 0 then w else Replay(Apply(w, qs[0]), qs[1..])
  }

  lemma {:induction false} ReplayConcat(w: World, a: seq<Request>, b: seq<Request>)
    ensures Replay(w, a + b) == Replay(Replay(w, a), b)
    decreases |a|
  {
    if |a| == 0 {
      assert a + b == b;
    } else {
      assert (a + b)[0] == a[0];
      assert (a + b)[1..] == a[1..] + b;
      ReplayConcat(Apply(w, a[0]), a[1..], b);
    }
  }

  /** A run: the world so far, every request issued so far, and whether the
      last one failed (which ends the run). */
  datatype Run = Run(world: World, trace: seq<Request>, failed: bool)

  function Start(w: World): Run {
    Run(w, [], false)
  }

  /** Issue one request: an ended run issues nothing; a request at a failing
      position is recorded and ends the run without effect; any other request
      is recorded and takes effect. */
  function Issue(r: Run, q: Request, fails: set<nat>): Run {
    if r.failed then r
    else if |r.trace| in fails then Run(r.world, r.trace + [q], true)
    else Run(Apply(r.world, q), r.trace + [q], false)
  }

  /** The requests of `issued` that took effect: all but a failing last one. */
  function Effective(issued: seq<Request>, failed: bool): seq<Request> {
    if failed && |issued| > 0 then issued[..|issued| - 1] else issued
  }

  /** How `r'` follows `r`: the trace only grows; an ended run stays as it
      is; the run ends exactly when the last new request is at a failing
      position, every earlier new request is at a succeeding one, and the
      world has changed by exactly the new requests that took effect. */
  ghost predicate FollowsFailFast(r: Run, r': Run, fails: set<nat>) {
    && |r.trace| <= |r'.trace| && r'.trace[..|r.trace|] == r.trace
    && (r.failed ==> r' == r)
    && (!r.failed ==>
          && (forall i :: |r.trace| <= i < |r'.trace| - 1 ==> i !in fails)
          && (r'.failed <==> |r'.trace| > |r.trace| && |r'.trace| - 1 in fails)
          && r'.world == Replay(r.world, Effective(r'.trace[|r.trace|..], r'.failed)))
  }

  lemma IssueFollows(r: Run, q: Request, fails: set<nat>)
    ensures FollowsFailFast(r, Issue(r, q, fails), fails)
  {
    var r' := Issue(r, q, fails);
    if !r.failed {
      assert r'.trace[|r.trace|..] == [q];
      assert Replay(Apply(r.world, q), []) == Apply(r.world, q);
    }
  }

  lemma FollowsTransitive(r0: Run, r1: Run, r2: Run, fails: set<nat>)
    requires FollowsFailFast(r0, r1, fails) && FollowsFailFast(r1, r2, fails)
    ensures FollowsFailFast(r0, r2, fails)
  {
    if !r0.failed && !r1.failed {
      var new1 := r1.trace[|r0.trace|..];
      var new2 := r2.trace[|r1.trace|..];
      assert r2.trace[..|r0.trace|] == r2.trace[..|r1.trace|][..|r0.trace|];
      assert r2.trace[|r0.trace|..] == new1 + new2;
      assert Effective(new1 + new2, r2.failed) == new1 + Effective(new2, r2.failed);
      ReplayConcat(r0.world, new1, Effective(new2, r2.failed));
    }
  }

  /** What a world change may do to what was there before: databases keep
      their encodings, users keep their passwords, grants are only added,
      tables keep their schemas and never lose rows. */
  ghost predicate Extends(w: World, w': World) {
    && (forall n :: n in w.databases ==> n in w'.databases && w'.databases[n] == w.databases[n])
    && (forall u :: u in w.users ==> u in w'.users && w'.users[u] == w.users[u])
    && w.grants <= w'.grants
    && (forall t :: t in w.tables ==> t in w'.tables && w'.tables[t].schema == w.tables[t].schema
                                      && w'.tables[t].rows >= w.tables[t].rows)
  }

  lemma ExtendsTransitive(w0: World, w1: World, w2: World)
    requires Extends(w0, w1) && Extends(w1, w2)
    ensures Extends(w0, w2)
  {
  }
}
