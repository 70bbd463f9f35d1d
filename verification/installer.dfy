/** The `install` operation of db_installer/DatabaseInstaller.go: discover
    the four roles' credentials, check that their user names and passwords
    are unique, then run the fixed provisioning plan against the gateway. */
module Installer {
  import opened Base
  import opened Text
  import opened Tally
  import opened CredentialSource
  import opened CredentialArtifact
  import opened Gateway
  import opened Provisioning

  /** The database name every role's configuration file is looked up for. */
  const ConfigDatabase := "holistic"
  const RootRole := "root"
  const MigrationRole := "holistic_mig"
  const WriteRole := "holistic_w"
  const ReadRole := "holistic_r"

  /** Number of numbered write and read accounts. */
  const PoolSize: nat := 100
  const AllTables := "*"
  const MigrationTable := "DatabaseMigration"

  /** The schema of the table that tracks schema versions: an unsigned
      auto-increment key, and `current` / `desired` versions defaulting to
      -1 and 0. */
  const MigrationSchema: Schema := [
    Column("database_migration_id", "uint64", true, true, None),
    Column("current", "int64", false, false, Some(-1)),
    Column("desired", "int64", false, false, Some(0))
  ]

  datatype Login = Login(username: string, password: string)

  /** Everything the provisioning plan depends on. */
  datatype Config = Config(directory: string, host: string, port: string, database: string,
                           root: Login, migration: Login, write: Login, read: Login)

  datatype InstallError =
    | Discovery(error: DiscoveryError)
    | DuplicateUsername(name: string, count: nat)
    | DuplicatePassword(count: nat)
    | GatewayFailed(request: Request)

  /** Errors reported by `install`, the final world and every request issued. */
  datatype Report = Report(errors: seq<InstallError>, world: World, trace: seq<Request>)

  // ---------------------------------------------------------------------
  // The plan.

  /** Write-pool account `i`: the write base name followed by `i` in decimal. */
  function WriterName(c: Config, i: nat): string {
    AccountName(c.write.username, i)
  }

  function ReaderName(c: Config, i: nat): string {
    AccountName(c.read.username, i)
  }

  function Privilege(c: Config, user: string, privilege: string): GrantRow {
    GrantRow(user, privilege, c.database, AllTables)
  }

  /** Persist the credential file of account `username` (+ index suffix). */
  function PersistStep(c: Config, login: Login, userCount: int): Step {
    Persist(ArtifactPath(c.directory, c.host, c.port, c.database, login.username, userCount),
            ArtifactBody(login.username, userCount, login.password))
  }

  /** Lines 201-305: connect, ensure the database, configure the server,
      ensure the migration user with all privileges and write its file. */
  function SetupSteps(c: Config): seq<Step> {
    [ Do(OpenClientManager),
      Do(GetClient(c.host, c.port, c.database, c.root.username)),
      EnsureDatabase(c.database, Utf8mb4),
      Do(SetDatabaseUsername(c.root.username)),
      Do(UseDatabase(c.database)),
      Do(DisableGeneralLog),
      Do(SetTimeZoneUtc),
      Do(SetSqlMode),
      EnsureUser(c.migration.username, c.migration.password, c.host),
      Do(GetUser(c.migration.username)),
      GrantPrivilege(Privilege(c, c.migration.username, "ALL")),
      PersistStep(c, c.migration, NoIndex) ]
  }

  /** Lines 310-388: pool member `i`, the write account before the read one. */
  function MemberSteps(c: Config, i: nat): seq<Step> {
    [ EnsureUser(WriterName(c, i), c.write.password, c.host),
      Do(GetUser(WriterName(c, i))),
      GrantPrivilege(Privilege(c, WriterName(c, i), "INSERT")),
      GrantPrivilege(Privilege(c, WriterName(c, i), "UPDATE")),
      GrantPrivilege(Privilege(c, WriterName(c, i), "SELECT")),
      PersistStep(c, c.write, i),
      EnsureUser(ReaderName(c, i), c.read.password, c.host),
      Do(GetUser(ReaderName(c, i))),
      GrantPrivilege(Privilege(c, ReaderName(c, i), "SELECT")),
      PersistStep(c, c.read, i) ]
  }

  /** Lines 307-391: members 0, 1, ..., n - 1 in order. */
  function PoolSteps(c: Config, n: nat): seq<Step> {
    if n == 0 then [] else PoolSteps(c, n - 1) + MemberSteps(c, n - 1)
  }

  /** Lines 394-465: switch to the migration user, then ensure the version
      table and its one seed row. */
  function TableSteps(c: Config): seq<Step> {
    [ Do(SetClientUsername(c.migration.username)),
      EnsureSeededTable(MigrationTable, MigrationSchema) ]
  }

  function Plan(c: Config): seq<Step> {
    SetupSteps(c) + PoolSteps(c, PoolSize) + TableSteps(c)
  }

  const SetupLength: nat := 12
  const MemberLength: nat := 10

  /** Indexing a concatenation. */
  lemma ConcatAt<T>(a: seq<T>, b: seq<T>, j: nat)
    requires j < |a| + |b|
    ensures (a + b)[j] == if j < |a| then a[j] else b[j - |a|]
  {
  }

  /** Step `k` of member `i` sits at position `10 * i + k` of the pool. */
  lemma {:induction false} PoolStepAt(c: Config, n: nat, i: nat, k: nat)
    requires i < n && k < MemberLength
    ensures |PoolSteps(c, n)| == MemberLength * n
    ensures PoolSteps(c, n)[MemberLength * i + k] == MemberSteps(c, i)[k]
  {
    PoolLength(c, n);
    PoolLength(c, n - 1);
    var a, b := PoolSteps(c, n - 1), MemberSteps(c, n - 1);
    assert PoolSteps(c, n) == a + b;
    var j := MemberLength * i + k;
    if i < n - 1 {
      PoolStepAt(c, n - 1, i, k);
      assert j < |a|;
      ConcatAt(a, b, j);
    } else {
      assert j == |a| + k;
      ConcatAt(a, b, j);
    }
  }

  lemma {:induction false} PoolLength(c: Config, n: nat)
    ensures |PoolSteps(c, n)| == MemberLength * n
  {
    if n > 0 {
      PoolLength(c, n - 1);
    }
  }

  /** The pool's steps in the whole plan: member `i`'s step `k` is at
      position `12 + 10 * i + k`; so for every `i` the write account is
      ensured (position 12 + 10i) before the read account (12 + 10i + 6),
      and member `i` comes before member `i + 1`. */
  lemma PlanMemberStep(c: Config, i: nat, k: nat)
    requires i < PoolSize && k < MemberLength
    ensures |Plan(c)| == SetupLength + MemberLength * PoolSize + 2
    ensures Plan(c)[SetupLength + MemberLength * i + k] == MemberSteps(c, i)[k]
  {
    PoolStepAt(c, PoolSize, i, k);
  }

  /** The numbered accounts of one pool have pairwise distinct names. */
  lemma PoolNamesDistinct(base: string, i: nat, j: nat)
    requires i != j
    ensures AccountName(base, i) != AccountName(base, j)
  {
    assert AccountName(base, i)[|base|..] == IndexSuffix(i);
    assert AccountName(base, j)[|base|..] == IndexSuffix(j);
  }

  // ---------------------------------------------------------------------
  // Discovery and uniqueness, before anything is sent to the gateway.

  datatype Discovered = Discovered(root: Lookup, migration: Lookup, write: Lookup, read: Lookup)

  /** Lines 147-165: look up all four roles. */
  function Discover(listing: Listing, bodies: map<string, string>): Discovered {
    Discovered(GetCredentialDetails(listing, bodies, ConfigDatabase, RootRole),
               GetCredentialDetails(listing, bodies, ConfigDatabase, MigrationRole),
               GetCredentialDetails(listing, bodies, ConfigDatabase, WriteRole),
               GetCredentialDetails(listing, bodies, ConfigDatabase, ReadRole))
  }

  function AsInstallErrors(errs: seq<DiscoveryError>): (r: seq<InstallError>)
    ensures |r| == |errs| && forall k :: 0 <= k < |r| ==> r[k] == Discovery(errs[k])
  {
    seq(|errs|, k requires 0 <= k < |errs| => Discovery(errs[k]))
  }

  /** All four roles' discovery errors, root first, then migration, write
      and read. */
  function DiscoveryErrors(d: Discovered): seq<InstallError> {
    AsInstallErrors(d.root.errors) + AsInstallErrors(d.migration.errors)
    + AsInstallErrors(d.write.errors) + AsInstallErrors(d.read.errors)
  }

  function Usernames(d: Discovered): seq<string> {
    [d.root.details.username, d.migration.details.username, d.write.details.username, d.read.details.username]
  }

  function Passwords(d: Discovered): seq<string> {
    [d.root.details.password, d.migration.details.password, d.write.details.password, d.read.details.password]
  }

  /** Lines 171-182: one error per user name that occurs more than once,
      naming it and its count. */
  function DuplicateUsernames(usernames: seq<string>): (errs: seq<InstallError>)
    ensures errs == [] <==> Distinct(usernames)
    ensures forall x :: Occurrences(usernames, x) >= 2 <==> DuplicateUsername(x, Occurrences(usernames, x)) in errs
    ensures forall k :: 0 <= k < |errs| ==>
              errs[k].DuplicateUsername? && errs[k].count == Occurrences(usernames, errs[k].name) && errs[k].count >= 2
    ensures forall j, k :: 0 <= j < k < |errs| ==> errs[j].name != errs[k].name
    ensures |errs| == |Repeats(usernames)|
  {
    var users := Repeats(usernames);
    NoRepeatsIffDistinct(usernames);
    var errs := seq(|users|, k requires 0 <= k < |users| => DuplicateUsername(users[k].0, users[k].1));
    assert forall k :: 0 <= k < |users| ==> errs[k] == DuplicateUsername(users[k].0, users[k].1);
    errs
  }

  /** Lines 184-195: one error per password that occurs more than once,
      with its count only. */
  function DuplicatePasswords(passwords: seq<string>): (errs: seq<InstallError>)
    ensures errs == [] <==> Distinct(passwords)
    ensures forall k :: 0 <= k < |errs| ==> errs[k].DuplicatePassword? && errs[k].count >= 2
    ensures |errs| == |Repeats(passwords)|
    ensures forall k :: 0 <= k < |errs| ==> errs[k].count == Occurrences(passwords, Repeats(passwords)[k].0)
  {
    var pwds := Repeats(passwords);
    NoRepeatsIffDistinct(passwords);
    seq(|pwds|, k requires 0 <= k < |pwds| => DuplicatePassword(pwds[k].1))
  }

  /** What a concatenation of user-name errors and password errors holds,
      position by position and as a collection. */
  lemma ConcatErrors(users: seq<InstallError>, pwds: seq<InstallError>)
    requires forall k :: 0 <= k < |pwds| ==> pwds[k].DuplicatePassword?
    ensures forall k :: 0 <= k < |users| ==> (users + pwds)[k] == users[k]
    ensures forall k :: |users| <= k < |users| + |pwds| ==> (users + pwds)[k] == pwds[k - |users|]
    ensures forall e :: e in users + pwds <==> e in users || e in pwds
    ensures forall e: InstallError :: e.DuplicateUsername? ==> (e in users + pwds <==> e in users)
  {
  }

  /** The user-name half of the combined error list. */
  lemma UserErrorsInConcat(usernames: seq<string>, passwords: seq<string>)
    ensures var errs := DuplicateUsernames(usernames) + DuplicatePasswords(passwords);
            (forall x :: Occurrences(usernames, x) >= 2 <==> DuplicateUsername(x, Occurrences(usernames, x)) in errs) &&
            (forall k :: 0 <= k < |errs| && errs[k].DuplicateUsername? ==>
               errs[k].count == Occurrences(usernames, errs[k].name) && errs[k].count >= 2) &&
            (forall j, k :: 0 <= j < k < |errs| && errs[j].DuplicateUsername? && errs[k].DuplicateUsername? ==>
               errs[j].name != errs[k].name)
  {
    var users, pwds := DuplicateUsernames(usernames), DuplicatePasswords(passwords);
    ConcatErrors(users, pwds);
  }

  /** The password half of the combined error list: it follows the user-name
      errors, one error per repeated password with that password's count. */
  lemma PasswordErrorsInConcat(usernames: seq<string>, passwords: seq<string>)
    ensures var errs := DuplicateUsernames(usernames) + DuplicatePasswords(passwords);
            |errs| == |Repeats(usernames)| + |Repeats(passwords)| &&
            (forall k :: 0 <= k < |errs| && errs[k].DuplicatePassword? ==> errs[k].count >= 2) &&
            (forall j :: 0 <= j < |Repeats(passwords)| ==>
               errs[|Repeats(usernames)| + j] == DuplicatePassword(Occurrences(passwords, Repeats(passwords)[j].0)))
  {
    var users, pwds := DuplicateUsernames(usernames), DuplicatePasswords(passwords);
    ConcatErrors(users, pwds);
    forall j | 0 <= j < |Repeats(passwords)|
      ensures (users + pwds)[|Repeats(usernames)| + j] == DuplicatePassword(Occurrences(passwords, Repeats(passwords)[j].0))
    {
      assert (users + pwds)[|users| + j] == pwds[j];
      assert pwds[j].DuplicatePassword? && pwds[j].count == Occurrences(passwords, Repeats(passwords)[j].0);
    }
  }

  /** Lines 171-195: the user-name errors, then the password errors. */
  function UniquenessErrors(usernames: seq<string>, passwords: seq<string>): (errs: seq<InstallError>)
    ensures errs == [] <==> Distinct(usernames) && Distinct(passwords)
    ensures forall x :: Occurrences(usernames, x) >= 2 <==> DuplicateUsername(x, Occurrences(usernames, x)) in errs
    ensures forall k :: 0 <= k < |errs| && errs[k].DuplicateUsername? ==>
              errs[k].count == Occurrences(usernames, errs[k].name) && errs[k].count >= 2
    ensures forall j, k :: 0 <= j < k < |errs| && errs[j].DuplicateUsername? && errs[k].DuplicateUsername? ==>
              errs[j].name != errs[k].name
    ensures forall k :: 0 <= k < |errs| && errs[k].DuplicatePassword? ==> errs[k].count >= 2
    ensures |errs| == |Repeats(usernames)| + |Repeats(passwords)|
    ensures forall j :: 0 <= j < |Repeats(passwords)| ==>
              errs[|Repeats(usernames)| + j] == DuplicatePassword(Occurrences(passwords, Repeats(passwords)[j].0))
  {
    UserErrorsInConcat(usernames, passwords);
    PasswordErrorsInConcat(usernames, passwords);
    DuplicateUsernames(usernames) + DuplicatePasswords(passwords)
  }

  /** The plan's inputs: host and port from the root file, database from the
      migration file, and each role's user name and password. */
  function ConfigOf(directory: string, d: Discovered): Config {
    Config(directory, d.root.details.host, d.root.details.port, d.migration.details.database,
           Login(d.root.details.username, d.root.details.password),
           Login(d.migration.details.username, d.migration.details.password),
           Login(d.write.details.username, d.write.details.password),
           Login(d.read.details.username, d.read.details.password))
  }

  /** The report of a fail-fast run from `w`: its failing request, if any,
      is the only error. */
  function RunReport(w: World, r: Run, fails: set<nat>): (rep: Report)
    requires FollowsFailFast(Start(w), r, fails) && Extends(w, r.world)
    ensures Extends(w, rep.world)
    ensures rep.errors == [] ==> forall i :: 0 <= i < |rep.trace| ==> i !in fails
    ensures rep.errors != [] ==>
              && |rep.trace| > 0 && rep.errors == [GatewayFailed(rep.trace[|rep.trace| - 1])]
              && |rep.trace| - 1 in fails
              && forall i :: 0 <= i < |rep.trace| - 1 ==> i !in fails
  {
    Report(if r.failed then [GatewayFailed(r.trace[|r.trace| - 1])] else [], r.world, r.trace)
  }

  /** Run any plan from `w` and report its first failing request. */
  function RunPlan(w: World, plan: seq<Step>, fails: set<nat>): (rep: Report)
    ensures Extends(w, rep.world)
    ensures rep.errors == [] ==> forall i :: 0 <= i < |rep.trace| ==> i !in fails
    ensures rep.errors != [] ==>
              && |rep.trace| > 0 && rep.errors == [GatewayFailed(rep.trace[|rep.trace| - 1])]
              && |rep.trace| - 1 in fails
              && forall i :: 0 <= i < |rep.trace| - 1 ==> i !in fails
  {
    RunReport(w, Exec(Start(w), plan, fails), fails)
  }

  /** Lines 200-465 run against the gateway: the first failing request
      ends the run and is reported as its only error. */
  function Provision(c: Config, w: World, fails: set<nat>): (rep: Report)
    ensures Extends(w, rep.world)
    ensures rep.errors == [] ==> forall i :: 0 <= i < |rep.trace| ==> i !in fails
    ensures rep.errors != [] ==>
              && |rep.trace| > 0 && rep.errors == [GatewayFailed(rep.trace[|rep.trace| - 1])]
              && |rep.trace| - 1 in fails
              && forall i :: 0 <= i < |rep.trace| - 1 ==> i !in fails
  {
    RunPlan(w, Plan(c), fails)
  }

  /** Every discovery error of every role is among the reported ones. */
  lemma AllRolesReported(d: Discovered)
    ensures forall e :: e in d.root.errors ==> Discovery(e) in DiscoveryErrors(d)
    ensures forall e :: e in d.migration.errors ==> Discovery(e) in DiscoveryErrors(d)
    ensures forall e :: e in d.write.errors ==> Discovery(e) in DiscoveryErrors(d)
    ensures forall e :: e in d.read.errors ==> Discovery(e) in DiscoveryErrors(d)
    ensures DiscoveryErrors(d) == [] <==>
              d.root.errors == [] && d.migration.errors == [] && d.write.errors == [] && d.read.errors == []
  {
    var a, b, c, e := AsInstallErrors(d.root.errors), AsInstallErrors(d.migration.errors),
                      AsInstallErrors(d.write.errors), AsInstallErrors(d.read.errors);
    assert DiscoveryErrors(d) == a + b + c + e;
    forall x | x in d.root.errors ensures Discovery(x) in DiscoveryErrors(d) {
      var k :| 0 <= k < |d.root.errors| && d.root.errors[k] == x;
      assert a[k] == Discovery(x);
    }
    forall x | x in d.migration.errors ensures Discovery(x) in DiscoveryErrors(d) {
      var k :| 0 <= k < |d.migration.errors| && d.migration.errors[k] == x;
      assert b[k] == Discovery(x);
    }
    forall x | x in d.write.errors ensures Discovery(x) in DiscoveryErrors(d) {
      var k :| 0 <= k < |d.write.errors| && d.write.errors[k] == x;
      assert c[k] == Discovery(x);
    }
    forall x | x in d.read.errors ensures Discovery(x) in DiscoveryErrors(d) {
      var k :| 0 <= k < |d.read.errors| && d.read.errors[k] == x;
      assert e[k] == Discovery(x);
    }
  }

  /** `install`: nothing reaches the gateway unless all four roles were found
      and their user names and passwords are unique; every discovery error of
      every role is reported together; after that the first failing request
      ends the run with its error. */
  function Install(directory: string, listing: Listing, bodies: map<string, string>, w: World, fails: set<nat>): (rep: Report)
    ensures var d := Discover(listing, bodies);
            DiscoveryErrors(d) != [] ==> rep == Report(DiscoveryErrors(d), w, [])
    ensures var d := Discover(listing, bodies);
            DiscoveryErrors(d) == [] && !(Distinct(Usernames(d)) && Distinct(Passwords(d))) ==>
              rep == Report(UniquenessErrors(Usernames(d), Passwords(d)), w, [])
    ensures var d := Discover(listing, bodies);
            DiscoveryErrors(d) == [] && Distinct(Usernames(d)) && Distinct(Passwords(d)) ==>
              rep == Provision(ConfigOf(directory, d), w, fails)
    ensures Extends(w, rep.world)
  {
    var d := Discover(listing, bodies);
    if DiscoveryErrors(d) != [] then Report(DiscoveryErrors(d), w, [])
    else if UniquenessErrors(Usernames(d), Passwords(d)) != [] then
      Report(UniquenessErrors(Usernames(d), Passwords(d)), w, [])
    else Provision(ConfigOf(directory, d), w, fails)
  }

  /** Every password that occurs more than once is reported with the
      number of times it occurs. */
  lemma PasswordRepeatReported(usernames: seq<string>, passwords: seq<string>, x: string)
    requires Occurrences(passwords, x) >= 2
    ensures DuplicatePassword(Occurrences(passwords, x)) in UniquenessErrors(usernames, passwords)
  {
    var errs := UniquenessErrors(usernames, passwords);
    var j :| 0 <= j < |Repeats(passwords)| && Repeats(passwords)[j].0 == x;
    assert errs[|Repeats(usernames)| + j] == DuplicatePassword(Occurrences(passwords, x));
  }

  // ---------------------------------------------------------------------
  // Properties of a whole install.

  /** Running `install` again, with nothing failing, on the world a
      successful run left (and the same configuration files) succeeds,
      issues no creating request and leaves that world exactly as it is. */
  lemma InstallIdempotent(directory: string, listing: Listing, bodies: map<string, string>, w: World)
    ensures var first := Install(directory, listing, bodies, w, {});
            var second := Install(directory, listing, bodies, first.world, {});
            first.errors == [] ==>
              && second.errors == []
              && second.world == first.world
              && forall i :: 0 <= i < |second.trace| ==> !Creates(second.trace[i])
  {
    var d := Discover(listing, bodies);
    if DiscoveryErrors(d) == [] && Distinct(Usernames(d)) && Distinct(Passwords(d)) {
      ExecIdempotent(w, Plan(ConfigOf(directory, d)));
    }
  }

  /** Whatever fails, no account the world already has is sent
      `CreateUser` or `UpdatePassword`. */
  lemma InstallNeverRepasswords(directory: string, listing: Listing, bodies: map<string, string>, w: World, fails: set<nat>)
    ensures var rep := Install(directory, listing, bodies, w, fails);
            forall i :: 0 <= i < |rep.trace| && SetsPassword(rep.trace[i]) ==> rep.trace[i].name !in w.users
  {
    var d := Discover(listing, bodies);
    var rep := Install(directory, listing, bodies, w, fails);
    if DiscoveryErrors(d) == [] && Distinct(Usernames(d)) && Distinct(Passwords(d)) {
      var r := Exec(Start(w), Plan(ConfigOf(directory, d)), fails);
      ExecNeverRepasswords(Start(w), Plan(ConfigOf(directory, d)), fails);
      assert NoRepassword(Start(w), r);
      assert rep.trace == r.trace;
    } else {
      assert rep.trace == [];
    }
  }

  lemma {:induction false} PoolHasNoTableStep(c: Config, n: nat)
    ensures forall k :: 0 <= k < |PoolSteps(c, n)| ==> !PoolSteps(c, n)[k].EnsureSeededTable?
  {
    if n > 0 {
      PoolHasNoTableStep(c, n - 1);
      var a: seq<Step>, b: seq<Step> := PoolSteps(c, n - 1), MemberSteps(c, n - 1);
      forall k | 0 <= k < |a + b| ensures !(a + b)[k].EnsureSeededTable? {
        if k >= |a| { assert (a + b)[k] == b[k - |a|]; }
      }
    }
  }

  /** Everything but the last step of the plan. */
  function PlanPrefix(c: Config): seq<Step> {
    SetupSteps(c) + PoolSteps(c, PoolSize) + [Do(SetClientUsername(c.migration.username))]
  }

  /** With nothing failing, the plan leaves the migration table with one row
      if it had none (and creates it, with its schema, if it was absent),
      and with its rows untouched otherwise; `InsertRow` is sent exactly
      once in the first case and never in the second. */
  lemma PlanSeedsOnce(c: Config, w: World)
    ensures var r := Exec(Start(w), Plan(c), {});
            var before := RowCount(w, MigrationTable);
            && MigrationTable in r.world.tables
            && r.world.tables[MigrationTable].rows == (if before > 0 then before else 1)
            && r.world.tables[MigrationTable].schema
               == (if MigrationTable in w.tables then w.tables[MigrationTable].schema else MigrationSchema)
            && InsertCount(r.trace, MigrationTable) == (if before > 0 then 0 else 1)
  {
    var prefix := PlanPrefix(c);
    assert Plan(c) == prefix + [EnsureSeededTable(MigrationTable, MigrationSchema)];
    PoolHasNoTableStep(c, PoolSize);
    var pool := PoolSteps(c, PoolSize);
    forall k | 0 <= k < |prefix| ensures !prefix[k].EnsureSeededTable? {
      if 12 <= k < 12 + |pool| { assert prefix[k] == pool[k - 12]; }
    }
    ExecSeedsOnce(w, prefix, MigrationTable, MigrationSchema);
  }

  /** Exactly-once seeding for a successful install. */
  lemma InstallSeedsOnce(directory: string, listing: Listing, bodies: map<string, string>, w: World)
    ensures var rep := Install(directory, listing, bodies, w, {});
            var before := RowCount(w, MigrationTable);
            rep.errors == [] ==>
              && MigrationTable in rep.world.tables
              && rep.world.tables[MigrationTable].rows == (if before > 0 then before else 1)
              && rep.world.tables[MigrationTable].schema
                 == (if MigrationTable in w.tables then w.tables[MigrationTable].schema else MigrationSchema)
              && InsertCount(rep.trace, MigrationTable) == (if before > 0 then 0 else 1)
  {
    var d := Discover(listing, bodies);
    if DiscoveryErrors(d) == [] && Distinct(Usernames(d)) && Distinct(Passwords(d)) {
      PlanSeedsOnce(ConfigOf(directory, d), w);
    }
  }

  /** What a successful install leaves in place for configuration `c`:
      the database, the migration user with all privileges, every pool
      account with its privileges, the seeded migration table, and the
      credential file of the migration user and of every pool account. */
  ghost predicate Provisioned(c: Config, v: World) {
    && c.database in v.databases
    && c.migration.username in v.users
    && Privilege(c, c.migration.username, "ALL") in v.grants
    && PersistStep(c, c.migration, NoIndex).path in v.artifacts
    && (forall i :: 0 <= i < PoolSize ==>
          && WriterName(c, i) in v.users
          && Privilege(c, WriterName(c, i), "INSERT") in v.grants
          && Privilege(c, WriterName(c, i), "UPDATE") in v.grants
          && Privilege(c, WriterName(c, i), "SELECT") in v.grants
          && PersistStep(c, c.write, i).path in v.artifacts
          && ReaderName(c, i) in v.users
          && Privilege(c, ReaderName(c, i), "SELECT") in v.grants
          && PersistStep(c, c.read, i).path in v.artifacts)
    && MigrationTable in v.tables && v.tables[MigrationTable].rows > 0
  }

  /** Where the steps that matter sit in a plan for `c`. */
  ghost predicate Shaped(c: Config, plan: seq<Step>) {
    && |plan| == SetupLength + MemberLength * PoolSize + 2
    && plan[2] == EnsureDatabase(c.database, Utf8mb4)
    && plan[8] == EnsureUser(c.migration.username, c.migration.password, c.host)
    && plan[10] == GrantPrivilege(Privilege(c, c.migration.username, "ALL"))
    && plan[11] == PersistStep(c, c.migration, NoIndex)
    && plan[|plan| - 1] == EnsureSeededTable(MigrationTable, MigrationSchema)
    && forall i, k :: 0 <= i < PoolSize && 0 <= k < MemberLength ==>
         plan[SetupLength + MemberLength * i + k] == MemberSteps(c, i)[k]
  }

  lemma PlanShaped(c: Config)
    ensures Shaped(c, Plan(c))
  {
    PoolLength(c, PoolSize);
    forall i, k | 0 <= i < PoolSize && 0 <= k < MemberLength
      ensures Plan(c)[SetupLength + MemberLength * i + k] == MemberSteps(c, i)[k]
    {
      PlanMemberStep(c, i, k);
    }
  }

  /** Every step of `plan` is in place in `v` and every file it persists is
      present. */
  ghost predicate AllInPlace(v: World, plan: seq<Step>) {
    && (forall k :: 0 <= k < |plan| ==> Ensured(v, plan[k]))
    && (forall k :: 0 <= k < |plan| && plan[k].Persist? ==> plan[k].path in v.artifacts)
  }

  /** Pool member `i` of a shaped plan is in place once the whole plan is. */
  lemma MemberInPlace(c: Config, v: World, plan: seq<Step>, i: nat)
    requires Shaped(c, plan) && AllInPlace(v, plan) && i < PoolSize
    ensures && WriterName(c, i) in v.users
            && Privilege(c, WriterName(c, i), "INSERT") in v.grants
            && Privilege(c, WriterName(c, i), "UPDATE") in v.grants
            && Privilege(c, WriterName(c, i), "SELECT") in v.grants
            && PersistStep(c, c.write, i).path in v.artifacts
            && ReaderName(c, i) in v.users
            && Privilege(c, ReaderName(c, i), "SELECT") in v.grants
            && PersistStep(c, c.read, i).path in v.artifacts
  {
    var base := SetupLength + MemberLength * i;
    var m := MemberSteps(c, i);
    assert plan[base] == m[0] && plan[base + 2] == m[2] && plan[base + 3] == m[3];
    assert plan[base + 4] == m[4] && plan[base + 5] == m[5] && plan[base + 6] == m[6];
    assert plan[base + 8] == m[8] && plan[base + 9] == m[9];
    assert Ensured(v, plan[base]) && Ensured(v, plan[base + 2]) && Ensured(v, plan[base + 3]);
    assert Ensured(v, plan[base + 4]) && Ensured(v, plan[base + 6]) && Ensured(v, plan[base + 8]);
  }

  /** A world in which every step of a shaped plan is in place is provisioned. */
  lemma InPlaceProvisioned(c: Config, v: World, plan: seq<Step>)
    requires Shaped(c, plan) && AllInPlace(v, plan)
    ensures Provisioned(c, v)
  {
    assert Ensured(v, plan[2]) && Ensured(v, plan[8]) && Ensured(v, plan[10]);
    assert Ensured(v, plan[|plan| - 1]);
    assert plan[11].Persist?;
    forall i | 0 <= i < PoolSize
      ensures && WriterName(c, i) in v.users
              && Privilege(c, WriterName(c, i), "INSERT") in v.grants
              && Privilege(c, WriterName(c, i), "UPDATE") in v.grants
              && Privilege(c, WriterName(c, i), "SELECT") in v.grants
              && PersistStep(c, c.write, i).path in v.artifacts
              && ReaderName(c, i) in v.users
              && Privilege(c, ReaderName(c, i), "SELECT") in v.grants
              && PersistStep(c, c.read, i).path in v.artifacts
    {
      MemberInPlace(c, v, plan, i);
    }
  }

  /** With nothing failing, any plan shaped like the install plan leaves its
      configuration provisioned. */
  lemma ShapedProvisions(c: Config, w: World, plan: seq<Step>)
    requires Shaped(c, plan)
    ensures Provisioned(c, Exec(Start(w), plan, {}).world)
  {
    ExecEnsuresAll(Start(w), plan);
    ExecWritesEvery(Start(w), plan);
    InPlaceProvisioned(c, Exec(Start(w), plan, {}).world, plan);
  }

  /** With nothing failing, the install plan provisions its configuration. */
  lemma PlanProvisions(c: Config, w: World)
    ensures Provisioned(c, Exec(Start(w), Plan(c), {}).world)
  {
    PlanShaped(c);
    ShapedProvisions(c, w, Plan(c));
  }

  /** A successful install provisions the database, the migration user, the
      whole 100-member pool, the seeded table and every credential file,
      for the configuration its discovery produced. */
  lemma InstallProvisions(directory: string, listing: Listing, bodies: map<string, string>, w: World)
    ensures var rep := Install(directory, listing, bodies, w, {});
            rep.errors == [] ==> Provisioned(ConfigOf(directory, Discover(listing, bodies)), rep.world)
  {
    var d := Discover(listing, bodies);
    if DiscoveryErrors(d) == [] && Distinct(Usernames(d)) && Distinct(Passwords(d)) {
      PlanProvisions(ConfigOf(directory, d), w);
    }
  }

  /** The `GRANT`s of a run for `c`: ALL on the database for the migration
      user, INSERT, UPDATE and SELECT for every write account and SELECT
      for every read account. */
  ghost predicate GrantsSent(c: Config, trace: seq<Request>) {
    && Grant(Privilege(c, c.migration.username, "ALL")) in trace
    && forall i :: 0 <= i < PoolSize ==>
         && Grant(Privilege(c, WriterName(c, i), "INSERT")) in trace
         && Grant(Privilege(c, WriterName(c, i), "UPDATE")) in trace
         && Grant(Privilege(c, WriterName(c, i), "SELECT")) in trace
         && Grant(Privilege(c, ReaderName(c, i), "SELECT")) in trace
  }

  /** Pool member `i`'s grants are sent when every grant step of the plan is. */
  lemma MemberGrantsSent(c: Config, plan: seq<Step>, trace: seq<Request>, i: nat)
    requires Shaped(c, plan) && i < PoolSize
    requires forall k :: 0 <= k < |plan| && plan[k].GrantPrivilege? ==> Grant(plan[k].grant) in trace
    ensures && Grant(Privilege(c, WriterName(c, i), "INSERT")) in trace
            && Grant(Privilege(c, WriterName(c, i), "UPDATE")) in trace
            && Grant(Privilege(c, WriterName(c, i), "SELECT")) in trace
            && Grant(Privilege(c, ReaderName(c, i), "SELECT")) in trace
  {
    var base := SetupLength + MemberLength * i;
    var m := MemberSteps(c, i);
    assert plan[base + 2] == m[2] && plan[base + 3] == m[3];
    assert plan[base + 4] == m[4] && plan[base + 8] == m[8];
  }

  /** With nothing failing, a plan shaped like the install plan sends all of
      its configuration's grants. */
  lemma ShapedSendsGrants(c: Config, w: World, plan: seq<Step>)
    requires Shaped(c, plan)
    ensures GrantsSent(c, Exec(Start(w), plan, {}).trace)
  {
    var trace := Exec(Start(w), plan, {}).trace;
    ExecSendsGrants(Start(w), plan);
    assert plan[10].GrantPrivilege?;
    forall i | 0 <= i < PoolSize
      ensures && Grant(Privilege(c, WriterName(c, i), "INSERT")) in trace
              && Grant(Privilege(c, WriterName(c, i), "UPDATE")) in trace
              && Grant(Privilege(c, WriterName(c, i), "SELECT")) in trace
              && Grant(Privilege(c, ReaderName(c, i), "SELECT")) in trace
    {
      MemberGrantsSent(c, plan, trace, i);
    }
  }

  /** Every successful install sends all the grants again, on any world:
      in particular a re-run on the world a previous install left grants
      ALL to the migration user and the pool's privileges once more. */
  lemma InstallGrantsEveryRun(directory: string, listing: Listing, bodies: map<string, string>, w: World)
    ensures var rep := Install(directory, listing, bodies, w, {});
            rep.errors == [] ==> GrantsSent(ConfigOf(directory, Discover(listing, bodies)), rep.trace)
  {
    var d := Discover(listing, bodies);
    if DiscoveryErrors(d) == [] && Distinct(Usernames(d)) && Distinct(Passwords(d)) {
      var c := ConfigOf(directory, d);
      PlanShaped(c);
      ShapedSendsGrants(c, w, Plan(c));
    }
  }
}
