# holistic database installer — a Dafny model

This project models two sequential pieces of the holistic database tooling.

The first is the installer in `db_installer/DatabaseInstaller.go`:
- discovery and parsing of the per-role configuration files (`getCredentialDetails`);
- the credential-file writer (`writeCredentialsFile`);
- the user-name and password uniqueness check;
- the `install` orchestrator. It runs a strictly ordered, fail-fast sequence of ensure-steps against the database server. The steps cover the `holistic` database, the migration user and its grants, a pool of 100 numbered write and read accounts with their credential files, and the `DatabaseMigration` table with its single seed row.

The second is the validation phase of `InitDB` in `main.go`: the password, host-name, port-number, database-name and credential validators, the batch collection of their errors, the user-name repeat count, and the derivation of the encoded passwords.

Modules, one per file:

- `Base` (base.dfy): `Option` and `Result`.
- `Text` (text.dfy): Go's `strings.Split` with a one-character separator, its inverse `Join`, and `%d` formatting with its inverse.
- `Tally` (tally.dfy): occurrence counting and the list of repeated values, one entry each.
- `CredentialSource` (credential_source.dfy): `getCredentialDetails`. The directory listing and the file bodies are parameters. Lines are split the way `bufio.ScanLines` splits them.
- `CredentialArtifact` (credential_artifact.dfy): `writeCredentialsFile`, and the round trip back through discovery.
- `Gateway` (gateway.dfy): the database-administration client as an abstract world. The world holds:
  - databases with their encodings;
  - users with their passwords;
  - grants;
  - tables with their schemas and row counts;
  - the credential files written.

  Which requests fail is decided by an oracle: the set of failing positions in the request trace. The first failing request is recorded, has no effect, and ends the run.
- `Provisioning` (provisioning.dfy): the ensure-steps, their execution, and the properties of any plan made of them. These properties are fail-fast, idempotence, exactly-once seeding, and "existing users are never re-passworded".
- `Installer` (installer.dfy): the concrete 1014-step install plan (12 setup steps, 10 per pool member, 2 for the table), discovery of the four roles, the uniqueness check, and `Install` itself.
- `Validators` (validators.dfy): the `main.go` validators. Go's regular expressions are modelled by their match semantics. The Unicode category tests are a parameter.
- `InitDb` (init_db.dfy): the validation phase of `InitDB` and the password derivation.

## Model

| member | source | states |
|---|---|---|
| Text.Split | db_installer/DatabaseInstaller.go:64 | `strings.Split` yields one more piece than there are separators, and no piece contains the separator |
| Text.SplitJoin | db_installer/DatabaseInstaller.go:64 | splitting the `#`-join of separator-free pieces gives back exactly those pieces |
| Text.JoinSplit | db_installer/DatabaseInstaller.go:64 | joining the pieces of a split with the separator gives back the string |
| Text.DecimalRoundTrip | db_installer/DatabaseInstaller.go:114 | the decimal text that `%d` produces for a natural number reads back as that number |
| Text.DecimalInjective | db_installer/DatabaseInstaller.go:114 | distinct numbers have distinct decimal texts |
| Tally.Repeats | db_installer/DatabaseInstaller.go:171-195 | one entry per value occurring at least twice, with its exact count; no value is listed twice |
| Tally.NoRepeatsIffDistinct | db_installer/DatabaseInstaller.go:171-195 | no value is repeated exactly when the values are pairwise distinct |
| CredentialSource.ChosenConfig | db_installer/DatabaseInstaller.go:41-57 | a candidate is a non-directory entry with the `holistic_db_config#` prefix and the `#<database>#<label>.config` suffix; none is chosen iff no entry is a candidate, otherwise the last candidate in listing order is chosen |
| CredentialSource.LastAssigned | db_installer/DatabaseInstaller.go:85-93 | the value after the key on the last line that starts with the key, or empty when no line does |
| CredentialSource.ScanAssignments | db_installer/DatabaseInstaller.go:84-93 | one pass over the lines leaves `user` and `password` at their last assigned values |
| CredentialSource.MissingFields | db_installer/DatabaseInstaller.go:97-102 | an empty password adds exactly one error and an empty user adds exactly one; nothing else is reported; both are reported when both are missing, password first |
| CredentialSource.GetCredentialDetails | db_installer/DatabaseInstaller.go:22-108 | the outcomes are: an unreadable directory gives exactly one error; no candidate gives exactly one not-found error; a chosen name that does not split on `#` into exactly five parts gives exactly one wrong-format error with the part count; a chosen file that cannot be opened gives exactly one file-unreadable error; a readable chosen file gives exactly its missing-field errors; any error gives five empty strings and at most two errors; on success the last candidate splits into five parts, host, port and database are parts 1-3, and the user and password are the last assigned values, both non-empty |
| CredentialSource.ReturnsRequestedDatabase | db_installer/DatabaseInstaller.go:53-72 | when the requested database and label contain no `#`, a successful lookup returns the requested database |
| CredentialArtifact.IndexSuffix | db_installer/DatabaseInstaller.go:112-115 | the suffix is empty exactly for the sentinel -1; for an index of 0 or more it is the `%d` rendering of the index, reading back as the index and with no leading zero; it contains no `#` or line break |
| CredentialArtifact.NamePieces | db_installer/DatabaseInstaller.go:116 | a written file name splits on `#` into the prefix, host, port, database, and account name plus `.config` |
| CredentialArtifact.ArtifactIsCandidate | db_installer/DatabaseInstaller.go:116 | a written file is a discovery candidate for its own database and account name |
| CredentialArtifact.BodyRoundTrip | db_installer/DatabaseInstaller.go:124 | parsing a written body recovers the account name (user name plus suffix) and the password, when neither contains a line break and the account name is not empty |
| CredentialArtifact.ArtifactRoundTrip | db_installer/DatabaseInstaller.go:110-132 | discovery over a listing ending with a written file returns exactly the host, port, database, account name and password that were written, with no error |
| Gateway.IssueFollows | db_installer/DatabaseInstaller.go:219-222 | one request either fails, ending the run with no effect, or takes effect; nothing is issued after a failure |
| Gateway.FollowsTransitive | db_installer/DatabaseInstaller.go:219-305 | fail-fast runs compose: the trace only grows, no request after the first failure, and the world changes by exactly the requests that succeeded |
| Provisioning.RunEnsureDatabase | db_installer/DatabaseInstaller.go:219-236 | the database step is fail-fast and keeps every existing database, user, grant and table |
| Provisioning.EnsureDatabaseRequests | db_installer/DatabaseInstaller.go:219-236 | with no failure, the step creates the database with utf8mb4 / utf8mb4_0900_ai_ci only when the existence check says it is absent |
| Provisioning.RunEnsureUser | db_installer/DatabaseInstaller.go:268-288 | the user step is fail-fast and keeps every existing user's password |
| Provisioning.EnsureUserRequests | db_installer/DatabaseInstaller.go:268-288 | with no failure, `CreateUser` then `UpdatePassword` are sent only when the user does not exist; an existing user gets only the existence check |
| Provisioning.EnsureTableRequests | db_installer/DatabaseInstaller.go:400-434 | with no failure, the table is created, empty and with the given schema, only when it does not exist |
| Provisioning.SeedRowRequests | db_installer/DatabaseInstaller.go:436-465 | with no failure, a row is inserted, and its key read back, only when the count is 0; a count above 0 ends the step with no insert |
| Provisioning.Exec | db_installer/DatabaseInstaller.go:201-465 | a plan stops at its first failing request; the world changes by exactly the requests that succeeded and never loses a database, user password, grant, table or row |
| Provisioning.ExecNeverRepasswords | db_installer/DatabaseInstaller.go:268-288 | whatever fails, no user that existed before the run is sent `CreateUser` or `UpdatePassword` |
| Provisioning.ExecKeepsTables | db_installer/DatabaseInstaller.go:201-397 | steps other than the table step change no table and send no `CreateTable` or `InsertRow` |
| Provisioning.ExecSeedsOnce | db_installer/DatabaseInstaller.go:400-457 | with no failure, the table ends with one row if it had none and with its rows untouched otherwise; `InsertRow` is sent exactly once in the first case and never in the second |
| Provisioning.ExecEnsuresAll | db_installer/DatabaseInstaller.go:219-465 | with no failure, every step's database, user, grant or seeded table is in place at the end |
| Provisioning.ExecSendsGrants | db_installer/DatabaseInstaller.go:296-300 | with no failure, every grant step sends its `GRANT` request, whether or not the privilege is already held |
| Provisioning.ExecWritesEvery | db_installer/DatabaseInstaller.go:302-388 | with no failure, every credential file the plan writes exists at the end, and no existing file is removed |
| Provisioning.ExecIdempotent | db_installer/DatabaseInstaller.go:219-465 | running a plan again on the world its successful run left sends no create-database, create-user, update-password, create-table or insert request, and leaves that world unchanged |
| Installer.PlanMemberStep | db_installer/DatabaseInstaller.go:307-391 | pool member i's ten steps sit at positions 12 + 10i to 12 + 10i + 9 of the plan, in order: write account first, then read account, and member i before member i + 1 |
| Installer.PoolNamesDistinct | db_installer/DatabaseInstaller.go:310 | the 100 numbered account names of one pool are pairwise distinct |
| Installer.DuplicateUsernames | db_installer/DatabaseInstaller.go:171-182 | one error per user name occurring more than once, naming it with its exact count; none exactly when the user names are pairwise distinct; no name is reported twice |
| Installer.DuplicatePasswords | db_installer/DatabaseInstaller.go:184-195 | one error per repeated password, carrying only its count, which is that password's exact number of occurrences (at least 2); none exactly when the passwords are pairwise distinct |
| Installer.UniquenessErrors | db_installer/DatabaseInstaller.go:171-199 | no error exactly when the four user names are pairwise distinct and the four passwords are pairwise distinct; the user-name errors come first, one per repeated name with its exact count; the password errors follow, one per repeated password with that password's exact count |
| Installer.PasswordRepeatReported | db_installer/DatabaseInstaller.go:184-195 | every password occurring at least twice is reported with its exact count |
| Installer.AllRolesReported | db_installer/DatabaseInstaller.go:147-169 | the discovery errors of all four roles are all reported together, and none are reported exactly when no role has any |
| Installer.Install | db_installer/DatabaseInstaller.go:135-199 | a discovery error, or a repeated user name or password, ends the run before any request is sent and leaves the world as it was; otherwise the plan runs; the world only grows |
| Installer.Provision | db_installer/DatabaseInstaller.go:200-465 | a run either reports nothing and no request failed, or reports the one failing request, which is the last one sent |
| Installer.InstallIdempotent | db_installer/DatabaseInstaller.go:135-466 | re-running a successful install on the world it left succeeds, creates nothing and leaves the world unchanged |
| Installer.InstallNeverRepasswords | db_installer/DatabaseInstaller.go:268-373 | whatever fails, no account that existed before the install is created or re-passworded |
| Installer.InstallSeedsOnce | db_installer/DatabaseInstaller.go:400-457 | a successful install leaves `DatabaseMigration` with its old rows if it had any, else with exactly one inserted row, creating the table with the three-column schema only if it was absent |
| Installer.InstallProvisions | db_installer/DatabaseInstaller.go:219-391 | a successful install leaves in place: the database; the migration user with ALL; every write account i with INSERT, UPDATE and SELECT; every read account i with SELECT; the credential files of all of them; and the seeded table |
| Installer.InstallGrantsEveryRun | db_installer/DatabaseInstaller.go:296-382 | every successful install, on any world and so also a re-run on the world a previous install left, sends GRANT ALL for the migration user, INSERT, UPDATE and SELECT for every write account and SELECT for every read account |
| Validators.PasswordErrors | main.go:367-415 | accepted exactly when a lower-case letter, an upper-case letter, a number and a special character are present and more than 8 characters are classified; at most five errors, in the fixed order; at most 8 characters always draws the length error |
| Validators.ScanPassword | main.go:376-391 | the loop's flags say exactly which classes occur (first match wins) and its counter is the number of classified characters |
| Validators.ValidatePassword | main.go:367-415 | the loop-based check reports exactly the errors of the reference definition |
| Validators.LettersExactly | main.go:250-261 | `^[A-Za-z]+$` matches exactly the non-empty strings of ASCII letters |
| Validators.DigitRunExactly | main.go:274-285 | the unanchored `\d+` matches exactly the strings that contain an ASCII digit |
| Validators.HostnameErrors | main.go:298-338 | the check reports the one host-name error or nothing |
| Validators.HostnameRejectedExactly | main.go:298-338 | rejected exactly when splitting on `.` gives four parts, one failing `strconv.Atoi` and one not all letters; any name without exactly three dots is accepted, the empty string included |
| Validators.PortNumberErrors | main.go:274-292 | accepted exactly when the port contains an ASCII digit |
| Validators.DatabaseNameErrors | main.go:250-268 | accepted exactly when the name is a non-empty string of ASCII letters; a trailing newline is rejected |
| Validators.CredentialErrors | main.go:346-365 | exactly one mismatch error naming this user name comes first when the user name is not letters only, and the password errors follow in order, with nothing else; accepted exactly when the user name is letters only and the password is accepted |
| InitDb.UsernameRepeats | main.go:79-90 | one error per user name occurring more than once, with its count; none exactly when the four user names are distinct |
| InitDb.ValidationErrorsExactly | main.go:33-90 | no error exactly when every role's credentials, the host name, the port number and the database name pass and the user names are distinct; passwords are not compared |
| InitDb.InitDb | main.go:30-99 | all validation errors are returned together, before any connection; otherwise the corrected derived passwords are returned (see Findings) |
| InitDb.SharedPasswordAccepted | main.go:79-99 | four roles sharing one strong password pass validation |
| InitDb.AsWrittenIgnoresOwnPasswords | main.go:92-95 | as written, the derived write and read passwords are equal and do not depend on the configured write and read passwords |
| InitDb.AsWrittenLosesWritePassword | main.go:94 | as written, with an injective encoding, the derived write password is not the encoding of the configured one |
| InitDb.DerivedPasswordsFaithful | main.go:92-95 | corrected, with an injective encoding each derived password determines its own role's password |

## Left out

- File system access. The directory listing is a sequence of (name, is-directory) entries. File bodies are a map from name to text. The data directory is a parameter, so its construction (DatabaseInstaller.go:25-32, 136-143) is not modelled.
- `ioutil.ReadDir` returns its entries sorted by file name, so the last candidate in listing order is the candidate with the greatest name. The model accepts any listing order, which covers the sorted one. `CredentialArtifact.ArtifactRoundTrip`'s listing that ends with the written file therefore stands for a directory in which the written name is the greatest candidate.
- The bare file name passed to `os.Open` (DatabaseInstaller.go:77) is not modelled. A body is looked up by the chosen name.
- The scanner-error check at DatabaseInstaller.go:94 tests the directory error instead of the scanner error, so it never fires. The model has no scanner errors. `bufio.Scanner`'s 64 KiB line limit is not modelled.
- The files read during discovery and the files written by the install are kept apart. The round trip between them is proved separately (`CredentialArtifact.ArtifactRoundTrip`).
- A failing credential-file write leaves the credential files as they were. `os.Create` (DatabaseInstaller.go:116) truncates an existing file, so a later failing `WriteString` (lines 124-128) loses the old credentials; this truncation is not modelled, and neither is a partially written file.
- The `dao` client is not modelled internally. Connecting, choosing the database, disabling the general log, setting the time zone and the SQL mode, fetching users and tables, and switching the client's user are opaque requests: each only succeeds or fails. `client.GetDatabase()` (line 238) cannot fail and is not a request.
- A failing request is reported as that request, not as the client's error values.
- Go's map iteration order makes the order of duplicate-value errors nondeterministic. The model reports them in first-occurrence order. Its contracts state which values are reported and with which counts; the positions they give within each group follow the model's order, not Go's.
- The JSON schema of `DatabaseMigration` (DatabaseInstaller.go:407-424) is a constant list of three columns.
- The `regexp.Compile` failure branches are not modelled, because they cannot happen for the constant patterns.
- Base64 (section 4 of RFC 4648) is an opaque parameter `encode`.
- The Unicode category tables are a parameter `Categories`. `AsciiCategories` agrees with Go's tables on ASCII and puts every other character in no class.
- `main.go` lines 101-243 (the database phase) are not modelled: this is driver plumbing and does not compile as written. Reading the environment, printing and exiting are not modelled either.
- `Validate` (DatabaseInstaller.go:469-471) always succeeds and is not modelled.
- InitDb.InitDb: on success it returns the corrected derivation `InitDb.DerivePasswords` (each role's password encoded once), not what main.go:93-95 computes, which sets the write and read passwords to encode(encode(migration password)); the as-written derivation is `InitDb.DerivePasswordsAsWritten`, see Findings.
- Installer.InstallSeedsOnce: stated only for runs in which no request fails. A failed run is covered by `Installer.Install` and `Provisioning.Exec`: the world only grows, and the report names the failing request.
- Installer.InstallProvisions: stated only for runs in which no request fails, for the same reason.
- Installer.InstallIdempotent: both runs are stated without failures, with the same configuration files. Idempotence after a failed first run is not stated.

## Findings

| source | as written | input that shows it | evidently intended | confidence | as-written member | corrected member |
|---|---|---|---|---|---|---|
| main.go:94-95 | the write and read passwords are both set to the Base64 of `migration_db_password`, which line 93 has already encoded, so both become encode(encode(migration password)) | migration password `Mig#Pass2024`, write password `Wri#Pass2024`, read password `Rea#Pass2024`: the write and read users are created (lines 156, 172) with encode(encode(`Mig#Pass2024`)), not with their own passwords | each role's password is the Base64 of its own: write = encode(write password), read = encode(read password) | not executed; high | InitDb.DerivePasswordsAsWritten (shown by InitDb.AsWrittenIgnoresOwnPasswords and InitDb.AsWrittenLosesWritePassword) | InitDb.DerivePasswords (proved by InitDb.DerivedPasswordsFaithful; used by InitDb.InitDb) |
