/** The credential file written for every provisioned account
    (`writeCredentialsFile` in db_installer/DatabaseInstaller.go), and the
    round trip back through the credential source. */
module CredentialArtifact {
  import opened Base
  import opened Text
  import opened CredentialSource

  /** The pool index that stands for "no index" (singleton roles). */
  const NoIndex := -1

  /** The account-name suffix: empty for `NoIndex`, else the decimal index. */
  function IndexSuffix(userCount: int): (s: string)
    ensures s == "" <==> userCount == NoIndex
    ensures Delimiter !in s && '\n' !in s && '\r' !in s
    ensures userCount >= 0 ==> AllDigits(s) && DecimalValue(s) == userCount && (|s| == 1 || s[0] != '0')
    ensures userCount >= 0 ==> s == NatToDecimal(userCount)
  {
    if userCount >= 0 then DecimalRoundTrip(userCount); IntToDecimal(userCount)
    else if userCount != NoIndex then IntToDecimal(userCount)
    else ""
  }

  /** The account name written into the artifact: base name plus suffix. */
  function AccountName(username: string, userCount: int): string {
    username + IndexSuffix(userCount)
  }

  /** The artifact's file name inside the data directory. */
  function ArtifactName(host: string, port: string, database: string, username: string, userCount: int): string {
    ConfigPrefix + host + [Delimiter] + port + [Delimiter] + database + [Delimiter]
    + AccountName(username, userCount) + ConfigExtension
  }

  function ArtifactPath(directory: string, host: string, port: string, database: string, username: string, userCount: int): string {
    directory + "/" + ArtifactName(host, port, database, username, userCount)
  }

  /** The five lines of an artifact body for account `user`. */
  function BodyLines(user: string, password: string): seq<string> {
    ["[client]", UserKey + user, PasswordKey + password, "[mysqld]", "skip-log-bin"]
  }

  /** The artifact body: a client section with user and password, and a
      server section that disables the binary log; no final newline. */
  function ArtifactBody(username: string, userCount: int, password: string): string {
    "[client]" + "\n" + (UserKey + AccountName(username, userCount)) + "\n" + (PasswordKey + password)
    + "\n" + "[mysqld]" + "\n" + "skip-log-bin"
  }

  /** A value survives a trip through a line: no newline inside it, and no
      carriage return at its end for the line scanner to drop. */
  predicate LineSafe(v: string) {
    '\n' !in v && (|v| == 0 || v[|v| - 1] != '\r')
  }

  lemma KeyedLineSafe(key: string, v: string)
    requires |key| > 0 && '\n' !in key && key[|key| - 1] != '\r' && LineSafe(v)
    ensures '\n' !in key + v && DropCR(key + v) == key + v
  {
    var kv := key + v;
    assert forall i :: 0 <= i < |kv| ==> kv[i] == if i < |key| then key[i] else v[i - |key|];
    assert kv[|kv| - 1] == if |v| > 0 then v[|v| - 1] else key[|key| - 1];
  }

  /** A body whose pieces keep their carriage returns and whose last
      piece is non-empty scans to exactly those pieces. */
  lemma LinesOfPieces(body: string, parts: seq<string>)
    requires Split(body, '\n') == parts
    requires parts[|parts| - 1] != ""
    requires forall i :: 0 <= i < |parts| ==> DropCR(parts[i]) == parts[i]
    ensures Lines(body) == parts
  {
  }

  /** Joined lines without newlines, none losing a carriage return and the
      last one non-empty, scan back to themselves. */
  lemma LinesOfJoin(ls: seq<string>)
    requires |ls| >= 1 && ls[|ls| - 1] != ""
    requires forall i :: 0 <= i < |ls| ==> '\n' !in ls[i] && DropCR(ls[i]) == ls[i]
    ensures Lines(Join(ls, '\n')) == ls
  {
    SplitJoin(ls, '\n');
    LinesOfPieces(Join(ls, '\n'), ls);
  }

  lemma JoinFive(a: string, b: string, c: string, d: string, e: string, sep: char)
    ensures Join([a, b, c, d, e], sep) == a + [sep] + b + [sep] + c + [sep] + d + [sep] + e
  {
    var ls := [a, b, c, d, e];
    assert ls[4..] == [e];
    assert Join(ls[3..], sep) == d + [sep] + e by { assert ls[3..][1..] == ls[4..]; }
    assert Join(ls[2..], sep) == c + [sep] + (d + [sep] + e) by { assert ls[2..][1..] == ls[3..]; }
    assert Join(ls[1..], sep) == b + [sep] + (c + [sep] + (d + [sep] + e)) by { assert ls[1..][1..] == ls[2..]; }
  }

  lemma BodyIsJoin(username: string, userCount: int, password: string)
    ensures Join(BodyLines(AccountName(username, userCount), password), '\n') == ArtifactBody(username, userCount, password)
  {
    JoinFive("[client]", UserKey + AccountName(username, userCount), PasswordKey + password, "[mysqld]", "skip-log-bin", '\n');
  }

  /** The line scanner gives back exactly the five lines the writer joined. */
  lemma BodyScansToLines(username: string, userCount: int, password: string)
    requires LineSafe(AccountName(username, userCount)) && LineSafe(password)
    ensures Lines(ArtifactBody(username, userCount, password)) == BodyLines(AccountName(username, userCount), password)
  {
    var ls := BodyLines(AccountName(username, userCount), password);
    KeyedLineSafe(UserKey, AccountName(username, userCount));
    KeyedLineSafe(PasswordKey, password);
    BodyIsJoin(username, userCount, password);
    LinesOfJoin(ls);
  }

  lemma KeyedLine(key: string, v: string)
    ensures HasPrefix(key + v, key) && (key + v)[|key|..] == v
  {
    assert (key + v)[..|key|] == key;
  }

  /** The five body lines assign exactly `user` and `password`. */
  lemma BodyLinesAssign(user: string, password: string)
    ensures LastAssigned(BodyLines(user, password), UserKey) == user
    ensures LastAssigned(BodyLines(user, password), PasswordKey) == password
  {
    var ls := BodyLines(user, password);
    KeyedLine(UserKey, user);
    KeyedLine(PasswordKey, password);
    assert ls[2][0] == 'p' && ls[3][0] == '[' && ls[4][0] == 's';
    assert !HasPrefix(ls[2], UserKey) && !HasPrefix(ls[3], UserKey) && !HasPrefix(ls[4], UserKey);
    assert !HasPrefix(ls[3], PasswordKey) && !HasPrefix(ls[4], PasswordKey);
    LastAssignedAt(ls, UserKey, 1);
    LastAssignedAt(ls, PasswordKey, 2);
  }

  /** Parsing a written body recovers the account name and the password. */
  lemma BodyRoundTrip(username: string, userCount: int, password: string)
    requires LineSafe(AccountName(username, userCount)) && LineSafe(password)
    ensures ParseBody(ArtifactBody(username, userCount, password))
            == Assignments(AccountName(username, userCount), password)
  {
    var user := AccountName(username, userCount);
    var lines := Lines(ArtifactBody(username, userCount, password));
    BodyScansToLines(username, userCount, password);
    BodyLinesAssign(user, password);
    assert LastAssigned(lines, UserKey) == user;
    assert LastAssigned(lines, PasswordKey) == password;
  }

  /** The artifact name splits on `#` into the prefix, host, port, database
      and the account name with its extension, when those contain no `#`. */
  lemma NamePieces(host: string, port: string, database: string, username: string, userCount: int)
    requires Delimiter !in host && Delimiter !in port && Delimiter !in database && Delimiter !in username
    ensures Split(ArtifactName(host, port, database, username, userCount), Delimiter)
            == ["holistic_db_config", host, port, database, AccountName(username, userCount) + ConfigExtension]
  {
    var last := AccountName(username, userCount) + ConfigExtension;
    var pieces := ["holistic_db_config", host, port, database, last];
    assert Delimiter !in last by {
      var suffix := IndexSuffix(userCount);
      assert last == username + suffix + ConfigExtension;
      forall i | 0 <= i < |last| ensures last[i] != Delimiter {
        if i < |username| { assert last[i] == username[i]; }
        else if i < |username| + |suffix| { assert last[i] == suffix[i - |username|]; }
        else { assert last[i] == ConfigExtension[i - |username| - |suffix|]; }
      }
    }
    JoinFive("holistic_db_config", host, port, database, last, Delimiter);
    assert ConfigPrefix == "holistic_db_config" + [Delimiter];
    assert Join(pieces, Delimiter) == ArtifactName(host, port, database, username, userCount);
    SplitJoin(pieces, Delimiter);
  }

  /** Regrouping the nine parts of an artifact name into prefix, middle
      and ending. */
  lemma Regroup(p: string, h: string, d1: string, po: string, d2: string, db: string, d3: string, a: string, x: string)
    ensures p + h + d1 + po + d2 + db + d3 + a + x == p + (h + d1 + po) + (d2 + db + d3 + a + x)
  {
  }

  /** A name laid out like an artifact's is a candidate for the account
      name it ends with. */
  lemma LaidOutIsCandidate(host: string, port: string, database: string, account: string)
    ensures IsCandidate(DirEntry(ConfigPrefix + host + [Delimiter] + port + [Delimiter] + database + [Delimiter]
                                 + account + ConfigExtension, false), database, account)
  {
    var middle := host + [Delimiter] + port;
    var ending := ConfigEnding(database, account);
    Regroup(ConfigPrefix, host, [Delimiter], port, [Delimiter], database, [Delimiter], account, ConfigExtension);
    ConcatAffixes(ConfigPrefix, middle + ending);
    ConcatAffixes(ConfigPrefix + middle, ending);
    assert ConfigPrefix + middle + ending == ConfigPrefix + (middle + ending);
  }

  /** The artifact's name is a candidate for its own account name. */
  lemma ArtifactIsCandidate(host: string, port: string, database: string, username: string, userCount: int)
    ensures IsCandidate(DirEntry(ArtifactName(host, port, database, username, userCount), false),
                        database, AccountName(username, userCount))
  {
    LaidOutIsCandidate(host, port, database, AccountName(username, userCount));
  }

  /** Writing an artifact and then discovering the account it names gives
      back the host, port, database, account name and password that were
      written, whatever else the directory holds before it. */
  lemma ArtifactRoundTrip(entries: seq<DirEntry>, bodies: map<string, string>,
                          host: string, port: string, database: string,
                          username: string, userCount: int, password: string)
    requires Delimiter !in host && Delimiter !in port && Delimiter !in database && Delimiter !in username
    requires LineSafe(AccountName(username, userCount)) && LineSafe(password)
    requires AccountName(username, userCount) != "" && password != ""
    ensures var name := ArtifactName(host, port, database, username, userCount);
            var account := AccountName(username, userCount);
            GetCredentialDetails(Listed(entries + [DirEntry(name, false)]),
                                 bodies[name := ArtifactBody(username, userCount, password)], database, account)
            == Lookup(Details(host, port, database, account, password), [])
  {
    var name := ArtifactName(host, port, database, username, userCount);
    var account := AccountName(username, userCount);
    var listing := entries + [DirEntry(name, false)];
    var bodies' := bodies[name := ArtifactBody(username, userCount, password)];
    ArtifactIsCandidate(host, port, database, username, userCount);
    assert listing[|listing| - 1] == DirEntry(name, false);
    assert ChosenConfig(listing, database, account) == Some(name);
    NamePieces(host, port, database, username, userCount);
    BodyRoundTrip(username, userCount, password);
    assert ParseBody(bodies'[name]) == Assignments(account, password);
  }
}
