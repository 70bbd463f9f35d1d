/** Discovery and parsing of a role's credential configuration file
    (`getCredentialDetails` in db_installer/DatabaseInstaller.go).

    The data directory is given as its listing (entry names and whether each
    is a directory, or the fact that it could not be read) and the file
    bodies as a map from file name to text; a name missing from the map is a
    file that could not be opened. */
module CredentialSource {
  import opened Base
  import opened Text

  /** Every credential configuration file name starts with this. */
  const ConfigPrefix := "holistic_db_config#"
  const ConfigExtension := ".config"
  const Delimiter := '#'
  const UserKey := "user="
  const PasswordKey := "password="

  datatype DirEntry = DirEntry(name: string, isDir: bool)

  datatype Listing = Listed(entries: seq<DirEntry>) | Unreadable

  /** The five strings `getCredentialDetails` returns besides its errors. */
  datatype Details = Details(host: string, port: string, database: string, username: string, password: string)

  const Blank := Details("", "", "", "", "")

  datatype DiscoveryError =
    | DirectoryUnreadable
    | ConfigNotFound(role: string)
    | WrongFormat(role: string, parts: nat)
    | FileUnreadable(name: string)
    | PasswordMissing(name: string)
    | UserMissing(name: string)

  datatype Lookup = Lookup(details: Details, errors: seq<DiscoveryError>)

  /** The file-name ending that selects the file of `role` for `database`. */
  function ConfigEnding(database: string, role: string): string {
    [Delimiter] + database + [Delimiter] + role + ConfigExtension
  }

  /** A directory entry is considered for a role when it is a plain file
      whose name has the configuration prefix and the role's ending. */
  predicate IsCandidate(e: DirEntry, database: string, role: string) {
    !e.isDir && HasPrefix(e.name, ConfigPrefix) && HasSuffix(e.name, ConfigEnding(database, role))
  }

  /** The file chosen by the listing scan: every candidate overwrites the
      previous choice, so the last candidate in listing order wins. */
  function ChosenConfig(entries: seq<DirEntry>, database: string, role: string): (r: Option<string>)
    ensures r.None? <==> forall i :: 0 <= i < |entries| ==> !IsCandidate(entries[i], database, role)
    ensures r.Some? ==> exists i :: 0 <= i < |entries| && IsCandidate(entries[i], database, role)
                          && entries[i].name == r.value
                          && forall j :: i < j < |entries| ==> !IsCandidate(entries[j], database, role)
  {
    if |entries| == 0 then None
    else
      var last := entries[|entries| - 1];
      if IsCandidate(last, database, role) then Some(last.name)
      else
        var r := ChosenConfig(entries[..|entries| - 1], database, role);
        assert forall i :: 0 <= i < |entries| - 1 ==> entries[..|entries| - 1][i] == entries[i];
        r
  }

  /** Drop one trailing carriage return, as Go's line scanner does. */
  function DropCR(line: string): string {
    if |line| > 0 && line[|line| - 1] == '\r' then line[..|line| - 1] else line
  }

  /** The lines a Go `bufio.Scanner` with the default line splitter yields:
      the text between newlines, each without a trailing carriage return,
      and no final empty line after a terminating newline. */
  function Lines(body: string): seq<string> {
    var parts := Split(body, '\n');
    var kept := if parts[|parts| - 1] == "" then parts[..|parts| - 1] else parts;
    seq(|kept|, i requires 0 <= i < |kept| => DropCR(kept[i]))
  }

  /** The values assigned in a body: empty when never assigned. */
  datatype Assignments = Assignments(user: string, password: string)

  /** The text after `key` on the last line that starts with `key`, or ""
      when no line does: each matching line overwrites the previous value. */
  function LastAssigned(lines: seq<string>, key: string): (v: string)
    ensures (forall i :: 0 <= i < |lines| ==> !HasPrefix(lines[i], key)) ==> v == ""
    ensures forall i :: 0 <= i < |lines| && HasPrefix(lines[i], key)
                        && (forall j :: i < j < |lines| ==> !HasPrefix(lines[j], key))
                        ==> v == lines[i][|key|..]
  {
    if |lines| == 0 then ""
    else
      var last := lines[|lines| - 1];
      var init := lines[..|lines| - 1];
      assert forall i :: 0 <= i < |init| ==> init[i] == lines[i];
      if HasPrefix(last, key) then last[|key|..] else LastAssigned(init, key)
  }

  /** The value of a key is read from the last line assigning it. */
  lemma LastAssignedAt(lines: seq<string>, key: string, i: nat)
    requires i < |lines| && HasPrefix(lines[i], key)
    requires forall j :: i < j < |lines| ==> !HasPrefix(lines[j], key)
    ensures LastAssigned(lines, key) == lines[i][|key|..]
  {
  }

  /** The line scan of lines 85-93: each `password=` line sets the password
      and each `user=` line the user, so the last occurrence of each wins. */
  function ScanAssignments(lines: seq<string>): (a: Assignments)
    ensures a.user == LastAssigned(lines, UserKey)
    ensures a.password == LastAssigned(lines, PasswordKey)
  {
    if |lines| == 0 then Assignments("", "")
    else
      var a := ScanAssignments(lines[..|lines| - 1]);
      var line := lines[|lines| - 1];
      var a' := if HasPrefix(line, PasswordKey) then a.(password := line[|PasswordKey|..]) else a;
      if HasPrefix(line, UserKey) then a'.(user := line[|UserKey|..]) else a'
  }

  function ParseBody(body: string): Assignments {
    ScanAssignments(Lines(body))
  }

  /** The errors raised for a parsed body, password before user. */
  function MissingFields(a: Assignments, name: string): (errs: seq<DiscoveryError>)
    ensures errs == [] <==> a.password != "" && a.user != ""
    ensures PasswordMissing(name) in errs <==> a.password == ""
    ensures UserMissing(name) in errs <==> a.user == ""
    ensures a.password == "" && a.user == "" ==> errs == [PasswordMissing(name), UserMissing(name)]
    ensures |errs| == (if a.password == "" then 1 else 0) + (if a.user == "" then 1 else 0)
  {
    (if a.password == "" then [PasswordMissing(name)] else [])
    + (if a.user == "" then [UserMissing(name)] else [])
  }

  /** `getCredentialDetails(database, role)`: find the role's file, split
      its name into prefix, host, port, database and role, and read the
      user and password from its body. The role part of the name is
      discarded: the user name comes from the body alone. On any error all
      five strings are empty. */
  function GetCredentialDetails(listing: Listing, bodies: map<string, string>, database: string, role: string): (r: Lookup)
    ensures |r.errors| > 0 ==> r.details == Blank
    ensures |r.errors| <= 2
    ensures listing.Unreadable? ==> r.errors == [DirectoryUnreadable]
    ensures listing.Listed? && (forall i :: 0 <= i < |listing.entries| ==> !IsCandidate(listing.entries[i], database, role))
            ==> r == Lookup(Blank, [ConfigNotFound(role)])
    ensures listing.Listed? && ChosenConfig(listing.entries, database, role).Some? ==>
              var name := ChosenConfig(listing.entries, database, role).value;
              var count := |Split(name, Delimiter)|;
              && (count != 5 ==> r == Lookup(Blank, [WrongFormat(role, count)]))
              && (count == 5 && name !in bodies ==> r == Lookup(Blank, [FileUnreadable(name)]))
              && (count == 5 && name in bodies ==> r.errors == MissingFields(ParseBody(bodies[name]), name))
    ensures r.errors == [] ==>
              listing.Listed?
              && exists i :: 0 <= i < |listing.entries| && IsCandidate(listing.entries[i], database, role)
                   && (forall j :: i < j < |listing.entries| ==> !IsCandidate(listing.entries[j], database, role))
                   && var name := listing.entries[i].name;
                      var parts := Split(name, Delimiter);
                      && |parts| == 5 && name in bodies
                      && r.details == Details(parts[1], parts[2], parts[3], LastAssigned(Lines(bodies[name]), UserKey),
                                              LastAssigned(Lines(bodies[name]), PasswordKey))
                      && r.details.username != "" && r.details.password != ""
  {
    match listing
    case Unreadable => Lookup(Blank, [DirectoryUnreadable])
    case Listed(entries) =>
      match ChosenConfig(entries, database, role)
      case None => Lookup(Blank, [ConfigNotFound(role)])
      case Some(name) =>
        var parts := Split(name, Delimiter);
        if |parts| != 5 then Lookup(Blank, [WrongFormat(role, |parts|)])
        else if name !in bodies then Lookup(Blank, [FileUnreadable(name)])
        else
          var a := ParseBody(bodies[name]);
          var errs := MissingFields(a, name);
          if |errs| > 0 then Lookup(Blank, errs)
          else Lookup(Details(parts[1], parts[2], parts[3], a.user, a.password), [])
  }

  /** A file name ending in `#database#role.config` with `database` and
      `role` free of `#` has `database` as its fourth `#`-piece once it
      splits into five pieces. */
  lemma DatabasePiece(name: string, database: string, role: string)
    requires Delimiter !in database && Delimiter !in role
    requires HasSuffix(name, ConfigEnding(database, role))
    requires |Split(name, Delimiter)| == 5
    ensures Split(name, Delimiter)[3] == database
  {
    var ending := ConfigEnding(database, role);
    var head := name[..|name| - |ending|];
    var tail := role + ConfigExtension;
    assert Delimiter !in ConfigExtension;
    assert Delimiter !in tail by {
      forall i | 0 <= i < |tail| ensures tail[i] != Delimiter {
        if i < |role| { assert tail[i] == role[i]; } else { assert tail[i] == ConfigExtension[i - |role|]; }
      }
    }
    assert name == head + [Delimiter] + (database + [Delimiter] + tail);
    SplitAtSeparator(head, Delimiter, database + [Delimiter] + tail);
    SplitAtSeparator(database, Delimiter, tail);
    SplitWithoutSeparator(database, Delimiter);
    SplitWithoutSeparator(tail, Delimiter);
  }

  /** The database returned for a role is the requested one whenever the
      requested database and role contain no `#`. */
  lemma ReturnsRequestedDatabase(listing: Listing, bodies: map<string, string>, database: string, role: string)
    requires Delimiter !in database && Delimiter !in role
    ensures var r := GetCredentialDetails(listing, bodies, database, role);
            r.errors == [] ==> r.details.database == database
  {
    var r := GetCredentialDetails(listing, bodies, database, role);
    if r.errors == [] {
      var name := ChosenConfig(listing.entries, database, role).value;
      DatabasePiece(name, database, role);
    }
  }
}
