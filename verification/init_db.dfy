/** The validation phase of `InitDB` in main.go (lines 30-99): validate
    every setting, collect all errors, count repeated user names, and
    derive the encoded passwords the database phase uses. */
module InitDb {
  import opened Base
  import opened Text
  import opened Tally
  import opened Validators

  datatype Credentials = Credentials(username: string, password: string)

  /** The settings `InitDB` reads from the environment. */
  datatype Settings = Settings(root: Credentials, migration: Credentials, write: Credentials, read: Credentials,
                               hostname: string, port: string, name: string)

  /** Encoded passwords handed to the database phase. */
  datatype Derived = Derived(root: string, migration: string, write: string, read: string)

  function Usernames(s: Settings): seq<string> {
    [s.root.username, s.migration.username, s.write.username, s.read.username]
  }

  /** Lines 79-90: one error per user name that occurs more than once
      among the four roles, carrying its count; passwords are not
      compared. */
  function UsernameRepeats(usernames: seq<string>): (errs: seq<ValidationError>)
    ensures errs == [] <==> Distinct(usernames)
    ensures forall k :: 0 <= k < |errs| ==>
              errs[k].UsernameRepeated? && errs[k].count == Occurrences(usernames, errs[k].name) >= 2
    ensures forall x :: Occurrences(usernames, x) >= 2 <==> UsernameRepeated(x, Occurrences(usernames, x)) in errs
    ensures forall j, k :: 0 <= j < k < |errs| ==> errs[j].name != errs[k].name
  {
    var repeats := Repeats(usernames);
    NoRepeatsIffDistinct(usernames);
    var errs := seq(|repeats|, k requires 0 <= k < |repeats| => UsernameRepeated(repeats[k].0, repeats[k].1));
    assert forall k :: 0 <= k < |repeats| ==> errs[k] == UsernameRepeated(repeats[k].0, repeats[k].1);
    errs
  }

  /** Lines 33-59: the errors of the root, migration, write and read
      credentials, in that order. */
  function RoleErrors(cats: Categories, s: Settings): seq<ValidationError> {
    CredentialErrors(cats, s.root.username, s.root.password)
    + CredentialErrors(cats, s.migration.username, s.migration.password)
    + CredentialErrors(cats, s.write.username, s.write.password)
    + CredentialErrors(cats, s.read.username, s.read.password)
  }

  /** Lines 61-77: the host name, port number and database name errors. */
  function SettingErrors(s: Settings): seq<ValidationError> {
    HostnameErrors(s.hostname) + PortNumberErrors(s.port) + DatabaseNameErrors(s.name)
  }

  /** Lines 33-90: the role errors, the setting errors, then the repeated
      user names. */
  function ValidationErrors(cats: Categories, s: Settings): seq<ValidationError> {
    RoleErrors(cats, s) + SettingErrors(s) + UsernameRepeats(Usernames(s))
  }

  /** A setting that passes on its own. */
  predicate CredentialsValid(cats: Categories, c: Credentials) {
    CredentialErrors(cats, c.username, c.password) == []
  }

  lemma RoleErrorsExactly(cats: Categories, s: Settings)
    ensures RoleErrors(cats, s) == [] <==>
              && CredentialsValid(cats, s.root) && CredentialsValid(cats, s.migration)
              && CredentialsValid(cats, s.write) && CredentialsValid(cats, s.read)
  {
    NoneOfFour(CredentialErrors(cats, s.root.username, s.root.password),
               CredentialErrors(cats, s.migration.username, s.migration.password),
               CredentialErrors(cats, s.write.username, s.write.password),
               CredentialErrors(cats, s.read.username, s.read.password));
  }

  lemma NoneOfFour(a: seq<ValidationError>, b: seq<ValidationError>, c: seq<ValidationError>, d: seq<ValidationError>)
    ensures a + b + c + d == [] <==> a == [] && b == [] && c == [] && d == []
  {
    assert |a + b + c + d| == |a| + |b| + |c| + |d|;
  }

  lemma NoneOfThree(a: seq<ValidationError>, b: seq<ValidationError>, c: seq<ValidationError>)
    ensures a + b + c == [] <==> a == [] && b == [] && c == []
  {
    assert |a + b + c| == |a| + |b| + |c|;
  }

  /** The host name, port number and database name each pass on their own:
      the host-name check reports nothing, the port contains an ASCII digit
      and the name is a non-empty string of ASCII letters. */
  predicate SettingsValid(s: Settings) {
    && HostnameErrors(s.hostname) == []
    && (exists i :: 0 <= i < |s.port| && IsDigit(s.port[i]))
    && (|s.name| > 0 && forall i :: 0 <= i < |s.name| ==> IsAsciiLetter(s.name[i]))
  }

  lemma SettingErrorsExactly(s: Settings)
    ensures SettingErrors(s) == [] <==> SettingsValid(s)
  {
  }

  /** All errors are collected: the phase reports none exactly when every
      role's credentials, the host name, the port number and the database
      name each pass, and the four user names are distinct. */
  lemma ValidationErrorsExactly(cats: Categories, s: Settings)
    ensures ValidationErrors(cats, s) == [] <==>
              && CredentialsValid(cats, s.root) && CredentialsValid(cats, s.migration)
              && CredentialsValid(cats, s.write) && CredentialsValid(cats, s.read)
              && SettingsValid(s)
              && Distinct(Usernames(s))
  {
    RoleErrorsExactly(cats, s);
    SettingErrorsExactly(s);
    NoneOfThree(RoleErrors(cats, s), SettingErrors(s), UsernameRepeats(Usernames(s)));
  }

  /** Lines 92-95 as written: the write and read passwords are both derived
      from the already encoded migration password. */
  function DerivePasswordsAsWritten(s: Settings, encode: string -> string): (d: Derived) {
    var root := encode(s.root.password);
    var migration := encode(s.migration.password);
    Derived(root, migration, encode(migration), encode(migration))
  }

  /** Lines 92-95 as evidently intended: each role's password is the
      encoding of its own. */
  function DerivePasswords(s: Settings, encode: string -> string): (d: Derived) {
    Derived(encode(s.root.password), encode(s.migration.password), encode(s.write.password), encode(s.read.password))
  }

  ghost predicate Injective(encode: string -> string) {
    forall a, b :: encode(a) == encode(b) ==> a == b
  }

  /** As written, the derived write and read passwords are the same and do
      not depend on the configured write and read passwords at all. */
  lemma AsWrittenIgnoresOwnPasswords(s: Settings, writePassword: string, readPassword: string, encode: string -> string)
    ensures var d := DerivePasswordsAsWritten(s, encode);
            var d' := DerivePasswordsAsWritten(s.(write := s.write.(password := writePassword),
                                                  read := s.read.(password := readPassword)), encode);
            d.write == d.read && d' == d
  {
  }

  /** With an injective encoding, the as-written write password differs
      from the encoding of the configured one unless that equals the
      encoded migration password: e.g. distinct write and migration
      passwords where the write password is not itself an encoding. */
  lemma AsWrittenLosesWritePassword(s: Settings, encode: string -> string)
    requires Injective(encode)
    requires s.write.password != encode(s.migration.password)
    ensures DerivePasswordsAsWritten(s, encode).write != encode(s.write.password)
  {
  }

  /** With an injective encoding, each derived password determines its
      role's own password, and two roles get the same derived password
      exactly when they were configured with the same one. */
  lemma DerivedPasswordsFaithful(s: Settings, s': Settings, encode: string -> string)
    requires Injective(encode)
    ensures var d, d' := DerivePasswords(s, encode), DerivePasswords(s', encode);
            && (d.root == d'.root <==> s.root.password == s'.root.password)
            && (d.migration == d'.migration <==> s.migration.password == s'.migration.password)
            && (d.write == d'.write <==> s.write.password == s'.write.password)
            && (d.read == d'.read <==> s.read.password == s'.read.password)
            && (d.write == d.read <==> s.write.password == s.read.password)
  {
  }

  /** `InitDB` up to the first connection: every validation error at once,
      or the derived passwords. */
  function InitDb(cats: Categories, s: Settings, encode: string -> string): (r: Result<Derived, ValidationError>)
    ensures r.Failure? <==> ValidationErrors(cats, s) != []
    ensures r.Failure? ==> r.errors == ValidationErrors(cats, s)
    ensures r.Success? ==> r.value == DerivePasswords(s, encode)
  {
    Collect(ValidationErrors(cats, s), DerivePasswords(s, encode))
  }

  /** Passwords are not checked for uniqueness here: four roles with the
      same strong password pass. */
  lemma SharedPasswordAccepted(encode: string -> string)
    ensures var password := "Secret#2024x";
            var s := Settings(Credentials("root", password), Credentials("migration", password),
                              Credentials("writer", password), Credentials("reader", password),
                              "localhost", "3306", "holistic");
            InitDb(AsciiCategories, s, encode).Success?
  {
    var password := "Secret#2024x";
    var cats := AsciiCategories;
    var s := Settings(Credentials("root", password), Credentials("migration", password),
                      Credentials("writer", password), Credentials("reader", password),
                      "localhost", "3306", "holistic");
    ExampleCredentialsValid(cats, "root");
    ExampleCredentialsValid(cats, "migration");
    ExampleCredentialsValid(cats, "writer");
    ExampleCredentialsValid(cats, "reader");
    ExampleSettingsValid(s);
    DistinctFour("root", "migration", "writer", "reader");
    ValidationErrorsExactly(cats, s);
  }

  lemma ExampleCredentialsValid(cats: Categories, name: string)
    requires cats == AsciiCategories
    requires |name| > 0 && forall i :: 0 <= i < |name| ==> 'a' <= name[i] <= 'z'
    ensures CredentialsValid(cats, Credentials(name, "Secret#2024x"))
  {
    StrongPassword();
    LettersOnly(name);
    ValidWhen(cats, Credentials(name, "Secret#2024x"));
  }

  lemma ExampleSettingsValid(s: Settings)
    requires s.hostname == "localhost" && s.port == "3306" && s.name == "holistic"
    ensures SettingsValid(s)
  {
    LettersOnly("holistic");
    LettersOnly("localhost");
    assert HostnameErrors("localhost") == [];
    assert IsDigit(s.port[0]);
  }

  lemma ValidWhen(cats: Categories, c: Credentials)
    requires IsLetters(c.username) && PasswordErrors(cats, c.password) == []
    ensures CredentialsValid(cats, c)
  {
    LettersExactly(c.username);
  }

  lemma StrongPassword()
    ensures PasswordErrors(AsciiCategories, "Secret#2024x") == []
  {
    var cats, password := AsciiCategories, "Secret#2024x";
    assert Classify(cats, password[1]) == Lower;
    assert Classify(cats, password[0]) == Upper;
    assert Classify(cats, password[7]) == Number;
    assert Classify(cats, password[6]) == Special;
    forall i | 0 <= i < |password| ensures Classify(cats, password[i]) != Unclassified {
    }
    ClassifiedAll(cats, password);
  }

  lemma LettersOnly(s: string)
    requires |s| > 0 && forall i :: 0 <= i < |s| ==> 'a' <= s[i] <= 'z'
    ensures IsLetters(s)
  {
    LettersExactly(s);
  }

  lemma {:induction false} ClassifiedAll(cats: Categories, s: string)
    requires forall i :: 0 <= i < |s| ==> Classify(cats, s[i]) != Unclassified
    ensures ClassifiedCount(cats, s) == |s|
  {
    if |s| > 0 {
      ClassifiedAll(cats, s[..|s| - 1]);
    }
  }

  lemma DistinctFour(a: string, b: string, c: string, d: string)
    requires a != b && a != c && a != d && b != c && b != d && c != d
    ensures Distinct([a, b, c, d])
  {
  }
}
