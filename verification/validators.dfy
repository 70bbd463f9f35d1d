/** The input validators of main.go: password strength (lines 367-415),
    host name (298-338), port number (274-292), database name (250-268) and
    a role's credentials (346-365). */
module Validators {
  import opened Text

  datatype ValidationError =
    | UsernameMismatch(username: string)
    | WeakPassword(problem: PasswordError)
    | HostnameInvalid(hostname: string)
    | PortNumberMismatch(port: string)
    | DatabaseNameMismatch(name: string)
    | UsernameRepeated(name: string, count: nat)

  // ---------------------------------------------------------------------
  // Passwords.

  datatype CharClass = Number | Upper | Lower | Special | Unclassified

  /** The Unicode category tests the password check consults, in the order
      it consults them: number, upper case, lower case, punctuation or
      symbol. */
  datatype Categories = Categories(isNumber: char -> bool, isUpper: char -> bool,
                                   isLower: char -> bool, isPunctOrSymbol: char -> bool)

  predicate IsAsciiUpper(c: char) {
    'A' <= c <= 'Z'
  }

  predicate IsAsciiLower(c: char) {
    'a' <= c <= 'z'
  }

  /** Every printable ASCII character that is neither a letter nor a digit
      is Unicode punctuation or a Unicode symbol. */
  predicate IsAsciiPunctOrSymbol(c: char) {
    '!' <= c <= '~' && !IsDigit(c) && !IsAsciiLetter(c)
  }

  /** The Unicode categories as they are on ASCII; every other character is
      in none of them here. */
  const AsciiCategories: Categories := Categories(IsDigit, IsAsciiUpper, IsAsciiLower, IsAsciiPunctOrSymbol)

  /** The first category that matches, as the `switch` of line 377 does. */
  function Classify(cats: Categories, c: char): CharClass {
    if cats.isNumber(c) then Number
    else if cats.isUpper(c) then Upper
    else if cats.isLower(c) then Lower
    else if cats.isPunctOrSymbol(c) then Special
    else Unclassified
  }

  /** Line 372: a password needs more than this many classified characters. */
  const MinPasswordLength: nat := 8

  /** The errors of lines 393-408, in the order they are reported. */
  datatype PasswordError = LowercaseMissing | UppercaseMissing | NumberMissing | SpecialMissing | TooShort

  function Rank(e: PasswordError): nat {
    match e
    case LowercaseMissing => 0
    case UppercaseMissing => 1
    case NumberMissing => 2
    case SpecialMissing => 3
    case TooShort => 4
  }

  predicate HasClass(cats: Categories, password: string, k: CharClass) {
    exists i :: 0 <= i < |password| && Classify(cats, password[i]) == k
  }

  /** How many characters fall into one of the four classes. */
  function ClassifiedCount(cats: Categories, password: string): (n: nat)
    ensures n <= |password|
  {
    if |password| == 0 then 0
    else ClassifiedCount(cats, password[..|password| - 1])
         + (if Classify(cats, password[|password| - 1]) == Unclassified then 0 else 1)
  }

  /** The report for the given failed checks: one error per failed check,
      in the fixed order. */
  function Report(noLower: bool, noUpper: bool, noNumber: bool, noSpecial: bool, short: bool): (errs: seq<PasswordError>)
    ensures errs == [] <==> !noLower && !noUpper && !noNumber && !noSpecial && !short
    ensures |errs| <= 5
  {
    (if noLower then [LowercaseMissing] else [])
    + (if noUpper then [UppercaseMissing] else [])
    + (if noNumber then [NumberMissing] else [])
    + (if noSpecial then [SpecialMissing] else [])
    + (if short then [TooShort] else [])
  }

  /** Each error is reported exactly when its check failed. */
  lemma ReportMembers(noLower: bool, noUpper: bool, noNumber: bool, noSpecial: bool, short: bool)
    ensures var errs := Report(noLower, noUpper, noNumber, noSpecial, short);
            && (LowercaseMissing in errs <==> noLower) && (UppercaseMissing in errs <==> noUpper)
            && (NumberMissing in errs <==> noNumber) && (SpecialMissing in errs <==> noSpecial)
            && (TooShort in errs <==> short)
  {
    var a := if noLower then [LowercaseMissing] else [];
    var b := if noUpper then [UppercaseMissing] else [];
    var c := if noNumber then [NumberMissing] else [];
    var d := if noSpecial then [SpecialMissing] else [];
    var e := if short then [TooShort] else [];
    assert Report(noLower, noUpper, noNumber, noSpecial, short) == a + b + c + d + e;
    assert forall x :: x in a + b + c + d + e <==> x in a || x in b || x in c || x in d || x in e;
  }

  /** The errors come in the fixed order of the checks. */
  lemma ReportOrdered(noLower: bool, noUpper: bool, noNumber: bool, noSpecial: bool, short: bool)
    ensures var errs := Report(noLower, noUpper, noNumber, noSpecial, short);
            forall i, j :: 0 <= i < j < |errs| ==> Rank(errs[i]) < Rank(errs[j])
  {
  }

  /** What `validatePassword` reports: a password is accepted exactly when
      it has a lower-case letter, an upper-case letter, a number and a
      special character, and more than eight classified characters; the
      errors come in a fixed order, at most five, and a password of at most
      eight characters always draws the length error. */
  function PasswordErrors(cats: Categories, password: string): (errs: seq<PasswordError>)
    ensures errs == [] <==>
              && HasClass(cats, password, Lower) && HasClass(cats, password, Upper)
              && HasClass(cats, password, Number) && HasClass(cats, password, Special)
              && ClassifiedCount(cats, password) > MinPasswordLength
    ensures LowercaseMissing in errs <==> !HasClass(cats, password, Lower)
    ensures UppercaseMissing in errs <==> !HasClass(cats, password, Upper)
    ensures NumberMissing in errs <==> !HasClass(cats, password, Number)
    ensures SpecialMissing in errs <==> !HasClass(cats, password, Special)
    ensures TooShort in errs <==> ClassifiedCount(cats, password) <= MinPasswordLength
    ensures |password| <= MinPasswordLength ==> TooShort in errs
    ensures |errs| <= 5
    ensures forall i, j :: 0 <= i < j < |errs| ==> Rank(errs[i]) < Rank(errs[j])
  {
    ReportMembers(!HasClass(cats, password, Lower), !HasClass(cats, password, Upper),
                  !HasClass(cats, password, Number), !HasClass(cats, password, Special),
                  ClassifiedCount(cats, password) <= MinPasswordLength);
    ReportOrdered(!HasClass(cats, password, Lower), !HasClass(cats, password, Upper),
                  !HasClass(cats, password, Number), !HasClass(cats, password, Special),
                  ClassifiedCount(cats, password) <= MinPasswordLength);
    Report(!HasClass(cats, password, Lower), !HasClass(cats, password, Upper),
           !HasClass(cats, password, Number), !HasClass(cats, password, Special),
           ClassifiedCount(cats, password) <= MinPasswordLength)
  }

  /** Lines 376-391: one pass over the characters, setting a flag for
      each class seen and counting the classified characters. */
  method ScanPassword(cats: Categories, password: string)
    returns (number: bool, upper: bool, lower: bool, special: bool, length: nat)
    ensures number == HasClass(cats, password, Number) && upper == HasClass(cats, password, Upper)
    ensures lower == HasClass(cats, password, Lower) && special == HasClass(cats, password, Special)
    ensures length == ClassifiedCount(cats, password)
  {
    number, upper, lower, special := false, false, false, false;
    length := 0;
    var i := 0;
    while i < |password|
      invariant 0 <= i <= |password|
      invariant number == HasClass(cats, password[..i], Number)
      invariant upper == HasClass(cats, password[..i], Upper)
      invariant lower == HasClass(cats, password[..i], Lower)
      invariant special == HasClass(cats, password[..i], Special)
      invariant length == ClassifiedCount(cats, password[..i])
    {
      var ch := password[i];
      var prefix, next := password[..i], password[..i + 1];
      assert next == prefix + [ch] && next[..i] == prefix;
      HasClassExtend(cats, prefix, ch, Number);
      HasClassExtend(cats, prefix, ch, Upper);
      HasClassExtend(cats, prefix, ch, Lower);
      HasClassExtend(cats, prefix, ch, Special);
      if cats.isNumber(ch) {
        number := true;
        length := length + 1;
      } else if cats.isUpper(ch) {
        upper := true;
        length := length + 1;
      } else if cats.isLower(ch) {
        lower := true;
        length := length + 1;
      } else if cats.isPunctOrSymbol(ch) {
        special := true;
        length := length + 1;
      }
      i := i + 1;
    }
    assert password[..|password|] == password;
  }

  /** Lines 367-415 as written: scan, then one error per failed check
      (lines 393-408). */
  method ValidatePassword(cats: Categories, password: string) returns (errs: seq<PasswordError>)
    ensures errs == PasswordErrors(cats, password)
  {
    var number, upper, lower, special, length := ScanPassword(cats, password);
    errs := Report(!lower, !upper, !number, !special, length <= MinPasswordLength);
  }

  lemma HasClassExtend(cats: Categories, s: string, c: char, k: CharClass)
    ensures HasClass(cats, s + [c], k) <==> HasClass(cats, s, k) || Classify(cats, c) == k
  {
    if HasClass(cats, s + [c], k) && Classify(cats, c) != k {
      var i :| 0 <= i < |s + [c]| && Classify(cats, (s + [c])[i]) == k;
      assert i < |s| && (s + [c])[i] == s[i];
    }
    if HasClass(cats, s, k) {
      var i :| 0 <= i < |s| && Classify(cats, s[i]) == k;
      assert (s + [c])[i] == s[i];
    }
    if Classify(cats, c) == k {
      assert (s + [c])[|s|] == c;
    }
  }

  // ---------------------------------------------------------------------
  // Regular expressions, as Go's RE2 matches them.

  /** `^[A-Za-z]+$` on the whole text (Go's `$` is the end of the text, so
      a trailing newline does not match): one letter at the end, preceded
      by nothing or by another match. */
  predicate IsLetters(s: string) {
    |s| > 0 && IsAsciiLetter(s[|s| - 1]) && (|s| == 1 || IsLetters(s[..|s| - 1]))
  }

  /** The strings the anchored letters expression accepts: exactly the
      non-empty strings of ASCII letters. */
  lemma {:induction false} LettersExactly(s: string)
    ensures IsLetters(s) <==> |s| > 0 && forall i :: 0 <= i < |s| ==> IsAsciiLetter(s[i])
  {
    if |s| > 1 {
      var t := s[..|s| - 1];
      LettersExactly(t);
      assert forall i :: 0 <= i < |t| ==> t[i] == s[i];
    }
  }

  /** The unanchored `\d+` finds a match: some run of one or more ASCII
      digits occurs in `s`. */
  predicate MatchesDigitRun(s: string) {
    exists i, j :: 0 <= i < j <= |s| && AllDigits(s[i..j])
  }

  lemma DigitRunExactly(s: string)
    ensures MatchesDigitRun(s) <==> exists i :: 0 <= i < |s| && IsDigit(s[i])
  {
    if MatchesDigitRun(s) {
      var i, j :| 0 <= i < j <= |s| && AllDigits(s[i..j]);
      assert s[i..j][0] == s[i];
    }
    if exists i :: 0 <= i < |s| && IsDigit(s[i]) {
      var i :| 0 <= i < |s| && IsDigit(s[i]);
      assert AllDigits(s[i..i + 1]);
    }
  }

  const MaxInt64: int := 0x7fff_ffff_ffff_ffff
  const MinInt64: int := -0x8000_0000_0000_0000

  /** `strconv.Atoi` on a 64-bit `int` succeeds: an optional sign, then one
      or more ASCII digits whose value fits in 64 bits. */
  predicate ParsesAsInt(s: string) {
    var negative := |s| > 0 && s[0] == '-';
    var digits := if |s| > 0 && (s[0] == '+' || s[0] == '-') then s[1..] else s;
    && |digits| > 0 && AllDigits(digits)
    && (if negative then DecimalValue(digits) <= -MinInt64 else DecimalValue(digits) <= MaxInt64)
  }

  // ---------------------------------------------------------------------
  // The validators.

  /** Lines 298-338: accept a plain name of letters, a dotted name whose
      parts are all letters, or anything that is not four dot-separated
      parts each parsing as an integer; the last defaults to true, so only
      four-part names can be rejected. */
  function HostnameErrors(hostname: string): (errs: seq<ValidationError>)
    ensures errs == [] || errs == [HostnameInvalid(hostname)]
  {
    var simple := IsLetters(hostname);
    var parts := Split(hostname, '.');
    var ipAddress := !(|parts| == 4 && exists i :: 0 <= i < |parts| && !ParsesAsInt(parts[i]));
    var complex := forall i :: 0 <= i < |parts| ==> IsLetters(parts[i]);
    if simple || complex || ipAddress then [] else [HostnameInvalid(hostname)]
  }

  lemma {:induction false} CountCharPresent(s: string, c: char)
    requires CountChar(s, c) > 0
    ensures c in s
  {
    if s[0] != c {
      CountCharPresent(s[1..], c);
    }
  }

  /** A host name is rejected exactly when it splits on '.' into four
      parts, one of which is not an integer and one of which is not all
      letters; in particular anything without exactly three dots, the empty
      string included, is accepted. */
  lemma HostnameRejectedExactly(hostname: string)
    ensures var parts := Split(hostname, '.');
            HostnameErrors(hostname) != [] <==>
              && |parts| == 4
              && (exists i :: 0 <= i < |parts| && !ParsesAsInt(parts[i]))
              && (exists i :: 0 <= i < |parts| && !IsLetters(parts[i]))
    ensures CountChar(hostname, '.') != 3 ==> HostnameErrors(hostname) == []
  {
    var parts := Split(hostname, '.');
    if |parts| == 4 {
      CountCharPresent(hostname, '.');
      LettersExactly(hostname);
      var k :| 0 <= k < |hostname| && hostname[k] == '.';
      assert !IsAsciiLetter(hostname[k]);
    }
  }

  /** Lines 274-292: accept exactly the strings holding an ASCII digit. */
  function PortNumberErrors(port: string): (errs: seq<ValidationError>)
    ensures errs == [] <==> exists i :: 0 <= i < |port| && IsDigit(port[i])
    ensures errs == [] || errs == [PortNumberMismatch(port)]
  {
    DigitRunExactly(port);
    if MatchesDigitRun(port) then [] else [PortNumberMismatch(port)]
  }

  /** Lines 250-268: accept exactly the non-empty strings of ASCII letters;
      a trailing newline is rejected. */
  function DatabaseNameErrors(name: string): (errs: seq<ValidationError>)
    ensures errs == [] <==> |name| > 0 && forall i :: 0 <= i < |name| ==> IsAsciiLetter(name[i])
    ensures |name| > 0 && name[|name| - 1] == '\n' ==> errs != []
    ensures errs == [] || errs == [DatabaseNameMismatch(name)]
  {
    LettersExactly(name);
    if IsLetters(name) then [] else [DatabaseNameMismatch(name)]
  }

  /** Lines 346-365: the user-name error, if any, followed by the password
      errors; accepted exactly when the user name is a non-empty string of
      ASCII letters and the password is accepted. */
  function CredentialErrors(cats: Categories, username: string, password: string): (errs: seq<ValidationError>)
    ensures errs == [] <==>
              && (|username| > 0 && forall i :: 0 <= i < |username| ==> IsAsciiLetter(username[i]))
              && PasswordErrors(cats, password) == []
    ensures |errs| > 0 && errs[0].UsernameMismatch? <==> !IsLetters(username)
    ensures forall i :: 0 < i < |errs| ==> errs[i].WeakPassword?
    ensures var problems := PasswordErrors(cats, password);
            && |problems| <= |errs| <= |problems| + 1
            && forall i :: 0 <= i < |problems| ==> errs[|errs| - |problems| + i] == WeakPassword(problems[i])
    ensures |errs| == |PasswordErrors(cats, password)| + (if IsLetters(username) then 0 else 1)
    ensures !IsLetters(username) ==> errs[0] == UsernameMismatch(username)
  {
    LettersExactly(username);
    var problems := PasswordErrors(cats, password);
    var weak := seq(|problems|, i requires 0 <= i < |problems| => WeakPassword(problems[i]));
    if IsLetters(username) then weak else [UsernameMismatch(username)] + weak
  }
}
