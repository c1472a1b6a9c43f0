/** The profile-creation form (app/profile-creation.tsx): username and
    email validation with their error messages, and the submit rule. The
    shake animations, the success alert and the form cache in storage are
    left out. */
module ProfileCreation {
  import Text

  const UsernameLengthError: string := "Username must be 3-20 characters long."
  const UsernameCharsetError: string := "Username can only contain letters, numbers, and underscores."
  const EmailError: string := "Please enter a valid email address."
  const GenreError: string := "Please select a genre."

  datatype Errors = Errors(username: string, email: string, genre: string)

  datatype Form = Form(username: string, email: string, genre: string, errors: Errors)

  function NoErrors(): Errors {
    Errors("", "", "")
  }

  /** `[a-zA-Z0-9_]`. */
  predicate IsUsernameChar(c: char) {
    ('a' <= c <= 'z') || ('A' <= c <= 'Z') || ('0' <= c <= '9') || c == '_'
  }

  /** The rule a username must meet: 3 to 20 UTF-16 code units, all of
      them letters, digits or underscores. */
  predicate UsernameRule(name: string) {
    3 <= Text.Utf16Length(name) <= 20 && forall i :: 0 <= i < |name| ==> IsUsernameChar(name[i])
  }

  /** `validateUsername`: the length test comes first, so a name of the
      wrong length gets the length message even when its characters are
      also wrong. Returns the verdict and the updated errors. */
  function ValidateUsername(e: Errors, name: string): (r: (bool, Errors))
    ensures r.0 <==> UsernameRule(name)
    ensures r.0 ==> r.1 == e.(username := "")
    ensures !(3 <= Text.Utf16Length(name) <= 20) ==> r.1 == e.(username := UsernameLengthError)
    ensures 3 <= Text.Utf16Length(name) <= 20 && !r.0 ==> r.1 == e.(username := UsernameCharsetError)
    ensures r.1.email == e.email && r.1.genre == e.genre
  {
    var len := Text.Utf16Length(name);
    if len < 3 || len > 20 then (false, e.(username := UsernameLengthError))
    else if !(forall i :: 0 <= i < |name| ==> IsUsernameChar(name[i])) then
      (false, e.(username := UsernameCharsetError))
    else (true, e.(username := ""))
  }

  /** `[^\s@]`. */
  predicate IsPlainChar(c: char) {
    !Text.IsJsWhitespace(c) && c != '@'
  }

  predicate AllPlain(s: string) {
    forall i :: 0 <= i < |s| ==> IsPlainChar(s[i])
  }

  /** `[^\s@]+\.[^\s@]+`, matched against a whole string: some '.' splits
      it into two non-empty runs of plain characters. */
  predicate MatchesDomain(d: string) {
    exists j :: 0 < j < |d| - 1 && d[j] == '.' && AllPlain(d[..j]) && AllPlain(d[j + 1..])
  }

  /** `/^[^\s@]+@[^\s@]+\.[^\s@]+$/`, written after its shape: a non-empty
      plain local part, '@', and a domain that matches `MatchesDomain`. */
  predicate MatchesEmailPattern(s: string) {
    exists i :: 0 < i < |s| && s[i] == '@' && AllPlain(s[..i]) && MatchesDomain(s[i + 1..])
  }

  /** The same rule stated as facts about the string: no whitespace,
      exactly one '@', something before it, and after it a '.' that is
      neither the first nor the last character. */
  predicate EmailRule(s: string) {
    (forall i :: 0 <= i < |s| ==> !Text.IsJsWhitespace(s[i])) &&
    exists at :: 0 < at < |s| && s[at] == '@' &&
      (forall k :: 0 <= k < |s| && s[k] == '@' ==> k == at) &&
      exists j :: at + 1 < j < |s| - 1 && s[j] == '.'
  }

  /** In a string split as local part, '@', left run, '.', right run, every
      character but the two marks is plain. */
  lemma PlainOutsideMarks(s: string, i: nat, j: nat)
    requires i < |s| && i + 1 + j < |s|
    requires AllPlain(s[..i]) && AllPlain(s[i + 1..][..j]) && AllPlain(s[i + 1..][j + 1..])
    ensures forall k :: 0 <= k < |s| && k != i && k != i + 1 + j ==> IsPlainChar(s[k])
  {
    var d := s[i + 1..];
    var local, left, right := s[..i], d[..j], d[j + 1..];
    forall k | 0 <= k < |s| && k != i && k != i + 1 + j
      ensures IsPlainChar(s[k])
    {
      if k < i {
        assert s[k] == local[k];
      } else if k < i + 1 + j {
        assert s[k] == left[k - i - 1];
      } else {
        assert s[k] == right[k - i - 2 - j];
      }
    }
  }

  lemma MarksAreNotWhitespace(c: char)
    requires c == '@' || c == '.'
    ensures !Text.IsJsWhitespace(c)
  {
  }

  /** Everything the pattern accepts meets the rule. */
  lemma PatternImpliesRule(s: string)
    requires MatchesEmailPattern(s)
    ensures EmailRule(s)
  {
    var i :| 0 < i < |s| && s[i] == '@' && AllPlain(s[..i]) && MatchesDomain(s[i + 1..]);
    var d := s[i + 1..];
    var j :| 0 < j < |d| - 1 && d[j] == '.' && AllPlain(d[..j]) && AllPlain(d[j + 1..]);
    var dot := i + 1 + j;
    PlainOutsideMarks(s, i, j);
    assert s[dot] == '.';
    forall k | 0 <= k < |s|
      ensures !Text.IsJsWhitespace(s[k]) && (s[k] == '@' ==> k == i)
    {
      if k != i && k != dot {
        assert IsPlainChar(s[k]);
      } else {
        MarksAreNotWhitespace(s[k]);
      }
    }
    assert i + 1 < dot < |s| - 1;
  }

  /** Everything that meets the rule matches the pattern. */
  lemma RuleImpliesPattern(s: string)
    requires EmailRule(s)
    ensures MatchesEmailPattern(s)
  {
    var at :| 0 < at < |s| && s[at] == '@' &&
      (forall k :: 0 <= k < |s| && s[k] == '@' ==> k == at) &&
      exists j :: at + 1 < j < |s| - 1 && s[j] == '.';
    var j :| at + 1 < j < |s| - 1 && s[j] == '.';
    var d := s[at + 1..];
    var jd := j - at - 1;
    var local, left, right := s[..at], d[..jd], d[jd + 1..];
    forall k | 0 <= k < |local|
      ensures IsPlainChar(local[k])
    {
      assert local[k] == s[k];
    }
    forall k | 0 <= k < |left|
      ensures IsPlainChar(left[k])
    {
      assert left[k] == s[at + 1 + k];
    }
    forall k | 0 <= k < |right|
      ensures IsPlainChar(right[k])
    {
      assert right[k] == s[j + 1 + k];
    }
    assert d[jd] == '.';
    assert MatchesDomain(d);
  }

  /** The pattern and the rule accept the same strings. */
  lemma EmailPatternIsRule(s: string)
    ensures MatchesEmailPattern(s) <==> EmailRule(s)
  {
    if MatchesEmailPattern(s) {
      PatternImpliesRule(s);
    }
    if EmailRule(s) {
      RuleImpliesPattern(s);
    }
  }

  /** `validateEmail`. */
  function ValidateEmail(e: Errors, email: string): (r: (bool, Errors))
    ensures r.0 <==> EmailRule(email)
    ensures r.0 ==> r.1 == e.(email := "")
    ensures !r.0 ==> r.1 == e.(email := EmailError)
    ensures r.1.username == e.username && r.1.genre == e.genre
  {
    EmailPatternIsRule(email);
    if MatchesEmailPattern(email) then (true, e.(email := "")) else (false, e.(email := EmailError))
  }

  /** `handleSubmit`. Both validators always run, so both messages are
      refreshed; an empty genre sets the genre message. On success every
      field and every message is reset. On failure a genre message left
      from an earlier attempt stays even when a genre is now chosen. */
  function Submit(f: Form): (r: (bool, Form))
    ensures r.0 <==> UsernameRule(f.username) && EmailRule(f.email) && f.genre != ""
    ensures r.0 ==> r.1 == Form("", "", "", NoErrors())
    ensures !r.0 ==> r.1.username == f.username && r.1.email == f.email && r.1.genre == f.genre
    ensures !r.0 ==> (r.1.errors.username == "" <==> UsernameRule(f.username))
    ensures !r.0 ==> (r.1.errors.email == "" <==> EmailRule(f.email))
    ensures !r.0 && f.genre == "" ==> r.1.errors.genre == GenreError
    ensures !r.0 && f.genre != "" ==> r.1.errors.genre == f.errors.genre
  {
    var (userOk, e1) := ValidateUsername(f.errors, f.username);
    var (emailOk, e2) := ValidateEmail(e1, f.email);
    var genreOk := f.genre != "";
    var e3 := if !genreOk then e2.(genre := GenreError) else e2;
    if userOk && emailOk && genreOk then (true, Form("", "", "", NoErrors()))
    else (false, f.(errors := e3))
  }
}
