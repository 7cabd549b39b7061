/** The account settings page: the guard chain in front of a user-details update (required fields,
    then the email pattern) and the one in front of a password change (fields present, confirmation
    matches, then the password rule), with the password fields cleared only after a successful
    change. */
module ProfileSettings {
  import Text
  import PasswordStrength

  /** No whitespace (`\s`) and no `@`: the character class `[^\s@]` over a whole part. */
  predicate Plain(t: string) {
    forall i :: 0 <= i < |t| ==> !Text.IsJsSpace(t[i]) && t[i] != '@'
  }

  /** `s` read as local part, `@` at `at`, domain, `.` at `dot`, top-level part, every part
      non-empty and plain. */
  predicate EmailSplit(s: string, at: int, dot: int) {
    0 < at && at + 1 < dot < |s| - 1 && s[at] == '@' && s[dot] == '.'
    && Plain(s[..at]) && Plain(s[at + 1..dot]) && Plain(s[dot + 1..])
  }

  /** `/^[^\s@]+@[^\s@]+\.[^\s@]+$/.test(s)`: some split of `s` fits the pattern. */
  predicate MatchesEmail(s: string) {
    exists at, dot :: 0 < at < dot < |s| && EmailSplit(s, at, dot)
  }

  lemma PlainSlice(s: string, a: int, b: int, i: int)
    requires 0 <= a <= i < b <= |s| && Plain(s[a..b])
    ensures !Text.IsJsSpace(s[i]) && s[i] != '@'
  {
    assert s[a..b][i - a] == s[i];
  }

  /** A string without whitespace is its own trim. */
  lemma TrimNoSpace(s: string)
    requires forall i :: 0 <= i < |s| ==> !Text.IsJsSpace(s[i])
    ensures Text.Trim(s) == s
  {
    var t := Text.TrimStart(s);
    assert |t| == |s|;
    var u := Text.TrimEnd(t);
    assert |u| == |t|;
  }

  /** Under a split, every character but the `@` is neither whitespace nor `@`. */
  lemma EmailSplitChars(s: string, at: int, dot: int)
    requires EmailSplit(s, at, dot)
    ensures forall i :: 0 <= i < |s| && i != at ==> !Text.IsJsSpace(s[i]) && s[i] != '@'
  {
    forall i | 0 <= i < |s| && i != at
      ensures !Text.IsJsSpace(s[i]) && s[i] != '@'
    {
      if i < at {
        PlainSlice(s, 0, at, i);
      } else if i < dot {
        PlainSlice(s, at + 1, dot, i);
      } else if i > dot {
        PlainSlice(s, dot + 1, |s|, i);
      }
    }
  }

  /** An address the pattern accepts has no whitespace, exactly one `@` (after its first
      character), and is therefore already trimmed and not blank. */
  lemma EmailShape(s: string)
    requires MatchesEmail(s)
    ensures forall i :: 0 <= i < |s| ==> !Text.IsJsSpace(s[i])
    ensures exists at :: 0 < at < |s| && s[at] == '@' && forall j :: 0 <= j < |s| && s[j] == '@' ==> j == at
    ensures Text.Trim(s) == s && !Text.IsBlank(s)
  {
    var at, dot :| 0 < at < dot < |s| && EmailSplit(s, at, dot);
    EmailSplitChars(s, at, dot);
    assert !Text.IsJsSpace(s[at]);
    assert forall j :: 0 <= j < |s| && s[j] == '@' ==> j == at;
    TrimNoSpace(s);
    assert !Text.IsJsSpace(s[0]);
    Text.BlankIffAllSpace(s);
  }

  /** The pattern accepts a dotted domain and even a trailing dot, and refuses an empty top-level
      part and an address with a space. */
  lemma EmailExamples()
    ensures MatchesEmail("ann@mail.com")
    ensures MatchesEmail("a@b.c.")
    ensures !MatchesEmail("a@b.")
    ensures !MatchesEmail("a b@c.d")
  {
    assert EmailSplit("ann@mail.com", 3, 8);
    assert EmailSplit("a@b.c.", 1, 3);
    var s := "a b@c.d";
    assert Text.IsJsSpace(s[1]);
    if MatchesEmail(s) {
      EmailShape(s);
    }
  }

  datatype DetailsCheck = DetailsRequired | InvalidEmail | SubmitDetails

  /** `handleUserDetailsSave`'s guards: a blank name or email first, then the email pattern on the
      untrimmed email; the update is sent only when both pass. */
  function CheckDetails(firstName: string, lastName: string, email: string): (r: DetailsCheck)
    ensures r == DetailsRequired <==> Text.IsBlank(firstName) || Text.IsBlank(lastName) || Text.IsBlank(email)
    ensures r == SubmitDetails <==>
      !Text.IsBlank(firstName) && !Text.IsBlank(lastName) && MatchesEmail(email)
    ensures r == SubmitDetails ==> Text.Trim(email) == email
  {
    if Text.IsBlank(firstName) || Text.IsBlank(lastName) || Text.IsBlank(email) then DetailsRequired
    else if !MatchesEmail(email) then InvalidEmail
    else
      EmailShape(email);
      SubmitDetails
  }

  /** `[@$!%*?&]`. */
  predicate IsPasswordSpecial(c: char) { c in "@$!%*?&" }

  /** `[A-Za-z\d@$!%*?&]`. */
  predicate IsPasswordChar(c: char) { Text.IsAsciiAlnum(c) || IsPasswordSpecial(c) }

  /** `passwordRegex`: at least eight characters, all from the allowed set, with an upper-case
      letter, a digit and one of `@$!%*?&`; no lower-case letter is required. */
  predicate MatchesPasswordRule(p: string) {
    |p| >= 8 && (forall i :: 0 <= i < |p| ==> IsPasswordChar(p[i]))
    && Text.Has(p, Text.IsUpper) && Text.Has(p, Text.IsDigit) && Text.Has(p, IsPasswordSpecial)
  }

  /** A password the rule accepts scores at least "Strong" on the strength meter. */
  lemma RuleMeansStrong(p: string)
    requires MatchesPasswordRule(p)
    ensures PasswordStrength.Level(p) >= 4
  {
    var k :| 0 <= k < |p| && IsPasswordSpecial(p[k]);
    assert PasswordStrength.IsSpecial(p[k]);
  }

  /** A password of upper-case letters, a digit and a special character. */
  const UpperOnly: string := "ABCDEFG1!"

  lemma UpperOnlyHasNoLowercase()
    ensures !Text.Has(UpperOnly, Text.IsLower)
  {
    forall i | 0 <= i < |UpperOnly| ensures !Text.IsLower(UpperOnly[i]) {
      assert UpperOnly[i] in "ABCDEFG1!";
    }
  }

  lemma UpperOnlyMatchesRule()
    ensures MatchesPasswordRule(UpperOnly)
  {
    var p := UpperOnly;
    assert Text.IsUpper(p[0]) && Text.IsDigit(p[7]) && IsPasswordSpecial(p[8]);
    forall i | 0 <= i < |p| ensures IsPasswordChar(p[i]) {
      assert p[i] in "ABCDEFG1!";
    }
  }

  /** ... but not necessarily "Very Strong": the rule lets through a password without a
      lower-case letter. */
  lemma RuleAllowsNoLowercase()
    ensures MatchesPasswordRule(UpperOnly) && PasswordStrength.Level(UpperOnly) == 4
  {
    UpperOnlyMatchesRule();
    RuleMeansStrong(UpperOnly);
    UpperOnlyHasNoLowercase();
    PasswordStrength.LevelFive(UpperOnly);
  }

  datatype PasswordCheck = AllRequired | Mismatch | WeakPassword | SubmitPassword

  /** `handleSecuritySave`'s guards, in order: a missing field, then a confirmation that differs,
      then the password rule. */
  function CheckPassword(current: string, newPassword: string, confirm: string): (r: PasswordCheck)
    ensures r == AllRequired <==> current == [] || newPassword == [] || confirm == []
    ensures r == Mismatch <==> current != [] && newPassword != [] && confirm != [] && newPassword != confirm
    ensures r == SubmitPassword <==>
      current != [] && newPassword == confirm && MatchesPasswordRule(newPassword)
    ensures r == SubmitPassword ==> PasswordStrength.Level(newPassword) >= 4
  {
    if current == [] || newPassword == [] || confirm == [] then AllRequired
    else if newPassword != confirm then Mismatch
    else if !MatchesPasswordRule(newPassword) then WeakPassword
    else
      RuleMeansStrong(newPassword);
      SubmitPassword
  }

  /** How a save attempt ended. */
  datatype SaveOutcome = Refused(reason: PasswordCheck) | Updated | ServerRejected

  /** How `handleSecuritySave` ends as written: `updatePassword` is not an action of the auth store,
      so the destructured name is undefined and calling it throws inside the `try`; the catch shows
      the failure message. A form that passes the checks therefore always fails, sending nothing. */
  function SaveOutcomeAsWritten(current: string, newPassword: string, confirm: string): (r: SaveOutcome)
    ensures r != Updated
    ensures CheckPassword(current, newPassword, confirm) != SubmitPassword ==>
      r == Refused(CheckPassword(current, newPassword, confirm))
    ensures CheckPassword(current, newPassword, confirm) == SubmitPassword ==> r == ServerRejected
  {
    var check := CheckPassword(current, newPassword, confirm);
    if check != SubmitPassword then Refused(check) else ServerRejected
  }

  /** A valid change ("ABCDEFG1!" typed twice) never reaches the server as written. */
  lemma ValidChangeFailsAsWritten()
    ensures CheckPassword("old", UpperOnly, UpperOnly) == SubmitPassword
    ensures SaveOutcomeAsWritten("old", UpperOnly, UpperOnly) == ServerRejected
  {
    UpperOnlyMatchesRule();
  }

  /** The security form's three password fields; `sent` records each `updatePassword` call. */
  class SecurityForm {
    var current: string
    var newPassword: string
    var confirm: string
    var sent: seq<(string, string)>

    constructor ()
      ensures current == [] && newPassword == [] && confirm == [] && sent == []
    {
      current, newPassword, confirm, sent := [], [], [], [];
    }

    method Edit(current: string, newPassword: string, confirm: string)
      modifies this`current, this`newPassword, this`confirm
      ensures this.current == current && this.newPassword == newPassword && this.confirm == confirm
    {
      this.current, this.newPassword, this.confirm := current, newPassword, confirm;
    }

    /** Saving: a refused form sends nothing and keeps its fields; a passing one sends
        `(current, new)`, and the fields are cleared only when the server accepts. `serverAccepts`
        stands for the outcome of the request. */
    method Save(serverAccepts: bool) returns (outcome: SaveOutcome)
      modifies this
      ensures var check := CheckPassword(old(current), old(newPassword), old(confirm));
        && (check != SubmitPassword ==> outcome == Refused(check) && sent == old(sent))
        && (check == SubmitPassword ==> sent == old(sent) + [(old(current), old(newPassword))])
        && (outcome == Updated <==> check == SubmitPassword && serverAccepts)
        && (check == SubmitPassword && !serverAccepts ==> outcome == ServerRejected)
      ensures outcome == Updated ==> current == [] && newPassword == [] && confirm == []
      ensures outcome != Updated ==>
        current == old(current) && newPassword == old(newPassword) && confirm == old(confirm)
    {
      var check := CheckPassword(current, newPassword, confirm);
      if check != SubmitPassword {
        return Refused(check);
      }
      sent := sent + [(current, newPassword)];
      if !serverAccepts {
        return ServerRejected;
      }
      current, newPassword, confirm := [], [], [];
      outcome := Updated;
    }

    /** Saving as written: the outcome is `SaveOutcomeAsWritten`; the form changes nothing (no
        field is modified), so nothing is sent and the fields stay as they were. */
    method SaveAsWritten() returns (outcome: SaveOutcome)
      ensures outcome == SaveOutcomeAsWritten(current, newPassword, confirm)
      ensures outcome != Updated
    {
      var check := CheckPassword(current, newPassword, confirm);
      if check != SubmitPassword {
        return Refused(check);
      }
      outcome := ServerRejected;
    }
  }
}
