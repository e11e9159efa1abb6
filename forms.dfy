/** The field validators of gallery/main/forms.py: the e-mail, first-name
    and last-name checks of the profile form, and the roles the registration
    form offers. Each validator either rejects its value or returns it
    unchanged; the regular expressions are stated as character classes, with
    Python's `re.match` semantics spelled out as ghost predicates. */
module Forms {
  import opened Base
  import opened Models

  datatype FormError =
    | EmailUsedByOther
    | InvalidEmail
    | InvalidFirstName
    | InvalidLastName
    | RoleNotOffered

  // ---------------------------------------------------------------------
  // Character classes
  // ---------------------------------------------------------------------

  /** `\s` on a str pattern: the characters for which `str.isspace()` holds. */
  predicate IsPythonSpace(c: char)
  {
    var n := c as int;
    (0x09 <= n <= 0x0D) || (0x1C <= n <= 0x20) || n == 0x85 || n == 0xA0 || n == 0x1680 ||
    (0x2000 <= n <= 0x200A) || n == 0x2028 || n == 0x2029 || n == 0x202F || n == 0x205F || n == 0x3000
  }

  predicate IsLatinLetter(c: char)
  {
    ('a' <= c <= 'z') || ('A' <= c <= 'Z')
  }

  predicate IsDigit(c: char)
  {
    '0' <= c <= '9'
  }

  /** `а-яА-ЯёЁ`: the two Cyrillic ranges do not include ё and Ё, which are
      listed on their own. */
  predicate IsCyrillicLetter(c: char)
  {
    ('а' <= c <= 'я') || ('А' <= c <= 'Я') || c == 'ё' || c == 'Ё'
  }

  /** `[a-zA-Zа-яА-ЯёЁ\s\-]`. */
  predicate IsNameChar(c: char)
  {
    IsLatinLetter(c) || IsCyrillicLetter(c) || IsPythonSpace(c) || c == '-'
  }

  /** `[a-zA-Z0-9_.+-]`, the local part of an e-mail. */
  predicate IsLocalChar(c: char)
  {
    IsLatinLetter(c) || IsDigit(c) || c == '_' || c == '.' || c == '+' || c == '-'
  }

  /** `[a-zA-Z0-9-]`, the first domain label. */
  predicate IsLabelChar(c: char)
  {
    IsLatinLetter(c) || IsDigit(c) || c == '-'
  }

  /** `[a-zA-Z0-9-.]`, the rest of the domain. */
  predicate IsRestChar(c: char)
  {
    IsLatinLetter(c) || IsDigit(c) || c == '-' || c == '.'
  }

  // ---------------------------------------------------------------------
  // clean_first_name and clean_last_name
  // ---------------------------------------------------------------------

  /** Every character of `s` is a name character. */
  function AllNameChars(s: string): (b: bool)
    ensures b <==> forall i | 0 <= i < |s| :: IsNameChar(s[i])
  {
    if s == [] then true else IsNameChar(s[0]) && AllNameChars(s[1..])
  }

  /** What `re.match(r'^[...]+$', s)` accepts: one or more class characters
      running to the end, or to just before a final newline. */
  ghost predicate NameRegexMatches(s: string)
  {
    || (|s| >= 1 && forall i | 0 <= i < |s| :: IsNameChar(s[i]))
    || (|s| >= 2 && s[|s| - 1] == '\n' && forall i | 0 <= i < |s| - 1 :: IsNameChar(s[i]))
  }

  /** Because `\s` covers the newline, the `$`-before-newline case adds
      nothing: the pattern accepts exactly the non-empty strings of name
      characters. */
  lemma NameRegexIsAllNameChars(s: string)
    ensures NameRegexMatches(s) <==> s != [] && AllNameChars(s)
  {
    if |s| >= 2 && s[|s| - 1] == '\n' && forall i | 0 <= i < |s| - 1 :: IsNameChar(s[i]) {
      assert IsPythonSpace(s[|s| - 1]);
    }
  }

  /** `clean_first_name`. */
  function CleanFirstName(value: string): (r: Result<string, FormError>)
    ensures r.Success? <==> value != [] && forall i | 0 <= i < |value| :: IsNameChar(value[i])
    ensures r.Success? ==> r.value == value
    ensures r.Failure? ==> r.error == InvalidFirstName
  {
    if value != [] && AllNameChars(value) then Success(value) else Failure(InvalidFirstName)
  }

  /** `clean_last_name`: the same rule as the first name. */
  function CleanLastName(value: string): (r: Result<string, FormError>)
    ensures r.Success? <==> value != [] && forall i | 0 <= i < |value| :: IsNameChar(value[i])
    ensures r.Success? ==> r.value == value
    ensures r.Failure? ==> r.error == InvalidLastName
  {
    if value != [] && AllNameChars(value) then Success(value) else Failure(InvalidLastName)
  }

  /** A double-barrelled Cyrillic name with a space is accepted, a name with
      a digit is not, and the empty name is not. */
  lemma NameExamples()
    ensures CleanFirstName("Анна-Мария") == Success("Анна-Мария")
    ensures CleanLastName("Smith2").Failure?
    ensures CleanFirstName("") == Failure(InvalidFirstName)
  {
    assert !IsNameChar("Smith2"[5]);
  }

  // ---------------------------------------------------------------------
  // clean_email
  // ---------------------------------------------------------------------

  /** The first position of `c` in `s`. */
  function IndexOf(s: string, c: char): (r: Option<nat>)
    ensures r.None? <==> c !in s
    ensures r.Some? ==> r.value < |s| && s[r.value] == c && c !in s[..r.value]
  {
    if s == [] then None
    else if s[0] == c then Some(0)
    else
      var rest := IndexOf(s[1..], c);
      if rest.None? then None
      else
        assert s[..rest.value + 1] == [s[0]] + s[1..][..rest.value];
        Some(rest.value + 1)
  }

  /** `s` reads local '@' label '.' rest, with the '@' at `i`, the '.' at
      `j`, every part non-empty and over its class. */
  ghost predicate EmailSplitAt(s: string, i: int, j: int)
  {
    && 1 <= i && i + 1 < j && j + 1 < |s|
    && s[i] == '@' && s[j] == '.'
    && (forall k | 0 <= k < i :: IsLocalChar(s[k]))
    && (forall k | i < k < j :: IsLabelChar(s[k]))
    && (forall k | j < k < |s| :: IsRestChar(s[k]))
  }

  ghost predicate EmailBodyMatches(s: string)
  {
    exists i, j :: EmailSplitAt(s, i, j)
  }

  /** What `re.match` with the e-mail pattern accepts: a whole match, or a
      match of everything but a final newline. */
  ghost predicate EmailRegexMatches(s: string)
  {
    EmailBodyMatches(s) || (|s| >= 1 && s[|s| - 1] == '\n' && EmailBodyMatches(s[..|s| - 1]))
  }

  function AllChars(s: string, lo: int, hi: int, cls: char -> bool): (b: bool)
    requires 0 <= lo <= hi <= |s|
    ensures b <==> forall k | lo <= k < hi :: cls(s[k])
    decreases hi - lo
  {
    if lo == hi then true else cls(s[lo]) && AllChars(s, lo + 1, hi, cls)
  }

  /** The pattern without its anchors, checked directly: the local part ends
      at the first '@' (no local character is '@') and the label ends at the
      first '.' after it (no label character is '.'). */
  function EmailBodyOk(s: string): (b: bool)
  {
    match IndexOf(s, '@')
    case None => false
    case Some(i) =>
      match IndexOf(s[i + 1..], '.')
      case None => false
      case Some(d) =>
        var j := i + 1 + d;
        && 1 <= i && i + 1 < j && j + 1 < |s|
        && AllChars(s, 0, i, IsLocalChar)
        && AllChars(s, i + 1, j, IsLabelChar)
        && AllChars(s, j + 1, |s|, IsRestChar)
  }

  /** The direct check agrees with the pattern, in both directions. */
  lemma EmailBodyOkIffMatches(s: string)
    ensures EmailBodyOk(s) <==> EmailBodyMatches(s)
  {
    if EmailBodyOk(s) {
      var i := IndexOf(s, '@').value;
      var d := IndexOf(s[i + 1..], '.').value;
      assert s[i + 1..][d] == s[i + 1 + d];
      assert EmailSplitAt(s, i, i + 1 + d);
    }
    if EmailBodyMatches(s) {
      var i, j :| EmailSplitAt(s, i, j);
      // No local character is '@', so the first '@' is at i.
      assert forall k | 0 <= k < i :: s[k] != '@';
      assert s[..i + 1][i] == '@';
      var fi := IndexOf(s, '@');
      assert fi.Some?;
      assert fi.value == i;
      // No label character is '.', so the first '.' after the '@' is at j.
      var t := s[i + 1..];
      assert t[j - i - 1] == '.';
      var fd := IndexOf(t, '.');
      assert fd.Some?;
      assert fd.value == j - i - 1;
    }
  }

  /** The format test of `clean_email`. */
  function EmailFormatOk(s: string): (b: bool)
    ensures b <==> EmailRegexMatches(s)
  {
    EmailBodyOkIffMatches(s);
    if |s| >= 1 && s[|s| - 1] == '\n' then EmailBodyOkIffMatches(s[..|s| - 1]); EmailBodyOk(s) || EmailBodyOk(s[..|s| - 1])
    else EmailBodyOk(s)
  }

  /** The positions of '@' in `s`. */
  function AtPositions(s: string): set<int>
  {
    set k | 0 <= k < |s| && s[k] == '@'
  }

  lemma BodyHasOneAt(s: string)
    requires EmailBodyMatches(s)
    ensures exists i :: AtPositions(s) == {i}
  {
    var i, j :| EmailSplitAt(s, i, j);
    assert forall k | k in AtPositions(s) :: k == i;
    assert AtPositions(s) == {i};
  }

  /** An address `clean_email` accepts has exactly one '@'. */
  lemma AcceptedEmailHasOneAt(s: string)
    ensures EmailRegexMatches(s) ==> |AtPositions(s)| == 1
  {
    if EmailBodyMatches(s) {
      BodyHasOneAt(s);
    } else if |s| >= 1 && s[|s| - 1] == '\n' && EmailBodyMatches(s[..|s| - 1]) {
      var t := s[..|s| - 1];
      BodyHasOneAt(t);
      assert AtPositions(s) == AtPositions(t);
    }
  }

  /** The uniqueness test: another user, not the one being edited, already
      has this e-mail. A new instance has no key and excludes nobody. */
  predicate EmailUsedByAnother(users: map<UserId, User>, instance: Option<UserId>, email: string)
  {
    exists u | u in users :: users[u].email == email && instance != Some(u)
  }

  /** `clean_email`: the uniqueness test comes first, then the format test;
      an accepted address is returned unchanged. */
  function CleanEmail(users: map<UserId, User>, instance: Option<UserId>, email: string): (r: Result<string, FormError>)
    ensures r.Success? <==> !EmailUsedByAnother(users, instance, email) && EmailRegexMatches(email)
    ensures r.Success? ==> r.value == email
    ensures r == Failure(EmailUsedByOther) <==> EmailUsedByAnother(users, instance, email)
    ensures r == Failure(InvalidEmail) <==> !EmailUsedByAnother(users, instance, email) && !EmailRegexMatches(email)
  {
    if EmailUsedByAnother(users, instance, email) then Failure(EmailUsedByOther)
    else if !EmailFormatOk(email) then Failure(InvalidEmail)
    else Success(email)
  }

  /** A user who keeps their own address is not refused as a duplicate. */
  lemma KeepingOwnEmailIsNotDuplicate(users: map<UserId, User>, id: UserId)
    requires id in users && UniqueUserKeys(users)
    ensures !EmailUsedByAnother(users, Some(id), users[id].email)
  {
    forall u | u in users && u != id
      ensures users[u].email != users[id].email
    {
      assert DistinctUserKeys(users, u, id);
    }
  }

  /** A dotted local part with a '+' tag and a hyphenated domain passes. */
  lemma EmailAcceptedExample()
    ensures EmailFormatOk("a.b+c@x-y.ru")
  {
    assert EmailSplitAt("a.b+c@x-y.ru", 5, 9);
  }

  /** A domain without a dot fails. */
  lemma EmailWithoutDotRejected()
    ensures !EmailFormatOk("ab@cd")
  {
    var s := "ab@cd";
    assert forall k | 0 <= k < |s| :: s[k] != '.';
  }

  /** A second '@' fails. */
  lemma EmailWithTwoAtsRejected()
    ensures !EmailFormatOk("a@b@c.d")
  {
    var s := "a@b@c.d";
    AcceptedEmailHasOneAt(s);
    assert AtPositions(s) == {1, 3};
  }

  // ---------------------------------------------------------------------
  // UserRegisterForm role choices
  // ---------------------------------------------------------------------

  /** The role choices `UserRegisterForm.__init__` leaves on the form. */
  const RegistrationRoles: seq<Role> := [Buyer, Seller]

  /** The choice field's validation: only an offered role is accepted. */
  function CleanRegistrationRole(choice: Role): (r: Result<Role, FormError>)
    ensures r.Success? <==> choice in RegistrationRoles
    ensures r.Success? ==> r.value == choice
  {
    if choice in RegistrationRoles then Success(choice) else Failure(RoleNotOffered)
  }

  /** Self-registration never yields a moderator or an administrator. */
  lemma RegistrationCannotGrantStaffRoles(choice: Role)
    ensures CleanRegistrationRole(choice).Success? <==> choice == Buyer || choice == Seller
    ensures CleanRegistrationRole(Moderator).Failure? && CleanRegistrationRole(Admin).Failure?
  {
  }
}
