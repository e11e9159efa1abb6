/** The social-login steps of gallery/main/pipeline.py: `create_user`, which
    derives an e-mail and a unique username and inserts a buyer, and
    `register_via_social`, which fills in a newly registered user's names.
    The provider's `details` and `response['id']` are parameters. */
module Pipeline {
  import opened Base
  import opened Models
  import opened Db

  /** The fields of the provider's `details` that the pipeline reads. */
  datatype Details = Details(email: Option<string>, firstName: string, lastName: string)

  // ---------------------------------------------------------------------
  // E-mail fallback and the username base
  // ---------------------------------------------------------------------

  const SocialDomain: string := "@yandex-social.ru"

  /** `str(social_id)` as an f-string renders it; a missing id renders as "None". */
  function SocialIdText(socialId: Option<string>): (t: string)
    ensures socialId.Some? ==> t == socialId.value
  {
    if socialId.Some? then socialId.value else "None"
  }

  /** `if not email`: a missing or empty e-mail becomes
      `<social_id>@yandex-social.ru`; any other e-mail is kept. */
  function FallbackEmail(email: Option<string>, socialId: Option<string>): (r: string)
    ensures email.Some? && email.value != "" ==> r == email.value
    ensures email.None? || email.value == "" ==> r == SocialIdText(socialId) + SocialDomain
  {
    if email.None? || email.value == "" then SocialIdText(socialId) + SocialDomain else email.value
  }

  /** `email.split('@')[0]`: the longest prefix without '@', which is the
      whole string when it has none. */
  function LocalPart(s: string): (r: string)
    ensures r <= s
    ensures '@' !in r
    ensures |r| < |s| ==> s[|r|] == '@'
  {
    if s == [] || s[0] == '@' then [] else [s[0]] + LocalPart(s[1..])
  }

  /** The local part of a fallback address is the social id itself, provided
      the id has no '@' of its own. */
  lemma FallbackLocalPartIsSocialId(socialId: string)
    requires '@' !in socialId
    ensures LocalPart(FallbackEmail(None, Some(socialId))) == socialId
  {
    var e := FallbackEmail(None, Some(socialId));
    var r := LocalPart(e);
    assert e == socialId + SocialDomain;
    assert e[|socialId|] == '@';
    assert r == e[..|r|] == socialId;
  }

  // ---------------------------------------------------------------------
  // Unique username
  // ---------------------------------------------------------------------

  function Digit(d: nat): char
    requires d < 10
  {
    (48 + d) as char
  }

  /** `str(n)` for a natural number. */
  function NatToDecimal(n: nat): (s: string)
    ensures |s| >= 1
    ensures n >= 10 ==> |s| >= 2
    decreases n
  {
    if n < 10 then [Digit(n)] else NatToDecimal(n / 10) + [Digit(n % 10)]
  }

  /** Distinct numbers print differently. */
  lemma {:induction false} NatToDecimalInjective(a: nat, b: nat)
    requires NatToDecimal(a) == NatToDecimal(b)
    ensures a == b
    decreases a
  {
    var sa, sb := NatToDecimal(a), NatToDecimal(b);
    if a < 10 && b < 10 {
      assert Digit(a) == sa[0] == sb[0] == Digit(b);
    } else if a >= 10 && b >= 10 {
      assert sa[|sa| - 1] == sb[|sb| - 1];
      assert a % 10 == b % 10;
      assert sa[..|sa| - 1] == NatToDecimal(a / 10);
      assert sb[..|sb| - 1] == NatToDecimal(b / 10);
      NatToDecimalInjective(a / 10, b / 10);
    }
  }

  /** The username the loop tries after `k` failures: the base itself, then
      `base_1`, `base_2`, and so on. */
  function Candidate(base: string, k: nat): (c: string)
    ensures base <= c
    ensures k == 0 <==> c == base
  {
    if k == 0 then base else base + "_" + NatToDecimal(k)
  }

  /** Different attempts try different names. */
  lemma CandidateInjective(base: string, j: nat, k: nat)
    requires Candidate(base, j) == Candidate(base, k)
    ensures j == k
  {
    if j != 0 && k != 0 {
      var cj, ck := Candidate(base, j), Candidate(base, k);
      assert cj[|base| + 1..] == NatToDecimal(j);
      assert ck[|base| + 1..] == NatToDecimal(k);
      NatToDecimalInjective(j, k);
    }
  }

  /** The names tried before attempt `n`. */
  function CandidatesBelow(base: string, n: nat): set<string>
  {
    set k: nat | k < n :: Candidate(base, k)
  }

  lemma CandidatesBelowStep(base: string, n: nat)
    ensures CandidatesBelow(base, n + 1) == CandidatesBelow(base, n) + {Candidate(base, n)}
    ensures Candidate(base, n) !in CandidatesBelow(base, n)
  {
    if Candidate(base, n) in CandidatesBelow(base, n) {
      var k: nat :| k < n && Candidate(base, k) == Candidate(base, n);
      CandidateInjective(base, k, n);
    }
  }

  /** One more taken candidate: the untried part of the table shrinks. */
  lemma TakenCandidateShrinksUntried(taken: set<string>, base: string, n: nat)
    requires CandidatesBelow(base, n) <= taken && Candidate(base, n) in taken
    ensures CandidatesBelow(base, n + 1) <= taken
    ensures |taken - CandidatesBelow(base, n + 1)| < |taken - CandidatesBelow(base, n)|
  {
    CandidatesBelowStep(base, n);
    assert taken - CandidatesBelow(base, n + 1) == (taken - CandidatesBelow(base, n)) - {Candidate(base, n)};
  }

  lemma CandidatesBelowMembers(base: string, n: nat, taken: set<string>)
    requires CandidatesBelow(base, n) <= taken
    ensures forall j: nat | j < n :: Candidate(base, j) in taken
  {
    forall j: nat | j < n
      ensures Candidate(base, j) in taken
    {
      assert Candidate(base, j) in CandidatesBelow(base, n);
    }
  }

  /** `name` is the first candidate not in `taken`: every earlier one is. */
  ghost predicate FirstFreeCandidate(taken: set<string>, base: string, name: string)
  {
    name !in taken &&
    exists k: nat :: name == Candidate(base, k) && forall j: nat | j < k :: Candidate(base, j) in taken
  }

  /** The `while User.objects.filter(username=username).exists()` loop:
      returns the first candidate that is not taken, and the attempt number
      `k` it was found at. It terminates because the table is finite and the
      candidates are all different. */
  method UniqueUsername(taken: set<string>, base: string) returns (username: string, k: nat)
    ensures username == Candidate(base, k)
    ensures username !in taken
    ensures forall j: nat | j < k :: Candidate(base, j) in taken
  {
    username := base;
    var counter: nat := 1;
    while username in taken
      invariant counter >= 1
      invariant username == Candidate(base, counter - 1)
      invariant CandidatesBelow(base, counter - 1) <= taken
      decreases |taken - CandidatesBelow(base, counter - 1)|
    {
      TakenCandidateShrinksUntried(taken, base, counter - 1);
      username := base + "_" + NatToDecimal(counter);
      counter := counter + 1;
    }
    k := counter - 1;
    CandidatesBelowMembers(base, k, taken);
  }

  // ---------------------------------------------------------------------
  // create_user and register_via_social
  // ---------------------------------------------------------------------

  /** The row `User.objects.create` inserts: an active buyer. */
  function NewSocialUser(email: string, username: string, details: Details, socialId: Option<string>): (u: User)
    ensures u.role == Buyer && u.isActive && !u.isStaff && !u.isSuperuser
    ensures u.email == email && u.username == username && u.socialId == socialId
    ensures u.firstName == details.firstName && u.lastName == details.lastName
  {
    User(email, username, details.firstName, details.lastName, socialId, Buyer, true, false, false)
  }

  datatype CreateOutcome =
    | NotNew
    | NewUser(id: UserId)
    /** `create` raised IntegrityError: the e-mail belongs to another user. */
    | EmailTaken

  /** `create_user`. With a user already supplied nothing is created. Otherwise
      the e-mail falls back to the social address, the username is the first
      free candidate built from the e-mail's local part, and an active buyer
      is inserted, unless the e-mail is already used, in which case the
      insert fails on the unique e-mail and nothing changes. */
  method CreateUser(db: Store, details: Details, socialId: Option<string>, user: Option<UserId>)
    returns (r: CreateOutcome)
    requires db.Valid()
    modifies db
    ensures db.Valid()
    ensures user.Some? ==> r == NotNew && unchanged(db)
    ensures user.None? ==> r != NotNew
    ensures r == EmailTaken <==>
      user.None? && EmailInUse(old(db.users), FallbackEmail(details.email, socialId))
    ensures r == EmailTaken ==> unchanged(db)
    ensures r.NewUser? ==>
      var email := FallbackEmail(details.email, socialId);
      var base := LocalPart(email);
      && r.id !in old(db.users)
      && db.users.Keys == old(db.users).Keys + {r.id}
      && (forall u | u in old(db.users) :: db.users[u] == old(db.users)[u])
      && db.users[r.id].email == email
      && db.users[r.id].username !in Usernames(old(db.users))
      && FirstFreeCandidate(Usernames(old(db.users)), base, db.users[r.id].username)
      && db.users[r.id] == NewSocialUser(email, db.users[r.id].username, details, socialId)
      && db.artworks == old(db.artworks) && db.orders == old(db.orders)
      && db.payments == old(db.payments) && db.verifications == old(db.verifications)
  {
    if user.Some? {
      return NotNew;
    }
    var email := FallbackEmail(details.email, socialId);
    var base := LocalPart(email);
    var username, k := UniqueUsername(Usernames(db.users), base);
    if EmailInUse(db.users, email) {
      return EmailTaken;
    }
    var id := db.nextUserId;
    UserKeysKeptByInsert(db.users, id, NewSocialUser(email, username, details, socialId));
    db.users := db.users[id := NewSocialUser(email, username, details, socialId)];
    db.nextUserId := db.nextUserId + 1;
    assert db.users[id].username == Candidate(base, k);
    assert FirstFreeCandidate(Usernames(old(db.users)), base, username);
    r := NewUser(id);
  }

  /** The fields `register_via_social` assigns before saving. */
  function Registered(u: User, details: Details): (r: User)
    ensures r.firstName == details.firstName && r.lastName == details.lastName && r.role == Buyer
    ensures r.(firstName := u.firstName, lastName := u.lastName, role := u.role) == u
  {
    u.(firstName := details.firstName, lastName := details.lastName, role := Buyer)
  }

  /** On a user `create_user` has just built from the same details, the
      second step changes nothing. */
  lemma RegisterAfterCreateIsNoOp(email: string, username: string, details: Details, socialId: Option<string>)
    ensures Registered(NewSocialUser(email, username, details, socialId), details)
      == NewSocialUser(email, username, details, socialId)
  {
  }

  /** `register_via_social`: nothing happens unless this is a registration
      and a user is present; otherwise the names and the buyer role are
      saved. The save touches no unique field, so the IntegrityError branch
      is never taken and the user is returned. */
  method RegisterViaSocial(db: Store, details: Details, isNew: bool, user: Option<UserId>)
    returns (r: Option<UserId>)
    requires db.Valid()
    requires user.Some? ==> user.value in db.users
    modifies db
    ensures db.Valid()
    ensures r.None? <==> !isNew || user.None?
    ensures r.None? ==> unchanged(db)
    ensures r.Some? ==>
      && r.value == user.value
      && db.users == old(db.users)[r.value := Registered(old(db.users)[r.value], details)]
      && db.artworks == old(db.artworks) && db.orders == old(db.orders)
      && db.payments == old(db.payments) && db.verifications == old(db.verifications)
  {
    if !isNew || user.None? {
      return None;
    }
    var id := user.value;
    UserKeysKeptBy(db.users, db.users[id := Registered(db.users[id], details)]);
    db.users := db.users[id := Registered(db.users[id], details)];
    r := Some(id);
  }
}
