/** Signing in with Kakao (services_oauth.py): the user-info checks, the
    lookup of an existing social account or verified e-mail, and the
    creation of a new user under a generated unique username. */
module KakaoOAuth {
  import opened Wrappers
  import Decimal
  import PythonText

  // ---------------------------------------------------------------------
  // Unique usernames

  /** "{provider}_{id}", the preferred username. */
  function BaseName(provider: string, providerUserId: string): string {
    provider + "_" + providerUserId
  }

  /** "{base}_{k}", the k-th fallback. */
  function Candidate(base: string, k: nat): string {
    base + "_" + Decimal.NatToString(k)
  }

  /** Different counters give different fallbacks. */
  lemma CandidateInjective(base: string, j: nat, k: nat)
    ensures Candidate(base, j) == Candidate(base, k) ==> j == k
  {
    if Candidate(base, j) == Candidate(base, k) {
      assert Candidate(base, j)[|base| + 1..] == Decimal.NatToString(j);
      assert Candidate(base, k)[|base| + 1..] == Decimal.NatToString(k);
      Decimal.NatToStringInjective(j, k);
    }
  }

  /** The name the search settles on: `base` when it is free, else the
      first fallback "{base}_{k}", k = 1, 2, ..., that is free. */
  ghost predicate FirstFreeName(username: string, base: string, taken: set<string>) {
    && username !in taken
    && (base !in taken ==> username == base)
    && (base in taken ==>
          exists k :: k >= 1 && username == Candidate(base, k)
            && forall j :: 1 <= j < k ==> Candidate(base, j) in taken)
  }

  /** _generate_unique_username: the base name when no user has it, else
      the first fallback "{base}_{k}", k = 1, 2, ..., that no user has. */
  method GenerateUniqueUsername(provider: string, providerUserId: string, taken: set<string>)
    returns (username: string)
    ensures username !in taken
    ensures FirstFreeName(username, BaseName(provider, providerUserId), taken)
  {
    username := BaseName(provider, providerUserId);
    if username in taken {
      var counter: nat := 1;
      ghost var seen: set<string> := {};
      while Candidate(username, counter) in taken
        invariant counter >= 1
        invariant seen <= taken
        invariant |seen| == counter - 1
        invariant forall j :: 1 <= j < counter ==> Candidate(username, j) in seen
        invariant forall s :: s in seen ==> exists j :: 1 <= j < counter && s == Candidate(username, j)
        decreases |taken| - |seen|
      {
        forall s | s in seen ensures s != Candidate(username, counter) {
          var j :| 1 <= j < counter && s == Candidate(username, j);
          CandidateInjective(username, j, counter);
        }
        seen := seen + {Candidate(username, counter)};
        counter := counter + 1;
        SubsetSize(seen, taken);
      }
      username := Candidate(username, counter);
    }
  }

  lemma SubsetSize<T>(a: set<T>, b: set<T>)
    requires a <= b
    ensures |a| <= |b|
  {
    assert b == a + (b - a);
  }

  // ---------------------------------------------------------------------
  // User info

  /** The `id` field of Kakao's user info as it may arrive. */
  datatype RawId = Absent | IntId(n: int) | StrId(s: string)

  /** The user info fields the sign-in reads; None is a missing key. */
  datatype KakaoUserInfo = KakaoUserInfo(
    id: RawId,
    profileNickname: Option<string>,
    propertiesNickname: Option<string>,
    email: Option<string>,
    isEmailVerified: Option<bool>)

  /** Python truthiness of the id: a missing id, 0 and "" are false. */
  predicate IdPresent(id: RawId) {
    match id
    case Absent => false
    case IntId(n) => n != 0
    case StrId(s) => s != ""
  }

  /** str() of an integer. */
  function IntToString(n: int): (s: string)
    ensures s != []
  {
    if n < 0 then "-" + Decimal.NatToString(-n) else Decimal.NatToString(n)
  }

  /** str() of the raw id. */
  function IdText(id: RawId): (s: string)
    requires IdPresent(id)
    ensures s != []
  {
    match id
    case IntId(n) => IntToString(n)
    case StrId(s) => s
  }

  /** The profile nickname when it is non-empty, else the properties
      nickname, else the empty string. */
  function Nickname(info: KakaoUserInfo): (nick: string)
    ensures info.profileNickname.Some? && info.profileNickname.value != "" ==> nick == info.profileNickname.value
    ensures !(info.profileNickname.Some? && info.profileNickname.value != "") && info.propertiesNickname.Some? ==>
      nick == info.propertiesNickname.value
    ensures !(info.profileNickname.Some? && info.profileNickname.value != "") && info.propertiesNickname.None? ==>
      nick == ""
  {
    if info.profileNickname.Some? && info.profileNickname.value != "" then info.profileNickname.value
    else if info.propertiesNickname.Some? then info.propertiesNickname.value
    else ""
  }

  function Email(info: KakaoUserInfo): string {
    if info.email.Some? then info.email.value else ""
  }

  /** Linking by e-mail is attempted only for a non-empty e-mail that Kakao
      reports as verified. */
  predicate MayLinkByEmail(info: KakaoUserInfo) {
    Email(info) != "" && info.isEmailVerified == Some(true)
  }

  // ---------------------------------------------------------------------
  // E-mail normalization

  /** Django's UserManager.normalize_email, which create_user applies: the
      address is stripped and the part after its last '@' lower-cased; an
      address with no '@' once stripped is kept exactly as given. */
  function NormalizeEmail(email: string): (r: string)
    ensures PythonText.LastIndexOf(PythonText.Strip(email), '@').None? ==> r == email
    ensures PythonText.LastIndexOf(PythonText.Strip(email), '@').Some? ==> |r| == |PythonText.Strip(email)|
  {
    var t := PythonText.Strip(email);
    match PythonText.LastIndexOf(t, '@')
    case None => email
    case Some(i) => t[..i] + "@" + PythonText.Lower(t[i + 1..])
  }

  /** The stripped address keeps everything up to its last '@' and has
      every character after it lower-cased in place. */
  lemma NormalizeEmailLowersDomain(email: string)
    requires PythonText.LastIndexOf(PythonText.Strip(email), '@').Some?
    ensures var t := PythonText.Strip(email);
      var i := PythonText.LastIndexOf(t, '@').value;
      var r := NormalizeEmail(email);
      && (forall k :: 0 <= k <= i ==> r[k] == t[k])
      && (forall k :: i < k < |r| ==> r[k] == PythonText.LowerChar(t[k]))
  {
    var t := PythonText.Strip(email);
    var i := PythonText.LastIndexOf(t, '@').value;
    LowerFrom(t, i);
  }

  /** Splitting at the '@' at index i and lowering what follows keeps the
      text up to i and lowers the rest in place. */
  lemma LowerFrom(t: string, i: nat)
    requires i < |t| && t[i] == '@'
    ensures var r := t[..i] + "@" + PythonText.Lower(t[i + 1..]);
      && (forall k :: 0 <= k <= i ==> r[k] == t[k])
      && (forall k :: i < k < |r| ==> r[k] == PythonText.LowerChar(t[k]))
  {
    var domain := PythonText.Lower(t[i + 1..]);
    var r := t[..i] + "@" + domain;
    assert forall k :: i < k < |r| ==> r[k] == domain[k - i - 1];
  }

  lemma UnpaddedAddress(local: string, domain: string)
    requires local == [] || !PythonText.IsSpace(local[0])
    requires domain == [] || !PythonText.IsSpace(domain[|domain| - 1])
    ensures PythonText.Strip(local + "@" + domain) == local + "@" + domain
  {
    var e := local + "@" + domain;
    assert !PythonText.IsSpace(e[0]) by {
      if local == [] { assert e[0] == '@'; } else { assert e[0] == local[0]; }
    }
    assert !PythonText.IsSpace(e[|e| - 1]) by {
      if domain == [] { assert e[|e| - 1] == '@'; } else { assert e[|e| - 1] == domain[|domain| - 1]; }
    }
    PythonText.StripUnpadded(e);
  }

  lemma LastAtBeforeDomain(local: string, domain: string)
    requires '@' !in domain
    ensures PythonText.LastIndexOf(local + "@" + domain, '@') == Some(|local|)
  {
    var e := local + "@" + domain;
    assert e[|local|] == '@';
  }

  /** An unpadded address is split at its last '@': the local part is kept
      even when it holds '@' or capitals, and only the domain is
      lower-cased. "kim@Kakao.COM" becomes "kim@kakao.com". */
  lemma NormalizeSplitsAtLastAt(local: string, domain: string)
    requires local == [] || !PythonText.IsSpace(local[0])
    requires domain == [] || !PythonText.IsSpace(domain[|domain| - 1])
    requires '@' !in domain
    ensures NormalizeEmail(local + "@" + domain) == local + "@" + PythonText.Lower(domain)
  {
    var e := local + "@" + domain;
    UnpaddedAddress(local, domain);
    LastAtBeforeDomain(local, domain);
    assert e[..|local|] == local;
    assert e[|local| + 1..] == domain;
  }

  lemma NoAtAfterLast(t: string, i: nat)
    requires PythonText.LastIndexOf(t, '@') == Some(i)
    ensures '@' !in t[i + 1..]
  {
    var domain := t[i + 1..];
    forall k | 0 <= k < |domain| ensures domain[k] != '@' {
      assert domain[k] == t[i + 1 + k];
    }
  }

  lemma PartsUnpadded(t: string, i: nat)
    requires i < |t|
    requires t == [] || (!PythonText.IsSpace(t[0]) && !PythonText.IsSpace(t[|t| - 1]))
    ensures t[..i] == [] || !PythonText.IsSpace(t[..i][0])
    ensures t[i + 1..] == [] || !PythonText.IsSpace(t[i + 1..][|t[i + 1..]| - 1])
  {
  }

  /** An address already split at its last '@' with a lower-cased domain
      is left alone. */
  lemma NormalizedFixed(local: string, domain: string, r: string)
    requires local == [] || !PythonText.IsSpace(local[0])
    requires domain == [] || !PythonText.IsSpace(domain[|domain| - 1])
    requires '@' !in domain
    requires r == local + "@" + PythonText.Lower(domain)
    ensures NormalizeEmail(r) == r
  {
    var lowered := PythonText.Lower(domain);
    assert '@' !in lowered by {
      forall k | 0 <= k < |lowered| ensures lowered[k] != '@' {
        assert domain[k] in domain;
      }
    }
    if lowered != [] {
      assert lowered[|lowered| - 1] == PythonText.LowerChar(domain[|domain| - 1]);
    }
    NormalizeSplitsAtLastAt(local, lowered);
    PythonText.LowerIdempotent(domain);
  }

  lemma FixedFromParts(t: string, i: nat)
    requires PythonText.LastIndexOf(t, '@') == Some(i)
    requires t == [] || (!PythonText.IsSpace(t[0]) && !PythonText.IsSpace(t[|t| - 1]))
    ensures var r := t[..i] + "@" + PythonText.Lower(t[i + 1..]);
      NormalizeEmail(r) == r
  {
    NoAtAfterLast(t, i);
    PartsUnpadded(t, i);
    NormalizedFixed(t[..i], t[i + 1..], t[..i] + "@" + PythonText.Lower(t[i + 1..]));
  }

  /** A normalized address is its own normal form, so the e-mail create_user
      stores normalizes to itself. */
  lemma NormalizeEmailIdempotent(email: string, r: string)
    requires r == NormalizeEmail(email)
    ensures NormalizeEmail(r) == r
  {
    var t := PythonText.Strip(email);
    match PythonText.LastIndexOf(t, '@')
    case None =>
    case Some(i) =>
      FixedFromParts(t, i);
  }

  // ---------------------------------------------------------------------
  // Accounts

  datatype User = User(id: nat, username: string, email: string)

  datatype LoginResult = MissingId | SignedIn(user: nat, isNew: bool)

  function Usernames(users: seq<User>): set<string> {
    set u | u in users :: u.username
  }

  function UserIds(users: seq<User>): set<nat> {
    set u | u in users :: u.id
  }

  /** The index of the first user with this e-mail, as `.first()` finds it:
      the store keeps users in primary-key order, which is the order
      `.first()` uses on an unordered query. */
  function FirstWithEmail(users: seq<User>, email: string): (r: Option<nat>)
    ensures r.Some? ==> (r.value < |users| && users[r.value].email == email
      && forall k :: 0 <= k < r.value ==> users[k].email != email)
    ensures r.None? ==> forall k :: 0 <= k < |users| ==> users[k].email != email
  {
    if users == [] then None
    else if users[0].email == email then Some(0)
    else
      var r := FirstWithEmail(users[1..], email);
      if r.Some? then Some(r.value + 1) else None
  }

  /** The user, profile and Kakao social-account tables. */
  class AccountStore {
    var users: seq<User>
    var profiles: map<nat, string>       // user id to nickname
    var socialAccounts: map<string, nat> // Kakao user id to user id

    /** Usernames are unique, users are kept in ascending primary-key
        order, and profiles and social accounts belong to existing users. */
    ghost predicate Valid()
      reads this
    {
      && (forall i, j :: 0 <= i < j < |users| ==> users[i].username != users[j].username)
      && (forall i, j :: 0 <= i < j < |users| ==> users[i].id < users[j].id)
      && profiles.Keys <= UserIds(users)
      && socialAccounts.Values <= UserIds(users)
    }

    constructor ()
      ensures Valid()
      ensures users == [] && profiles == map[] && socialAccounts == map[]
    {
      users := [];
      profiles := map[];
      socialAccounts := map[];
    }

    /** get_or_create_user: refuses user info without an id; returns the
        user already linked to this Kakao id; else links a user with the
        same verified e-mail; else creates a user, its profile and its
        social account. `newId` is the id the database gives a new user,
        above every id in use. */
    method GetOrCreateUser(info: KakaoUserInfo, newId: nat) returns (result: LoginResult)
      requires Valid()
      requires forall u :: u in users ==> u.id < newId
      modifies this
      ensures Valid()
      ensures !IdPresent(info.id) ==> result == MissingId && unchanged(this)
      ensures IdPresent(info.id) && IdText(info.id) in old(socialAccounts) ==>
        result == SignedIn(old(socialAccounts)[IdText(info.id)], false) && unchanged(this)
      ensures (IdPresent(info.id) && IdText(info.id) !in old(socialAccounts)
        && MayLinkByEmail(info) && FirstWithEmail(old(users), Email(info)).Some?) ==>
          var u := old(users)[FirstWithEmail(old(users), Email(info)).value];
          && result == SignedIn(u.id, false)
          && users == old(users)
          && socialAccounts == old(socialAccounts)[IdText(info.id) := u.id]
          && profiles == (if u.id in old(profiles) then old(profiles) else old(profiles)[u.id := Nickname(info)])
      ensures (IdPresent(info.id) && IdText(info.id) !in old(socialAccounts)
        && !(MayLinkByEmail(info) && FirstWithEmail(old(users), Email(info)).Some?)) ==>
          && result == SignedIn(newId, true)
          && |users| == |old(users)| + 1 && users[..|old(users)|] == old(users)
          && users[|old(users)|].id == newId && users[|old(users)|].email == NormalizeEmail(Email(info))
          && FirstFreeName(users[|old(users)|].username, BaseName("kakao", IdText(info.id)), Usernames(old(users)))
          && socialAccounts == old(socialAccounts)[IdText(info.id) := newId]
          && profiles == old(profiles)[newId := Nickname(info)]
    {
      if !IdPresent(info.id) {
        return MissingId;
      }
      var kakaoId := IdText(info.id);
      var nickname := Nickname(info);
      var email := Email(info);
      if kakaoId in socialAccounts {
        return SignedIn(socialAccounts[kakaoId], false);
      }
      var existing: Option<nat> := None;
      if email != "" && info.isEmailVerified == Some(true) {
        existing := FirstWithEmail(users, email);
      }
      if existing.Some? {
        var u := users[existing.value];
        LinkAccount(kakaoId, existing.value, nickname);
        return SignedIn(u.id, false);
      }
      AddUser(kakaoId, nickname, email, newId);
      result := SignedIn(newId, true);
    }

    /** The e-mail branch: the Kakao id is linked to the user at `index`,
        who gets a profile only if they have none. */
    method LinkAccount(kakaoId: string, index: nat, nickname: string)
      requires Valid()
      requires index < |users|
      modifies this
      ensures Valid()
      ensures users == old(users)
      ensures socialAccounts == old(socialAccounts)[kakaoId := users[index].id]
      ensures profiles == (if users[index].id in old(profiles) then old(profiles)
                           else old(profiles)[users[index].id := nickname])
    {
      var u := users[index];
      assert u in users;
      socialAccounts := socialAccounts[kakaoId := u.id];
      if u.id !in profiles {
        profiles := profiles[u.id := nickname];
      }
    }

    /** The new-user branch: a user under the generated username with the
        normalized e-mail, its profile and its social account. */
    method AddUser(kakaoId: string, nickname: string, email: string, newId: nat)
      requires Valid()
      requires forall u :: u in users ==> u.id < newId
      modifies this
      ensures Valid()
      ensures |users| == |old(users)| + 1 && users[..|old(users)|] == old(users)
      ensures users[|old(users)|].id == newId && users[|old(users)|].email == NormalizeEmail(email)
      ensures FirstFreeName(users[|old(users)|].username, BaseName("kakao", kakaoId), Usernames(old(users)))
      ensures socialAccounts == old(socialAccounts)[kakaoId := newId]
      ensures profiles == old(profiles)[newId := nickname]
    {
      var username := GenerateUniqueUsername("kakao", kakaoId, Usernames(users));
      InsertUser(User(newId, username, NormalizeEmail(email)), kakaoId, nickname);
    }

    /** The three rows the new-user branch writes: the user, its profile
        and its social account. */
    method InsertUser(user: User, kakaoId: string, nickname: string)
      requires Valid()
      requires user.username !in Usernames(users)
      requires forall u :: u in users ==> u.id < user.id
      modifies this
      ensures Valid()
      ensures users == old(users) + [user]
      ensures socialAccounts == old(socialAccounts)[kakaoId := user.id]
      ensures profiles == old(profiles)[user.id := nickname]
    {
      NewUserKeepsUnique(users, user);
      users := users + [user];
      profiles := profiles[user.id := nickname];
      socialAccounts := socialAccounts[kakaoId := user.id];
    }
  }

  /** Appending a user with a free username and an id above every other
      keeps usernames unique and ids ascending. */
  lemma NewUserKeepsUnique(users: seq<User>, user: User)
    requires forall i, j :: 0 <= i < j < |users| ==> users[i].username != users[j].username
    requires forall i, j :: 0 <= i < j < |users| ==> users[i].id < users[j].id
    requires user.username !in Usernames(users) && forall u :: u in users ==> u.id < user.id
    ensures forall i, j :: 0 <= i < j < |users + [user]| ==> (users + [user])[i].username != (users + [user])[j].username
    ensures forall i, j :: 0 <= i < j < |users + [user]| ==> (users + [user])[i].id < (users + [user])[j].id
    ensures UserIds(users + [user]) == UserIds(users) + {user.id}
  {
    var all := users + [user];
    forall i, j | 0 <= i < j < |all| ensures all[i].username != all[j].username && all[i].id < all[j].id {
      if j == |users| {
        assert all[i] in users;
      }
    }
    assert forall u :: u in all <==> u in users || u == user;
  }
}
