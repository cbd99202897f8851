/** `AuthService`: the refresh-token lifetime setting (`<digits><d|h|m>`,
    seven days otherwise) and the refresh-token table that `register`,
    `login`, `refreshTokens` and `logout` insert into and delete from.
    Password hashing, JWT signing, the clock and the database's generated
    ids are parameters. */
module Auth {
  import opened Common
  import opened Collections

  // ---------------------------------------------------------------------
  // Lifetime setting
  // ---------------------------------------------------------------------

  datatype Unit = Days | Hours | Minutes

  /** A setting that matches `^(\d+)([dhm])$`. */
  datatype Lifetime = Lifetime(amount: nat, unit: Unit)

  const MillisPerMinute: nat := 60 * 1000
  const MillisPerHour: nat := 60 * MillisPerMinute
  const MillisPerDay: nat := 24 * MillisPerHour

  /** The setting used when none is configured. */
  const DefaultLifetime: string := "7d"

  function UnitChar(u: Unit): char {
    match u
    case Days => 'd'
    case Hours => 'h'
    case Minutes => 'm'
  }

  function UnitOf(c: char): Option<Unit> {
    if c == 'd' then Some(Days)
    else if c == 'h' then Some(Hours)
    else if c == 'm' then Some(Minutes)
    else None
  }

  /** The regular-expression match: one or more ASCII digits, read in base
      10 (leading zeros allowed), then a unit letter, and nothing else. */
  function ParseLifetime(s: string): Option<Lifetime> {
    if |s| >= 2 && AllDigits(s[..|s| - 1]) && UnitOf(s[|s| - 1]).Some? then
      Some(Lifetime(ParseNat(s[..|s| - 1]), UnitOf(s[|s| - 1]).value))
    else None
  }

  function LifetimeMillis(l: Lifetime): nat {
    match l.unit
    case Days => l.amount * MillisPerDay
    case Hours => l.amount * MillisPerHour
    case Minutes => l.amount * MillisPerMinute
  }

  /** `storeRefreshToken`'s `expiresAt`, in milliseconds: the setting (or
      "7d" when it is unset or empty) added to `now`; seven days when the
      setting does not match. */
  function ExpiresAt(setting: Option<string>, now: int): int {
    match ParseLifetime(OrDefault(setting, DefaultLifetime))
    case Some(l) => now + LifetimeMillis(l)
    case None => now + 7 * MillisPerDay
  }

  /** Every match is digits followed by a unit letter, the amount being
      the digits' value. */
  lemma ParseLifetimeSound(s: string)
    requires ParseLifetime(s).Some?
    ensures var l := ParseLifetime(s).value;
      var digits := s[..|s| - 1];
      |digits| > 0 && AllDigits(digits) && s == digits + [UnitChar(l.unit)] &&
      l.amount == ParseNat(digits)
  {
  }

  /** Every string of digits followed by a unit letter matches. */
  lemma ParseLifetimeComplete(digits: string, u: Unit)
    requires |digits| > 0 && AllDigits(digits)
    ensures ParseLifetime(digits + [UnitChar(u)]) == Some(Lifetime(ParseNat(digits), u))
  {
    var s := digits + [UnitChar(u)];
    assert s[..|s| - 1] == digits;
  }

  /** Printing an amount and a unit and parsing it back gives them back;
      a leading zero changes nothing. */
  lemma ParseLifetimeRoundTrip(n: nat, u: Unit)
    ensures ParseLifetime(NatToString(n) + [UnitChar(u)]) == Some(Lifetime(n, u))
    ensures ParseLifetime("0" + NatToString(n) + [UnitChar(u)]) == Some(Lifetime(n, u))
  {
    ParseLifetimeComplete(NatToString(n), u);
    ParseNatOfNatToString(n);
    ParseNatLeadingZero(NatToString(n));
    ParseLifetimeComplete("0" + NatToString(n), u);
  }

  /** An unset or empty setting, and any setting that does not match,
      give seven days; a matching one gives its own amount. */
  lemma ExpiresAtFacts(setting: Option<string>, now: int)
    ensures setting.None? || setting.value == "" ==> ExpiresAt(setting, now) == now + 604800000
    ensures setting.Some? && setting.value != "" && ParseLifetime(setting.value).None? ==>
      ExpiresAt(setting, now) == now + 604800000
    ensures setting.Some? && ParseLifetime(setting.value).Some? ==>
      ExpiresAt(setting, now) == now + LifetimeMillis(ParseLifetime(setting.value).value)
    ensures ExpiresAt(setting, now) > now || (setting.Some? && ParseLifetime(setting.value).Some? && ParseLifetime(setting.value).value.amount == 0)
  {
    assert ParseLifetime(DefaultLifetime) == Some(Lifetime(7, Days)) by {
      assert DefaultLifetime[..1] == "7";
      assert ParseNat("7") == ParseNat("") * 10 + DigitValue('7');
    }
  }

  /** Settings that look close to the pattern but do not match. */
  lemma NonMatchingSettings()
    ensures ParseLifetime("1w").None?
    ensures ParseLifetime("30s").None?
    ensures ParseLifetime("7 d").None?
    ensures ParseLifetime("").None?
    ensures ParseLifetime("d").None?
    ensures ParseLifetime("-1d").None?
  {
    assert !IsDigit(("7 d")[1]);
    assert !IsDigit(("-1d")[0]);
  }

  // ---------------------------------------------------------------------
  // Users and refresh tokens
  // ---------------------------------------------------------------------

  datatype User = User(id: string, email: string, name: string, passwordHash: string, role: string)

  /** The part of a user that `register` and `login` return. */
  datatype UserView = UserView(id: string, email: string, name: string, role: string)

  datatype StoredToken = StoredToken(id: string, userId: string, token: string, expiresAt: int)

  /** What `generateTokens` signs. */
  datatype TokenPair = TokenPair(accessToken: string, refreshToken: string)

  datatype Session = Session(user: UserView, tokens: TokenPair)

  function View(u: User): UserView {
    UserView(u.id, u.email, u.name, u.role)
  }

  function EmailOf(u: User): string { u.email }

  function UserIdOf(u: User): string { u.id }

  /** `findUnique` on a unique column of `users` (`EmailOf` or
      `UserIdOf`): the first user whose column holds `k`. */
  function FindUser(users: seq<User>, key: User -> string, k: string): (r: Option<User>)
    ensures r.Some? ==> r.value in users && key(r.value) == k
    ensures r.None? ==> forall i :: 0 <= i < |users| ==> key(users[i]) != k
  {
    var i := FindKey(users, key, k);
    if i.None? then None else Some(users[i.value])
  }

  /** The `findFirst` condition of `refreshTokens`: this user, this token,
      not yet expired. */
  predicate Usable(t: StoredToken, userId: string, token: string, now: int) {
    t.userId == userId && t.token == token && t.expiresAt > now
  }

  /** The index of the first usable token. */
  function FirstUsable(tokens: seq<StoredToken>, userId: string, token: string, now: int): (r: Option<nat>)
    ensures r.Some? ==> r.value < |tokens| && Usable(tokens[r.value], userId, token, now)
    ensures r.Some? ==> forall j :: 0 <= j < r.value ==> !Usable(tokens[j], userId, token, now)
    ensures r.None? ==> forall j :: 0 <= j < |tokens| ==> !Usable(tokens[j], userId, token, now)
  {
    if tokens == [] then None
    else if Usable(tokens[0], userId, token, now) then Some(0)
    else match FirstUsable(tokens[1..], userId, token, now)
      case None => None
      case Some(k) => Some(k + 1)
  }

  predicate EmailsUnique(users: seq<User>) {
    forall i, j :: 0 <= i < j < |users| ==> users[i].email != users[j].email
  }

  predicate TokenIdsUnique(tokens: seq<StoredToken>) {
    forall i, j :: 0 <= i < j < |tokens| ==> tokens[i].id != tokens[j].id
  }

  predicate FreshTokenId(tokens: seq<StoredToken>, id: string) {
    forall i :: 0 <= i < |tokens| ==> tokens[i].id != id
  }

  /** `deleteMany({ where: { userId } })`. */
  function WithoutUser(tokens: seq<StoredToken>, userId: string): seq<StoredToken> {
    Filter(tokens, (t: StoredToken) => t.userId != userId)
  }

  /** Logging out removes every token of that user and keeps every token
      of every other user. */
  lemma WithoutUserFacts(tokens: seq<StoredToken>, userId: string, t: StoredToken)
    ensures t in WithoutUser(tokens, userId) <==> t in tokens && t.userId != userId
  {
    var r := WithoutUser(tokens, userId);
    if t in r {
      var i :| 0 <= i < |r| && r[i] == t;
    }
    if t in tokens && t.userId != userId {
      var i :| 0 <= i < |tokens| && tokens[i] == t;
    }
  }

  /** Logging out keeps the table's ids distinct. */
  lemma {:induction false} WithoutUserUnique(tokens: seq<StoredToken>, userId: string)
    requires TokenIdsUnique(tokens)
    ensures TokenIdsUnique(WithoutUser(tokens, userId))
    decreases |tokens|
  {
    if tokens != [] {
      var f := (t: StoredToken) => t.userId != userId;
      assert WithoutUser(tokens, userId) == (if f(tokens[0]) then [tokens[0]] else []) + WithoutUser(tokens[1..], userId);
      WithoutUserUnique(tokens[1..], userId);
      forall t | t in WithoutUser(tokens[1..], userId) ensures t.id != tokens[0].id {
        WithoutUserFacts(tokens[1..], userId, t);
      }
    }
  }

  /** A row with a fresh id appended to rows with distinct ids keeps the
      ids distinct. */
  lemma AppendFreshUnique(tokens: seq<StoredToken>, added: StoredToken)
    requires TokenIdsUnique(tokens) && FreshTokenId(tokens, added.id)
    ensures TokenIdsUnique(tokens + [added])
  {
    var all := tokens + [added];
    forall i, j | 0 <= i < j < |all| ensures all[i].id != all[j].id {
      assert all[i] == tokens[i];
    }
  }

  /** Dropping one row keeps the ids distinct. */
  lemma RemoveAtUnique(tokens: seq<StoredToken>, i: nat)
    requires i < |tokens| && TokenIdsUnique(tokens)
    ensures TokenIdsUnique(RemoveAt(tokens, i))
  {
    RemoveAtFacts(tokens, i);
    var r := RemoveAt(tokens, i);
    forall a, b | 0 <= a < b < |r| ensures r[a].id != r[b].id {
      var a', b' := if a < i then a else a + 1, if b < i then b else b + 1;
      assert r[a] == tokens[a'] && r[b] == tokens[b'] && a' < b';
    }
  }

  /** The rows after rotation: the new row, and every old row but the one
      used. */
  lemma RotateMembers(tokens: seq<StoredToken>, i: nat, added: StoredToken, t: StoredToken)
    requires i < |tokens| && TokenIdsUnique(tokens) && FreshTokenId(tokens, added.id)
    ensures t in RemoveAt(tokens + [added], i) <==> t == added || (t in tokens && t.id != tokens[i].id)
  {
    var all := tokens + [added];
    var r := RemoveAt(all, i);
    RemoveAtFacts(all, i);
    if t in r {
      var k :| 0 <= k < |r| && r[k] == t;
      if k < i {
        assert t == tokens[k] && k != i;
      } else if k + 1 < |tokens| {
        assert t == tokens[k + 1] && k + 1 != i;
      } else {
        assert t == added;
      }
    }
    if t in tokens && t.id != tokens[i].id {
      var k :| 0 <= k < |tokens| && tokens[k] == t;
      if k < i {
        assert r[k] == t;
      } else {
        assert k != i;
        assert r[k - 1] == t;
      }
    }
    if t == added {
      assert r[|r| - 1] == added;
    }
  }

  /** Rotation: with distinct ids and a fresh id for the new row, the
      table afterwards holds the new row and every old row except the one
      used, and its ids stay distinct. */
  lemma RotateFacts(tokens: seq<StoredToken>, i: nat, added: StoredToken, t: StoredToken)
    requires i < |tokens| && TokenIdsUnique(tokens) && FreshTokenId(tokens, added.id)
    ensures t in RemoveAt(tokens + [added], i) <==> t == added || (t in tokens && t.id != tokens[i].id)
    ensures TokenIdsUnique(RemoveAt(tokens + [added], i))
    ensures |RemoveAt(tokens + [added], i)| == |tokens|
  {
    RotateMembers(tokens, i, added, t);
    AppendFreshUnique(tokens, added);
    RemoveAtUnique(tokens + [added], i);
    RemoveAtFacts(tokens + [added], i);
  }

  // ---------------------------------------------------------------------
  // The service
  // ---------------------------------------------------------------------

  class AuthService {
    /** The `user` table. */
    var users: seq<User>
    /** The `refreshToken` table. */
    var tokens: seq<StoredToken>
    /** The `jwt.refreshExpiresIn` setting. */
    const refreshExpiresIn: Option<string>

    ghost predicate Valid()
      reads this
    {
      EmailsUnique(users) && TokenIdsUnique(tokens)
    }

    constructor(refreshExpiresIn: Option<string>)
      ensures Valid() && users == [] && tokens == []
      ensures this.refreshExpiresIn == refreshExpiresIn
    {
      this.refreshExpiresIn := refreshExpiresIn;
      users := [];
      tokens := [];
    }

    /** `storeRefreshToken`: one new row; `tokenId` is the id the
        database generates. */
    method StoreRefreshToken(userId: string, token: string, tokenId: string, now: int)
      requires Valid() && FreshTokenId(tokens, tokenId)
      modifies this
      ensures Valid() && users == old(users)
      ensures tokens == old(tokens) + [StoredToken(tokenId, userId, token, ExpiresAt(refreshExpiresIn, now))]
    {
      tokens := tokens + [StoredToken(tokenId, userId, token, ExpiresAt(refreshExpiresIn, now))];
    }

    /** `register`: a used email is a conflict and changes nothing;
        otherwise one user and one refresh token are added. */
    method Register(email: string, name: string, passwordHash: string, userId: string, role: string,
                    pair: TokenPair, tokenId: string, now: int) returns (r: Result<Session>)
      requires Valid() && FreshTokenId(tokens, tokenId)
      modifies this
      ensures Valid()
      ensures FindUser(old(users), EmailOf, email).Some? ==>
        r == Err(Conflict("User with this email already exists")) && users == old(users) && tokens == old(tokens)
      ensures FindUser(old(users), EmailOf, email).None? ==>
        var u := User(userId, email, name, passwordHash, role);
        r == Ok(Session(View(u), pair)) && users == old(users) + [u] &&
        tokens == old(tokens) + [StoredToken(tokenId, userId, pair.refreshToken, ExpiresAt(refreshExpiresIn, now))]
    {
      var existing := FindUser(users, EmailOf, email);
      if existing.Some? {
        return Err(Conflict("User with this email already exists"));
      }
      var u := User(userId, email, name, passwordHash, role);
      users := users + [u];
      StoreRefreshToken(userId, pair.refreshToken, tokenId, now);
      r := Ok(Session(View(u), pair));
    }

    /** `login`: an unknown email and a wrong password give the same
        error and change nothing; `matches` is the bcrypt comparison. */
    method Login(email: string, password: string, matches: (string, string) -> bool,
                 pair: TokenPair, tokenId: string, now: int) returns (r: Result<Session>)
      requires Valid() && FreshTokenId(tokens, tokenId)
      modifies this
      ensures Valid() && users == old(users)
      ensures var found := FindUser(old(users), EmailOf, email);
        if found.None? || !matches(password, found.value.passwordHash) then
          r == Err(Unauthorized("Invalid credentials")) && tokens == old(tokens)
        else
          r == Ok(Session(View(found.value), pair)) &&
          tokens == old(tokens) + [StoredToken(tokenId, found.value.id, pair.refreshToken, ExpiresAt(refreshExpiresIn, now))]
    {
      var found := FindUser(users, EmailOf, email);
      if found.None? {
        return Err(Unauthorized("Invalid credentials"));
      }
      if !matches(password, found.value.passwordHash) {
        return Err(Unauthorized("Invalid credentials"));
      }
      StoreRefreshToken(found.value.id, pair.refreshToken, tokenId, now);
      r := Ok(Session(View(found.value), pair));
    }

    /** `refreshTokens`: without a usable stored token, or when the user
        is gone, nothing changes; otherwise the new token is stored and
        the used one deleted. */
    method RefreshTokens(userId: string, token: string, pair: TokenPair, tokenId: string, now: int)
      returns (r: Result<TokenPair>)
      requires Valid() && FreshTokenId(tokens, tokenId)
      modifies this
      ensures Valid() && users == old(users)
      ensures var i := FirstUsable(old(tokens), userId, token, now);
        if i.None? then
          r == Err(Unauthorized("Invalid refresh token")) && tokens == old(tokens)
        else if FindUser(old(users), UserIdOf, userId).None? then
          r == Err(Unauthorized("User not found")) && tokens == old(tokens)
        else
          r == Ok(pair) &&
          tokens == RemoveAt(old(tokens) + [StoredToken(tokenId, userId, pair.refreshToken, ExpiresAt(refreshExpiresIn, now))], i.value)
    {
      var i := FirstUsable(tokens, userId, token, now);
      if i.None? {
        return Err(Unauthorized("Invalid refresh token"));
      }
      var user := FindUser(users, UserIdOf, userId);
      if user.None? {
        return Err(Unauthorized("User not found"));
      }
      var before := tokens;
      var added := StoredToken(tokenId, user.value.id, pair.refreshToken, ExpiresAt(refreshExpiresIn, now));
      StoreRefreshToken(user.value.id, pair.refreshToken, tokenId, now);
      tokens := RemoveAt(tokens, i.value);
      RotateFacts(before, i.value, added, added);
      r := Ok(pair);
    }

    /** `logout`: every token of this user goes, every other stays. */
    method Logout(userId: string) returns (message: string)
      requires Valid()
      modifies this
      ensures Valid() && users == old(users)
      ensures tokens == WithoutUser(old(tokens), userId)
      ensures message == "Logged out successfully"
    {
      WithoutUserUnique(tokens, userId);
      tokens := WithoutUser(tokens, userId);
      message := "Logged out successfully";
    }
  }

  /** A successful refresh leaves exactly the old table minus the used
      row plus the new row: the used token can never be used again, and
      no other row is touched. */
  lemma RefreshRotates(tokens: seq<StoredToken>, userId: string, token: string, now: int, added: StoredToken)
    requires TokenIdsUnique(tokens) && FreshTokenId(tokens, added.id)
    requires FirstUsable(tokens, userId, token, now).Some?
    ensures var i := FirstUsable(tokens, userId, token, now).value;
      var after := RemoveAt(tokens + [added], i);
      tokens[i] !in after && added in after &&
      (forall t :: t in tokens && t.id != tokens[i].id ==> t in after) &&
      (forall t :: t in after ==> t == added || t in tokens)
  {
    var i := FirstUsable(tokens, userId, token, now).value;
    RotateFacts(tokens, i, added, tokens[i]);
    RotateFacts(tokens, i, added, added);
    forall t | t in tokens && t.id != tokens[i].id ensures t in RemoveAt(tokens + [added], i) {
      RotateFacts(tokens, i, added, t);
    }
    forall t | t in RemoveAt(tokens + [added], i) ensures t == added || t in tokens {
      RotateFacts(tokens, i, added, t);
    }
  }
}
