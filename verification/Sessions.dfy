/** Refresh-token rotation (internal/service/auth_service.go,
    internal/repository/refresh_token_repository.go). Signatures are unforgeable, token ids are
    never reused, and SHA-256 is taken to be injective. */
module Sessions {
  import opened Text

  /** The claims of a signed refresh token. */
  datatype Token = Token(jti: nat, user: nat, expires: nat)

  /** An injective hash. */
  datatype Digest = Digest(of: Token)

  /** A stored token; its id is its position in the table, so positions follow creation. */
  datatype Row = Row(user: nat, digest: Digest, expires: nat, revoked: bool)

  /** A user; its id is its position in the table. */
  datatype Account = Account(email: string, password: string, active: bool, deleted: bool)

  datatype Failure = InvalidCredentials | AccountInactive | InvalidRefresh | SlugTaken | EmailTaken | SlugConflict

  datatype Result = Issued(token: Token) | Failed(failure: Failure)

  predicate Active(r: Row, user: nat, now: nat) { r.user == user && !r.revoked && r.expires > now }

  function Revoked(r: Row): Row { r.(revoked := true) }

  /** Everything the service reads and writes: `slugs` says of every tenant ever created whether
      it is live, and `signed` are the refresh tokens ever signed. */
  datatype State = State(now: nat, ttl: nat, slugs: map<string, bool>, accounts: seq<Account>,
                         rows: seq<Row>, signed: seq<Token>)

  /** The position of the newest active row with this digest. */
  function Match(rows: seq<Row>, user: nat, now: nat, d: Digest): (r: Option<nat>)
    ensures r.Some? ==> r.value < |rows| && Active(rows[r.value], user, now) && rows[r.value].digest == d
    ensures r.None? ==> forall i :: 0 <= i < |rows| ==> !(Active(rows[i], user, now) && rows[i].digest == d)
  {
    if rows == [] then None
    else
      var last := |rows| - 1;
      if Active(rows[last], user, now) && rows[last].digest == d then Some(last)
      else Match(rows[..last], user, now, d)
  }

  function RevokeAll(rows: seq<Row>, user: nat): (r: seq<Row>)
    ensures |r| == |rows|
    ensures forall i :: 0 <= i < |rows| ==>
              r[i] == if rows[i].user == user && !rows[i].revoked then Revoked(rows[i]) else rows[i]
  {
    seq(|rows|, i requires 0 <= i < |rows| =>
      if rows[i].user == user && !rows[i].revoked then Revoked(rows[i]) else rows[i])
  }

  /** issueTokenPair. */
  function Issue(s: State, user: nat): (State, Token) {
    var t := Token(|s.signed|, user, s.now + s.ttl);
    (s.(rows := s.rows + [Row(user, Digest(t), t.expires, false)], signed := s.signed + [t]), t)
  }

  predicate Live(s: State, user: nat) { user < |s.accounts| && !s.accounts[user].deleted }

  /** The live account with this email address, from position i on. */
  function ByEmail(accounts: seq<Account>, email: string, i: nat): (r: Option<nat>)
    requires i <= |accounts|
    ensures r.Some? ==> i <= r.value < |accounts| && accounts[r.value].email == email && !accounts[r.value].deleted
    ensures r.None? ==> forall k :: i <= k < |accounts| ==> accounts[k].email != email || accounts[k].deleted
    decreases |accounts| - i
  {
    if i == |accounts| then None
    else if accounts[i].email == email && !accounts[i].deleted then Some(i)
    else ByEmail(accounts, email, i + 1)
  }

  /** A token the JWT manager accepts: signed by it and not expired. */
  predicate Verifies(s: State, t: Token) { t in s.signed && s.now < t.expires }

  class AuthService {
    var now: nat
    var ttl: nat
    var slugs: map<string, bool>
    var accounts: seq<Account>
    var rows: seq<Row>
    var signed: seq<Token>

    constructor (ttl: nat)
      ensures Snapshot() == State(0, ttl, map[], [], [], [])
    {
      now, this.ttl, slugs, accounts, rows, signed := 0, ttl, map[], [], [], [];
    }

    function Snapshot(): State
      reads this
    {
      State(now, ttl, slugs, accounts, rows, signed)
    }

    method IssueTokenPair(user: nat) returns (t: Token)
      modifies this`rows, this`signed
      ensures (Snapshot(), t) == Issue(old(Snapshot()), user)
    {
      t := Token(|signed|, user, now + ttl);
      signed := signed + [t];
      rows := rows + [Row(user, Digest(t), t.expires, false)];
    }

    method GetByEmail(email: string) returns (r: Option<nat>)
      ensures r == ByEmail(accounts, email, 0)
    {
      var i := 0;
      while i < |accounts|
        invariant i <= |accounts| && ByEmail(accounts, email, 0) == ByEmail(accounts, email, i)
      {
        if accounts[i].email == email && !accounts[i].deleted {
          return Some(i);
        }
        i := i + 1;
      }
      return None;
    }

    /** A new tenant and its first user. The slug column is unique over deleted tenants too, so
        creating the tenant can fail although no live tenant has the slug. */
    method Signup(slug: string, email: string, password: string) returns (r: Result)
      modifies this
      ensures (Snapshot(), r) == SignupOf(old(Snapshot()), slug, email, password)
    {
      if slug in slugs && slugs[slug] {
        return Failed(SlugTaken);
      }
      var taken := GetByEmail(email);
      if taken.Some? {
        return Failed(EmailTaken);
      }
      if slug in slugs {
        return Failed(SlugConflict);
      }
      slugs := slugs[slug := true];
      accounts := accounts + [Account(email, password, true, false)];
      var t := IssueTokenPair(|accounts| - 1);
      return Issued(t);
    }

    method Login(email: string, password: string) returns (r: Result)
      modifies this
      ensures (Snapshot(), r) == LoginOf(old(Snapshot()), email, password)
    {
      var found := GetByEmail(email);
      if found.None? {
        return Failed(InvalidCredentials);
      }
      var user := found.value;
      if accounts[user].password != password {
        return Failed(InvalidCredentials);
      }
      if !accounts[user].active {
        return Failed(AccountInactive);
      }
      var t := IssueTokenPair(user);
      return Issued(t);
    }

    /** Non-revoked, non-expired rows of a user, newest first. */
    method ListActiveByUser(user: nat) returns (ids: seq<nat>)
      ensures forall k :: 0 <= k < |ids| ==> ids[k] < |rows|
      ensures forall i :: 0 <= i < |rows| ==> (i in ids <==> rows[i].user == user && !rows[i].revoked && now < rows[i].expires)
      ensures forall j, k :: 0 <= j < k < |ids| ==> ids[j] > ids[k]
    {
      ids := [];
      var i := |rows|;
      while i > 0
        invariant 0 <= i <= |rows|
        invariant forall k :: 0 <= k < |ids| ==> i <= ids[k] < |rows| && Active(rows[ids[k]], user, now)
        invariant forall k :: i <= k < |rows| && Active(rows[k], user, now) ==> k in ids
        invariant forall j, k :: 0 <= j < k < |ids| ==> ids[j] > ids[k]
      {
        i := i - 1;
        if Active(rows[i], user, now) {
          ids := ids + [i];
        }
      }
    }

    method Refresh(token: Token) returns (r: Result)
      modifies this
      ensures (Snapshot(), r) == RefreshOf(old(Snapshot()), token)
    {
      if token !in signed || now >= token.expires {
        return Failed(InvalidRefresh);
      }
      var candidates := ListActiveByUser(token.user);
      var matched: Option<nat> := None;
      var k := 0;
      while k < |candidates|
        invariant k <= |candidates| && matched.None?
        invariant forall j :: 0 <= j < k ==> rows[candidates[j]].digest != Digest(token)
      {
        if rows[candidates[k]].digest == Digest(token) {
          matched := Some(candidates[k]);
          break;
        }
        k := k + 1;
      }
      if matched.Some? {
        NewestMatch(rows, token.user, now, Digest(token), matched.value, candidates, k);
      } else {
        NoMatch(rows, token.user, now, Digest(token), candidates);
        return Failed(InvalidRefresh);
      }
      if token.user >= |accounts| || accounts[token.user].deleted {
        return Failed(InvalidRefresh);
      }
      if !accounts[token.user].active {
        return Failed(AccountInactive);
      }
      rows := rows[matched.value := Revoked(rows[matched.value])];
      var t := IssueTokenPair(token.user);
      return Issued(t);
    }

    method Logout(user: nat)
      modifies this
      ensures Snapshot() == old(Snapshot()).(rows := RevokeAll(old(rows), user))
    {
      ghost var before := rows;
      for i := 0 to |rows|
        invariant |rows| == |before| && now == old(now) && ttl == old(ttl) && slugs == old(slugs)
        invariant accounts == old(accounts) && signed == old(signed)
        invariant forall k :: 0 <= k < i ==>
                    rows[k] == if before[k].user == user && !before[k].revoked then Revoked(before[k]) else before[k]
        invariant forall k :: i <= k < |rows| ==> rows[k] == before[k]
      {
        if rows[i].user == user && !rows[i].revoked {
          rows := rows[i := Revoked(rows[i])];
        }
      }
      assert rows == RevokeAll(before, user);
    }
  }

  lemma {:induction false} MatchIs(rows: seq<Row>, user: nat, now: nat, d: Digest, i: nat)
    requires i < |rows| && Active(rows[i], user, now) && rows[i].digest == d
    requires forall k :: i < k < |rows| ==> !(Active(rows[k], user, now) && rows[k].digest == d)
    ensures Match(rows, user, now, d) == Some(i)
  {
    var last := |rows| - 1;
    if i < last { MatchIs(rows[..last], user, now, d, i); }
  }

  lemma NewestMatch(rows: seq<Row>, user: nat, now: nat, d: Digest, i: nat, ids: seq<nat>, k: nat)
    requires k < |ids| && ids[k] == i && i < |rows| && Active(rows[i], user, now) && rows[i].digest == d
    requires forall j :: 0 <= j < |ids| ==> ids[j] < |rows|
    requires forall j :: 0 <= j < |rows| && Active(rows[j], user, now) ==> j in ids
    requires forall j, l :: 0 <= j < l < |ids| ==> ids[j] > ids[l]
    requires forall j :: 0 <= j < k ==> rows[ids[j]].digest != d
    ensures Match(rows, user, now, d) == Some(i)
  {
    forall j | i < j < |rows| ensures !(Active(rows[j], user, now) && rows[j].digest == d) {
      if Active(rows[j], user, now) {
        var l :| 0 <= l < |ids| && ids[l] == j;
        assert l < k;
      }
    }
    MatchIs(rows, user, now, d, i);
  }

  lemma NoMatch(rows: seq<Row>, user: nat, now: nat, d: Digest, ids: seq<nat>)
    requires forall j :: 0 <= j < |ids| ==> ids[j] < |rows| && rows[ids[j]].digest != d
    requires forall j :: 0 <= j < |rows| && Active(rows[j], user, now) ==> j in ids
    ensures Match(rows, user, now, d).None?
  {
  }

  // ---- the operations as functions of the state -----------------------------------------------

  function SignupOf(s: State, slug: string, email: string, password: string): (State, Result) {
    if slug in s.slugs && s.slugs[slug] then (s, Failed(SlugTaken))
    else if ByEmail(s.accounts, email, 0).Some? then (s, Failed(EmailTaken))
    else if slug in s.slugs then (s, Failed(SlugConflict))
    else
      var created := s.(slugs := s.slugs[slug := true], accounts := s.accounts + [Account(email, password, true, false)]);
      var (next, t) := Issue(created, |s.accounts|);
      (next, Issued(t))
  }

  function LoginOf(s: State, email: string, password: string): (State, Result) {
    var found := ByEmail(s.accounts, email, 0);
    if found.None? || s.accounts[found.value].password != password then (s, Failed(InvalidCredentials))
    else if !s.accounts[found.value].active then (s, Failed(AccountInactive))
    else
      var (next, t) := Issue(s, found.value);
      (next, Issued(t))
  }

  function RefreshOf(s: State, token: Token): (State, Result) {
    var matched := Match(s.rows, token.user, s.now, Digest(token));
    if !Verifies(s, token) || matched.None? || !Live(s, token.user) then (s, Failed(InvalidRefresh))
    else if !s.accounts[token.user].active then (s, Failed(AccountInactive))
    else
      var (next, t) := Issue(s.(rows := s.rows[matched.value := Revoked(s.rows[matched.value])]), token.user);
      (next, Issued(t))
  }
}

/** Runs of the session operations, one after another. */
module SessionRuns {
  import opened Text
  import opened Sessions

  datatype Call =
    | Signup(slug: string, email: string, password: string)
    | Login(email: string, password: string)
    | Refresh(token: Token)
    | Logout(user: nat)
    | Wait(d: nat)
    | SetAccount(user: nat, active: bool, deleted: bool)  // administration and deletion
    | DeleteTenant(slug: string)

  /** The unique index on live email addresses lets the account be live. */
  predicate EmailFree(accounts: seq<Account>, user: nat)
    requires user < |accounts|
  {
    forall k :: 0 <= k < |accounts| && k != user ==> accounts[k].deleted || accounts[k].email != accounts[user].email
  }

  function Serve(s: State, c: Call): (State, Option<Result>) {
    match c
    case Signup(slug, email, password) => var (t, r) := SignupOf(s, slug, email, password); (t, Some(r))
    case Login(email, password) => var (t, r) := LoginOf(s, email, password); (t, Some(r))
    case Refresh(token) => var (t, r) := RefreshOf(s, token); (t, Some(r))
    case Logout(user) => (s.(rows := RevokeAll(s.rows, user)), None)
    case Wait(d) => (s.(now := s.now + d), None)
    case SetAccount(user, active, deleted) =>
      (if user < |s.accounts| && (deleted || EmailFree(s.accounts, user)) then
         s.(accounts := s.accounts[user := s.accounts[user].(active := active, deleted := deleted)])
       else s, None)
    case DeleteTenant(slug) => (if slug in s.slugs then s.(slugs := s.slugs[slug := false]) else s, None)
  }

  function Final(s: State, calls: seq<Call>): State
    decreases |calls|
  {
    if calls == [] then s else Final(Serve(s, calls[0]).0, calls[1..])
  }

  predicate Succeeds(s: State, c: Call) { Serve(s, c).1.Some? && Serve(s, c).1.value.Issued? }

  /** How often a token was exchanged for a new one. */
  function Uses(s: State, calls: seq<Call>, token: Token): nat
    decreases |calls|
  {
    if calls == [] then 0
    else (if calls[0] == Refresh(token) && Succeeds(s, calls[0]) then 1 else 0)
         + Uses(Serve(s, calls[0]).0, calls[1..], token)
  }

  // ---- the table and the signed tokens --------------------------------------------------------

  /** Row i holds signed token i, whose id is i. */
  predicate Inv(s: State) {
    && |s.rows| == |s.signed|
    && forall i :: 0 <= i < |s.rows| ==>
         s.signed[i].jti == i && s.rows[i].digest == Digest(s.signed[i])
         && s.rows[i].user == s.signed[i].user && s.rows[i].expires == s.signed[i].expires
  }

  /** Tables only grow, and a revoked row stays revoked. */
  predicate Extends(s: State, t: State) {
    && |s.rows| <= |t.rows| && |s.signed| <= |t.signed|
    && (forall i :: 0 <= i < |s.signed| ==> t.signed[i] == s.signed[i])
    && (forall i :: 0 <= i < |s.rows| ==> s.rows[i].revoked ==> t.rows[i].revoked)
  }

  /** The service starts with nothing signed and nothing stored. */
  lemma InvInitially(ttl: nat)
    ensures var s := State(0, ttl, map[], [], [], []); Inv(s) && OnePerChain(s, [])
  {
  }

  lemma IssueKeepsInv(s: State, user: nat)
    requires Inv(s)
    ensures Inv(Issue(s, user).0) && Extends(s, Issue(s, user).0)
  {
  }

  lemma RevokeKeepsInv(s: State, i: nat)
    requires Inv(s) && i < |s.rows|
    ensures var t := s.(rows := s.rows[i := Revoked(s.rows[i])]); Inv(t) && Extends(s, t)
  {
  }

  lemma ExtendsTransitive(s: State, t: State, u: State)
    requires Extends(s, t) && Extends(t, u)
    ensures Extends(s, u)
  {
  }

  lemma RefreshKeepsInv(s: State, token: Token)
    requires Inv(s)
    ensures Inv(RefreshOf(s, token).0) && Extends(s, RefreshOf(s, token).0)
  {
    var matched := Match(s.rows, token.user, s.now, Digest(token));
    if matched.Some? {
      var revoked := s.(rows := s.rows[matched.value := Revoked(s.rows[matched.value])]);
      RevokeKeepsInv(s, matched.value);
      IssueKeepsInv(revoked, token.user);
      ExtendsTransitive(s, revoked, Issue(revoked, token.user).0);
    }
  }

  lemma ServeKeepsInv(s: State, c: Call)
    requires Inv(s)
    ensures Inv(Serve(s, c).0) && Extends(s, Serve(s, c).0)
  {
    match c
    case Refresh(token) => RefreshKeepsInv(s, token);
    case _ =>
  }

  predicate Spent(s: State, token: Token) { token.jti < |s.rows| && s.rows[token.jti].revoked }

  /** A successful refresh spends its token. */
  lemma SuccessSpends(s: State, token: Token)
    requires Inv(s) && Succeeds(s, Refresh(token))
    ensures !Spent(s, token) && Spent(Serve(s, Refresh(token)).0, token)
  {
  }

  lemma SpentIsRefused(s: State, token: Token)
    requires Inv(s) && Spent(s, token)
    ensures !Succeeds(s, Refresh(token))
  {
  }

  /** Which refreshes succeed: those of a signed, unexpired, unspent token of a live and active
      account, and no others. */
  lemma RefreshSucceedsExactly(s: State, token: Token)
    requires Inv(s)
    ensures Succeeds(s, Refresh(token)) <==>
              && token in s.signed && s.now < token.expires && !Spent(s, token)
              && Live(s, token.user) && s.accounts[token.user].active
  {
    if token in s.signed && s.now < token.expires && !Spent(s, token) {
      var i :| 0 <= i < |s.signed| && s.signed[i] == token;
      assert Active(s.rows[i], token.user, s.now) && s.rows[i].digest == Digest(token);
    }
  }

  /** Whatever issues a token issues one that the next refresh accepts. */
  lemma IssuedTokenIsAccepted(s: State, c: Call)
    requires Inv(s) && s.ttl > 0 && Succeeds(s, c)
    ensures Succeeds(Serve(s, c).0, Refresh(Serve(s, c).1.value.token))
  {
    ServeKeepsInv(s, c);
    RefreshSucceedsExactly(Serve(s, c).0, Serve(s, c).1.value.token);
  }

  lemma {:induction false} EmailFrom(accounts: seq<Account>, email: string, i: nat, k: nat)
    requires i <= k < |accounts| && accounts[k].email == email && !accounts[k].deleted
    requires forall j :: i <= j < k ==> accounts[j].email != email || accounts[j].deleted
    ensures ByEmail(accounts, email, i) == Some(k)
    decreases k - i
  {
    if i < k { EmailFrom(accounts, email, i + 1, k); }
  }

  // ---- what each operation answers --------------------------------------------------------------

  predicate UniqueEmails(accounts: seq<Account>) {
    forall i, j :: 0 <= i < j < |accounts| && !accounts[i].deleted && !accounts[j].deleted ==>
      accounts[i].email != accounts[j].email
  }

  lemma ServeKeepsUniqueEmails(s: State, c: Call)
    requires UniqueEmails(s.accounts)
    ensures UniqueEmails(Serve(s, c).0.accounts)
  {
  }

  lemma {:induction false} EmailsStayUnique(s: State, calls: seq<Call>)
    requires UniqueEmails(s.accounts)
    ensures UniqueEmails(Final(s, calls).accounts)
    decreases |calls|
  {
    if calls != [] {
      ServeKeepsUniqueEmails(s, calls[0]);
      EmailsStayUnique(Serve(s, calls[0]).0, calls[1..]);
    }
  }

  /** Account k is live and has this email address. */
  predicate AccountAt(accounts: seq<Account>, email: string, k: int) {
    0 <= k < |accounts| && accounts[k].email == email && !accounts[k].deleted
  }

  lemma EmailFinds(accounts: seq<Account>, email: string, k: nat)
    requires UniqueEmails(accounts) && AccountAt(accounts, email, k)
    ensures ByEmail(accounts, email, 0) == Some(k)
  {
  }

  lemma EmailFindsNone(accounts: seq<Account>, email: string)
    requires forall k :: !AccountAt(accounts, email, k)
    ensures ByEmail(accounts, email, 0) == None
  {
    FoundIsAccount(accounts, email);
  }

  lemma FoundIsAccount(accounts: seq<Account>, email: string)
    ensures var found := ByEmail(accounts, email, 0); found.Some? ==> AccountAt(accounts, email, found.value)
  {
  }

  /** The state with one more token of this user, stored under its digest. */
  predicate Adds(s: State, t: State, token: Token, user: nat) {
    && token == Token(|s.signed|, user, s.now + s.ttl)
    && t == s.(signed := s.signed + [token], rows := s.rows + [Row(user, Digest(token), s.now + s.ttl, false)])
  }

  /** A login succeeds exactly with the password of the live, active account of this address: it
      issues that account's token. A wrong password and an unknown address are told apart by
      nothing; only the right password learns that an account is inactive. No failure writes. */
  lemma LoginSucceedsExactly(s: State, email: string, password: string)
    requires UniqueEmails(s.accounts)
    ensures var (t, r) := Serve(s, Login(email, password));
            && (Succeeds(s, Login(email, password)) <==>
                  exists k :: AccountAt(s.accounts, email, k) && s.accounts[k].password == password && s.accounts[k].active)
            && ((forall k :: !AccountAt(s.accounts, email, k)) ==> r == Some(Failed(InvalidCredentials)))
            && (forall k :: AccountAt(s.accounts, email, k) ==>
                  if s.accounts[k].password != password then r == Some(Failed(InvalidCredentials))
                  else if !s.accounts[k].active then r == Some(Failed(AccountInactive))
                  else r.value.Issued? && Adds(s, t, r.value.token, k))
            && (!Succeeds(s, Login(email, password)) ==> t == s)
  {
    forall k | AccountAt(s.accounts, email, k) ensures ByEmail(s.accounts, email, 0) == Some(k) {
      EmailFinds(s.accounts, email, k);
    }
    if forall k :: !AccountAt(s.accounts, email, k) { EmailFindsNone(s.accounts, email); }
  }

  /** A sign-up succeeds exactly for a slug no tenant ever had and an address no live account has;
      it creates a live tenant and an active account. No failure writes. */
  lemma SignupSucceedsExactly(s: State, slug: string, email: string, password: string)
    ensures var (t, r) := Serve(s, Signup(slug, email, password));
            var taken := exists k :: AccountAt(s.accounts, email, k);
            if slug in s.slugs && s.slugs[slug] then t == s && r == Some(Failed(SlugTaken))
            else if taken then t == s && r == Some(Failed(EmailTaken))
            else if slug in s.slugs then t == s && r == Some(Failed(SlugConflict))
            else
              && Succeeds(s, Signup(slug, email, password))
              && Adds(s.(slugs := s.slugs[slug := true],
                         accounts := s.accounts + [Account(email, password, true, false)]), t, r.value.token, |s.accounts|)
  {
    FoundIsAccount(s.accounts, email);
  }

  /** What a refresh answers: only a spent, expired, forged or orphaned token is called invalid, and
      a success revokes exactly the token's row and adds one. No failure writes. */
  lemma RefreshAnswers(s: State, token: Token)
    requires Inv(s)
    ensures var (t, r) := Serve(s, Refresh(token));
            if token !in s.signed || token.expires <= s.now || s.rows[token.jti].revoked
               || token.user >= |s.accounts| || s.accounts[token.user].deleted
            then t == s && r == Some(Failed(InvalidRefresh))
            else if !s.accounts[token.user].active then t == s && r == Some(Failed(AccountInactive))
            else
              && Succeeds(s, Refresh(token))
              && Adds(s.(rows := s.rows[token.jti := s.rows[token.jti].(revoked := true)]), t, r.value.token, token.user)
  {
    if token in s.signed {
      var i :| 0 <= i < |s.signed| && s.signed[i] == token;
      assert i == token.jti;
      OnlyOwnDigest(s, token);
    }
  }

  /** The row with a token's digest is the one its id names. */
  lemma OnlyOwnDigest(s: State, token: Token)
    requires Inv(s) && token in s.signed
    ensures token.jti < |s.rows| && s.rows[token.jti].digest == Digest(token)
    ensures forall i :: 0 <= i < |s.rows| && s.rows[i].digest == Digest(token) ==> i == token.jti
  {
    var i :| 0 <= i < |s.signed| && s.signed[i] == token;
    assert i == token.jti;
  }

  /** Who signed up can log in, as the same user. */
  lemma SignupThenLogin(s: State, slug: string, email: string, password: string)
    requires Succeeds(s, Signup(slug, email, password))
    ensures var t := Serve(s, Signup(slug, email, password)).0;
            && Succeeds(t, Login(email, password))
            && Serve(t, Login(email, password)).1.value.token.user == |s.accounts|
  {
    EmailFrom(Serve(s, Signup(slug, email, password)).0.accounts, email, 0, |s.accounts|);
  }

  lemma {:induction false} SpentStaysSpent(s: State, calls: seq<Call>, token: Token)
    requires Inv(s) && Spent(s, token)
    ensures Uses(s, calls, token) == 0
    decreases |calls|
  {
    if calls != [] {
      ServeKeepsInv(s, calls[0]);
      SpentIsRefused(s, token);
      SpentStaysSpent(Serve(s, calls[0]).0, calls[1..], token);
    }
  }

  /** Single use: in every sequential run a token succeeds in at most one refresh. */
  lemma {:induction false} SingleUse(s: State, calls: seq<Call>, token: Token)
    requires Inv(s)
    ensures Uses(s, calls, token) <= 1
    decreases |calls|
  {
    if calls != [] {
      ServeKeepsInv(s, calls[0]);
      if calls[0] == Refresh(token) && Succeeds(s, calls[0]) {
        SuccessSpends(s, token);
        SpentStaysSpent(Serve(s, calls[0]).0, calls[1..], token);
      } else {
        SingleUse(Serve(s, calls[0]).0, calls[1..], token);
      }
    }
  }

  /** After a logout no token the user was ever issued before is accepted again. */
  lemma LogoutEndsEverySession(s: State, user: nat, calls: seq<Call>, token: Token)
    requires Inv(s) && token in s.signed && token.user == user
    ensures Uses(Serve(s, Logout(user)).0, calls, token) == 0
  {
    ServeKeepsInv(s, Logout(user));
    SpentStaysSpent(Serve(s, Logout(user)).0, calls, token);
  }

  /** And it ends nobody else's. */
  lemma LogoutLeavesOthers(s: State, user: nat, token: Token)
    requires Inv(s) && token.user != user
    ensures Succeeds(Serve(s, Logout(user)).0, Refresh(token)) <==> Succeeds(s, Refresh(token))
  {
    var t := Serve(s, Logout(user)).0;
    ServeKeepsInv(s, Logout(user));
    RefreshSucceedsExactly(s, token);
    RefreshSucceedsExactly(t, token);
    if token in s.signed {
      OnlyOwnDigest(s, token);
      assert s.rows[token.jti].user == token.user;
    }
  }

  // ---- from the start -----------------------------------------------------------------------

  /** Both hold for every run of a service that starts empty. */
  lemma FromStart(ttl: nat, calls: seq<Call>, token: Token)
    ensures Inv(State(0, ttl, map[], [], [], []))
    ensures var s := State(0, ttl, map[], [], [], []);
            Uses(s, calls, token) <= 1 && OnePerChain(Final(s, calls), FinalChains(s, [], calls))
  {
    InvInitially(ttl);
    var s := State(0, ttl, map[], [], [], []);
    SingleUse(s, calls, token);
    AtMostOneUnrevokedPerChain(s, [], calls);
  }

  // ---- how many tokens are active ---------------------------------------------------------------

  function CountActive(rows: seq<Row>, user: nat, now: nat): nat {
    if rows == [] then 0
    else CountActive(rows[..|rows| - 1], user, now) + if Active(rows[|rows| - 1], user, now) then 1 else 0
  }

  lemma {:induction false} CountAfterRevoke(rows: seq<Row>, i: nat, user: nat, now: nat)
    requires i < |rows| && Active(rows[i], user, now)
    ensures CountActive(rows[i := Revoked(rows[i])], user, now) + 1 == CountActive(rows, user, now)
  {
    var last, after := |rows| - 1, rows[i := Revoked(rows[i])];
    if i == last {
      assert after[..last] == rows[..last];
    } else {
      CountAfterRevoke(rows[..last], i, user, now);
      assert after[..last] == rows[..last][i := Revoked(rows[i])];
    }
  }

  lemma {:induction false} CountIgnoresOthers(rows: seq<Row>, i: nat, row: Row, user: nat, now: nat)
    requires i < |rows| && rows[i].user != user && row.user != user
    ensures CountActive(rows[i := row], user, now) == CountActive(rows, user, now)
  {
    var last := |rows| - 1;
    if i == last {
      assert rows[i := row][..last] == rows[..last];
    } else {
      CountIgnoresOthers(rows[..last], i, row, user, now);
      assert rows[i := row][..last] == rows[..last][i := row];
    }
  }

  /** A successful refresh replaces one active token of its user by another and leaves every other
      user's alone. */
  lemma RefreshPreservesActiveCount(s: State, token: Token, user: nat)
    requires Inv(s) && Succeeds(s, Refresh(token)) && s.ttl > 0
    ensures CountActive(Serve(s, Refresh(token)).0.rows, user, s.now) == CountActive(s.rows, user, s.now)
  {
    var i := Match(s.rows, token.user, s.now, Digest(token)).value;
    var revoked := s.rows[i := Revoked(s.rows[i])];
    var after := Serve(s, Refresh(token)).0.rows;
    assert after[..|after| - 1] == revoked;
    if user == token.user {
      CountAfterRevoke(s.rows, i, user, s.now);
    } else {
      CountIgnoresOthers(s.rows, i, Revoked(s.rows[i]), user, s.now);
    }
  }

  // ---- rotation chains --------------------------------------------------------------------------

  /** The login or sign-up each row descends from, kept beside the state: a refresh hands its
      chain to the new row, every other issue opens a new one. */
  function ChainsAfter(s: State, chains: seq<nat>, c: Call): seq<nat>
    requires |chains| == |s.rows| && Inv(s)
  {
    if !Succeeds(s, c) then chains
    else if c.Refresh? then chains + [chains[Match(s.rows, c.token.user, s.now, Digest(c.token)).value]]
    else chains + [|chains|]
  }

  /** Each chain has at most one row that is not revoked. */
  predicate OnePerChain(s: State, chains: seq<nat>) {
    && |chains| == |s.rows|
    && (forall i :: 0 <= i < |chains| ==> chains[i] <= i)
    && (forall i, j :: 0 <= i < j < |s.rows| && chains[i] == chains[j] ==> s.rows[i].revoked || s.rows[j].revoked)
  }

  lemma RefreshKeepsOnePerChain(s: State, chains: seq<nat>, token: Token)
    requires Inv(s) && OnePerChain(s, chains) && Succeeds(s, Refresh(token))
    ensures OnePerChain(Serve(s, Refresh(token)).0, ChainsAfter(s, chains, Refresh(token)))
  {
  }

  lemma ServeKeepsOnePerChain(s: State, chains: seq<nat>, c: Call)
    requires Inv(s) && OnePerChain(s, chains)
    ensures OnePerChain(Serve(s, c).0, ChainsAfter(s, chains, c))
  {
    if c.Refresh? && Succeeds(s, c) { RefreshKeepsOnePerChain(s, chains, c.token); }
  }

  function FinalChains(s: State, chains: seq<nat>, calls: seq<Call>): seq<nat>
    requires |chains| == |s.rows| && Inv(s)
    decreases |calls|
  {
    if calls == [] then chains
    else
      ServeKeepsInv(s, calls[0]);
      FinalChains(Serve(s, calls[0]).0, ChainsAfter(s, chains, calls[0]), calls[1..])
  }

  /** In every sequential run each login or sign-up chain has at most one unrevoked token. */
  lemma {:induction false} AtMostOneUnrevokedPerChain(s: State, chains: seq<nat>, calls: seq<Call>)
    requires Inv(s) && OnePerChain(s, chains)
    ensures OnePerChain(Final(s, calls), FinalChains(s, chains, calls))
    decreases |calls|
  {
    if calls != [] {
      ServeKeepsInv(s, calls[0]);
      ServeKeepsOnePerChain(s, chains, calls[0]);
      AtMostOneUnrevokedPerChain(Serve(s, calls[0]).0, ChainsAfter(s, chains, calls[0]), calls[1..]);
    }
  }
}
