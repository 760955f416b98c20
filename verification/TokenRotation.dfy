/**
 Refresh-token rotation. One refresh token per user is stored and every login or
 refresh replaces it; a JWT carries its expiry as a NumericDate in whole seconds
 (section 4.1.4 of RFC 7519) and nothing else that changes from one to the next.
 Instants are milliseconds.
 */
module TokenRotation {
  import opened Wrappers

  type UserId = nat

  datatype Kind = Access | Refresh

  /** What decode_token yields of a token with a good signature. */
  datatype Token = Token(kind: Kind, subject: UserId, exp: int)

  datatype Response = Granted(access: Token, refresh: Token) | Unauthorized

  /** The refresh token on each user's row. */
  type Stored = map<UserId, Option<Token>>

  /** Token lifetimes in seconds: 15 minutes and 7 days as deployed. */
  datatype Lifetimes = Lifetimes(access: nat, refresh: nat)

  /** datetime to NumericDate drops the fraction of a second. */
  function Second(now: nat): nat {
    now / 1000
  }

  function CreateAccessToken(l: Lifetimes, user: UserId, now: nat): Token {
    Token(Access, user, Second(now) + l.access)
  }

  function CreateRefreshToken(l: Lifetimes, user: UserId, now: nat): Token {
    Token(Refresh, user, Second(now) + l.refresh)
  }

  /** PyJWT accepts a token strictly before its exp. */
  predicate Unexpired(t: Token, now: nat) {
    now < t.exp * 1000
  }

  /** None stands for a string that is not a token of ours. */
  predicate Accepts(stored: Stored, presented: Option<Token>, now: nat) {
    && presented.Some?
    && Unexpired(presented.value, now)
    && presented.value.kind == Refresh
    && presented.value.subject in stored
    && stored[presented.value.subject] == presented
  }

  class AuthService {
    const lifetimes: Lifetimes
    var stored: Stored

    constructor (lifetimes: Lifetimes, users: set<UserId>)
      ensures this.lifetimes == lifetimes && stored == map u | u in users :: None
    {
      this.lifetimes := lifetimes;
      stored := map u | u in users :: None;
    }

    method UpdateRefreshToken(user: UserId, token: Token)
      modifies this
      ensures stored == if user in old(stored) then old(stored)[user := Some(token)] else old(stored)
    {
      if user in stored {
        stored := stored[user := Some(token)];
      }
    }

    /** The password check itself is the caller's oracle. */
    method Login(user: UserId, passwordMatches: bool, now: nat) returns (r: Response)
      modifies this
      ensures (r, stored) == Serve(lifetimes, old(stored), Call(now, LoginAs(user, passwordMatches)))
      ensures r.Granted? <==> user in old(stored) && passwordMatches
      ensures r.Unauthorized? ==> stored == old(stored)
      ensures r.Granted? ==>
        && r.access == Token(Access, user, now / 1000 + lifetimes.access)
        && r.refresh == Token(Refresh, user, now / 1000 + lifetimes.refresh)
        && stored == old(stored)[user := Some(r.refresh)]
    {
      if user !in stored || !passwordMatches {
        return Unauthorized;
      }
      var accessToken := CreateAccessToken(lifetimes, user, now);
      var refreshToken := CreateRefreshToken(lifetimes, user, now);
      UpdateRefreshToken(user, refreshToken);
      return Granted(accessToken, refreshToken);
    }

    method RefreshTokens(presented: Option<Token>, now: nat) returns (r: Response)
      modifies this
      ensures (r, stored) == Serve(lifetimes, old(stored), Call(now, RefreshWith(presented)))
      ensures r.Granted? <==>
        && presented.Some? && presented.value.kind == Refresh && now < presented.value.exp * 1000
        && presented.value.subject in old(stored) && old(stored)[presented.value.subject] == presented
      ensures r.Unauthorized? ==> stored == old(stored)
      ensures r.Granted? ==>
        var user := presented.value.subject;
        && r.access == Token(Access, user, now / 1000 + lifetimes.access)
        && r.refresh == Token(Refresh, user, now / 1000 + lifetimes.refresh)
        && stored == old(stored)[user := Some(r.refresh)]
    {
      if presented.None? || !Unexpired(presented.value, now) {
        return Unauthorized;
      }
      var payload := presented.value;
      if payload.kind != Refresh {
        return Unauthorized;
      }
      if payload.subject !in stored || stored[payload.subject] != presented {
        return Unauthorized;
      }
      var accessToken := CreateAccessToken(lifetimes, payload.subject, now);
      var newRefresh := CreateRefreshToken(lifetimes, payload.subject, now);
      UpdateRefreshToken(payload.subject, newRefresh);
      return Granted(accessToken, newRefresh);
    }
  }

  // -------------------------------------------------------------- whole runs

  datatype Action = LoginAs(user: UserId, passwordMatches: bool) | RefreshWith(presented: Option<Token>)

  datatype Call = Call(at: nat, action: Action)

  /** One request against the stored tokens. */
  function Serve(l: Lifetimes, stored: Stored, c: Call): (Response, Stored) {
    match c.action
    case LoginAs(user, ok) =>
      if user in stored && ok then Issue(l, stored, user, c.at) else (Unauthorized, stored)
    case RefreshWith(presented) =>
      if !Accepts(stored, presented, c.at) then (Unauthorized, stored)
      else Issue(l, stored, presented.value.subject, c.at)
  }

  function Issue(l: Lifetimes, stored: Stored, user: UserId, now: nat): (Response, Stored) {
    (Granted(CreateAccessToken(l, user, now), CreateRefreshToken(l, user, now)),
     stored[user := Some(CreateRefreshToken(l, user, now))])
  }

  /** The stored tokens after a sequence of requests. */
  function After(l: Lifetimes, stored: Stored, calls: seq<Call>): Stored {
    if calls == [] then stored
    else Serve(l, After(l, stored, calls[..|calls| - 1]), calls[|calls| - 1]).1
  }

  /** Requests in the order of a clock that does not run backwards, none before that instant. */
  predicate InOrder(calls: seq<Call>, from: nat) {
    && (forall i :: 0 <= i < |calls| ==> from <= calls[i].at)
    && forall i, j :: 0 <= i < j < |calls| ==> calls[i].at <= calls[j].at
  }

  /** No stored token was minted later than that instant, and each is filed under its own subject. */
  predicate MintedBy(l: Lifetimes, stored: Stored, now: nat) {
    forall u :: u in stored && stored[u].Some? ==>
      stored[u].value.exp <= Second(now) + l.refresh && stored[u].value.subject == u && stored[u].value.kind == Refresh
  }

  /** b keeps every user of a, with a token that expires no earlier. */
  predicate NoEarlier(a: Stored, b: Stored) {
    forall u :: u in a ==> u in b && (a[u].Some? ==> b[u].Some? && a[u].value.exp <= b[u].value.exp)
  }

  lemma SecondMonotone(a: nat, b: nat)
    requires a <= b
    ensures Second(a) <= Second(b)
  {
  }

  lemma ServeNoEarlier(l: Lifetimes, stored: Stored, from: nat, c: Call)
    requires MintedBy(l, stored, from) && from <= c.at
    ensures NoEarlier(stored, Serve(l, stored, c).1) && MintedBy(l, Serve(l, stored, c).1, c.at)
  {
    SecondMonotone(from, c.at);
  }

  function LastInstant(calls: seq<Call>, from: nat): nat {
    if calls == [] then from else calls[|calls| - 1].at
  }

  /** A user's stored refresh-token expiry never goes down. */
  lemma {:induction false} StoredExpiryNeverDecreases(l: Lifetimes, stored: Stored, from: nat, calls: seq<Call>)
    requires MintedBy(l, stored, from) && InOrder(calls, from)
    ensures NoEarlier(stored, After(l, stored, calls))
    ensures MintedBy(l, After(l, stored, calls), LastInstant(calls, from))
  {
    if calls != [] {
      var n := |calls| - 1;
      StoredExpiryNeverDecreases(l, stored, from, calls[..n]);
      ServeNoEarlier(l, After(l, stored, calls[..n]), LastInstant(calls[..n], from), calls[n]);
    }
  }

  /**
   A request that may replace that user's token: a login with the right password, or the
   stored, unexpired token itself.
   */
  predicate Entitled(stored: Stored, user: UserId, c: Call) {
    match c.action
    case LoginAs(who, passwordMatches) => who == user && passwordMatches
    case RefreshWith(presented) =>
      && user in stored && stored[user] == presented && presented.Some?
      && presented.value.kind == Refresh && presented.value.subject == user && c.at < presented.value.exp * 1000
  }

  /**
   In any run users neither come nor go, and a user's token changes only with a request that was
   entitled to it at that point.
   */
  lemma {:induction false} ChangesAreEntitled(l: Lifetimes, stored: Stored, calls: seq<Call>, user: UserId)
    requires user in stored
    ensures After(l, stored, calls).Keys == stored.Keys
    ensures After(l, stored, calls)[user] != stored[user] ==>
      exists i :: 0 <= i < |calls| && Entitled(After(l, stored, calls[..i]), user, calls[i])
  {
    if calls != [] {
      var n := |calls| - 1;
      var front := calls[..n];
      ChangesAreEntitled(l, stored, front, user);
      if After(l, stored, front)[user] != stored[user] {
        var i :| 0 <= i < n && Entitled(After(l, stored, front[..i]), user, front[i]);
        assert front[..i] == calls[..i] && front[i] == calls[i];
      }
    }
  }

  /** A token whose expiry has come is refused, stored or not. */
  lemma ExpiredIsRefused(l: Lifetimes, stored: Stored, t: Token, at: nat)
    requires at >= t.exp * 1000
    ensures Serve(l, stored, Call(at, RefreshWith(Some(t)))) == (Unauthorized, stored)
  {
  }

  /** Presenting a token, it is accepted, now and with these requests served in between. */
  predicate AcceptedAfter(l: Lifetimes, stored: Stored, calls: seq<Call>, t: Token, at: nat) {
    Accepts(After(l, stored, calls), Some(t), at)
  }

  /** Used in a later second than its mint second, a refresh token is dead for good. */
  lemma UsedTokenIsDead(l: Lifetimes, stored: Stored, t: Token, used: nat, calls: seq<Call>, at: nat)
    requires MintedBy(l, stored, used) && Accepts(stored, Some(t), used) && Second(used) + l.refresh > t.exp
    requires InOrder(calls, used)
    ensures !AcceptedAfter(l, Serve(l, stored, Call(used, RefreshWith(Some(t)))).1, calls, t, at)
  {
    var rotated := Serve(l, stored, Call(used, RefreshWith(Some(t)))).1;
    StoredExpiryNeverDecreases(l, rotated, used, calls);
    assert rotated[t.subject].value.exp > t.exp;
    assert t.subject in After(l, rotated, calls);
  }

  /**
   A token that has just been accepted can be accepted again, at some later point of
   some continuation, if and only if it was minted in the very second it was used in:
   then the rotation has replaced it by an identical one.
   */
  lemma ReplayIffSameSecond(l: Lifetimes, stored: Stored, t: Token, used: nat)
    requires MintedBy(l, stored, used) && Accepts(stored, Some(t), used)
    ensures (exists calls: seq<Call>, at: nat ::
        InOrder(calls, used) && AcceptedAfter(l, Serve(l, stored, Call(used, RefreshWith(Some(t)))).1, calls, t, at))
      <==> t.exp == Second(used) + l.refresh
  {
    var rotated := Serve(l, stored, Call(used, RefreshWith(Some(t)))).1;
    if t.exp == Second(used) + l.refresh {
      assert InOrder([], used) && AcceptedAfter(l, rotated, [], t, used);
    } else {
      forall calls: seq<Call>, at: nat | InOrder(calls, used)
        ensures !AcceptedAfter(l, rotated, calls, t, at)
      {
        UsedTokenIsDead(l, stored, t, used, calls, at);
      }
    }
  }
}
