/** Token revocation: a timed set of revoked token ids that outlives every token it revokes. */
module Revocation {
  import opened Domain

  /** A decoded token; an empty `jti` stands for a token without one. Token ids are unique, so two
      tokens with one id expire together. */
  datatype Token = Token(jti: string, exp: int, access: bool, user: Option<int>)

  /** Token id to the time at which the store drops it. */
  type Entries = map<string, real>

  function Max(a: int, b: int): int { if a >= b then a else b }

  /** Section 4.1.4 of RFC 7519: on or after its expiration time a token must not be accepted. The
      results about revoked tokens depend on this strict reading (`OnlyStrictExpiryIsCovered`). */
  predicate Decodes(now: real, t: Token) { now < t.exp as real }

  function Blacklisted(entries: Entries, now: real, jti: string, exp: int): Entries {
    entries[jti := now + Max(exp - now.Floor, 1) as real]
  }

  predicate IsBlacklisted(entries: Entries, now: real, jti: string) {
    jti in entries && now < entries[jti]
  }

  function LoggedOut(entries: Entries, now: real, t: Token): Entries {
    if Decodes(now, t) && t.jti != "" && t.exp != 0 then Blacklisted(entries, now, t.jti, t.exp) else entries
  }

  predicate Accepts(entries: Entries, users: set<int>, now: real, t: Token) {
    && Decodes(now, t)
    && t.access
    && t.user.Some?
    && !(t.jti != "" && IsBlacklisted(entries, now, t.jti))
    && t.user.value in users
  }

  /** An entry is kept at least until its token expires, and is gone within one second of the later
      of the token's expiry and its own storing. */
  lemma EntryLifetime(entries: Entries, now: real, jti: string, exp: int)
    ensures var gone := Blacklisted(entries, now, jti, exp)[jti];
      && exp as real <= gone && now < gone
      && gone <= (if exp as real >= now then exp as real else now) + 1.0
  {
  }

  /** The entry stored at `now` lasts until `grace` seconds after its token's expiry. */
  ghost predicate OutlivesGrace(now: real, exp: int, grace: real) {
    exp as real + grace <= Blacklisted(map[], now, "", exp)[""]
  }

  /** The entry is measured in whole seconds from the current whole second, so it covers a decoder
      that goes on accepting for `grace` seconds after the expiry only as far as the clock is past
      that second; for every moment of logout, only if there is no grace at all. */
  lemma OnlyStrictExpiryIsCovered(grace: real)
    ensures forall now: real, exp: int :: now < exp as real ==> (OutlivesGrace(now, exp, grace) <==> grace <= now - now.Floor as real)
    ensures (forall now: real, exp: int :: now < exp as real ==> OutlivesGrace(now, exp, grace)) <==> grace <= 0.0
  {
    if grace > 0.0 {
      assert !OutlivesGrace(0.0, 1, grace);
    }
  }

  class TokenBlacklist {
    var entries: Entries

    constructor ()
      ensures entries == map[]
    {
      entries := map[];
    }

    method BlacklistToken(now: real, jti: string, exp: int)
      modifies this
      ensures entries == Blacklisted(old(entries), now, jti, exp)
      ensures forall t :: now <= t < exp as real ==> IsBlacklisted(entries, t, jti)
      ensures forall t :: t >= (if exp as real >= now then exp as real else now) + 1.0 ==> !IsBlacklisted(entries, t, jti)
      ensures forall t, other :: other != jti ==> IsBlacklisted(entries, t, other) == IsBlacklisted(old(entries), t, other)
    {
      EntryLifetime(entries, now, jti, exp);
      var seconds := now.Floor;
      var ttl := Max(exp - seconds, 1);
      entries := entries[jti := now + ttl as real];
    }

    method CheckBlacklisted(now: real, jti: string) returns (revoked: bool)
      ensures revoked == IsBlacklisted(entries, now, jti)
    {
      revoked := jti in entries && now < entries[jti];
    }

    /** Lists the ids of the access token and, when given, of the refresh token for as long as the token
        decodes; so the access token is not accepted from now on. */
    method Logout(now: real, token: Token, refresh: Option<Token>)
      modifies this
      ensures entries == LoggedOutAll(old(entries), now, if refresh.Some? then [token, refresh.value] else [token])
      ensures refresh.Some? && Decodes(now, refresh.value) && refresh.value.jti != "" && refresh.value.exp != 0 ==>
                forall later :: now <= later && Decodes(later, refresh.value) ==> IsBlacklisted(entries, later, refresh.value.jti)
      ensures token.jti != "" && token.exp != 0 && (refresh.Some? && refresh.value.jti == token.jti ==> refresh.value.exp == token.exp) ==>
                forall users, later :: now <= later ==> !Accepts(entries, users, later, token)
    {
      var tokens := if refresh.Some? then [token, refresh.value] else [token];
      for i := 0 to |tokens|
        invariant entries == LoggedOutAll(old(entries), now, tokens[..i])
      {
        assert tokens[..i + 1][..i] == tokens[..i];
        if now < tokens[i].exp as real && tokens[i].jti != "" && tokens[i].exp != 0 {
          BlacklistToken(now, tokens[i].jti, tokens[i].exp);
        }
      }
      assert tokens[..|tokens|] == tokens;
      assert tokens[..0] == [] && [token][..0] == [];
      assert refresh.Some? ==> tokens[..1] == [token];
    }
  }

  function LoggedOutAll(entries: Entries, now: real, tokens: seq<Token>): Entries {
    if tokens == [] then entries
    else LoggedOut(LoggedOutAll(entries, now, tokens[..|tokens| - 1]), now, tokens[|tokens| - 1])
  }

  // ---------------------------------------------------------------- runs

  datatype Event = Wait(seconds: real) | Logout(token: Token)

  datatype State = State(entries: Entries, now: real)

  function Next(s: State, e: Event): State {
    match e
    case Wait(seconds) => if seconds >= 0.0 then s.(now := s.now + seconds) else s
    case Logout(t) => s.(entries := LoggedOut(s.entries, s.now, t))
  }

  function Run(s: State, events: seq<Event>): State {
    if events == [] then s else Next(Run(s, events[..|events| - 1]), events[|events| - 1])
  }

  /** Token ids are unique: whatever token is logged out under this id expires then. */
  ghost predicate IdMeans(events: seq<Event>, jti: string, exp: int) {
    forall i :: 0 <= i < |events| && events[i].Logout? && events[i].token.jti == jti ==> events[i].token.exp == exp
  }

  /** A token that no longer decodes, or has no id or no expiry, leaves the blacklist as it is. */
  lemma NothingToRevoke(s: State, t: Token)
    requires t.exp as real <= s.now || t.jti == "" || t.exp == 0
    ensures Next(s, Logout(t)) == s
  {
  }

  /** The id is held for as long as its token could be accepted. */
  predicate Held(s: State, jti: string, exp: int) {
    s.now < exp as real ==> jti in s.entries && exp as real <= s.entries[jti]
  }

  lemma {:induction false} HeldForever(s: State, events: seq<Event>, jti: string, exp: int)
    requires Held(s, jti, exp) && IdMeans(events, jti, exp)
    ensures Held(Run(s, events), jti, exp)
  {
    if events == [] {
    } else {
      var before, e := events[..|events| - 1], events[|events| - 1];
      HeldForever(s, before, jti, exp);
      if e.Logout? && e.token.jti == jti { EntryLifetime(Run(s, before).entries, Run(s, before).now, jti, exp); }
    }
  }

  /** Once logout has stored a token's id, no later request with that token is accepted, whatever
      else happens in between. */
  lemma RevokedIsNeverAccepted(s: State, t: Token, events: seq<Event>, users: set<int>)
    requires t.jti != "" && t.exp != 0 && IdMeans(events, t.jti, t.exp)
    ensures !Accepts(Run(Next(s, Logout(t)), events).entries, users, Run(Next(s, Logout(t)), events).now, t)
  {
    EntryLifetime(s.entries, s.now, t.jti, t.exp);
    HeldForever(Next(s, Logout(t)), events, t.jti, t.exp);
  }

  /** A token nobody logged out is accepted if and only if it is an access token, before its expiry, of
      a user that exists. */
  lemma {:induction false} OthersAreUnaffected(s: State, events: seq<Event>, t: Token, users: set<int>)
    requires s.entries == map[]
    requires forall i :: 0 <= i < |events| && events[i].Logout? ==> events[i].token.jti != t.jti
    ensures t.jti !in Run(s, events).entries
    ensures Accepts(Run(s, events).entries, users, Run(s, events).now, t) <==>
            Run(s, events).now < t.exp as real && t.access && t.user.Some? && t.user.value in users
  {
    if events == [] {
    } else {
      OthersAreUnaffected(s, events[..|events| - 1], t, users);
    }
  }

  /** No entry outlives its token by a second or more: the store does not grow without bound. */
  lemma {:induction false} EntriesExpire(s: State, events: seq<Event>, jti: string) returns (i: int)
    requires s.entries == map[] && jti in Run(s, events).entries
    ensures 0 <= i < |events| && events[i].Logout? && events[i].token.jti == jti
    ensures events[i].token.exp as real <= Run(s, events).entries[jti] < events[i].token.exp as real + 1.0
  {
    if events == [] {
      assert false;
    } else {
      var before, e := events[..|events| - 1], events[|events| - 1];
      var mid := Run(s, before);
      if e.Logout? && e.token.jti == jti && LoggedOut(mid.entries, mid.now, e.token) != mid.entries {
        i := |events| - 1;
        EntryLifetime(mid.entries, mid.now, jti, e.token.exp);
      } else {
        i := EntriesExpire(s, before, jti);
      }
    }
  }
}
