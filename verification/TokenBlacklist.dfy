/**
 Logging out: the identifier of a token is put on a list in Redis that forgets it
 when the token itself expires (the exp claim, section 4.1.4 of RFC 7519).
 */
module TokenBlacklist {
  import opened Wrappers
  import opened Http
  import opened Clock
  import opened Texts

  const PREFIX := "gorest-blacklist-jti:"

  datatype Config = Config(jwt: bool, redis: bool, invalidate: bool)
  /** An access token or a refresh token; exp and nbf are in seconds. */
  datatype Token = Token(jti: string, exp: int, nbf: Option<int>, refresh: bool)

  /** Keys and the second at which they expire, if they do. */
  type Redis = map<string, Option<int>>

  /** A key is gone once the millisecond clock has passed its expiry. */
  predicate Present(db: Redis, key: string, now: int) {
    key in db && (db[key].None? || now / MILLISECOND <= db[key].value * 1000)
  }

  /** EXPIREAT; a time that is not in the future deletes the key. */
  function Expiring(db: Redis, key: string, at: int, now: int): Redis {
    if at * 1000 <= now / MILLISECOND then db - {key} else db[key := Some(at)]
  }

  /** SET and EXPIREAT for one token, either of which may fail. */
  function Listed(db: Redis, jti: string, exp: int, now: int, setOk: bool, expireOk: bool): Redis {
    if jti == "" || !setOk then db
    else
      var stored := db[PREFIX + jti := None];
      if expireOk then Expiring(stored, PREFIX + jti, exp, now) else stored
  }

  /** One logout; the four commands may fail, and the first failure ends it. */
  datatype Request = Request(jtiAccess: string, jtiRefresh: string, expAccess: int, expRefresh: int, now: int,
                             faults: (bool, bool, bool, bool))

  function LoggedOut(cfg: Config, db: Redis, r: Request): (Redis, int) {
    if !cfg.redis then (db, OK)
    else
      var access := Listed(db, r.jtiAccess, r.expAccess, r.now, !r.faults.0, !r.faults.1);
      if r.jtiAccess != "" && (r.faults.0 || r.faults.1) then (access, INTERNAL_ERROR)
      else (Listed(access, r.jtiRefresh, r.expRefresh, r.now, !r.faults.2, !r.faults.3),
            if r.jtiRefresh != "" && (r.faults.2 || r.faults.3) then INTERNAL_ERROR else OK)
  }

  class Service {
    const cfg: Config
    var redis: Redis

    constructor (cfg: Config)
      ensures this.cfg == cfg && redis == map[]
    {
      this.cfg, redis := cfg, map[];
    }

    method Logout(r: Request) returns (status: int)
      modifies this
      ensures (redis, status) == LoggedOut(cfg, old(redis), r)
    {
      if !cfg.redis { return OK; }
      if r.jtiAccess != "" {
        if r.faults.0 { return INTERNAL_ERROR; }
        redis := redis[PREFIX + r.jtiAccess := None];
        if r.faults.1 { return INTERNAL_ERROR; }
        redis := Expiring(redis, PREFIX + r.jtiAccess, r.expAccess, r.now);
      }
      if r.jtiRefresh != "" {
        if r.faults.2 { return INTERNAL_ERROR; }
        redis := redis[PREFIX + r.jtiRefresh := None];
        if r.faults.3 { return INTERNAL_ERROR; }
        redis := Expiring(redis, PREFIX + r.jtiRefresh, r.expRefresh, r.now);
      }
      status := OK;
    }
  }

  /** IsTokenAllowed; an unreachable list rejects. */
  predicate IsTokenAllowed(cfg: Config, db: Redis, jti: string, now: int, readOk: bool) {
    !cfg.jwt || !cfg.redis || !cfg.invalidate || (readOk && !Present(db, PREFIX + jti, now))
  }

  /** The identifier the checker looks up. */
  function CheckedJti(jtiAccess: string, jtiRefresh: string): string {
    if TrimSpace(jtiAccess) != "" then TrimSpace(jtiAccess)
    else if TrimSpace(jtiRefresh) != "" then TrimSpace(jtiRefresh)
    else ""
  }

  /** A well-signed token within its exp and nbf claims. */
  predicate InTime(t: Token, now: int) {
    now < t.exp * SECOND && (t.nbf.Some? ==> t.nbf.value * SECOND <= now)
  }

  /** The JWT middleware followed by the blacklist checker. */
  predicate Passes(cfg: Config, db: Redis, t: Token, now: int, readOk: bool) {
    InTime(t, now) && IsTokenAllowed(cfg, db, if t.refresh then CheckedJti("", t.jti) else CheckedJti(t.jti, ""), now, readOk)
  }

  // ---- Runs ----------------------------------------------------------------

  function RunOf(cfg: Config, requests: seq<Request>): Redis {
    if requests == [] then map[]
    else LoggedOut(cfg, RunOf(cfg, requests[..|requests| - 1]), requests[|requests| - 1]).0
  }

  /** The clock does not go back, and every request that names the token gives its expiry. */
  ghost predicate Consistent(requests: seq<Request>, t: Token) {
    && (forall i, j :: 0 <= i < j < |requests| ==> requests[i].now <= requests[j].now)
    && (forall i :: 0 <= i < |requests| ==>
          && (requests[i].jtiAccess == t.jti ==> requests[i].expAccess == t.exp)
          && (requests[i].jtiRefresh == t.jti ==> requests[i].expRefresh == t.exp))
  }

  /** Identifiers are UUIDs: not empty and without blanks around them. */
  ghost predicate ProperJti(t: Token) {
    t.jti != "" && TrimSpace(t.jti) == t.jti
  }

  ghost predicate Names(r: Request, t: Token) {
    r.jtiAccess == t.jti || r.jtiRefresh == t.jti
  }

  /** The token is past its expiry, or the list keeps it until then. */
  ghost predicate Guarded(db: Redis, t: Token, now: int) {
    t.exp * SECOND <= now || (PREFIX + t.jti in db && (db[PREFIX + t.jti].None? || db[PREFIX + t.jti].value == t.exp))
  }

  lemma KeysApart(a: string, b: string)
    requires PREFIX + a == PREFIX + b
    ensures a == b
  {
    assert a == (PREFIX + a)[|PREFIX|..] && b == (PREFIX + b)[|PREFIX|..];
  }

  lemma ListedGuards(db: Redis, jti: string, exp: int, now: int, setOk: bool, expireOk: bool, t: Token)
    requires ProperJti(t) && (jti == t.jti ==> exp == t.exp)
    ensures Guarded(db, t, now) ==> Guarded(Listed(db, jti, exp, now, setOk, expireOk), t, now)
    ensures jti == t.jti && setOk ==> Guarded(Listed(db, jti, exp, now, setOk, expireOk), t, now)
    ensures jti != t.jti && PREFIX + t.jti !in db ==> PREFIX + t.jti !in Listed(db, jti, exp, now, setOk, expireOk)
  {
    if PREFIX + jti == PREFIX + t.jti {
      KeysApart(jti, t.jti);
    }
  }

  lemma StepGuards(cfg: Config, db: Redis, r: Request, t: Token)
    requires ProperJti(t) && cfg.redis
    requires (r.jtiAccess == t.jti ==> r.expAccess == t.exp) && (r.jtiRefresh == t.jti ==> r.expRefresh == t.exp)
    ensures Guarded(db, t, r.now) ==> Guarded(LoggedOut(cfg, db, r).0, t, r.now)
    ensures Names(r, t) && LoggedOut(cfg, db, r).1 == OK ==> Guarded(LoggedOut(cfg, db, r).0, t, r.now)
    ensures !Names(r, t) && PREFIX + t.jti !in db ==> PREFIX + t.jti !in LoggedOut(cfg, db, r).0
  {
    ListedGuards(db, r.jtiAccess, r.expAccess, r.now, !r.faults.0, !r.faults.1, t);
    var access := Listed(db, r.jtiAccess, r.expAccess, r.now, !r.faults.0, !r.faults.1);
    ListedGuards(access, r.jtiRefresh, r.expRefresh, r.now, !r.faults.2, !r.faults.3, t);
  }

  lemma ConsistentPrefix(requests: seq<Request>, t: Token)
    requires Consistent(requests, t) && requests != []
    ensures Consistent(requests[..|requests| - 1], t)
  {
  }

  lemma {:induction false} StaysGuarded(cfg: Config, requests: seq<Request>, t: Token, i: nat)
    requires Consistent(requests, t) && ProperJti(t) && cfg.redis && i < |requests|
    requires Names(requests[i], t) && LoggedOut(cfg, RunOf(cfg, requests[..i]), requests[i]).1 == OK
    ensures Guarded(RunOf(cfg, requests), t, requests[|requests| - 1].now)
  {
    var n := |requests| - 1;
    var init := requests[..n];
    StepGuards(cfg, RunOf(cfg, init), requests[n], t);
    if i < n {
      ConsistentPrefix(requests, t);
      assert init[..i] == requests[..i] && init[i] == requests[i];
      StaysGuarded(cfg, init, t, i);
      assert init[n - 1].now <= requests[n].now;
    }
  }

  /**
   Once a logout that names the token has succeeded, the token gets through at a
   later time exactly if it would by its claims and one of JWT, Redis and token
   invalidation is switched off.
   */
  lemma LogoutIsFinal(cfg: Config, requests: seq<Request>, t: Token, i: nat, now: int, readOk: bool)
    requires Consistent(requests, t) && ProperJti(t) && i < |requests| && requests[|requests| - 1].now <= now
    requires Names(requests[i], t) && LoggedOut(cfg, RunOf(cfg, requests[..i]), requests[i]).1 == OK
    ensures Passes(cfg, RunOf(cfg, requests), t, now, readOk) <==>
            && now < t.exp * 1_000_000_000 && (t.nbf.Some? ==> t.nbf.value * 1_000_000_000 <= now)
            && !(cfg.jwt && cfg.redis && cfg.invalidate)
  {
    if cfg.redis {
      StaysGuarded(cfg, requests, t, i);
      assert now < t.exp * SECOND ==> now / MILLISECOND <= t.exp * 1000;
    }
  }

  lemma {:induction false} NeverListed(cfg: Config, requests: seq<Request>, t: Token)
    requires Consistent(requests, t) && ProperJti(t) && forall i :: 0 <= i < |requests| ==> !Names(requests[i], t)
    ensures PREFIX + t.jti !in RunOf(cfg, requests)
  {
    if requests != [] {
      ConsistentPrefix(requests, t);
      NeverListed(cfg, requests[..|requests| - 1], t);
      if cfg.redis {
        StepGuards(cfg, RunOf(cfg, requests[..|requests| - 1]), requests[|requests| - 1], t);
      }
    }
  }

  /** A token that no logout names is judged by its claims alone, unless the list is consulted and does not answer. */
  lemma OthersAreUnaffected(cfg: Config, requests: seq<Request>, t: Token, now: int, readOk: bool)
    requires Consistent(requests, t) && ProperJti(t) && forall i :: 0 <= i < |requests| ==> !Names(requests[i], t)
    ensures Passes(cfg, RunOf(cfg, requests), t, now, readOk) <==>
            && now < t.exp * 1_000_000_000 && (t.nbf.Some? ==> t.nbf.value * 1_000_000_000 <= now)
            && (readOk || !(cfg.jwt && cfg.redis && cfg.invalidate))
  {
    NeverListed(cfg, requests, t);
  }

  // ---- One logout ----------------------------------------------------------

  /** A logout succeeds exactly when no command fails that it comes to: two for each identifier that is given. */
  lemma LogoutAnswer(cfg: Config, db: Redis, r: Request)
    ensures var (db', status) := LoggedOut(cfg, db, r);
            && (status == OK <==> !cfg.redis || ((r.jtiAccess == "" || (!r.faults.0 && !r.faults.1))
                                                 && (r.jtiRefresh == "" || (!r.faults.2 && !r.faults.3))))
            && (status != OK ==> status == INTERNAL_ERROR)
            && (!cfg.redis ==> db' == db)
            && (forall key :: key != PREFIX + r.jtiAccess && key != PREFIX + r.jtiRefresh ==>
                  (key in db' <==> key in db) && (key in db ==> db'[key] == db[key]))
  {
  }

  /** A logout that fails halfway leaves the first identifier unlisted, or listed for good, and does not come to the second. */
  lemma HalfLogout(cfg: Config, db: Redis, r: Request)
    requires cfg.redis && r.jtiAccess != "" && (r.faults.0 || r.faults.1)
    ensures LoggedOut(cfg, db, r) == (if r.faults.0 then db else db[PREFIX + r.jtiAccess := None], INTERNAL_ERROR)
  {
  }

  /** The list holds an identifier exactly as long as the token it was given with lives, and not at all if that is over. */
  lemma ListForgets(cfg: Config, db: Redis, r: Request, later: int)
    requires cfg.redis && LoggedOut(cfg, db, r).1 == OK && r.jtiAccess != r.jtiRefresh
    ensures r.jtiAccess != "" ==>
              (Present(LoggedOut(cfg, db, r).0, PREFIX + r.jtiAccess, later) <==>
               r.now / 1_000_000 < r.expAccess * 1000 && later / 1_000_000 <= r.expAccess * 1000)
    ensures r.jtiRefresh != "" ==>
              (Present(LoggedOut(cfg, db, r).0, PREFIX + r.jtiRefresh, later) <==>
               r.now / 1_000_000 < r.expRefresh * 1000 && later / 1_000_000 <= r.expRefresh * 1000)
  {
    if PREFIX + r.jtiAccess == PREFIX + r.jtiRefresh {
      KeysApart(r.jtiAccess, r.jtiRefresh);
    }
  }
}
