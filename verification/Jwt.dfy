/** Session tokens and their revocation list (auth/jwt.go). */
module Jwt {
  import opened Machines
  import opened Text

  const SECOND := 1_000_000_000
  const TOKEN_TTL := 72 * 3600 * SECOND
  const REFRESH_TTL := 7 * 24 * 3600 * SECOND

  datatype Kind = Access | Refresh

  // A signed token; its hash is injective, so the token itself stands for it.
  datatype Token = Token(user: string, kind: Kind, issuedAt: int, expiresAt: int)

  // jwt.NewNumericDate keeps whole seconds.
  function NumericDate(t: int): int {
    t - t % SECOND
  }

  function Ttl(kind: Kind): int {
    if kind == Access then TOKEN_TTL else REFRESH_TTL
  }

  // Sign and SignRefresh read the clock twice, first for the expiry.
  function Issued(user: string, kind: Kind, first: int, second: int): Token {
    Token(user, kind, NumericDate(second), NumericDate(first + Ttl(kind)))
  }

  // This service signed the token, at that time or before.
  ghost predicate IssuedBy(t: Token, time: int) {
    exists i, j :: i <= j <= time && t == Issued(t.user, t.kind, i, j)
  }

  // The claims check of the parser: not expired (section 4.1.4 of RFC 7519), not issued in the future, and
  // meant for this audience.
  predicate ClaimsValid(t: Token, kind: Kind, now: int) {
    now < t.expiresAt && t.issuedAt <= now && t.kind == kind
  }

  /** A token is valid for what it was issued for and nothing else, from its issue until a second before its lifetime
      is over at least, which is 72 hours or 7 days, and no longer than that. */
  lemma IssuedIsValidFor(user: string, kind: Kind, first: int, second: int, asked: Kind, now: int)
    requires first <= second <= now
    ensures var lifetime := if kind == Access then 259_200_000_000_000 else 604_800_000_000_000;
      var valid := ClaimsValid(Issued(user, kind, first, second), asked, now);
      && (asked != kind ==> !valid)
      && (asked == kind && now + 1_000_000_000 <= first + lifetime ==> valid)
      && (now >= first + lifetime ==> !valid)
  {
  }

  /** A block list entry outlives the token it blocks. */
  lemma BlockOutlivesToken(t: Token, revokedAt: int)
    requires IssuedBy(t, revokedAt)
    ensures t.expiresAt <= revokedAt + REFRESH_TTL
  {
  }

  type Blocklist = map<Token, int>

  function Pruned(b: Blocklist, now: int): Blocklist {
    map t | t in b && now <= b[t] :: b[t]
  }

  class JWTService {
    var blocklist: Blocklist

    constructor ()
      ensures blocklist == map[]
    {
      blocklist := map[];
    }

    /** Revoke reads the clock before it takes the lock; pruning reads it again. */
    method Revoke(t: Token, started: int, now: int)
      modifies this
      ensures blocklist == Pruned(old(blocklist)[t := started + REFRESH_TTL], now)
      ensures t in blocklist <==> now <= started + 604_800_000_000_000
      ensures t in blocklist ==> blocklist[t] == started + 604_800_000_000_000
      ensures forall u :: u != t ==> (u in blocklist <==> u in old(blocklist) && now <= old(blocklist)[u])
      ensures forall u :: u != t && u in blocklist ==> blocklist[u] == old(blocklist)[u]
    {
      blocklist := blocklist[t := started + REFRESH_TTL];
      PruneExpired(now);
    }

    method PruneExpired(now: int)
      modifies this
      ensures blocklist == Pruned(old(blocklist), now)
    {
      var todo := blocklist.Keys;
      while todo != {}
        invariant blocklist == map t | t in old(blocklist) && (t in todo || now <= old(blocklist)[t]) :: old(blocklist)[t]
        invariant todo <= blocklist.Keys
        decreases |todo|
      {
        var t :| t in todo;
        todo := todo - {t};
        if now > blocklist[t] {
          blocklist := blocklist - {t};
        }
      }
    }

    /** isRevoked's first section, under the read lock. */
    method ReadEntry(t: Token) returns (until: Option<int>)
      ensures until == if t in blocklist then Some(blocklist[t]) else None
    {
      return if t in blocklist then Some(blocklist[t]) else None;
    }

    /** Its second section, which removes whatever entry is there by then. */
    method DeleteEntry(t: Token)
      modifies this
      ensures blocklist == old(blocklist) - {t}
    {
      blocklist := blocklist - {t};
    }

    /** Verify and VerifyRefresh, when nobody else comes in between; the parser and isRevoked read the clock each
        on its own. */
    method Verify(t: Token, kind: Kind, parsed: int, clock: int) returns (ok: bool)
      modifies this
      ensures ok <==>
        && t.kind == kind && t.issuedAt <= parsed < t.expiresAt
        && !(t in old(blocklist) && clock <= old(blocklist)[t])
      ensures blocklist == if ok && t in old(blocklist) then old(blocklist) - {t} else old(blocklist)
    {
      if !ClaimsValid(t, kind, parsed) {
        return false;
      }
      var until := ReadEntry(t);
      if until.None? {
        return true;
      }
      if clock > until.value {
        DeleteEntry(t);
        return true;
      }
      return false;
    }
  }

  /***** All interleavings of verifications and revocations *****/

  // Where a verification stands: claims checked, entry read, found lapsed (and about to be deleted), done.
  datatype Phase = Parsed | Read(until: int) | Lapsed | Accepted | Rejected

  // clock is the time by which the call decides: when it reads the clock, or the list if that has no entry.
  // revokedAtRead tells whether the token had been revoked when the call read the list.
  datatype Call = Call(token: Token, kind: Kind, phase: Phase, parsedAt: int, clock: int, revokedAtRead: bool)

  // first and last are the history: when each token was revoked, the earliest and the latest time.
  datatype World = World(blocklist: Blocklist, now: int, calls: map<nat, Call>, first: map<Token, int>, last: map<Token, int>)

  datatype Action =
    | Pass(until: int)
    | Revoke(token: Token, started: int)
    | Parse(call: nat, token: Token, kind: Kind)
    | ReadList(call: nat)
    | CheckClock(call: nat)
    | Delete(call: nat)

  function Init(now: int): World {
    World(map[], now, map[], map[], map[])
  }

  predicate In(w: World, c: nat, phase: Phase) {
    c in w.calls && w.calls[c].phase == phase
  }

  ghost predicate Enabled(w: World, a: Action) {
    match a
    case Pass(until) => until >= w.now
    case Revoke(t, started) => started <= w.now && IssuedBy(t, started)
    case Parse(c, t, kind) => c !in w.calls && ClaimsValid(t, kind, w.now)
    case ReadList(c) => In(w, c, Parsed)
    case CheckClock(c) => c in w.calls && w.calls[c].phase.Read?
    case Delete(c) => In(w, c, Lapsed)
  }

  function Earliest(first: map<Token, int>, t: Token, time: int): int {
    if t in first && first[t] < time then first[t] else time
  }

  function Latest(last: map<Token, int>, t: Token, time: int): int {
    if t in last && last[t] > time then last[t] else time
  }

  function AfterRead(w: World, call: Call): Call {
    call.(phase := if call.token in w.blocklist then Read(w.blocklist[call.token]) else Accepted,
          clock := w.now, revokedAtRead := call.token in w.first)
  }

  function AfterClock(w: World, call: Call): Call {
    if !call.phase.Read? then call
    else call.(phase := if w.now > call.phase.until then Lapsed else Rejected, clock := w.now)
  }

  function Next(w: World, a: Action): World {
    match a
    case Pass(until) => w.(now := until)
    case Revoke(t, started) =>
      w.(blocklist := Pruned(w.blocklist[t := started + REFRESH_TTL], w.now),
         first := w.first[t := Earliest(w.first, t, started)],
         last := w.last[t := Latest(w.last, t, started)])
    case Parse(c, t, kind) => w.(calls := w.calls[c := Call(t, kind, Parsed, w.now, w.now, false)])
    case ReadList(c) => if c !in w.calls then w else w.(calls := w.calls[c := AfterRead(w, w.calls[c])])
    case CheckClock(c) => if c !in w.calls then w else w.(calls := w.calls[c := AfterClock(w, w.calls[c])])
    case Delete(c) => if c !in w.calls then w else
      w.(blocklist := w.blocklist - {w.calls[c].token},
         calls := w.calls[c := w.calls[c].(phase := Accepted)])
  }

  ghost const VERIFICATIONS := Machine(Enabled, Next)

  // A revoked token has an entry that lasts from one of its revocations, or the entry of the first has run out.
  ghost predicate TokenOk(w: World, t: Token) {
    && t in w.first && t in w.last && w.first[t] <= w.last[t] <= w.now
    && t.expiresAt <= w.first[t] + REFRESH_TTL
    && (if t in w.blocklist then w.first[t] + REFRESH_TTL <= w.blocklist[t] <= w.last[t] + REFRESH_TTL
        else w.now > w.first[t] + REFRESH_TTL)
  }

  ghost predicate CallOk(w: World, c: Call) {
    && c.token.kind == c.kind && c.token.issuedAt <= c.parsedAt < c.token.expiresAt && c.clock <= w.now
    && (c.phase.Read? || c.phase.Lapsed? || c.phase.Rejected? ==> c.revokedAtRead)
    && (c.revokedAtRead ==>
         && c.token in w.first && c.token in w.last
         && match c.phase
            case Parsed => true
            case Read(until) => w.first[c.token] + REFRESH_TTL <= until <= w.last[c.token] + REFRESH_TTL
            case Rejected => c.clock <= w.last[c.token] + REFRESH_TTL
            case _ => c.clock > w.first[c.token] + REFRESH_TTL)
  }

  ghost predicate Ok(w: World) {
    && w.first.Keys == w.last.Keys
    && (forall t :: t in w.first ==> TokenOk(w, t))
    && (forall t :: t in w.blocklist ==> t in w.first)
    && (forall c :: c in w.calls ==> CallOk(w, w.calls[c]))
  }

  lemma RevokeKeepsOk(w: World, t: Token, started: int)
    requires Ok(w) && Enabled(w, Revoke(t, started))
    ensures Ok(Next(w, Revoke(t, started)))
  {
    BlockOutlivesToken(t, started);
    var w' := Next(w, Revoke(t, started));
    forall u | u in w'.first
      ensures TokenOk(w', u)
    {
      assert u != t ==> TokenOk(w, u);
      assert t in w.first ==> TokenOk(w, t);
    }
    forall c | c in w'.calls
      ensures CallOk(w', w'.calls[c])
    {
      assert CallOk(w, w.calls[c]);
    }
  }

  lemma PassKeepsOk(w: World, until: int)
    requires Ok(w) && Enabled(w, Pass(until))
    ensures Ok(Next(w, Pass(until)))
  {
    forall t | t in w.first
      ensures TokenOk(Next(w, Pass(until)), t)
    {
      assert TokenOk(w, t);
    }
    forall c | c in w.calls
      ensures CallOk(Next(w, Pass(until)), w.calls[c])
    {
      assert CallOk(w, w.calls[c]);
    }
  }

  lemma DeleteKeepsOk(w: World, c: nat)
    requires Ok(w) && Enabled(w, Delete(c))
    ensures Ok(Next(w, Delete(c)))
  {
    assert CallOk(w, w.calls[c]);
  }

  // A call moves on; nothing else changes.
  lemma CallMovesOk(w: World, c: nat, call: Call)
    requires Ok(w) && CallOk(w, call)
    ensures Ok(w.(calls := w.calls[c := call]))
  {
    var w' := w.(calls := w.calls[c := call]);
    forall t | t in w.first
      ensures TokenOk(w', t)
    {
      assert TokenOk(w, t);
    }
    forall d | d in w'.calls
      ensures CallOk(w', w'.calls[d])
    {
      assert d != c ==> CallOk(w, w.calls[d]);
    }
  }

  lemma ReadKeepsOk(w: World, c: nat)
    requires Ok(w) && Enabled(w, ReadList(c))
    ensures Ok(Next(w, ReadList(c)))
  {
    var call := w.calls[c];
    assert call.token in w.first ==> TokenOk(w, call.token);
    CallMovesOk(w, c, AfterRead(w, call));
  }

  lemma OkKept(w: World, a: Action)
    requires Ok(w) && Enabled(w, a)
    ensures Ok(Next(w, a))
  {
    match a
    case Pass(until) => PassKeepsOk(w, until);
    case Revoke(t, started) => RevokeKeepsOk(w, t, started);
    case Delete(c) => DeleteKeepsOk(w, c);
    case Parse(c, t, kind) => CallMovesOk(w, c, Call(t, kind, Parsed, w.now, w.now, false));
    case ReadList(c) => ReadKeepsOk(w, c);
    case CheckClock(c) => CallMovesOk(w, c, AfterClock(w, w.calls[c]));
  }

  /** However verifications and revocations interleave, every revoked token stays blocked until it has expired, and
      longer: for REFRESH_TTL from its first revocation. */
  lemma {:induction false} ReachableIsOk(now: int, actions: seq<Action>)
    requires Legal(VERIFICATIONS, Init(now), actions)
    ensures Ok(After(VERIFICATIONS, Init(now), actions))
  {
    if actions != [] {
      ReachableIsOk(now, actions[..|actions| - 1]);
      OkKept(After(VERIFICATIONS, Init(now), actions[..|actions| - 1]), actions[|actions| - 1]);
    }
  }

  /** Every call is about a token of the kind it asked for, issued when it began and not expired; and it is refused only
      if the token has been revoked. */
  lemma AcceptedIsMeantForIt(now: int, actions: seq<Action>, c: nat)
    requires Legal(VERIFICATIONS, Init(now), actions) && c in After(VERIFICATIONS, Init(now), actions).calls
    ensures var w := After(VERIFICATIONS, Init(now), actions); var call := w.calls[c];
      && call.token.kind == call.kind && call.token.issuedAt <= call.parsedAt < call.token.expiresAt
      && (call.phase.Rejected? ==> call.token in w.first)
  {
    ReachableIsOk(now, actions);
    var w := After(VERIFICATIONS, Init(now), actions);
    assert CallOk(w, w.calls[c]);
  }

  predicate LetThrough(call: Call) {
    call.phase.Accepted? || call.phase.Lapsed?
  }

  /** A call that reads the list after its token was revoked is let through only if it decides later than REFRESH_TTL
      from the first revocation (by when the token has expired, though it had not when the claims were checked), and
      always if it decides later than REFRESH_TTL from the last one. So for a token revoked once, if and only if. */
  lemma RevokedIsAcceptedExactlyWhen(now: int, actions: seq<Action>, c: nat)
    requires Legal(VERIFICATIONS, Init(now), actions) && c in After(VERIFICATIONS, Init(now), actions).calls
    requires var call := After(VERIFICATIONS, Init(now), actions).calls[c];
      call.revokedAtRead && (LetThrough(call) || call.phase.Rejected?)
    ensures var w := After(VERIFICATIONS, Init(now), actions); var call := w.calls[c]; var t := call.token;
      && t in w.first && t in w.last
      && (LetThrough(call) ==> call.parsedAt < t.expiresAt <= w.first[t] + REFRESH_TTL < call.clock)
      && (call.clock > w.last[t] + REFRESH_TTL ==> LetThrough(call))
      && (w.first[t] == w.last[t] ==> (LetThrough(call) <==> call.clock > w.last[t] + REFRESH_TTL))
  {
    ReachableIsOk(now, actions);
    var w := After(VERIFICATIONS, Init(now), actions);
    assert CallOk(w, w.calls[c]) && TokenOk(w, w.calls[c].token);
  }

  // A refresh token, revoked as soon as it was issued, and two calls that check its claims just before the expiry.
  lemma TwoCalls(t: Token) returns (w: World)
    requires t == Issued("u", Refresh, 0, 0)
    ensures Reaches(VERIFICATIONS, Init(0), w)
    ensures w.now == REFRESH_TTL - 1 && w.blocklist == map[t := REFRESH_TTL] && t in w.first
    ensures In(w, 0, Parsed) && w.calls[0].token == t && In(w, 1, Parsed) && w.calls[1].token == t
  {
    var w0 := Init(0);
    assert IssuedBy(t, 0);
    ReachesItself(VERIFICATIONS, w0);
    w := Then(VERIFICATIONS, w0, w0, Revoke(t, 0));
    w := Then(VERIFICATIONS, w0, w, Pass(REFRESH_TTL - 1));
    w := Then(VERIFICATIONS, w0, w, Parse(0, t, Refresh));
    w := Then(VERIFICATIONS, w0, w, Parse(1, t, Refresh));
  }

  // One of them reads the list and the clock just after it.
  lemma OneLapses(t: Token) returns (w: World)
    requires t == Issued("u", Refresh, 0, 0)
    ensures Reaches(VERIFICATIONS, Init(0), w)
    ensures w.now == REFRESH_TTL + 1 && t in w.first
    ensures In(w, 0, Lapsed) && w.calls[0].token == t && w.calls[0].revokedAtRead
    ensures In(w, 1, Parsed) && w.calls[1].token == t
  {
    w := TwoCalls(t);
    w := Then(VERIFICATIONS, Init(0), w, Pass(REFRESH_TTL + 1));
    w := Then(VERIFICATIONS, Init(0), w, ReadList(0));
    w := Then(VERIFICATIONS, Init(0), w, CheckClock(0));
  }

  /** That can happen, to a refresh token revoked as soon as it was issued: this call checks the claims just before
      the expiry and the list just after. */
  lemma StraddlingVerificationAccepts() returns (w: World)
    ensures Reaches(VERIFICATIONS, Init(0), w)
    ensures 0 in w.calls && w.calls[0].token == Issued("u", Refresh, 0, 0)
    ensures w.calls[0].phase.Accepted? && w.calls[0].revokedAtRead
  {
    w := OneLapses(Issued("u", Refresh, 0, 0));
    w := Then(VERIFICATIONS, Init(0), w, Delete(0));
  }

  /** The two bounds differ: a deletion after the unlock gap can take the entry of a later revocation with it, and
      another call is then let through long before that entry would have run out. */
  lemma RenewedRevocationIsForgotten() returns (w: World)
    ensures Reaches(VERIFICATIONS, Init(0), w)
    ensures var t := Issued("u", Refresh, 0, 0);
      && t in w.last && w.last[t] == w.now
      && 1 in w.calls && w.calls[1].token == t && w.calls[1].revokedAtRead && w.calls[1].phase.Accepted?
      && w.calls[1].clock == w.now
  {
    var t := Issued("u", Refresh, 0, 0);
    assert IssuedBy(t, REFRESH_TTL + 1);
    w := OneLapses(t);
    LastIsPast(w, t);
    w := Then(VERIFICATIONS, Init(0), w, Revoke(t, w.now));
    w := Then(VERIFICATIONS, Init(0), w, Delete(0));
    w := Then(VERIFICATIONS, Init(0), w, ReadList(1));
  }

  lemma LastIsPast(w: World, t: Token)
    requires Reaches(VERIFICATIONS, Init(0), w)
    ensures t in w.last ==> w.last[t] <= w.now
  {
    var actions :| Legal(VERIFICATIONS, Init(0), actions) && After(VERIFICATIONS, Init(0), actions) == w;
    ReachableIsOk(0, actions);
    assert t in w.first ==> TokenOk(w, t);
  }
}
