/**
 Login, refresh, logout and revocation as interleaved steps over one session store.

 Every id is minted fresh, tokens cannot be forged, and each store command is one step.  A
 session descends from the login that started it; rotation hands the descent on.  Histories
 that the service does not keep (ids used, tokens issued and exchanged) are part of the state
 so that a whole run can be talked about.
 */
module SessionProtocol {
  import opened Options

  type Id = nat

  datatype Key = Key(user: Id, sid: Id)

  /** A refresh token's claims. */
  datatype Token = Token(user: Id, sid: Id, jti: Id, expiresAt: int)

  datatype Session = Session(jti: Id, lineage: Id, expiresAt: int)

  /** How far a login or refresh request has come. */
  datatype Request =
    | LoggingIn(user: Id)
    | Parsed(token: Token)
    | UserFound(token: Token)
    | Signing(user: Id, sid: Id, jti: Id)
    | Revoking(user: Id)
    | Finished(issued: Option<Token>)

  /** A successful exchange: which token id, by which request. */
  datatype Exchange = Exchange(jti: Id, request: Id)

  datatype State = State(
    now: int,
    sessionTtl: int,
    refreshTtl: int,
    activeUsers: set<Id>,
    store: map<Key, Session>,
    requests: map<Id, Request>,
    usedSids: set<Id>,
    usedJtis: set<Id>,
    issued: set<Token>,
    exchanges: seq<Exchange>)

  datatype Step =
    | Tick(ms: nat)
    | BeginLogin(request: Id, user: Id)
    | CreateSession(request: Id, sid: Id, jti: Id)
    | BeginRefresh(request: Id, token: Token)
    | LookUpUser(request: Id)
    | Rotate(request: Id, newSid: Id, newJti: Id)
    | Sign(request: Id)
    | RevokeAfterFailure(request: Id)
    | Logout(user: Id, sid: Id)
    | RevokeAll(user: Id)
    | SetActive(user: Id, active: bool)
    | Evict(key: Key)

  predicate Live(s: State, key: Key) {
    key in s.store && s.now < s.store[key].expiresAt
  }

  predicate Enabled(s: State, step: Step) {
    match step
    case Tick(_) => true
    case BeginLogin(r, u) => r !in s.requests && u in s.activeUsers
    case CreateSession(r, sid, jti) =>
      && r in s.requests && s.requests[r].LoggingIn?
      && sid !in s.usedSids && jti !in s.usedJtis
    case BeginRefresh(r, token) =>
      r !in s.requests && token in s.issued && s.now < token.expiresAt
    case LookUpUser(r) => r in s.requests && s.requests[r].Parsed?
    case Rotate(r, sid, jti) =>
      && r in s.requests && s.requests[r].UserFound?
      && sid !in s.usedSids && jti !in s.usedJtis
    case Sign(r) => r in s.requests && s.requests[r].Signing?
    case RevokeAfterFailure(r) => r in s.requests && s.requests[r].Revoking?
    case Logout(_, _) => true
    case RevokeAll(_) => true
    case SetActive(_, _) => true
    case Evict(key) => key in s.store && s.store[key].expiresAt <= s.now
  }

  function WithoutUser(store: map<Key, Session>, user: Id): map<Key, Session> {
    map key | key in store && key.user != user :: store[key]
  }

  /** The compare-and-swap of the rotation script would succeed for this token. */
  predicate CanExchange(s: State, token: Token) {
    var key := Key(token.user, token.sid);
    Live(s, key) && s.store[key].jti == token.jti
  }

  function Apply(s: State, step: Step): State
    requires Enabled(s, step)
  {
    match step
    case Tick(ms) => s.(now := s.now + ms)
    case BeginLogin(r, u) => s.(requests := s.requests[r := LoggingIn(u)])
    case CreateSession(r, sid, jti) =>
      var user := s.requests[r].user;
      s.(store := s.store[Key(user, sid) := Session(jti, sid, s.now + s.sessionTtl)],
         requests := s.requests[r := Signing(user, sid, jti)],
         usedSids := s.usedSids + {sid},
         usedJtis := s.usedJtis + {jti})
    case BeginRefresh(r, token) => s.(requests := s.requests[r := Parsed(token)])
    case LookUpUser(r) =>
      var token := s.requests[r].token;
      s.(requests := s.requests[r := if token.user in s.activeUsers then UserFound(token)
                                     else Revoking(token.user)])
    case Rotate(r, sid, jti) =>
      var token := s.requests[r].token;
      var minted := s.(usedSids := s.usedSids + {sid}, usedJtis := s.usedJtis + {jti});
      if CanExchange(s, token) then
        var oldKey := Key(token.user, token.sid);
        var session := Session(jti, s.store[oldKey].lineage, s.now + s.sessionTtl);
        minted.(store := (s.store - {oldKey})[Key(token.user, sid) := session],
                requests := s.requests[r := Signing(token.user, sid, jti)],
                exchanges := s.exchanges + [Exchange(token.jti, r)])
      else
        minted.(requests := s.requests[r := Revoking(token.user)])
    case Sign(r) =>
      var signing := s.requests[r];
      var token := Token(signing.user, signing.sid, signing.jti, s.now + s.refreshTtl);
      s.(issued := s.issued + {token}, requests := s.requests[r := Finished(Some(token))])
    case RevokeAfterFailure(r) =>
      s.(store := WithoutUser(s.store, s.requests[r].user),
         requests := s.requests[r := Finished(None)])
    case Logout(user, sid) => s.(store := s.store - {Key(user, sid)})
    case RevokeAll(user) => s.(store := WithoutUser(s.store, user))
    case SetActive(user, active) =>
      s.(activeUsers := if active then s.activeUsers + {user} else s.activeUsers - {user})
    case Evict(key) => s.(store := s.store - {key})
  }

  predicate Legal(s: State, steps: seq<Step>)
    decreases |steps|
  {
    steps != [] ==> Enabled(s, steps[0]) && Legal(Apply(s, steps[0]), steps[1..])
  }

  function Run(s: State, steps: seq<Step>): State
    requires Legal(s, steps)
    decreases |steps|
  {
    if steps == [] then s else Run(Apply(s, steps[0]), steps[1..])
  }

  /** A store before its first login. */
  predicate Initial(s: State) {
    && s.store == map[] && s.requests == map[] && s.issued == {} && s.exchanges == []
    && s.usedSids == {} && s.usedJtis == {}
  }

  // ---------------------------------------------------------------------------------------
  // The invariant, one clause at a time.
  // ---------------------------------------------------------------------------------------

  predicate Exchanged(s: State, jti: Id) {
    exists i | 0 <= i < |s.exchanges| :: s.exchanges[i].jti == jti
  }

  /** Everything stored was minted, and no stored token id has been exchanged. */
  predicate StoreMinted(s: State) {
    forall key | key in s.store ::
      && key.sid in s.usedSids
      && s.store[key].jti in s.usedJtis
      && s.store[key].lineage in s.usedSids
      && !Exchanged(s, s.store[key].jti)
  }

  predicate OneSessionPerLineage(s: State) {
    forall k1, k2 | k1 in s.store && k2 in s.store && s.store[k1].lineage == s.store[k2].lineage ::
      k1 == k2
  }

  predicate DistinctTokenIds(s: State) {
    forall k1, k2 | k1 in s.store && k2 in s.store && s.store[k1].jti == s.store[k2].jti ::
      k1 == k2
  }

  predicate ExchangedOnce(s: State) {
    forall i, j | 0 <= i < j < |s.exchanges| :: s.exchanges[i].jti != s.exchanges[j].jti
  }

  predicate ExchangesMinted(s: State) {
    forall i | 0 <= i < |s.exchanges| :: s.exchanges[i].jti in s.usedJtis
  }

  /** Token ids and session ids outside the store were minted too. */
  predicate TokensMinted(s: State) {
    && (forall t | t in s.issued :: t.sid in s.usedSids)
    && (forall r | r in s.requests ::
          match s.requests[r]
          case Parsed(t) => t.sid in s.usedSids
          case UserFound(t) => t.sid in s.usedSids
          case Signing(_, sid, _) => sid in s.usedSids
          case _ => true)
  }

  predicate Inv(s: State) {
    && StoreMinted(s) && OneSessionPerLineage(s) && DistinctTokenIds(s)
    && ExchangedOnce(s) && ExchangesMinted(s) && TokensMinted(s)
  }

  lemma InitialInv(s: State)
    requires Initial(s)
    ensures Inv(s)
  {
  }

  lemma RotateKeepsInv(s: State, step: Step)
    requires Inv(s) && Enabled(s, step) && step.Rotate?
    ensures Inv(Apply(s, step))
  {
    var s', token := Apply(s, step), s.requests[step.request].token;
    if CanExchange(s, token) {
      assert forall jti :: Exchanged(s', jti) ==> Exchanged(s, jti) || jti == token.jti;
    } else {
      assert forall jti :: Exchanged(s', jti) ==> Exchanged(s, jti);
    }
  }

  lemma StepKeepsInv(s: State, step: Step)
    requires Inv(s) && Enabled(s, step)
    ensures Inv(Apply(s, step))
  {
    if step.Rotate? {
      RotateKeepsInv(s, step);
    } else {
      var s' := Apply(s, step);
      assert s'.exchanges == s.exchanges;
      assert forall jti :: Exchanged(s', jti) <==> Exchanged(s, jti);
      if step.CreateSession? {
        assert !Exchanged(s, step.jti);
      }
    }
  }

  lemma {:induction false} RunKeepsInv(s: State, steps: seq<Step>)
    requires Inv(s) && Legal(s, steps)
    ensures Inv(Run(s, steps))
    decreases |steps|
  {
    if steps != [] {
      StepKeepsInv(s, steps[0]);
      RunKeepsInv(Apply(s, steps[0]), steps[1..]);
    }
  }

  // ---------------------------------------------------------------------------------------
  // Rotation over every run.
  // ---------------------------------------------------------------------------------------

  /**
   In every reachable state a login has at most one live session, live token ids are pairwise
   distinct and none of them has been exchanged, and no token id was exchanged twice.
   */
  lemma LineagesAreLinear(start: State, steps: seq<Step>)
    requires Initial(start) && Legal(start, steps)
    ensures var s := Run(start, steps);
            && (forall k1, k2 | Live(s, k1) && Live(s, k2) && k1 != k2 ::
                  && s.store[k1].lineage != s.store[k2].lineage
                  && s.store[k1].jti != s.store[k2].jti)
            && (forall k | Live(s, k) :: !Exchanged(s, s.store[k].jti))
            && ExchangedOnce(s)
  {
    InitialInv(start);
    RunKeepsInv(start, steps);
  }

  // ---------------------------------------------------------------------------------------
  // Revocation over every continuation.
  // ---------------------------------------------------------------------------------------

  /** The login has happened and nothing in the store descends from it. */
  predicate Dead(s: State, lineage: Id) {
    lineage in s.usedSids && forall key | key in s.store :: s.store[key].lineage != lineage
  }

  /** The session has existed and is gone. */
  predicate Gone(s: State, key: Key) {
    key.sid in s.usedSids && key !in s.store
  }

  lemma {:induction false} DeadStaysDead(s: State, steps: seq<Step>, lineage: Id)
    requires Legal(s, steps) && Dead(s, lineage)
    ensures Dead(Run(s, steps), lineage)
    decreases |steps|
  {
    if steps != [] {
      DeadStaysDead(Apply(s, steps[0]), steps[1..], lineage);
    }
  }

  lemma {:induction false} GoneStaysGone(s: State, steps: seq<Step>, key: Key)
    requires Legal(s, steps) && Gone(s, key)
    ensures Gone(Run(s, steps), key)
    decreases |steps|
  {
    if steps != [] {
      GoneStaysGone(Apply(s, steps[0]), steps[1..], key);
    }
  }

  /**
   Once a user's sessions are revoked, every login of that user that was alive stays dead in
   all continuations, refreshes already past the user lookup included, and no token issued,
   parsed or about to be signed at that moment can ever be exchanged.
   */
  lemma RevocationIsFinal(s: State, user: Id, after: seq<Step>, lineage: Id, token: Token)
    requires Inv(s) && Legal(Apply(s, RevokeAll(user)), after)
    ensures var end := Run(Apply(s, RevokeAll(user)), after);
            && ((exists key :: Live(s, key) && key.user == user && s.store[key].lineage == lineage)
                ==> forall key | Live(end, key) :: end.store[key].lineage != lineage)
            && (token.user == user && token.sid in s.usedSids ==> !CanExchange(end, token))
  {
    var revoked := Apply(s, RevokeAll(user));
    if key :| Live(s, key) && key.user == user && s.store[key].lineage == lineage {
      DeadStaysDead(revoked, after, lineage);
    }
    if token.user == user && token.sid in s.usedSids {
      GoneStaysGone(revoked, after, Key(user, token.sid));
    }
  }

  // ---------------------------------------------------------------------------------------
  // Replays.
  // ---------------------------------------------------------------------------------------

  /** The part of a run in which a request does not move. */
  predicate Idle(steps: seq<Step>, request: Id) {
    forall i | 0 <= i < |steps| ::
      match steps[i]
      case LookUpUser(r) => r != request
      case Rotate(r, _, _) => r != request
      case RevokeAfterFailure(r) => r != request
      case _ => true
  }

  lemma {:induction false} IdleRequestWaits(s: State, steps: seq<Step>, request: Id)
    requires Legal(s, steps) && Idle(steps, request) && request in s.requests
    requires s.requests[request].UserFound? || s.requests[request].Revoking?
    ensures request in Run(s, steps).requests
    ensures Run(s, steps).requests[request] == s.requests[request]
    decreases |steps|
  {
    if steps != [] {
      assert Idle(steps[1..], request) by {
        assert forall i | 0 <= i < |steps| - 1 :: steps[1..][i] == steps[i + 1];
      }
      IdleRequestWaits(Apply(s, steps[0]), steps[1..], request);
    }
  }

  lemma {:induction false} ExchangedStaysExchanged(s: State, steps: seq<Step>, jti: Id)
    requires Legal(s, steps) && Exchanged(s, jti)
    ensures Exchanged(Run(s, steps), jti)
    decreases |steps|
  {
    if steps != [] {
      var s' := Apply(s, steps[0]);
      var i :| 0 <= i < |s.exchanges| && s.exchanges[i].jti == jti;
      assert s'.exchanges[i] == s.exchanges[i];
      ExchangedStaysExchanged(s', steps[1..], jti);
    }
  }

  /**
   A refresh that comes with an already exchanged token, whatever runs between its steps: the
   rotation changes no session and fails, and when the request moves again every session of
   the user is gone.
   */
  lemma ReplayRevokesEverything(
    s: State, request: Id, before: seq<Step>, newSid: Id, newJti: Id, between: seq<Step>)
    requires Inv(s) && request in s.requests && s.requests[request].UserFound?
    requires Exchanged(s, s.requests[request].token.jti)
    requires Idle(before, request) && Idle(between, request)
    requires Legal(s, before)
    requires Enabled(Run(s, before), Rotate(request, newSid, newJti))
    requires Legal(Apply(Run(s, before), Rotate(request, newSid, newJti)), between)
    ensures var user := s.requests[request].token.user;
            var atRotate := Run(s, before);
            var rotated := Apply(atRotate, Rotate(request, newSid, newJti));
            var atRevoke := Run(rotated, between);
            && rotated.store == atRotate.store && rotated.exchanges == atRotate.exchanges
            && Enabled(atRevoke, RevokeAfterFailure(request))
            && Apply(atRevoke, RevokeAfterFailure(request)).store == WithoutUser(atRevoke.store, user)
  {
    IdleRequestWaits(s, before, request);
    ExchangedStaysExchanged(s, before, s.requests[request].token.jti);
    RunKeepsInv(s, before);
    var rotated := Apply(Run(s, before), Rotate(request, newSid, newJti));
    IdleRequestWaits(rotated, between, request);
  }

  /** However many refreshes race with one token, at most one of them ever exchanges it. */
  lemma AtMostOneRefreshWins(start: State, steps: seq<Step>, i: nat, j: nat)
    requires Initial(start) && Legal(start, steps)
    requires i < |Run(start, steps).exchanges| && j < |Run(start, steps).exchanges|
    requires Run(start, steps).exchanges[i].jti == Run(start, steps).exchanges[j].jti
    ensures i == j
  {
    LineagesAreLinear(start, steps);
  }

  /** The first refresh of a live, unexchanged token does win: rotation is not refused for nothing. */
  lemma CurrentTokenRotates(s: State, request: Id, newSid: Id, newJti: Id)
    requires Inv(s) && Enabled(s, Rotate(request, newSid, newJti))
    requires CanExchange(s, s.requests[request].token)
    ensures var token := s.requests[request].token;
            var s' := Apply(s, Rotate(request, newSid, newJti));
            && Exchanged(s', token.jti) && !CanExchange(s', token)
            && Key(token.user, newSid) in s'.store
            && s'.store[Key(token.user, newSid)].lineage
               == s.store[Key(token.user, token.sid)].lineage
  {
    var s' := Apply(s, Rotate(request, newSid, newJti));
    assert s'.exchanges[|s.exchanges|].jti == s.requests[request].token.jti;
  }

  // ---------------------------------------------------------------------------------------
  // What each step leaves
  // ---------------------------------------------------------------------------------------

  /** The session at the key is live for exactly this long from now. */
  ghost predicate LivesFor(s: State, key: Key, ms: int) {
    forall d: nat :: Live(Apply(s, Tick(d)), key) <==> d < ms
  }

  /** Other keys keep their sessions, if they have one. */
  ghost predicate OthersKeep(s: State, s': State, keys: set<Key>) {
    forall key | key !in keys ::
      && (key in s'.store <==> key in s.store)
      && (key in s.store ==> s'.store[key] == s.store[key])
  }

  /** Time passes and nothing else. */
  lemma TickMeans(s: State, ms: nat)
    ensures Apply(s, Tick(ms)).now - s.now == ms && Apply(s, Tick(ms)) == s.(now := Apply(s, Tick(ms)).now)
  {
  }

  /** A login's session carries the minted token id, starts a lineage of its own and lives its TTL. */
  lemma CreateSessionMeans(s: State, request: Id, sid: Id, jti: Id)
    requires Inv(s) && Enabled(s, CreateSession(request, sid, jti))
    ensures var s' := Apply(s, CreateSession(request, sid, jti));
            var key := Key(s.requests[request].user, sid);
            && key !in s.store && key in s'.store && s'.store[key].jti == jti && LivesFor(s', key, s.sessionTtl)
            && (forall other | other in s'.store && other != key :: s'.store[other].lineage != s'.store[key].lineage)
            && OthersKeep(s, s', {key}) && {sid} <= s'.usedSids && {jti} <= s'.usedJtis
            && request in s'.requests && s'.requests[request] == Signing(key.user, sid, jti)
  {
  }

  /**
   A refresh that exchanges its token moves the session to the new key, under the new token id,
   in the old lineage and for a full TTL; the old key is gone and the exchange recorded.
   */
  lemma RotateMeans(s: State, request: Id, newSid: Id, newJti: Id)
    requires Inv(s) && Enabled(s, Rotate(request, newSid, newJti))
    requires CanExchange(s, s.requests[request].token)
    ensures var s' := Apply(s, Rotate(request, newSid, newJti));
            var token := s.requests[request].token;
            var from, key := Key(token.user, token.sid), Key(token.user, newSid);
            && key in s'.store && s'.store[key].jti == newJti && s'.store[key].lineage == s.store[from].lineage
            && LivesFor(s', key, s.sessionTtl) && from !in s'.store && OthersKeep(s, s', {from, key})
            && s'.exchanges == s.exchanges + [Exchange(token.jti, request)]
            && request in s'.requests && s'.requests[request] == Signing(token.user, newSid, newJti)
  {
  }

  /** Any other refresh changes no session and is on its way to revoke its user's. */
  lemma FailedRotateMeans(s: State, request: Id, newSid: Id, newJti: Id)
    requires Enabled(s, Rotate(request, newSid, newJti)) && !CanExchange(s, s.requests[request].token)
    ensures var s' := Apply(s, Rotate(request, newSid, newJti));
            && s'.store == s.store && s'.exchanges == s.exchanges
            && s'.requests[request] == Revoking(s.requests[request].token.user)
  {
  }

  /** Signing issues one token, for the session just made, to be accepted for its own TTL. */
  lemma SignMeans(s: State, request: Id)
    requires Enabled(s, Sign(request))
    ensures var s', signing := Apply(s, Sign(request)), s.requests[request];
            && s'.requests[request].Finished? && s'.requests[request].issued.Some?
            && var token := s'.requests[request].issued.value;
               && token.user == signing.user && token.sid == signing.sid && token.jti == signing.jti
               && s'.issued == s.issued + {token} && s'.store == s.store
               && forall d: nat, other | other !in s'.requests ::
                    Enabled(Apply(s', Tick(d)), BeginRefresh(other, token)) <==> d < s.refreshTtl
  {
  }

  /** A refresh goes on to rotate exactly when its user is still active, and else to revoke. */
  lemma LookUpUserMeans(s: State, request: Id)
    requires Enabled(s, LookUpUser(request))
    ensures var s', token := Apply(s, LookUpUser(request)), s.requests[request].token;
            && s'.store == s.store && s'.issued == s.issued
            && (if token.user in s.activeUsers then s'.requests[request] == UserFound(token)
                else s'.requests[request] == Revoking(token.user))
  {
  }

  /** Logging out ends that session for good and no other. */
  lemma LogoutIsFinal(s: State, user: Id, sid: Id, after: seq<Step>, token: Token)
    requires Inv(s) && Legal(Apply(s, Logout(user, sid)), after)
    ensures var s' := Apply(s, Logout(user, sid));
            Key(user, sid) !in s'.store && OthersKeep(s, s', {Key(user, sid)})
    ensures Key(user, sid) in s.store ==> Key(user, sid) !in Run(Apply(s, Logout(user, sid)), after).store
    ensures token.user == user && token.sid == sid && sid in s.usedSids ==>
              !CanExchange(Run(Apply(s, Logout(user, sid)), after), token)
  {
    if sid in s.usedSids {
      GoneStaysGone(Apply(s, Logout(user, sid)), after, Key(user, sid));
    }
  }

  /** Revoking ends exactly the sessions of the user. */
  lemma RevokeAllMeans(s: State, user: Id)
    ensures var s' := Apply(s, RevokeAll(user));
            forall key ::
              && (key in s'.store <==> key in s.store && key.user != user)
              && (key in s'.store ==> s'.store[key] == s.store[key])
  {
  }

  /** Enabling and disabling a user moves that user only. */
  lemma SetActiveMeans(s: State, user: Id, active: bool, other: Id)
    ensures var s' := Apply(s, SetActive(user, active));
            && s'.store == s.store && s'.requests == s.requests
            && (other in s'.activeUsers <==> if other == user then active else other in s.activeUsers)
  {
  }

  /** Eviction is invisible: it takes an expired key, and every session is as live as before. */
  lemma EvictMeans(s: State, key: Key, other: Key)
    requires Enabled(s, Evict(key))
    ensures var s' := Apply(s, Evict(key));
            && !Live(s, key) && key !in s'.store && OthersKeep(s, s', {key})
            && (Live(s', other) <==> Live(s, other))
  {
  }

  // ---------------------------------------------------------------------------------------
  // A login can be refreshed
  // ---------------------------------------------------------------------------------------

  lemma {:induction false} Perform(start: State, steps: seq<Step>, step: Step)
    returns (more: seq<Step>, next: State)
    requires Legal(start, steps) && Enabled(Run(start, steps), step)
    ensures more == steps + [step] && Legal(start, more)
    ensures next == Run(start, more) == Apply(Run(start, steps), step)
    decreases |steps|
  {
    more := steps + [step];
    if steps != [] {
      var tail, _ := Perform(Apply(start, steps[0]), steps[1..], step);
      assert more[1..] == tail;
    }
    next := Run(start, more);
  }

  /** From any reachable state an active user can log in and is issued a token. */
  lemma LoginIssues(s: State, user: Id, request: Id, sid: Id, jti: Id)
    returns (steps: seq<Step>, at: State, token: Token)
    requires Inv(s) && user in s.activeUsers && request !in s.requests
    requires sid !in s.usedSids && jti !in s.usedJtis
    ensures Legal(s, steps) && at == Run(s, steps) && Inv(at)
    ensures token == Token(user, sid, jti, s.now + s.refreshTtl) && token in at.issued
    ensures at.now == s.now && at.activeUsers == s.activeUsers
    ensures at.sessionTtl == s.sessionTtl && at.requests.Keys == s.requests.Keys + {request}
    ensures at.usedSids == s.usedSids + {sid} && at.usedJtis == s.usedJtis + {jti}
    ensures Key(user, sid) in at.store && at.store[Key(user, sid)].jti == jti
    ensures at.store[Key(user, sid)].expiresAt == s.now + s.sessionTtl
  {
    assert Legal(s, []) && Run(s, []) == s;
    hide Run, Legal, Inv;
    steps, at := Perform(s, [], BeginLogin(request, user));
    steps, at := Perform(s, steps, CreateSession(request, sid, jti));
    steps, at := Perform(s, steps, Sign(request));
    token := at.requests[request].issued.value;
    RunKeepsInv(s, steps);
  }

  /**
   And until the session's or the token's TTL runs out, one refresh with it is let through: it
   rotates the session and is issued the next token.
   */
  lemma IssuedTokenRefreshes(s: State, token: Token, d: nat, request: Id, sid: Id, jti: Id)
    returns (steps: seq<Step>, at: State)
    requires Inv(s) && token in s.issued && token.user in s.activeUsers && CanExchange(s, token)
    requires s.now + d < token.expiresAt && s.now + d < s.store[Key(token.user, token.sid)].expiresAt
    requires request !in s.requests && sid !in s.usedSids && jti !in s.usedJtis
    ensures Legal(s, steps) && at == Run(s, steps)
    ensures at.exchanges == s.exchanges + [Exchange(token.jti, request)]
    ensures request in at.requests
            && at.requests[request] == Finished(Some(Token(token.user, sid, jti, s.now + d + s.refreshTtl)))
    ensures CanExchange(at, Token(token.user, sid, jti, s.now + d + s.refreshTtl)) <==> s.sessionTtl > 0
  {
    assert Legal(s, []) && Run(s, []) == s;
    hide Run, Legal, Inv;
    steps, at := Perform(s, [], Tick(d));
    steps, at := Perform(s, steps, BeginRefresh(request, token));
    steps, at := Perform(s, steps, LookUpUser(request));
    assert CanExchange(at, token);
    steps, at := Perform(s, steps, Rotate(request, sid, jti));
    steps, at := Perform(s, steps, Sign(request));
  }
}
