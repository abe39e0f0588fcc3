/**
 Mass revocation as it runs: page by page, with logins, refreshes and logouts between the pages.

 A page unlinks some of a user's session keys.  SCAN promises that a key that is there from
 the first page to the last is in one of the pages; it promises nothing of keys that come while
 it runs.
 */
module SessionScan {
  import opened Options
  import opened SessionProtocol

  datatype Event =
    | Plain(step: Step)
    | Page(user: Id, keys: set<Key>)

  /** A page holds keys of its user; several scans may be at work. */
  predicate CanHappen(s: State, event: Event) {
    match event
    case Plain(step) => Enabled(s, step)
    case Page(user, keys) => forall key | key in keys :: key.user == user
  }

  function After(s: State, event: Event): State
    requires CanHappen(s, event)
  {
    match event
    case Plain(step) => Apply(s, step)
    case Page(_, keys) => s.(store := s.store - keys)
  }

  predicate Possible(s: State, events: seq<Event>)
    decreases |events|
  {
    events != [] ==> CanHappen(s, events[0]) && Possible(After(s, events[0]), events[1..])
  }

  function End(s: State, events: seq<Event>): State
    requires Possible(s, events)
    decreases |events|
  {
    if events == [] then s else End(After(s, events[0]), events[1..])
  }

  predicate ThereThroughout(s: State, events: seq<Event>, key: Key)
    requires Possible(s, events)
    decreases |events|
  {
    key in s.store && (events != [] ==> ThereThroughout(After(s, events[0]), events[1..], key))
  }

  predicate Paged(events: seq<Event>, user: Id, key: Key) {
    exists i | 0 <= i < |events| :: events[i].Page? && events[i].user == user && key in events[i].keys
  }

  /** What SCAN promises of a whole scan of one user's keys. */
  predicate ScanPromise(s: State, events: seq<Event>, user: Id)
    requires Possible(s, events)
  {
    forall key | key in s.store && key.user == user && ThereThroughout(s, events, key) ::
      Paged(events, user, key)
  }

  // ---------------------------------------------------------------------------------------
  // What every event keeps
  // ---------------------------------------------------------------------------------------

  lemma EventKeepsInv(s: State, event: Event)
    requires Inv(s) && CanHappen(s, event)
    ensures Inv(After(s, event))
  {
    if event.Plain? {
      StepKeepsInv(s, event.step);
    } else {
      assert forall jti :: Exchanged(After(s, event), jti) <==> Exchanged(s, jti);
    }
  }

  lemma {:induction false} EventsKeepInv(s: State, events: seq<Event>)
    requires Inv(s) && Possible(s, events)
    ensures Inv(End(s, events))
    decreases |events|
  {
    if events != [] {
      EventKeepsInv(s, events[0]);
      EventsKeepInv(After(s, events[0]), events[1..]);
    }
  }

  /** A session key that existed and is gone never comes back. */
  lemma {:induction false} GoneForGood(s: State, events: seq<Event>, key: Key)
    requires Possible(s, events) && Gone(s, key)
    ensures Gone(End(s, events), key)
    decreases |events|
  {
    if events != [] {
      GoneForGood(After(s, events[0]), events[1..], key);
    }
  }

  lemma {:induction false} DeadForGood(s: State, events: seq<Event>, lineage: Id)
    requires Possible(s, events) && Dead(s, lineage)
    ensures Dead(End(s, events), lineage)
    decreases |events|
  {
    if events != [] {
      DeadForGood(After(s, events[0]), events[1..], lineage);
    }
  }

  lemma {:induction false} PagedIsNotThroughout(s: State, events: seq<Event>, user: Id, key: Key)
    requires Possible(s, events) && Paged(events, user, key)
    ensures !ThereThroughout(s, events, key)
    decreases |events|
  {
    var i :| 0 <= i < |events| && events[i].Page? && events[i].user == user && key in events[i].keys;
    if i > 0 {
      assert events[1..][i - 1] == events[i];
      PagedIsNotThroughout(After(s, events[0]), events[1..], user, key);
    } else {
      assert key !in After(s, events[0]).store;
    }
  }

  lemma {:induction false} AbsentOnceIsGone(s: State, events: seq<Event>, key: Key)
    requires Possible(s, events) && key.sid in s.usedSids && !ThereThroughout(s, events, key)
    ensures key !in End(s, events).store
    decreases |events|
  {
    if key !in s.store {
      GoneForGood(s, events, key);
    } else {
      AbsentOnceIsGone(After(s, events[0]), events[1..], key);
    }
  }

  /** Whatever runs between the pages, every session that was there when the scan began is gone. */
  lemma ScanRemovesWhatItFound(s: State, events: seq<Event>, user: Id, key: Key)
    requires Inv(s) && Possible(s, events) && ScanPromise(s, events, user)
    requires key in s.store && key.user == user
    ensures key !in End(s, events).store
  {
    if ThereThroughout(s, events, key) {
      PagedIsNotThroughout(s, events, user, key);
    }
    AbsentOnceIsGone(s, events, key);
  }

  // ---------------------------------------------------------------------------------------
  // Which logins survive
  // ---------------------------------------------------------------------------------------

  /** The event is a refresh that moves a session of this lineage to the key. */
  predicate RotatesInto(s: State, event: Event, key: Key, lineage: Id) {
    && CanHappen(s, event) && event.Plain? && event.step.Rotate?
    && var token := s.requests[event.step.request].token;
    && CanExchange(s, token) && s.store[Key(token.user, token.sid)].lineage == lineage
    && key == Key(token.user, event.step.newSid)
  }

  /** A refresh during the run moved a session of this lineage to the key. */
  predicate RotatedInto(s: State, events: seq<Event>, key: Key, lineage: Id)
    requires Possible(s, events)
    decreases |events|
  {
    events != []
    && (RotatesInto(s, events[0], key, lineage)
        || RotatedInto(After(s, events[0]), events[1..], key, lineage))
  }

  predicate Carries(s: State, key: Key, lineage: Id) {
    key in s.store && s.store[key].lineage == lineage
  }

  /** One event gives a session of an older lineage to a key only by rotating it there. */
  lemma EventCarries(s: State, event: Event, key: Key, lineage: Id)
    requires CanHappen(s, event) && lineage in s.usedSids && key !in s.store
    ensures Carries(After(s, event), key, lineage) <==> RotatesInto(s, event, key, lineage)
  {
  }

  lemma EventLeavesSession(s: State, event: Event, key: Key)
    requires Inv(s) && CanHappen(s, event) && key in s.store && key in After(s, event).store
    ensures After(s, event).store[key] == s.store[key]
  {
  }

  lemma {:induction false} KeptSession(s: State, events: seq<Event>, key: Key)
    requires Inv(s) && Possible(s, events) && key in s.store && key in End(s, events).store
    ensures End(s, events).store[key] == s.store[key]
    decreases |events|
  {
    if events != [] {
      var next := After(s, events[0]);
      EventKeepsInv(s, events[0]);
      if key !in next.store {
        assert Gone(next, key);
        GoneForGood(next, events[1..], key);
      }
      EventLeavesSession(s, events[0], key);
      KeptSession(next, events[1..], key);
    }
  }

  lemma {:induction false} UsedIsNotRotatedInto(s: State, events: seq<Event>, key: Key, lineage: Id)
    requires Possible(s, events) && key.sid in s.usedSids
    ensures !RotatedInto(s, events, key, lineage)
    decreases |events|
  {
    if events != [] {
      UsedIsNotRotatedInto(After(s, events[0]), events[1..], key, lineage);
    }
  }

  /** A key that came during the run carries an older lineage exactly when a refresh moved it there. */
  lemma {:induction false} NewcomerCarries(s: State, events: seq<Event>, key: Key, lineage: Id)
    requires Inv(s) && Possible(s, events) && lineage in s.usedSids && key !in s.store
    ensures Carries(End(s, events), key, lineage)
       <==> RotatedInto(s, events, key, lineage) && key in End(s, events).store
    decreases |events|
  {
    if events != [] {
      var next := After(s, events[0]);
      EventKeepsInv(s, events[0]);
      EventCarries(s, events[0], key, lineage);
      if key in next.store {
        assert key.sid in next.usedSids;
        UsedIsNotRotatedInto(next, events[1..], key, lineage);
        if key in End(s, events).store {
          KeptSession(next, events[1..], key);
        }
      } else {
        NewcomerCarries(next, events[1..], key, lineage);
      }
    }
  }

  ghost predicate LineageOf(s: State, lineage: Id, user: Id) {
    lineage in s.usedSids && forall key | Carries(s, key, lineage) :: key.user == user
  }

  lemma EventKeepsLineage(s: State, event: Event, lineage: Id, user: Id)
    requires Inv(s) && CanHappen(s, event) && LineageOf(s, lineage, user)
    ensures LineageOf(After(s, event), lineage, user)
  {
    forall key | Carries(After(s, event), key, lineage) ensures key.user == user {
      if key in s.store {
        EventLeavesSession(s, event, key);
        assert Carries(s, key, lineage);
      } else {
        EventCarries(s, event, key, lineage);
        var token := s.requests[event.step.request].token;
        assert Carries(s, Key(token.user, token.sid), lineage);
      }
    }
  }

  lemma {:induction false} LineageKeepsUser(s: State, events: seq<Event>, lineage: Id, user: Id)
    requires Inv(s) && Possible(s, events) && LineageOf(s, lineage, user)
    ensures LineageOf(End(s, events), lineage, user)
    decreases |events|
  {
    if events != [] {
      EventKeepsInv(s, events[0]);
      EventKeepsLineage(s, events[0], lineage, user);
      LineageKeepsUser(After(s, events[0]), events[1..], lineage, user);
    }
  }

  /** A refresh of this lineage during the run whose new session is still there at its end. */
  ghost predicate Escapes(s: State, events: seq<Event>, lineage: Id)
    requires Possible(s, events)
  {
    exists key :: RotatedInto(s, events, key, lineage) && key in End(s, events).store
  }

  /**
   A login that is alive when the scan of its user begins survives the scan if and only if a
   refresh rotates it while the scan runs and the session it rotates to is still there after.
   */
  lemma LoginSurvivesExactly(s: State, events: seq<Event>, key: Key)
    requires Inv(s) && Possible(s, events) && ScanPromise(s, events, key.user) && key in s.store
    ensures Dead(End(s, events), s.store[key].lineage) <==> !Escapes(s, events, s.store[key].lineage)
  {
    var lineage, end := s.store[key].lineage, End(s, events);
    assert LineageOf(s, lineage, key.user) by {
      assert Carries(s, key, lineage);
    }
    LineageKeepsUser(s, events, lineage, key.user);
    forall k ensures Carries(end, k, lineage) <==> RotatedInto(s, events, k, lineage) && k in end.store {
      SurvivorIsNew(s, events, key.user, k, lineage);
    }
  }

  lemma SurvivorIsNew(s: State, events: seq<Event>, user: Id, key: Key, lineage: Id)
    requires Inv(s) && Possible(s, events) && ScanPromise(s, events, user)
    requires lineage in s.usedSids && LineageOf(End(s, events), lineage, user)
    ensures Carries(End(s, events), key, lineage)
       <==> RotatedInto(s, events, key, lineage) && key in End(s, events).store
  {
    if key in s.store {
      UsedIsNotRotatedInto(s, events, key, lineage);
      if key.user == user {
        ScanRemovesWhatItFound(s, events, user, key);
      }
    } else {
      NewcomerCarries(s, events, key, lineage);
    }
  }

  /**
   So a scan during which no refresh of a login succeeds ends that login, in this run and in all
   that follows, however the other requests interleave with its pages.
   */
  lemma QuietScanIsFinal(s: State, events: seq<Event>, key: Key, after: seq<Event>)
    requires Inv(s) && Possible(s, events) && ScanPromise(s, events, key.user) && key in s.store
    requires forall k :: !RotatedInto(s, events, k, s.store[key].lineage)
    requires Possible(End(s, events), after)
    ensures Dead(End(End(s, events), after), s.store[key].lineage)
  {
    LoginSurvivesExactly(s, events, key);
    DeadForGood(End(s, events), after, s.store[key].lineage);
  }

  // ---------------------------------------------------------------------------------------
  // A login that escapes
  // ---------------------------------------------------------------------------------------

  const TOKEN := Token(1, 1, 1, 10)

  /** User 1 has one session, and a refresh of it is past the user lookup. */
  function Refreshing(): State {
    State(0, 10, 10, {1}, map[Key(1, 1) := Session(1, 1, 10)],
          map[0 := Finished(Some(TOKEN)), 5 := UserFound(TOKEN)], {1}, {1}, {TOKEN}, [])
  }

  lemma Prepend(s: State, step: Step, rest: seq<Step>) returns (steps: seq<Step>)
    requires Enabled(s, step) && Legal(Apply(s, step), rest)
    ensures steps == [step] + rest && Legal(s, steps) && Run(s, steps) == Run(Apply(s, step), rest)
  {
    steps := [step] + rest;
    assert steps[1..] == rest;
  }

  lemma RefreshingIsReached() returns (start: State, steps: seq<Step>)
    ensures Initial(start) && Legal(start, steps) && Run(start, steps) == Refreshing()
  {
    start := State(0, 10, 10, {1}, map[], map[], {}, {}, {}, []);
    LoginRuns(start);
    RefreshRuns(LoggedIn());
    var begun := Apply(start, BeginLogin(0, 1));
    var created := Apply(begun, CreateSession(0, 1, 1));
    var parsed := Apply(LoggedIn(), BeginRefresh(5, TOKEN));
    steps := [];
    assert Legal(Refreshing(), steps) && Run(Refreshing(), steps) == Refreshing();
    hide Legal, Run, Enabled, Apply;
    steps := Prepend(parsed, LookUpUser(5), steps);
    steps := Prepend(LoggedIn(), BeginRefresh(5, TOKEN), steps);
    steps := Prepend(created, Sign(0), steps);
    steps := Prepend(begun, CreateSession(0, 1, 1), steps);
    steps := Prepend(start, BeginLogin(0, 1), steps);
  }

  function LoggedIn(): State {
    State(0, 10, 10, {1}, map[Key(1, 1) := Session(1, 1, 10)], map[0 := Finished(Some(TOKEN))], {1}, {1}, {TOKEN}, [])
  }

  lemma LoginRuns(start: State)
    requires start == State(0, 10, 10, {1}, map[], map[], {}, {}, {}, [])
    ensures Enabled(start, BeginLogin(0, 1))
    ensures var a := Apply(start, BeginLogin(0, 1));
            && Enabled(a, CreateSession(0, 1, 1))
            && var b := Apply(a, CreateSession(0, 1, 1)); Enabled(b, Sign(0)) && Apply(b, Sign(0)) == LoggedIn()
  {
  }

  lemma RefreshRuns(s: State)
    requires s == LoggedIn()
    ensures Enabled(s, BeginRefresh(5, TOKEN))
    ensures var a := Apply(s, BeginRefresh(5, TOKEN));
            Enabled(a, LookUpUser(5)) && Apply(a, LookUpUser(5)) == Refreshing()
  {
  }

  /** The refresh rotates between the scan's start and its only page, and its login lives on. */
  lemma RotationOutrunsScan() returns (events: seq<Event>)
    ensures var s := Refreshing();
            && Possible(s, events) && ScanPromise(s, events, 1) && Key(1, 1) in s.store
            && !Dead(End(s, events), s.store[Key(1, 1)].lineage)
  {
    var s, rotate, page := Refreshing(), Plain(Rotate(5, 2, 2)), Page(1, {Key(1, 1)});
    events := [rotate, page];
    var rotated := After(s, rotate);
    var end := After(rotated, page);
    assert CanExchange(s, TOKEN);
    assert Key(1, 1) !in rotated.store && Carries(end, Key(1, 2), 1);
    assert End(end, []) == end && End(rotated, [page]) == end by {
      assert [page][1..] == [];
    }
    assert events[1..] == [page];
    assert End(s, events) == end;
    assert forall key | key in s.store :: !ThereThroughout(s, events, key);
  }
}
