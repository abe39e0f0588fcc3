/**
 The sliding-window rate limiter: one sorted set per key, trimmed on every call, with a TTL.

 The script is run here command by command; `Answers` says what a run of calls is answered, and
 the lemmas relate that to the plain rule "fewer than `limit` accepted in the last window".
 */
module RateLimit {
  import opened Options

  /** The caller's clock goes into the set as a score; Redis's own clock runs the key's TTL. */
  datatype Call = Call(now: int, server: int, member: string)

  /** The key in Redis: members with their scores, and when the key itself expires. */
  datatype Key = Key(zset: map<string, int>, expiresAt: Option<int>)

  const NO_KEY := Key(map[], None)

  /** Lazy expiry: a key past its deadline is an absent key. */
  function Expire(key: Key, now: int): Key {
    if key.expiresAt.Some? && now > key.expiresAt.value then NO_KEY else key
  }

  /** The members a trim keeps. */
  function Kept(zset: map<string, int>, max: int): map<string, int> {
    map m | m in zset && !(0 <= zset[m] <= max) :: zset[m]
  }

  /** ZREMRANGEBYSCORE key 0 max; a sorted set that runs empty is deleted with its TTL. */
  function Trim(key: Key, max: int): Key {
    var zset := Kept(key.zset, max);
    if zset == map[] then NO_KEY else key.(zset := zset)
  }

  /** slidingWindowScript: the reply and the key it leaves. */
  function Script(key: Key, limit: int, window: int, call: Call): (bool, Key) {
    var trimmed := Trim(Expire(key, call.server), call.now - window);
    if |trimmed.zset| >= limit then (false, trimmed)
    else (true, Key(trimmed.zset[call.member := call.now], Some(call.server + window)))
  }

  /** The same script without the key's TTL. */
  function ScriptNoTtl(zset: map<string, int>, limit: int, window: int, call: Call)
    : (bool, map<string, int>)
  {
    var kept := Kept(zset, call.now - window);
    if |kept| >= limit then (false, kept) else (true, kept[call.member := call.now])
  }

  class Limiter {
    var zset: map<string, int>
    var expiresAt: Option<int>

    ghost function Contents(): Key
      reads this
    {
      Key(zset, expiresAt)
    }

    constructor ()
      ensures Contents() == NO_KEY
    {
      zset, expiresAt := map[], None;
    }

    method Allow(limit: int, window: int, call: Call) returns (ok: bool)
      modifies this
      ensures (ok, Contents()) == Script(old(Contents()), limit, window, call)
    {
      if expiresAt.Some? && call.server > expiresAt.value {
        zset, expiresAt := map[], None;
      }
      zset := Kept(zset, call.now - window);
      if zset == map[] {
        expiresAt := None;
      }
      if |zset| >= limit {
        return false;
      }
      zset := zset[call.member := call.now];
      expiresAt := Some(call.server + window);
      return true;
    }
  }

  /** What a run of calls leaves and is answered. */
  function After(calls: seq<Call>, limit: int, window: int): Key {
    if calls == [] then NO_KEY
    else Script(After(calls[..|calls| - 1], limit, window), limit, window, calls[|calls| - 1]).1
  }

  function Answers(calls: seq<Call>, limit: int, window: int): (answers: seq<bool>)
    ensures |answers| == |calls|
  {
    if calls == [] then []
    else
      var earlier := calls[..|calls| - 1];
      Answers(earlier, limit, window)
      + [Script(After(earlier, limit, window), limit, window, calls[|calls| - 1]).0]
  }

  // ---------------------------------------------------------------------------------------
  // The rule
  // ---------------------------------------------------------------------------------------

  /** How many of the calls were accepted at a time in the half-open span. */
  function CountIn(calls: seq<Call>, answers: seq<bool>, from: int, to: int): nat
    requires |answers| == |calls|
  {
    if calls == [] then 0
    else
      var n := |calls| - 1;
      CountIn(calls[..n], answers[..n], from, to)
      + (if answers[n] && from <= calls[n].now < to then 1 else 0)
  }

  /** Accepted calls of the window of length `window` that ends with time `now`. */
  function CountWindow(calls: seq<Call>, answers: seq<bool>, window: int, now: int): nat
    requires |answers| == |calls|
  {
    CountIn(calls, answers, now - window + 1, now + 1)
  }

  /** A call is answered yes exactly when fewer than `limit` were accepted in its window. */
  predicate FollowsRule(calls: seq<Call>, answers: seq<bool>, limit: int, window: int)
    requires |answers| == |calls|
  {
    forall i | 0 <= i < |calls| ::
      answers[i] <==> CountWindow(calls[..i], answers[..i], window, calls[i].now) < limit
  }

  /**
   Redis's clock never passes the end of a window before the callers' clock does: whenever it
   has run for more than a window between two calls, so has theirs.
   */
  predicate InStep(calls: seq<Call>, window: int) {
    forall i, j | 0 <= i < j < |calls| && calls[j].server - calls[i].server > window ::
      calls[j].now - calls[i].now >= window
  }

  /** A callers' clock that does not run backwards, Redis's in step with it, a member per call. */
  predicate WellTimed(calls: seq<Call>, window: int) {
    Ordered(calls) && InStep(calls, window)
  }

  predicate Ordered(calls: seq<Call>) {
    && (forall i | 0 <= i < |calls| :: calls[i].now >= 0)
    && (forall i, j | 0 <= i < j < |calls| :: calls[i].now <= calls[j].now)
    && (forall i, j | 0 <= i < j < |calls| :: calls[i].member != calls[j].member)
  }

  /** The call set the key's expiry, and no member is newer. */
  predicate DatedBy(key: Key, call: Call, window: int) {
    key.expiresAt == Some(call.server + window) && forall m | m in key.zset :: key.zset[m] <= call.now
  }

  /** Every member of the set was put there by an accepted call, at its time. */
  predicate Members(zset: map<string, int>, calls: seq<Call>, answers: seq<bool>)
    requires |answers| == |calls|
  {
    forall m | m in zset ::
      exists i | 0 <= i < |calls| :: answers[i] && calls[i].member == m && calls[i].now == zset[m]
  }

  predicate Dated(key: Key, calls: seq<Call>, answers: seq<bool>, window: int)
    requires |answers| == |calls|
  {
    key.zset != map[] ==> exists i | 0 <= i < |calls| :: answers[i] && DatedBy(key, calls[i], window)
  }

  /** Every accepted call still in the window that ends at `now` is in the set. */
  predicate Covers(zset: map<string, int>, calls: seq<Call>, answers: seq<bool>, from: int)
    requires |answers| == |calls|
  {
    forall i | 0 <= i < |calls| && answers[i] && calls[i].now > from ::
      calls[i].member in zset && zset[calls[i].member] == calls[i].now
  }

  /**
   The set holds accepted calls, under their own member and time, and every accepted call still
   inside the last window.
   */
  predicate Mirrors(key: Key, calls: seq<Call>, answers: seq<bool>, window: int)
    requires |answers| == |calls|
  {
    && Members(key.zset, calls, answers) && Dated(key, calls, answers, window)
    && (calls != [] ==> Covers(key.zset, calls, answers, calls[|calls| - 1].now - window))
  }

  /** The members of the accepted calls of a span. */
  function MembersIn(calls: seq<Call>, answers: seq<bool>, from: int, to: int): set<string>
    requires |answers| == |calls|
  {
    if calls == [] then {}
    else
      var n := |calls| - 1;
      MembersIn(calls[..n], answers[..n], from, to)
      + (if answers[n] && from <= calls[n].now < to then {calls[n].member} else {})
  }

  lemma {:induction false} MemberHasCall(
    calls: seq<Call>, answers: seq<bool>, from: int, to: int, m: string)
    returns (i: nat)
    requires |answers| == |calls| && m in MembersIn(calls, answers, from, to)
    ensures i < |calls| && answers[i] && from <= calls[i].now < to && calls[i].member == m
  {
    i := |calls| - 1;
    if m in MembersIn(calls[..i], answers[..i], from, to) {
      i := MemberHasCall(calls[..i], answers[..i], from, to, m);
    }
  }

  lemma {:induction false} CallHasMember(
    calls: seq<Call>, answers: seq<bool>, from: int, to: int, i: nat)
    requires |answers| == |calls| && i < |calls| && answers[i] && from <= calls[i].now < to
    ensures calls[i].member in MembersIn(calls, answers, from, to)
  {
    var n := |calls| - 1;
    if i < n {
      CallHasMember(calls[..n], answers[..n], from, to, i);
    }
  }

  /** Distinct members: as many of them as calls. */
  lemma {:induction false} MembersCounted(calls: seq<Call>, answers: seq<bool>, from: int, to: int)
    requires |answers| == |calls|
    requires forall i, j | 0 <= i < j < |calls| :: calls[i].member != calls[j].member
    ensures |MembersIn(calls, answers, from, to)| == CountIn(calls, answers, from, to)
  {
    if calls != [] {
      var n := |calls| - 1;
      MembersCounted(calls[..n], answers[..n], from, to);
      assert forall i | 0 <= i < n :: calls[i].member != calls[n].member;
      if calls[n].member in MembersIn(calls[..n], answers[..n], from, to) {
        var i := MemberHasCall(calls[..n], answers[..n], from, to, calls[n].member);
      }
    }
  }

  lemma ClockBounds(calls: seq<Call>, next: Call, window: int)
    requires WellTimed(calls + [next], window)
    ensures WellTimed(calls, window) && next.now >= 0
    ensures forall i | 0 <= i < |calls| ::
              0 <= calls[i].now <= calls[|calls| - 1].now <= next.now && calls[i].member != next.member
  {
    var all := calls + [next];
    assert all[|calls|] == next;
    assert forall i | 0 <= i < |calls| :: all[i] == calls[i];
    if calls != [] {
      assert all[|calls| - 1].now <= all[|calls|].now;
    }
  }

  /** Lazy expiry never drops a member the trim would have kept. */
  lemma ExpiryIsTrimming(
    key: Key, calls: seq<Call>, answers: seq<bool>, window: int, next: Call)
    requires |answers| == |calls| && window >= 1 && WellTimed(calls + [next], window)
    requires Mirrors(key, calls, answers, window)
    ensures Kept(Expire(key, next.server).zset, next.now - window) == Kept(key.zset, next.now - window)
  {
    ClockBounds(calls, next, window);
    if key.expiresAt.Some? && next.server > key.expiresAt.value && key.zset != map[] {
      var i :| 0 <= i < |calls| && answers[i] && DatedBy(key, calls[i], window);
      assert (calls + [next])[i] == calls[i] && (calls + [next])[|calls|] == next;
      forall m | m in key.zset ensures 0 <= key.zset[m] <= next.now - window {
        var k :| 0 <= k < |calls| && answers[k] && calls[k].member == m && calls[k].now == key.zset[m];
      }
      assert Kept(key.zset, next.now - window) == map[];
    }
  }

  lemma KeptAreMembers(
    key: Key, calls: seq<Call>, answers: seq<bool>, window: int, next: Call, m: string)
    requires |answers| == |calls| && WellTimed(calls + [next], window)
    requires Mirrors(key, calls, answers, window) && m in Kept(key.zset, next.now - window)
    ensures m in MembersIn(calls, answers, next.now - window + 1, next.now + 1)
  {
    hide WellTimed, InStep, DatedBy, MembersIn;
    ClockBounds(calls, next, window);
    var i :| 0 <= i < |calls| && answers[i] && calls[i].member == m && calls[i].now == key.zset[m];
    CallHasMember(calls, answers, next.now - window + 1, next.now + 1, i);
  }

  lemma MembersAreKept(
    key: Key, calls: seq<Call>, answers: seq<bool>, window: int, next: Call, m: string)
    requires |answers| == |calls| && WellTimed(calls + [next], window) && Mirrors(key, calls, answers, window)
    requires m in MembersIn(calls, answers, next.now - window + 1, next.now + 1)
    ensures m in Kept(key.zset, next.now - window)
  {
    hide WellTimed, InStep, DatedBy, MembersIn;
    ClockBounds(calls, next, window);
    var i := MemberHasCall(calls, answers, next.now - window + 1, next.now + 1, m);
  }

  /** The next call trims the set to exactly the accepted calls of its window. */
  lemma WindowSize(
    key: Key, calls: seq<Call>, answers: seq<bool>, window: int, next: Call)
    requires |answers| == |calls| && window >= 1 && WellTimed(calls + [next], window)
    requires Mirrors(key, calls, answers, window)
    ensures |Kept(key.zset, next.now - window)| == CountWindow(calls, answers, window, next.now)
  {
    hide Mirrors, Kept, MembersIn, CountIn;
    ClockBounds(calls, next, window);
    var from, to := next.now - window + 1, next.now + 1;
    var kept, members := Kept(key.zset, next.now - window), MembersIn(calls, answers, from, to);
    MembersCounted(calls, answers, from, to);
    forall m | m in kept ensures m in members {
      KeptAreMembers(key, calls, answers, window, next, m);
    }
    forall m | m in members ensures m in kept {
      MembersAreKept(key, calls, answers, window, next, m);
    }
    assert kept.Keys == members;
  }

  lemma NextHasMembers(
    key: Key, calls: seq<Call>, answers: seq<bool>, limit: int, window: int, next: Call)
    requires |answers| == |calls| && Members(key.zset, calls, answers)
    ensures var (ok, key') := Script(key, limit, window, next);
            Members(key'.zset, calls + [next], answers + [ok])
  {
    var (ok, key') := Script(key, limit, window, next);
    var calls', answers' := calls + [next], answers + [ok];
    assert calls'[|calls|] == next && answers'[|calls|] == ok;
    forall m | m in key'.zset
      ensures exists i | 0 <= i < |calls'| :: answers'[i] && calls'[i].member == m && calls'[i].now == key'.zset[m]
    {
      if !(ok && m == next.member) {
        var i :| 0 <= i < |calls| && answers[i] && calls[i].member == m && calls[i].now == key.zset[m];
        assert answers'[i] && calls'[i] == calls[i];
      }
    }
  }

  lemma NextIsDated(
    key: Key, calls: seq<Call>, answers: seq<bool>, limit: int, window: int, next: Call)
    requires |answers| == |calls| && Members(key.zset, calls, answers) && Dated(key, calls, answers, window)
    requires forall i | 0 <= i < |calls| :: calls[i].now <= next.now
    ensures var (ok, key') := Script(key, limit, window, next);
            Dated(key', calls + [next], answers + [ok], window)
  {
    var (ok, key') := Script(key, limit, window, next);
    var calls', answers' := calls + [next], answers + [ok];
    if ok {
      assert calls'[|calls|] == next && answers'[|calls|];
      assert DatedBy(key', calls'[|calls|], window);
    } else if key'.zset != map[] {
      var i :| 0 <= i < |calls| && answers[i] && DatedBy(key, calls[i], window);
      assert answers'[i] && calls'[i] == calls[i];
      assert key'.expiresAt == key.expiresAt;
    }
  }

  lemma NextCovers(
    key: Key, calls: seq<Call>, answers: seq<bool>, limit: int, window: int, next: Call, from: int)
    requires |answers| == |calls| && Covers(key.zset, calls, answers, from) && from <= next.now - window
    requires forall i | 0 <= i < |calls| :: calls[i].member != next.member
    requires Kept(Expire(key, next.server).zset, next.now - window) == Kept(key.zset, next.now - window)
    ensures var (ok, key') := Script(key, limit, window, next);
            Covers(key'.zset, calls + [next], answers + [ok], next.now - window)
  {
    var (ok, key') := Script(key, limit, window, next);
    var calls', answers' := calls + [next], answers + [ok];
    assert calls'[|calls|] == next && answers'[|calls|] == ok;
    forall i | 0 <= i < |calls'| && answers'[i] && calls'[i].now > next.now - window
      ensures calls'[i].member in key'.zset && key'.zset[calls'[i].member] == calls'[i].now
    {
      if i < |calls| {
        assert calls'[i] == calls[i] && answers'[i] == answers[i];
      }
    }
  }

  lemma NextMirrors(
    key: Key, calls: seq<Call>, answers: seq<bool>, limit: int, window: int, next: Call)
    requires |answers| == |calls| && window >= 1 && WellTimed(calls + [next], window)
    requires Mirrors(key, calls, answers, window)
    ensures var (ok, key') := Script(key, limit, window, next);
            Mirrors(key', calls + [next], answers + [ok], window)
  {
    ClockBounds(calls, next, window);
    ExpiryIsTrimming(key, calls, answers, window, next);
    hide WellTimed, Script, Kept, Expire, Members, Dated;
    NextHasMembers(key, calls, answers, limit, window, next);
    NextIsDated(key, calls, answers, limit, window, next);
    var from := if calls == [] then next.now - window else calls[|calls| - 1].now - window;
    NextCovers(key, calls, answers, limit, window, next, from);
  }

  /** The reply to the next call counts the accepted calls of its window. */
  lemma NextFollowsRule(
    key: Key, calls: seq<Call>, answers: seq<bool>, limit: int, window: int, next: Call)
    requires |answers| == |calls| && window >= 1 && WellTimed(calls + [next], window)
    requires Mirrors(key, calls, answers, window)
    ensures Script(key, limit, window, next).0
       <==> CountWindow(calls, answers, window, next.now) < limit
  {
    ExpiryIsTrimming(key, calls, answers, window, next);
    WindowSize(key, calls, answers, window, next);
  }

  lemma {:induction false} RunMirrors(calls: seq<Call>, limit: int, window: int)
    requires WellTimed(calls, window) && window >= 1
    ensures Mirrors(After(calls, limit, window), calls, Answers(calls, limit, window), window)
  {
    if calls != [] {
      var n := |calls| - 1;
      assert calls == calls[..n] + [calls[n]];
      ClockBounds(calls[..n], calls[n], window);
      RunMirrors(calls[..n], limit, window);
      NextMirrors(After(calls[..n], limit, window), calls[..n], Answers(calls[..n], limit, window),
                  limit, window, calls[n]);
    }
  }

  lemma {:induction false} AnswersOfPrefix(calls: seq<Call>, limit: int, window: int, n: nat)
    requires n <= |calls|
    ensures Answers(calls, limit, window)[..n] == Answers(calls[..n], limit, window)
  {
    if n < |calls| {
      assert calls[..|calls| - 1][..n] == calls[..n];
      AnswersOfPrefix(calls[..|calls| - 1], limit, window, n);
    } else {
      assert calls[..n] == calls;
    }
  }

  lemma PrefixWellTimed(calls: seq<Call>, n: nat, window: int)
    requires WellTimed(calls, window) && n <= |calls|
    ensures WellTimed(calls[..n], window)
  {
  }

  /** An answer depends on the calls up to it. */
  lemma AnswerAt(calls: seq<Call>, limit: int, window: int, i: nat)
    requires i < |calls|
    ensures Answers(calls, limit, window)[..i] == Answers(calls[..i], limit, window)
    ensures Answers(calls, limit, window)[i]
         == Script(After(calls[..i], limit, window), limit, window, calls[i]).0
  {
    var upTo := calls[..i + 1];
    assert upTo[..i] == calls[..i];
    AnswersOfPrefix(calls, limit, window, i);
    AnswersOfPrefix(calls, limit, window, i + 1);
    assert Answers(upTo, limit, window)[i] == Answers(calls, limit, window)[..i + 1][i];
  }

  lemma AnswerFollowsRule(calls: seq<Call>, limit: int, window: int, i: nat)
    requires WellTimed(calls, window) && window >= 1 && i < |calls|
    ensures var answers := Answers(calls, limit, window);
            answers[i] <==> CountWindow(calls[..i], answers[..i], window, calls[i].now) < limit
  {
    hide Script, Mirrors, WellTimed, CountIn;
    var earlier := calls[..i];
    AnswerAt(calls, limit, window, i);
    PrefixWellTimed(calls, i, window);
    PrefixWellTimed(calls, i + 1, window);
    RunMirrors(earlier, limit, window);
    assert calls[..i + 1] == earlier + [calls[i]];
    NextFollowsRule(After(earlier, limit, window), earlier, Answers(earlier, limit, window),
                    limit, window, calls[i]);
  }

  /** For every well-timed run the limiter answers by the rule. */
  lemma LimiterFollowsRule(calls: seq<Call>, limit: int, window: int)
    requires WellTimed(calls, window) && window >= 1
    ensures FollowsRule(calls, Answers(calls, limit, window), limit, window)
  {
    forall i | 0 <= i < |calls|
      ensures var answers := Answers(calls, limit, window);
              answers[i] <==> CountWindow(calls[..i], answers[..i], window, calls[i].now) < limit
    {
      AnswerFollowsRule(calls, limit, window, i);
    }
  }

  /** A span that ends no earlier and starts no later counts no less. */
  lemma {:induction false} WiderCountsMore(
    calls: seq<Call>, answers: seq<bool>, from: int, to: int, from': int, to': int)
    requires |answers| == |calls| && from' <= from
    requires forall i | 0 <= i < |calls| :: calls[i].now < to'
    ensures CountIn(calls, answers, from, to) <= CountIn(calls, answers, from', to')
  {
    if calls != [] {
      var n := |calls| - 1;
      WiderCountsMore(calls[..n], answers[..n], from, to, from', to');
    }
  }

  lemma RuleOfPrefix(calls: seq<Call>, answers: seq<bool>, limit: int, window: int, n: nat)
    requires |answers| == |calls| && FollowsRule(calls, answers, limit, window) && n <= |calls|
    ensures FollowsRule(calls[..n], answers[..n], limit, window)
  {
    forall i | 0 <= i < n ensures calls[..n][..i] == calls[..i] && answers[..n][..i] == answers[..i] {
    }
  }

  /** By the rule alone: any half-open span of one window holds at most `limit` accepted calls. */
  lemma {:induction false} SpanHoldsAtMostLimit(
    calls: seq<Call>, answers: seq<bool>, limit: nat, window: int, from: int)
    requires |answers| == |calls| && WellTimed(calls, window) && FollowsRule(calls, answers, limit, window)
    ensures CountIn(calls, answers, from, from + window) <= limit
  {
    if calls != [] {
      var n := |calls| - 1;
      var earlier, past, now := calls[..n], answers[..n], calls[n].now;
      PrefixWellTimed(calls, n, window);
      RuleOfPrefix(calls, answers, limit, window, n);
      SpanHoldsAtMostLimit(earlier, past, limit, window, from);
      if answers[n] && from <= now < from + window {
        assert forall i | 0 <= i < n :: earlier[i].now < now + 1;
        WiderCountsMore(earlier, past, from, from + window, now - window + 1, now + 1);
      }
    }
  }

  /** So no run of well-timed calls gets more than `limit` accepts into one window's length. */
  lemma WindowHoldsAtMostLimit(calls: seq<Call>, limit: nat, window: int, from: int)
    requires WellTimed(calls, window) && window >= 1
    ensures CountIn(calls, Answers(calls, limit, window), from, from + window) <= limit
  {
    LimiterFollowsRule(calls, limit, window);
    SpanHoldsAtMostLimit(calls, Answers(calls, limit, window), limit, window, from);
  }

  // ---------------------------------------------------------------------------------------
  // The key's TTL
  // ---------------------------------------------------------------------------------------

  function AnswersNoTtl(calls: seq<Call>, limit: int, window: int)
    : (run: (seq<bool>, map<string, int>))
    ensures |run.0| == |calls|
  {
    if calls == [] then ([], map[])
    else
      var (answers, zset) := AnswersNoTtl(calls[..|calls| - 1], limit, window);
      var (ok, zset') := ScriptNoTtl(zset, limit, window, calls[|calls| - 1]);
      (answers + [ok], zset')
  }

  lemma NoTtlStep(key: Key, limit: int, window: int, call: Call)
    requires Kept(Expire(key, call.server).zset, call.now - window) == Kept(key.zset, call.now - window)
    ensures ScriptNoTtl(key.zset, limit, window, call)
            == (Script(key, limit, window, call).0, Script(key, limit, window, call).1.zset)
  {
  }

  /** PEXPIRE never changes an answer: without the TTL every run is answered the same. */
  lemma {:induction false} TtlChangesNothing(calls: seq<Call>, limit: int, window: int)
    requires WellTimed(calls, window) && window >= 1
    ensures AnswersNoTtl(calls, limit, window)
         == (Answers(calls, limit, window), After(calls, limit, window).zset)
  {
    hide Script, ScriptNoTtl, Mirrors, WellTimed, Kept, Expire;
    if calls != [] {
      var n := |calls| - 1;
      var earlier, key := calls[..n], After(calls[..n], limit, window);
      assert calls == earlier + [calls[n]];
      ClockBounds(earlier, calls[n], window);
      TtlChangesNothing(earlier, limit, window);
      RunMirrors(earlier, limit, window);
      ExpiryIsTrimming(key, earlier, Answers(earlier, limit, window), window, calls[n]);
      NoTtlStep(key, limit, window, calls[n]);
    }
  }

  lemma FirstAnswer(first: Call, window: int)
    requires window >= 1
    ensures After([first], 1, window) == Key(map[first.member := first.now], Some(first.server + window))
    ensures Answers([first], 1, window) == [true]
  {
    assert [first][..0] == [];
    assert Kept(NO_KEY.zset, first.now - window) == map[];
  }

  lemma RuleForTwo(first: Call, second: Call, answer: bool, window: int)
    requires first.now <= second.now && window >= 1
    ensures FollowsRule([first, second], [true, answer], 1, window)
       <==> (answer <==> second.now - first.now >= window)
  {
    var calls, answers := [first, second], [true, answer];
    assert calls[..1] == [first] && answers[..1] == [true] && calls[..0] == [] && answers[..0] == [];
    assert [first][..0] == [] && [true][..0] == [];
    assert CountWindow([], [], window, first.now) == 0;
    assert CountIn([], [], second.now - window + 1, second.now + 1) == 0;
    assert CountWindow([first], [true], window, second.now) == if second.now - window < first.now then 1 else 0;
    assert FollowsRule(calls, answers, 1, window)
      <==> (answers[0] <==> CountWindow(calls[..0], answers[..0], window, calls[0].now) < 1)
           && (answers[1] <==> CountWindow(calls[..1], answers[..1], window, calls[1].now) < 1);
  }

  lemma SecondAnswer(key: Key, first: Call, second: Call, window: int)
    requires key == Key(map[first.member := first.now], Some(first.server + window))
    requires 0 <= first.now <= second.now && window >= 1
    ensures Script(key, 1, window, second).0
       <==> second.server > first.server + window || second.now - first.now >= window
  {
    var kept := Kept(Expire(key, second.server).zset, second.now - window);
    if second.server <= first.server + window && second.now - first.now < window {
      assert first.member in kept;
    } else {
      assert kept == map[];
    }
  }

  /**
   The condition on the two clocks is exact already for two calls and a limit of one: the second
   is answered by the rule if and only if Redis's clock did not pass the window first.
   */
  lemma ClocksMatterExactly(first: Call, second: Call, window: int)
    requires Ordered([first, second]) && window >= 1
    ensures FollowsRule([first, second], Answers([first, second], 1, window), 1, window)
       <==> InStep([first, second], window)
  {
    var calls, answer := [first, second], Script(After([first], 1, window), 1, window, second).0;
    assert calls[..1] == [first];
    assert calls[0].now <= calls[1].now && 0 <= calls[0].now;
    assert Answers(calls, 1, window) == Answers([first], 1, window) + [answer];
    assert InStep(calls, window) <==> (second.server - first.server > window ==> second.now - first.now >= window);
    hide Answers, After, FollowsRule, Script, InStep;
    FirstAnswer(first, window);
    SecondAnswer(After([first], 1, window), first, second, window);
    RuleForTwo(first, second, answer, window);
    assert [true] + [answer] == [true, answer];
  }
}
