/**
 The order lifecycle under two actors.

 A status patch reads the order, checks the move against what it read, and swaps the status
 only if it is still that.  Any number of patches may sit between their read and their swap.
 */
module OrderStatus {
  import opened Options

  type Id = nat

  datatype Status = Pending | Confirmed | InProduction | Ready | Cancelled | Fulfilled

  datatype Actor = Staff | Baker

  predicate CanStaffTransition(from: Status, to: Status) {
    match from
    case Pending => to.Confirmed? || to.Cancelled?
    case Confirmed => to.Cancelled?
    case InProduction => to.Cancelled?
    case Ready => to.Fulfilled? || to.Cancelled?
    case _ => false
  }

  predicate CanBakerTransition(from: Status, to: Status) {
    match from
    case Confirmed => to.InProduction?
    case InProduction => to.Ready?
    case _ => false
  }

  predicate BakerSees(status: Status) {
    status.Confirmed? || status.InProduction? || status.Ready?
  }

  predicate CanMove(actor: Actor, from: Status, to: Status) {
    match actor
    case Staff => CanStaffTransition(from, to)
    case Baker => BakerSees(from) && CanBakerTransition(from, to)
  }

  datatype PatchResult = Patched(status: Status) | NotFound | InvalidTransition

  /** What a patch that nothing interleaves with answers. */
  function Patch(status: map<Id, Status>, actor: Actor, order: Id, target: Status): PatchResult {
    if order !in status then NotFound
    else if actor.Baker? && !BakerSees(status[order]) then NotFound
    else if !CanMove(actor, status[order], target) then InvalidTransition
    else Patched(target)
  }

  class Orders {
    var status: map<Id, Status>

    constructor ()
      ensures status == map[]
    {
      status := map[];
    }

    /** The compare-and-swap update: no row when the status has moved on. */
    method UpdateStatus(order: Id, from: Status, to: Status) returns (updated: bool)
      modifies this
      ensures updated <==> order in old(status) && old(status)[order] == from
      ensures status == if updated then old(status)[order := to] else old(status)
    {
      if order !in status || status[order] != from {
        return false;
      }
      status := status[order := to];
      return true;
    }

    method PatchStatus(actor: Actor, order: Id, target: Status) returns (result: PatchResult)
      modifies this
      ensures result == Patch(old(status), actor, order, target)
      ensures status == if result.Patched? then old(status)[order := target] else old(status)
    {
      if order !in status {
        return NotFound;
      }
      var before := status[order];
      if actor.Baker? && !BakerSees(before) {
        return NotFound;
      }
      if actor.Staff? && !CanStaffTransition(before, target) {
        return InvalidTransition;
      }
      if actor.Baker? && !CanBakerTransition(before, target) {
        return InvalidTransition;
      }
      var updated := UpdateStatus(order, before, target);
      if !updated {
        return InvalidTransition;
      }
      return Patched(target);
    }
  }

  // ---------------------------------------------------------------------------------------
  // Interleaved patches
  // ---------------------------------------------------------------------------------------

  /** A patch between its read and its swap. */
  datatype OpenPatch = OpenPatch(actor: Actor, order: Id, observed: Status, target: Status)

  /** A swap that went through. */
  datatype Win = Win(patch: Id, order: Id, from: Status, to: Status)

  /** `history` is every status an order has had, `wins` every swap that went through. */
  datatype State = State(
    status: map<Id, Status>, history: map<Id, seq<Status>>, patches: map<Id, OpenPatch>,
    wins: seq<Win>)

  datatype Step =
    | Place(order: Id)
    | Read(patch: Id, actor: Actor, order: Id, target: Status)
    | Swap(patch: Id)

  predicate Enabled(s: State, step: Step) {
    match step
    case Place(order) => order !in s.status
    case Read(patch, actor, order, target) =>
      patch !in s.patches && order in s.status && CanMove(actor, s.status[order], target)
    case Swap(patch) =>
      patch in s.patches && s.patches[patch].order in s.status && s.patches[patch].order in s.history
  }

  function Apply(s: State, step: Step): State
    requires Enabled(s, step)
  {
    match step
    case Place(order) =>
      s.(status := s.status[order := Pending], history := s.history[order := [Pending]])
    case Read(patch, actor, order, target) =>
      s.(patches := s.patches[patch := OpenPatch(actor, order, s.status[order], target)])
    case Swap(patch) =>
      var p := s.patches[patch];
      if s.status[p.order] != p.observed then s.(patches := s.patches - {patch})
      else
        State(s.status[p.order := p.target],
              s.history[p.order := s.history[p.order] + [p.target]],
              s.patches - {patch},
              s.wins + [Win(patch, p.order, p.observed, p.target)])
  }

  predicate Legal(s: State, steps: seq<Step>)
    decreases |steps|
  {
    steps != [] ==> Enabled(s, steps[0]) && Legal(Apply(s, steps[0]), steps[1..])
  }

  function Run(s: State, steps: seq<Step>): State
    requires Legal(s, steps)
    decreases |steps|
  {
    if steps == [] then s else Run(Apply(s, steps[0]), steps[1..])
  }

  const START := State(map[], map[], map[], [])

  // ---------------------------------------------------------------------------------------
  // Legal histories
  // ---------------------------------------------------------------------------------------

  /** How far along a status is; every allowed move goes further. */
  function Rank(status: Status): nat {
    match status
    case Pending => 0
    case Confirmed => 1
    case InProduction => 2
    case Ready => 3
    case Cancelled => 4
    case Fulfilled => 4
  }

  predicate Allowed(from: Status, to: Status) {
    CanStaffTransition(from, to) || CanBakerTransition(from, to)
  }

  /** A path of allowed moves from pending. */
  predicate LegalPath(h: seq<Status>) {
    && |h| >= 1 && h[0].Pending?
    && forall i | 0 < i < |h| :: Allowed(h[i - 1], h[i])
  }

  lemma {:induction false} RanksIncrease(h: seq<Status>, i: nat, j: nat)
    requires LegalPath(h) && i < j < |h|
    ensures Rank(h[i]) + (j - i) <= Rank(h[j])
    decreases j
  {
    assert Allowed(h[j - 1], h[j]);
    if i < j - 1 {
      RanksIncrease(h, i, j - 1);
    }
  }

  const FULL_PATH := [Pending, Confirmed, InProduction, Ready, Fulfilled]

  /** A legal path never repeats, ends at cancelled or fulfilled, and is fulfilled one way only. */
  lemma LegalPathShape(h: seq<Status>)
    requires LegalPath(h)
    ensures |h| <= 5
    ensures forall i, j | 0 <= i < j < |h| :: h[i] != h[j]
    ensures forall i | 0 <= i < |h| - 1 :: !h[i].Cancelled? && !h[i].Fulfilled?
    ensures h[|h| - 1].Fulfilled? ==> h == FULL_PATH
    ensures !(exists i | 0 <= i < |h| :: h[i].Cancelled?) ==> h <= FULL_PATH
  {
    if |h| > 1 {
      RanksIncrease(h, 0, |h| - 1);
    }
    forall i, j | 0 <= i < j < |h| ensures h[i] != h[j] {
      RanksIncrease(h, i, j);
    }
    forall i | 0 <= i < |h| - 1 ensures !h[i].Cancelled? && !h[i].Fulfilled? {
      assert Allowed(h[i], h[i + 1]);
    }
    if !(exists i | 0 <= i < |h| :: h[i].Cancelled?) {
      UncancelledPath(h, |h|);
      assert h == h[..|h|] == FULL_PATH[..|h|];
    }
    if h[|h| - 1].Fulfilled? {
      FulfilledPath(h);
    }
  }

  lemma FulfilledPath(h: seq<Status>)
    requires LegalPath(h) && h[|h| - 1].Fulfilled?
    ensures h == FULL_PATH
  {
    forall i | 0 <= i < |h| ensures !h[i].Cancelled? {
      assert i < |h| - 1 ==> Allowed(h[i], h[i + 1]);
    }
    UncancelledPath(h, |h|);
    assert h == h[..|h|] == FULL_PATH[..|h|];
    assert FULL_PATH[|h| - 1] == h[|h| - 1];
  }

  lemma {:induction false} UncancelledPath(h: seq<Status>, n: nat)
    requires LegalPath(h) && 1 <= n <= |h|
    requires forall i | 0 <= i < |h| :: !h[i].Cancelled?
    ensures n <= 5 && h[..n] == FULL_PATH[..n]
  {
    if n > 1 {
      UncancelledPath(h, n - 1);
      assert Allowed(h[n - 2], h[n - 1]);
      assert h[n - 2] == h[..n - 1][n - 2] == FULL_PATH[n - 2];
      assert h[..n] == h[..n - 1] + [h[n - 1]];
    }
  }

  // ---------------------------------------------------------------------------------------
  // Every run
  // ---------------------------------------------------------------------------------------

  predicate HistoriesLegal(s: State) {
    && s.history.Keys == s.status.Keys
    && forall order | order in s.status ::
         && LegalPath(s.history[order])
         && s.history[order][|s.history[order]| - 1] == s.status[order]
  }

  predicate PatchesAllowed(s: State) {
    forall p | p in s.patches ::
      s.patches[p].order in s.status && Allowed(s.patches[p].observed, s.patches[p].target)
  }

  /** Each win left a status that its order's history passed before its last entry. */
  predicate WinsPassed(s: State) {
    && (forall k | 0 <= k < |s.wins| ::
          s.wins[k].order in s.status && Rank(s.wins[k].from) < Rank(s.status[s.wins[k].order]))
    && (forall i, j | 0 <= i < j < |s.wins| && s.wins[i].order == s.wins[j].order ::
          Rank(s.wins[i].from) < Rank(s.wins[j].from))
  }

  predicate Inv(s: State) {
    HistoriesLegal(s) && PatchesAllowed(s) && WinsPassed(s)
  }

  lemma PathExtends(h: seq<Status>, to: Status)
    requires LegalPath(h) && Allowed(h[|h| - 1], to)
    ensures LegalPath(h + [to])
  {
    var longer := h + [to];
    forall i | 0 < i < |longer| ensures Allowed(longer[i - 1], longer[i]) {
      assert i < |h| ==> longer[i] == h[i];
    }
  }

  predicate Wins(s: State, patch: Id) {
    Enabled(s, Swap(patch)) && s.status[s.patches[patch].order] == s.patches[patch].observed
  }

  lemma WinKeepsHistories(s: State, patch: Id)
    requires HistoriesLegal(s) && PatchesAllowed(s) && Wins(s, patch)
    ensures HistoriesLegal(Apply(s, Swap(patch)))
  {
    PathExtends(s.history[s.patches[patch].order], s.patches[patch].target);
  }

  lemma WinKeepsOrder(s: State, patch: Id)
    requires PatchesAllowed(s) && WinsPassed(s) && Wins(s, patch)
    ensures WinsPassed(Apply(s, Swap(patch)))
  {
    var p, s' := s.patches[patch], Apply(s, Swap(patch));
    assert Rank(p.observed) < Rank(p.target) by {
      assert Allowed(p.observed, p.target);
    }
    forall k | 0 <= k < |s'.wins|
      ensures s'.wins[k].order in s'.status
      ensures Rank(s'.wins[k].from) < Rank(s'.status[s'.wins[k].order])
    {
      assert k < |s.wins| ==> s'.wins[k] == s.wins[k];
    }
    forall i, j | 0 <= i < j < |s'.wins| && s'.wins[i].order == s'.wins[j].order
      ensures Rank(s'.wins[i].from) < Rank(s'.wins[j].from)
    {
      assert s'.wins[i] == s.wins[i];
      assert j < |s.wins| ==> s'.wins[j] == s.wins[j];
    }
  }

  lemma SwapKeepsInv(s: State, patch: Id)
    requires Inv(s) && Enabled(s, Swap(patch))
    ensures Inv(Apply(s, Swap(patch)))
  {
    if Wins(s, patch) {
      WinKeepsHistories(s, patch);
      WinKeepsOrder(s, patch);
    }
  }

  lemma StepKeepsInv(s: State, step: Step)
    requires Inv(s) && Enabled(s, step)
    ensures Inv(Apply(s, step))
  {
    if step.Swap? {
      SwapKeepsInv(s, step.patch);
    }
  }

  lemma {:induction false} RunKeepsInv(s: State, steps: seq<Step>)
    requires Inv(s) && Legal(s, steps)
    ensures Inv(Run(s, steps))
    decreases |steps|
  {
    if steps != [] {
      StepKeepsInv(s, steps[0]);
      RunKeepsInv(Apply(s, steps[0]), steps[1..]);
    }
  }

  /**
   However staff and baker patches interleave, each order's history is a legal path: no status
   repeats, at most five of them, nothing after cancelled or fulfilled, and fulfilled only
   through pending, confirmed, in production and ready.
   */
  lemma HistoriesAreLegal(steps: seq<Step>, order: Id)
    requires Legal(START, steps) && order in Run(START, steps).status
    ensures order in Run(START, steps).history
    ensures var h := Run(START, steps).history[order];
            && LegalPath(h) && |h| <= 5
            && (forall i, j | 0 <= i < j < |h| :: h[i] != h[j])
            && (forall i | 0 <= i < |h| - 1 :: !h[i].Cancelled? && !h[i].Fulfilled?)
            && (h[|h| - 1].Fulfilled? ==> h == FULL_PATH)
  {
    RunKeepsInv(START, steps);
    LegalPathShape(Run(START, steps).history[order]);
  }

  /** Of the patches that raced from one observed status of an order, at most one won. */
  lemma AtMostOnePatchWins(steps: seq<Step>, i: nat, j: nat)
    requires Legal(START, steps)
    requires i < |Run(START, steps).wins| && j < |Run(START, steps).wins|
    requires Run(START, steps).wins[i].order == Run(START, steps).wins[j].order
    requires Run(START, steps).wins[i].from == Run(START, steps).wins[j].from
    ensures i == j
  {
    RunKeepsInv(START, steps);
  }

  // ---------------------------------------------------------------------------------------
  // Alone, the machine is the sequential patch
  // ---------------------------------------------------------------------------------------

  /**
   A patch can be read exactly when the sequential patch succeeds, and read and then swapped with
   nothing between leaves the status the sequential patch leaves, as one win.
   */
  lemma SoloPatchIsPatch(s: State, patch: Id, actor: Actor, order: Id, target: Status)
    requires HistoriesLegal(s) && patch !in s.patches
    ensures Enabled(s, Read(patch, actor, order, target)) <==> Patch(s.status, actor, order, target).Patched?
    ensures Patch(s.status, actor, order, target).Patched? ==>
              var observed := Apply(s, Read(patch, actor, order, target));
              && Enabled(observed, Swap(patch))
              && var swapped := Apply(observed, Swap(patch));
                 && swapped.status == s.status[order := target] && swapped.patches == s.patches
                 && swapped.wins == s.wins + [Win(patch, order, s.status[order], target)]
  {
    if Enabled(s, Read(patch, actor, order, target)) {
      var observed := Apply(s, Read(patch, actor, order, target));
      assert observed.patches - {patch} == s.patches;
    }
  }

  // ---------------------------------------------------------------------------------------
  // Every legal path happens
  // ---------------------------------------------------------------------------------------

  /** The moves of each actor, in full. */
  lemma MovesInFull(from: Status, to: Status)
    ensures CanMove(Staff, from, to) <==>
              (from, to) in {(Pending, Confirmed), (Pending, Cancelled), (Confirmed, Cancelled),
                             (InProduction, Cancelled), (Ready, Fulfilled), (Ready, Cancelled)}
    ensures CanMove(Baker, from, to) <==> (from, to) in {(Confirmed, InProduction), (InProduction, Ready)}
  {
  }

  lemma {:induction false} Perform(start: State, steps: seq<Step>, step: Step)
    returns (more: seq<Step>, next: State)
    requires Legal(start, steps) && Enabled(Run(start, steps), step)
    ensures more == steps + [step] && Legal(start, more)
    ensures next == Run(start, more) == Apply(Run(start, steps), step)
    decreases |steps|
  {
    more := steps + [step];
    if steps != [] {
      var tail, _ := Perform(Apply(start, steps[0]), steps[1..], step);
      assert more[1..] == tail;
    }
    next := Run(start, more);
  }

  lemma AllowedIsSomeones(from: Status, to: Status) returns (actor: Actor)
    requires Allowed(from, to)
    ensures CanMove(actor, from, to)
  {
    actor := if CanStaffTransition(from, to) then Staff else Baker;
  }

  /** Whatever path of allowed moves leads from pending, some run takes an order along it. */
  lemma {:induction false} LegalPathHappens(h: seq<Status>, order: Id) returns (steps: seq<Step>, at: State)
    requires LegalPath(h)
    ensures Legal(START, steps) && at == Run(START, steps) && at.patches == map[]
    ensures order in at.status && at.status[order] == h[|h| - 1]
    ensures order in at.history && at.history[order] == h
    decreases |h|
  {
    if |h| == 1 {
      assert Legal(START, []) && Run(START, []) == START;
      hide Run, Legal;
      steps, at := Perform(START, [], Place(order));
      assert h == [Pending];
    } else {
      var before, to := h[..|h| - 1], h[|h| - 1];
      assert Allowed(h[|h| - 2], to);
      steps, at := LegalPathHappens(before, order);
      var actor := AllowedIsSomeones(before[|before| - 1], to);
      hide Run, Legal, CanMove, Allowed;
      steps, at := Perform(START, steps, Read(0, actor, order, to));
      steps, at := Perform(START, steps, Swap(0));
      assert at.patches == map[] && h == before + [to];
    }
  }

  /** So the histories orders can have are exactly the legal paths. */
  lemma HistoriesAreExactlyLegalPaths(h: seq<Status>, order: Id)
    ensures LegalPath(h)
       <==> exists steps :: Legal(START, steps) && order in Run(START, steps).history
                            && Run(START, steps).history[order] == h
  {
    if LegalPath(h) {
      var steps, at := LegalPathHappens(h, order);
    }
    forall steps | Legal(START, steps) && order in Run(START, steps).history && Run(START, steps).history[order] == h
      ensures LegalPath(h)
    {
      RunKeepsInv(START, steps);
    }
  }

  /** The full path and a cancellation out of each of its first four statuses are legal. */
  lemma PathsInFull(h: seq<Status>)
    ensures LegalPath(h)
       <==> h in {[Pending], [Pending, Confirmed], [Pending, Confirmed, InProduction],
                  [Pending, Confirmed, InProduction, Ready], [Pending, Confirmed, InProduction, Ready, Fulfilled],
                  [Pending, Cancelled], [Pending, Confirmed, Cancelled],
                  [Pending, Confirmed, InProduction, Cancelled],
                  [Pending, Confirmed, InProduction, Ready, Cancelled]}
  {
    if LegalPath(h) {
      LegalPathShape(h);
      assert 1 < |h| ==> Allowed(h[0], h[1]);
      assert 2 < |h| ==> Allowed(h[1], h[2]);
      assert 3 < |h| ==> Allowed(h[2], h[3]);
      assert 4 < |h| ==> Allowed(h[3], h[4]);
      assert |h| == 1 ==> h == [h[0]];
      assert |h| == 2 ==> h == [h[0], h[1]];
      assert |h| == 3 ==> h == [h[0], h[1], h[2]];
      assert |h| == 4 ==> h == [h[0], h[1], h[2], h[3]];
      assert |h| == 5 ==> h == [h[0], h[1], h[2], h[3], h[4]];
    }
  }

  /** A patch answers not found, refuses, or moves the order, exactly as the moves allow. */
  lemma PatchMeans(status: map<Id, Status>, actor: Actor, order: Id, target: Status)
    ensures var result := Patch(status, actor, order, target);
            && (result == NotFound
                <==> order !in status
                     || (actor.Baker? && status[order] !in {Confirmed, InProduction, Ready}))
            && (result == Patched(target) <==> order in status && CanMove(actor, status[order], target))
            && (result.Patched? ==> result.status == target)
  {
  }
}
