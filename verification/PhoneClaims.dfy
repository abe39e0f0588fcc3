/**
 One phone, one active account: the transactions that write phones, interleaved.

 Each transaction runs statement by statement at READ COMMITTED: a statement sees what is
 committed when it runs.  Two locks matter.  FOR UPDATE and the restoring UPDATE hold the
 account row; pg_advisory_xact_lock holds the number.  A written profile row is held too.  All
 three last until the transaction ends.  Accounts that shared a phone before the rule existed
 are tolerated.
 */
module PhoneClaims {
  import opened Options

  type Id = nat
  type Phone = nat

  datatype Role = Customer | Staff | Baker | Manager | Admin

  predicate StaffProfile(role: Role) {
    role.Staff? || role.Baker? || role.Manager?
  }

  /** An active account is one that is not soft deleted. */
  datatype Account = Account(role: Role, active: bool, phone: Option<Phone>)

  /** PATCH meaning of a request phone: absent, blank, or a number. */
  datatype Patch = Keep | Clear | Set(phone: Phone)

  datatype Work =
    | Create(role: Role)
    | AdminEdit(patch: Patch, newRole: Option<Role>)
    | SelfEdit(patch: Patch)
    | Enable

  datatype Stage = Begun | ProfileRead | PhoneLocked | PhoneFree | PhoneTaken | Written

  /**
   `read` is the phone found in the profile, `want` the one the transaction ends with, `claimed`
   says that it holds the advisory lock of `want`, `released` that Enable gave the phone up.
   */
  datatype Tx = Tx(
    account: Id, work: Work, stage: Stage, read: Option<Phone>, want: Option<Phone>,
    claimed: bool, released: bool)

  datatype State = State(accounts: map<Id, Account>, txs: map<Id, Tx>)

  datatype Step =
    | BeginCreate(tx: Id, account: Id, role: Role, phone: Option<Phone>)
    | BeginAdminEdit(tx: Id, account: Id, patch: Patch, newRole: Option<Role>)
    | BeginSelfEdit(tx: Id, account: Id, patch: Patch)
    | BeginEnable(tx: Id, account: Id)
    | ReadProfile(tx: Id)
    | SkipClaim(tx: Id)
    | LockPhone(tx: Id)
    | CheckPhone(tx: Id)
    | WriteProfile(tx: Id)
    | Commit(tx: Id)
    | Rollback(tx: Id)
    | Disable(account: Id)

  function Resolve(patch: Patch, stored: Option<Phone>): Option<Phone> {
    match patch
    case Keep => stored
    case Clear => None
    case Set(p) => Some(p)
  }

  predicate HoldsAccountRow(t: Tx) {
    t.work.AdminEdit? || t.work.Enable?
  }

  predicate HoldsProfileRow(t: Tx) {
    t.stage.Written? && (t.work.AdminEdit? || t.work.SelfEdit? || t.released)
  }

  predicate AccountRowFree(s: State, account: Id) {
    forall t | t in s.txs && HoldsAccountRow(s.txs[t]) :: s.txs[t].account != account
  }

  predicate ProfileRowFree(s: State, account: Id) {
    forall t | t in s.txs && HoldsProfileRow(s.txs[t]) :: s.txs[t].account != account
  }

  predicate PhoneLockFree(s: State, phone: Option<Phone>) {
    forall t | t in s.txs && s.txs[t].claimed :: s.txs[t].want != phone
  }

  predicate Holds(s: State, account: Id, phone: Option<Phone>) {
    account in s.accounts && s.accounts[account].active && s.accounts[account].phone == phone
  }

  /** PhoneHeldByOtherActiveUser. */
  predicate HeldByOther(s: State, phone: Option<Phone>, account: Id) {
    exists other | other in s.accounts :: other != account && Holds(s, other, phone)
  }

  /** A disabled account holds no number. */
  lemma HeldMeans(s: State, phone: Option<Phone>, account: Id)
    ensures HeldByOther(s, phone, account)
       <==> exists other | other in s.accounts ::
              other != account && s.accounts[other].active && s.accounts[other].phone == phone
  {
    assert forall other | other in s.accounts ::
        Holds(s, other, phone) <==> s.accounts[other].active && s.accounts[other].phone == phone;
  }

  /** claimPhone takes the lock unless there is no phone or it is the one already stored. */
  predicate NeedsClaim(t: Tx) {
    t.want.Some? && (t.work.Create? || t.work.Enable? || t.want != t.read)
  }

  predicate InStage(s: State, tx: Id, stage: Stage) {
    tx in s.txs && s.txs[tx].stage == stage
  }

  predicate Enabled(s: State, step: Step) {
    match step
    case BeginCreate(tx, account, role, _) =>
      && tx !in s.txs && account !in s.accounts && StaffProfile(role)
      && (forall t | t in s.txs && s.txs[t].work.Create? :: s.txs[t].account != account)
    case BeginAdminEdit(tx, account, _, newRole) =>
      && tx !in s.txs && account in s.accounts && AccountRowFree(s, account)
      && s.accounts[account].active && StaffProfile(s.accounts[account].role)
      && (newRole.Some? ==> StaffProfile(newRole.value))
    case BeginSelfEdit(tx, account, _) =>
      tx !in s.txs && account in s.accounts && s.accounts[account].active
    case BeginEnable(tx, account) =>
      && tx !in s.txs && account in s.accounts && AccountRowFree(s, account)
      && !s.accounts[account].active && !s.accounts[account].role.Admin?
    case ReadProfile(tx) => InStage(s, tx, Begun)
    case SkipClaim(tx) => InStage(s, tx, ProfileRead) && !NeedsClaim(s.txs[tx])
    case LockPhone(tx) =>
      InStage(s, tx, ProfileRead) && NeedsClaim(s.txs[tx]) && PhoneLockFree(s, s.txs[tx].want)
    case CheckPhone(tx) => InStage(s, tx, PhoneLocked)
    case WriteProfile(tx) =>
      && (InStage(s, tx, PhoneFree) || InStage(s, tx, PhoneTaken))
      && (HoldsProfileRow(AfterWrite(s.txs[tx])) ==> ProfileRowFree(s, s.txs[tx].account))
    case Commit(tx) => InStage(s, tx, Written)
    case Rollback(tx) => tx in s.txs
    case Disable(account) =>
      account in s.accounts && s.accounts[account].active && AccountRowFree(s, account)
  }

  function AfterWrite(t: Tx): Tx {
    t.(stage := Written, released := t.stage.PhoneTaken?)
  }

  function AfterRead(s: State, t: Tx): Tx {
    var stored := if t.account in s.accounts then s.accounts[t.account].phone else None;
    t.(stage := ProfileRead, read := stored,
       want := if t.work.AdminEdit? then Resolve(t.work.patch, stored) else stored)
  }

  function Result(s: State, t: Tx): Account {
    var stored := if t.account in s.accounts then s.accounts[t.account] else Account(Customer, false, None);
    match t.work
    case Create(role) => Account(role, true, t.want)
    case AdminEdit(_, newRole) =>
      stored.(phone := t.want, role := if newRole.Some? then newRole.value else stored.role)
    case SelfEdit(_) => stored.(phone := t.want)
    case Enable => stored.(active := true, phone := if t.released then None else stored.phone)
  }

  function Apply(s: State, step: Step): State
    requires Enabled(s, step)
  {
    match step
    case BeginCreate(tx, account, role, phone) =>
      s.(txs := s.txs[tx := Tx(account, Create(role), ProfileRead, None, phone, false, false)])
    case BeginAdminEdit(tx, account, patch, newRole) =>
      s.(txs := s.txs[tx := Tx(account, AdminEdit(patch, newRole), Begun, None, None, false, false)])
    case BeginSelfEdit(tx, account, patch) =>
      var stored := s.accounts[account].phone;
      s.(txs := s.txs[tx := Tx(account, SelfEdit(patch), ProfileRead, stored,
                               Resolve(patch, stored), false, false)])
    case BeginEnable(tx, account) =>
      s.(txs := s.txs[tx := Tx(account, Enable, Begun, None, None, false, false)])
    case ReadProfile(tx) => s.(txs := s.txs[tx := AfterRead(s, s.txs[tx])])
    case SkipClaim(tx) => s.(txs := s.txs[tx := s.txs[tx].(stage := PhoneFree)])
    case LockPhone(tx) => s.(txs := s.txs[tx := s.txs[tx].(stage := PhoneLocked, claimed := true)])
    case CheckPhone(tx) =>
      var t := s.txs[tx];
      if !HeldByOther(s, t.want, t.account) then s.(txs := s.txs[tx := t.(stage := PhoneFree)])
      else if t.work.Enable? then s.(txs := s.txs[tx := t.(stage := PhoneTaken)])
      else s.(txs := s.txs - {tx})
    case WriteProfile(tx) => s.(txs := s.txs[tx := AfterWrite(s.txs[tx])])
    case Commit(tx) =>
      var t := s.txs[tx];
      State(s.accounts[t.account := Result(s, t)], s.txs - {tx})
    case Rollback(tx) => s.(txs := s.txs - {tx})
    case Disable(account) =>
      s.(accounts := s.accounts[account := s.accounts[account].(active := false)])
  }

  predicate Legal(s: State, steps: seq<Step>)
    decreases |steps|
  {
    steps != [] ==> Enabled(s, steps[0]) && Legal(Apply(s, steps[0]), steps[1..])
  }

  function Run(s: State, steps: seq<Step>): State
    requires Legal(s, steps)
    decreases |steps|
  {
    if steps == [] then s else Run(Apply(s, steps[0]), steps[1..])
  }

  // ---------------------------------------------------------------------------------------
  // Sharing, and what a commit can do to it.
  // ---------------------------------------------------------------------------------------

  /** Two active accounts with the same phone. */
  predicate Sharing(s: State, a: Id, b: Id) {
    && a != b && a in s.accounts && b in s.accounts
    && s.accounts[a].phone.Some?
    && Holds(s, a, s.accounts[a].phone) && Holds(s, b, s.accounts[a].phone)
  }

  ghost predicate Grows(s: State, s': State) {
    exists a, b :: Sharing(s', a, b) && !Sharing(s, a, b)
  }

  ghost predicate Unique(s: State) {
    forall a, b :: !Sharing(s, a, b)
  }

  /**
   A commit is fresh when the phone it leaves was claimed, or is none, or is still the one
   stored; for Enable, when the stored phone is still the one it read and re-checked.
   */
  predicate Fresh(s: State, t: Tx) {
    match t.work
    case Create(_) => true
    case Enable => t.released || (t.account in s.accounts && s.accounts[t.account].phone == t.read)
    case _ =>
      || t.claimed || t.want.None?
      || (t.account in s.accounts && s.accounts[t.account].phone == t.want)
  }

  /** The account comes out active with a phone that another active account holds. */
  predicate Clashes(s: State, t: Tx) {
    var result := Result(s, t);
    result.active && result.phone.Some? && HeldByOther(s, result.phone, t.account)
  }

  /** A claimed number that was found free, and that another active account holds all the same. */
  predicate Overrun(s: State, t: Tx) {
    ClaimStands(t) && HeldByOther(s, t.want, t.account)
  }

  // ---------------------------------------------------------------------------------------
  // The invariant.
  // ---------------------------------------------------------------------------------------

  predicate TxShape(s: State, t: Tx) {
    && (t.claimed ==> NeedsClaim(t))
    && (t.stage.Begun? || t.stage.ProfileRead? ==> !t.claimed)
    && (!t.stage.Begun? && !t.stage.ProfileRead? ==> (NeedsClaim(t) ==> t.claimed))
    && (t.stage.PhoneLocked? ==> t.claimed)
    && (t.stage.PhoneTaken? || t.released ==> t.work.Enable? && t.claimed)
    && (t.released ==> t.stage.Written?)
    && (t.work.Enable? ==> t.want == t.read)
    && (t.stage.Begun? ==> t.work.AdminEdit? || t.work.Enable?)
    && (t.work.Create? <==> t.account !in s.accounts)
    && (t.work.AdminEdit? ==> t.account in s.accounts && s.accounts[t.account].active)
    && (t.work.Enable? ==> t.account in s.accounts && !s.accounts[t.account].active)
  }

  predicate TxsShaped(s: State) {
    forall t | t in s.txs :: TxShape(s, s.txs[t])
  }

  /** One holder per account row, per created account and per number. */
  predicate LocksExclusive(s: State) {
    forall t, u | t in s.txs && u in s.txs && t != u ::
      && (HoldsAccountRow(s.txs[t]) && HoldsAccountRow(s.txs[u]) ==> s.txs[t].account != s.txs[u].account)
      && (s.txs[t].work.Create? && s.txs[u].work.Create? ==> s.txs[t].account != s.txs[u].account)
      && (s.txs[t].claimed && s.txs[u].claimed ==> s.txs[t].want != s.txs[u].want)
  }

  predicate ClaimStands(t: Tx) {
    t.claimed && (t.stage.PhoneFree? || (t.stage.Written? && !t.released))
  }

  /** A number found free stays free of other active accounts until the claimer is done. */
  predicate ClaimsHold(s: State) {
    forall t | t in s.txs && ClaimStands(s.txs[t]) ::
      !HeldByOther(s, s.txs[t].want, s.txs[t].account)
  }

  predicate Inv(s: State) {
    TxsShaped(s) && LocksExclusive(s) && ClaimsHold(s)
  }

  lemma StepKeepsLocks(s: State, step: Step)
    requires TxsShaped(s) && LocksExclusive(s) && Enabled(s, step)
    ensures LocksExclusive(Apply(s, step))
  {
    hide HeldByOther, Holds, HoldsProfileRow, ProfileRowFree, Resolve, Result, NeedsClaim, StaffProfile;
    if step.ReadProfile? {
      assert TxShape(s, s.txs[step.tx]);
    }
  }

  lemma StepKeepsShape(s: State, step: Step)
    requires TxsShaped(s) && LocksExclusive(s) && Enabled(s, step)
    ensures TxsShaped(Apply(s, step)) && LocksExclusive(Apply(s, step))
  {
    hide HeldByOther, Holds, ProfileRowFree, Resolve, PhoneLockFree;
    StepKeepsLocks(s, step);
    var s' := Apply(s, step);
    forall t | t in s'.txs ensures TxShape(s', s'.txs[t]) {
      if t in s.txs {
        assert TxShape(s, s.txs[t]);
      }
    }
  }

  /** So every reachable state is shaped, whatever was committed on the way. */
  lemma {:induction false} RunKeepsShape(s: State, steps: seq<Step>)
    requires TxsShaped(s) && LocksExclusive(s) && Legal(s, steps)
    ensures TxsShaped(Run(s, steps)) && LocksExclusive(Run(s, steps))
    decreases |steps|
  {
    if steps != [] {
      hide TxsShaped, LocksExclusive;
      StepKeepsShape(s, steps[0]);
      RunKeepsShape(Apply(s, steps[0]), steps[1..]);
    }
  }

  /** The account a fresh commit leaves takes no number another transaction found free. */
  lemma FreshCommitSparesClaims(s: State, tx: Id, other: Id)
    requires Inv(s) && Enabled(s, Commit(tx)) && Fresh(s, s.txs[tx])
    requires other in s.txs && other != tx && ClaimStands(s.txs[other])
    requires s.txs[other].account != s.txs[tx].account
    ensures !(Result(s, s.txs[tx]).active && Result(s, s.txs[tx]).phone == s.txs[other].want)
  {
    var t, o := s.txs[tx], s.txs[other];
    assert TxShape(s, t) && TxShape(s, o);
    if Result(s, t).active && Result(s, t).phone == o.want {
      assert !t.claimed ==> Holds(s, t.account, o.want);
    }
  }

  lemma CommitKeepsClaims(s: State, tx: Id)
    requires Inv(s) && Enabled(s, Commit(tx)) && Fresh(s, s.txs[tx])
    ensures ClaimsHold(Apply(s, Commit(tx)))
  {
    var s', t := Apply(s, Commit(tx)), s.txs[tx];
    forall o | o in s'.txs && ClaimStands(s'.txs[o])
      ensures !HeldByOther(s', s'.txs[o].want, s'.txs[o].account)
    {
      var c := s.txs[o];
      if holder :| holder in s'.accounts && holder != c.account && Holds(s', holder, c.want) {
        if holder == t.account {
          FreshCommitSparesClaims(s, tx, o);
        } else {
          assert Holds(s, holder, c.want);
        }
        assert false;
      }
    }
  }

  lemma OtherStepsKeepClaims(s: State, step: Step)
    requires Inv(s) && Enabled(s, step) && !step.Commit?
    ensures ClaimsHold(Apply(s, step))
  {
    var s' := Apply(s, step);
    forall o | o in s'.txs && ClaimStands(s'.txs[o])
      ensures !HeldByOther(s', s'.txs[o].want, s'.txs[o].account)
    {
      var c := s'.txs[o];
      assert o in s.txs && c.account == s.txs[o].account && c.want == s.txs[o].want by {
        assert o in s.txs ==> TxShape(s, s.txs[o]);
      }
      assert TxShape(s, s.txs[o]);
      if holder :| holder in s'.accounts && holder != c.account && Holds(s', holder, c.want) {
        assert Holds(s, holder, c.want);
        assert HeldByOther(s, c.want, c.account);
      }
    }
  }

  lemma FreshStepKeepsInv(s: State, step: Step)
    requires Inv(s) && Enabled(s, step)
    requires step.Commit? ==> Fresh(s, s.txs[step.tx])
    ensures Inv(Apply(s, step))
  {
    StepKeepsShape(s, step);
    if step.Commit? {
      CommitKeepsClaims(s, step.tx);
    } else {
      OtherStepsKeepClaims(s, step);
    }
  }

  // ---------------------------------------------------------------------------------------
  // Exactly which step makes two active accounts share a phone.
  // ---------------------------------------------------------------------------------------

  /** The commit puts its account on a phone it did not hold and another active account does. */
  predicate NewClash(s: State, t: Tx) {
    Clashes(s, t) && !Holds(s, t.account, Result(s, t).phone)
  }

  lemma NewClashGrows(s: State, tx: Id)
    requires Enabled(s, Commit(tx)) && NewClash(s, s.txs[tx])
    ensures Grows(s, Apply(s, Commit(tx)))
  {
    var t, s' := s.txs[tx], Apply(s, Commit(tx));
    var phone := Result(s, t).phone;
    var other :| other in s.accounts && other != t.account && Holds(s, other, phone);
    assert Sharing(s', t.account, other) && !Sharing(s, t.account, other);
  }

  lemma NoNewClashNoGrowth(s: State, step: Step)
    requires TxsShaped(s) && Enabled(s, step)
    requires step.Commit? ==> !NewClash(s, s.txs[step.tx])
    ensures !Grows(s, Apply(s, step))
  {
    var s' := Apply(s, step);
    forall a, b | Sharing(s', a, b) ensures Sharing(s, a, b) {
      var phone := s'.accounts[a].phone;
      if step.Commit? && (a == s.txs[step.tx].account || b == s.txs[step.tx].account) {
        var other := if a == s.txs[step.tx].account then b else a;
        assert Holds(s, other, phone);
        assert HeldByOther(s, phone, s.txs[step.tx].account);
      } else {
        assert Holds(s', a, phone) && Holds(s', b, phone);
        assert Holds(s, a, phone) && Holds(s, b, phone);
      }
    }
  }

  /** What makes a commit clash anew: it is stale, or its own claim was overrun. */
  lemma NewClashIsStaleOrOverrun(s: State, tx: Id)
    requires TxsShaped(s) && Enabled(s, Commit(tx)) && Clashes(s, s.txs[tx])
    ensures NewClash(s, s.txs[tx])
       <==> !Holds(s, s.txs[tx].account, Result(s, s.txs[tx]).phone)
            && (!Fresh(s, s.txs[tx]) || Overrun(s, s.txs[tx]))
  {
    var t := s.txs[tx];
    assert TxShape(s, t);
    if Fresh(s, t) && !ClaimStands(t) {
      assert Holds(s, t.account, Result(s, t).phone);
    }
  }

  /**
   In every reachable state, a step adds a pair of active accounts sharing a phone if and only
   if it commits a phone that another active account holds and its own does not, and then the
   phone is stale and unclaimed or its claim was overrun.
   */
  lemma SharingGrowsExactly(s: State, step: Step)
    requires TxsShaped(s) && Enabled(s, step)
    ensures Grows(s, Apply(s, step))
       <==> step.Commit? && Clashes(s, s.txs[step.tx])
            && !Holds(s, s.txs[step.tx].account, Result(s, s.txs[step.tx]).phone)
            && (!Fresh(s, s.txs[step.tx]) || Overrun(s, s.txs[step.tx]))
  {
    hide Grows, Clashes, Fresh, Overrun, TxShape;
    if step.Commit? {
      if Clashes(s, s.txs[step.tx]) {
        NewClashIsStaleOrOverrun(s, step.tx);
      }
      if NewClash(s, s.txs[step.tx]) {
        NewClashGrows(s, step.tx);
      } else {
        NoNewClashNoGrowth(s, step);
      }
    } else {
      NoNewClashNoGrowth(s, step);
    }
  }

  // ---------------------------------------------------------------------------------------
  // How a claim is overrun.
  // ---------------------------------------------------------------------------------------

  /** The commit leaves its account active on a number another transaction claimed and found free. */
  predicate TakesClaimed(s: State, tx: Id)
    requires tx in s.txs
  {
    exists o | o in s.txs ::
      && o != tx && ClaimStands(s.txs[o]) && s.txs[o].account != s.txs[tx].account
      && Result(s, s.txs[tx]).active && Result(s, s.txs[tx]).phone == s.txs[o].want
  }

  lemma FreshCommitIsNoOverrun(s: State, tx: Id)
    requires Inv(s) && Enabled(s, Commit(tx))
    ensures !Overrun(s, s.txs[tx])
  {
  }

  /** While every claim stands, the next step overruns one exactly when it is a stale commit that takes it. */
  lemma ClaimsBreakExactly(s: State, step: Step)
    requires Inv(s) && Enabled(s, step)
    ensures !ClaimsHold(Apply(s, step))
       <==> step.Commit? && !Fresh(s, s.txs[step.tx]) && TakesClaimed(s, step.tx)
  {
    if !step.Commit? {
      OtherStepsKeepClaims(s, step);
    } else if Fresh(s, s.txs[step.tx]) {
      CommitKeepsClaims(s, step.tx);
    } else {
      StaleCommitBreaks(s, step.tx);
    }
  }

  lemma StaleCommitBreaks(s: State, tx: Id)
    requires Inv(s) && Enabled(s, Commit(tx))
    ensures !ClaimsHold(Apply(s, Commit(tx))) <==> TakesClaimed(s, tx)
  {
    var s', t := Apply(s, Commit(tx)), s.txs[tx];
    if TakesClaimed(s, tx) {
      var o :| o in s.txs && o != tx && ClaimStands(s.txs[o]) && s.txs[o].account != t.account
               && Result(s, t).active && Result(s, t).phone == s.txs[o].want;
      assert o in s'.txs && ClaimStands(s'.txs[o]);
      assert Holds(s', t.account, s'.txs[o].want);
    } else {
      forall o | o in s'.txs && ClaimStands(s'.txs[o])
        ensures !HeldByOther(s', s'.txs[o].want, s'.txs[o].account)
      {
        var c := s.txs[o];
        assert !HeldByOther(s, c.want, c.account);
        forall holder | holder in s'.accounts && holder != c.account
          ensures !Holds(s', holder, c.want)
        {
          assert !Holds(s, holder, c.want);
        }
      }
    }
  }

  /** So a run that leaves a claim overrun committed a stale phone before. */
  lemma {:induction false} OverrunNeedsStaleCommit(start: State, steps: seq<Step>, tx: Id)
    returns (before: nat)
    requires Inv(start) && Legal(start, steps)
    requires tx in Run(start, steps).txs && Overrun(Run(start, steps), Run(start, steps).txs[tx])
    ensures before < |steps| && Legal(start, steps[..before])
    ensures var s := Run(start, steps[..before]);
            && steps[before].Commit? && steps[before].tx in s.txs
            && !Fresh(s, s.txs[steps[before].tx]) && TakesClaimed(s, steps[before].tx)
    decreases |steps|
  {
    before := 0;
    if steps != [] {
      ClaimsBreakExactly(start, steps[0]);
      StepKeepsShape(start, steps[0]);
      if ClaimsHold(Apply(start, steps[0])) {
        var later := OverrunNeedsStaleCommit(Apply(start, steps[0]), steps[1..], tx);
        before := later + 1;
        assert steps[..before][1..] == steps[1..][..later];
      }
    }
  }

  // ---------------------------------------------------------------------------------------
  // Whole runs.
  // ---------------------------------------------------------------------------------------

  /** Every commit of the run is fresh. */
  predicate AllFresh(s: State, steps: seq<Step>)
    requires Legal(s, steps)
    decreases |steps|
  {
    steps != [] ==>
      && (steps[0].Commit? ==> Fresh(s, s.txs[steps[0].tx]))
      && AllFresh(Apply(s, steps[0]), steps[1..])
  }

  /** Over every interleaving whose commits are fresh, no new pair ever shares a phone. */
  lemma {:induction false} SharingNeverGrows(s: State, steps: seq<Step>)
    requires Inv(s) && Legal(s, steps) && AllFresh(s, steps)
    ensures Inv(Run(s, steps))
    ensures forall a, b :: Sharing(Run(s, steps), a, b) ==> Sharing(s, a, b)
    decreases |steps|
  {
    if steps != [] {
      FreshStepKeepsInv(s, steps[0]);
      if steps[0].Commit? {
        FreshCommitIsNoOverrun(s, steps[0].tx);
      }
      SharingGrowsExactly(s, steps[0]);
      SharingNeverGrows(Apply(s, steps[0]), steps[1..]);
    }
  }

  /** An account under a self-service edit is in no other open transaction. */
  predicate SelfEditsAlone(s: State) {
    forall t, u | t in s.txs && u in s.txs && t != u && s.txs[t].work.SelfEdit? ::
      s.txs[t].account != s.txs[u].account
  }

  predicate Alone(s: State, steps: seq<Step>)
    requires Legal(s, steps)
    decreases |steps|
  {
    && SelfEditsAlone(s)
    && (steps != [] ==> Alone(Apply(s, steps[0]), steps[1..]))
  }

  /** What each open transaction read is still what is stored. */
  predicate ReadsCurrent(s: State) {
    forall t | t in s.txs && !s.txs[t].stage.Begun? && !s.txs[t].work.Create? ::
      s.txs[t].account in s.accounts && s.accounts[s.txs[t].account].phone == s.txs[t].read
  }

  lemma StepKeepsReadsCurrent(s: State, step: Step)
    requires TxsShaped(s) && LocksExclusive(s) && SelfEditsAlone(s) && ReadsCurrent(s)
    requires Enabled(s, step)
    ensures ReadsCurrent(Apply(s, step))
  {
    var s' := Apply(s, step);
    forall t | t in s'.txs && !s'.txs[t].stage.Begun? && !s'.txs[t].work.Create?
      ensures s'.txs[t].account in s'.accounts
      ensures s'.accounts[s'.txs[t].account].phone == s'.txs[t].read
    {
      if t in s.txs {
        assert TxShape(s, s.txs[t]);
      }
      if step.Commit? {
        assert TxShape(s, s.txs[step.tx]);
        assert s.txs[step.tx].account != s.txs[t].account;
      }
    }
  }

  lemma {:induction false} AloneIsFresh(s: State, steps: seq<Step>)
    requires TxsShaped(s) && LocksExclusive(s) && ReadsCurrent(s)
    requires Legal(s, steps) && Alone(s, steps)
    ensures AllFresh(s, steps)
    decreases |steps|
  {
    if steps != [] {
      if steps[0].Commit? {
        assert TxShape(s, s.txs[steps[0].tx]);
      }
      StepKeepsShape(s, steps[0]);
      StepKeepsReadsCurrent(s, steps[0]);
      AloneIsFresh(Apply(s, steps[0]), steps[1..]);
    }
  }

  /**
   From any committed accounts, legacy duplicates included: while no self-service edit overlaps
   another transaction on its account, the pairs sharing a phone never grow.
   */
  lemma PairsNeverGrow(s: State, steps: seq<Step>)
    requires s.txs == map[] && Legal(s, steps) && Alone(s, steps)
    ensures forall a, b :: Sharing(Run(s, steps), a, b) ==> Sharing(s, a, b)
    ensures Unique(s) ==> Unique(Run(s, steps))
  {
    AloneIsFresh(s, steps);
    SharingNeverGrows(s, steps);
  }

  /** Admin create, edit, role change, enable and disable need no condition at all. */
  predicate AdminOnly(steps: seq<Step>) {
    forall i | 0 <= i < |steps| :: !steps[i].BeginSelfEdit?
  }

  lemma {:induction false} AdminRunsAreAlone(s: State, steps: seq<Step>)
    requires Legal(s, steps) && AdminOnly(steps)
    requires forall t | t in s.txs :: !s.txs[t].work.SelfEdit?
    ensures Alone(s, steps)
    decreases |steps|
  {
    if steps != [] {
      assert AdminOnly(steps[1..]) by {
        assert forall i | 0 <= i < |steps| - 1 :: steps[1..][i] == steps[i + 1];
      }
      AdminRunsAreAlone(Apply(s, steps[0]), steps[1..]);
    }
  }

  lemma AdminPairsNeverGrow(s: State, steps: seq<Step>)
    requires s.txs == map[] && Legal(s, steps) && AdminOnly(steps)
    ensures forall a, b :: Sharing(Run(s, steps), a, b) ==> Sharing(s, a, b)
    ensures Unique(s) ==> Unique(Run(s, steps))
  {
    AdminRunsAreAlone(s, steps);
    PairsNeverGrow(s, steps);
  }

  // ---------------------------------------------------------------------------------------
  // What each request leaves
  // ---------------------------------------------------------------------------------------

  /** Every account but this one is as it was. */
  ghost predicate OnlyAccount(s: State, s': State, account: Id) {
    forall other | other != account ::
      && (other in s'.accounts <==> other in s.accounts)
      && (other in s.accounts ==> s'.accounts[other] == s.accounts[other])
  }

  /**
   A committed enable leaves its account active, in its role, with its stored phone or, when it
   released that, with none; and no other account changed.
   */
  lemma EnableCommits(s: State, tx: Id)
    requires TxsShaped(s) && Enabled(s, Commit(tx)) && s.txs[tx].work.Enable?
    ensures var s', t := Apply(s, Commit(tx)), s.txs[tx];
            && t.account in s.accounts && t.account in s'.accounts
            && s'.accounts[t.account].active && s'.accounts[t.account].role == s.accounts[t.account].role
            && s'.accounts[t.account].phone == (if t.released then None else s.accounts[t.account].phone)
            && OnlyAccount(s, s', t.account) && tx !in s'.txs
  {
    assert TxShape(s, s.txs[tx]);
  }

  /** A committed create leaves an active account with the role and the phone asked for. */
  lemma CreateCommits(s: State, tx: Id)
    requires TxsShaped(s) && Enabled(s, Commit(tx)) && s.txs[tx].work.Create?
    ensures var s', t := Apply(s, Commit(tx)), s.txs[tx];
            && t.account !in s.accounts && t.account in s'.accounts
            && s'.accounts[t.account] == Account(t.work.role, true, t.want)
            && OnlyAccount(s, s', t.account) && tx !in s'.txs
  {
    assert TxShape(s, s.txs[tx]);
  }

  /** A committed edit leaves the phone it ended with, and an admin's the new role; nothing else. */
  lemma EditCommits(s: State, tx: Id)
    requires TxsShaped(s) && Enabled(s, Commit(tx)) && (s.txs[tx].work.AdminEdit? || s.txs[tx].work.SelfEdit?)
    ensures var s', t := Apply(s, Commit(tx)), s.txs[tx];
            && t.account in s.accounts && t.account in s'.accounts
            && s'.accounts[t.account].phone == t.want
            && s'.accounts[t.account].active == s.accounts[t.account].active
            && s'.accounts[t.account].role == (if t.work.AdminEdit? && t.work.newRole.Some? then t.work.newRole.value
                                               else s.accounts[t.account].role)
            && OnlyAccount(s, s', t.account) && tx !in s'.txs
  {
    assert TxShape(s, s.txs[tx]);
  }

  /** A disabled account keeps its role and its phone; no other account and no transaction changed. */
  lemma DisableMeans(s: State, account: Id)
    requires Enabled(s, Disable(account))
    ensures var s' := Apply(s, Disable(account));
            && account in s'.accounts && !s'.accounts[account].active
            && s'.accounts[account].role == s.accounts[account].role
            && s'.accounts[account].phone == s.accounts[account].phone
            && OnlyAccount(s, s', account) && s'.txs == s.txs
  {
  }

  /** A rolled back transaction is gone and left nothing. */
  lemma RollbackMeans(s: State, tx: Id)
    requires Enabled(s, Rollback(tx))
    ensures var s' := Apply(s, Rollback(tx));
            && s'.accounts == s.accounts && s'.txs.Keys == s.txs.Keys - {tx}
            && forall other | other in s'.txs :: s'.txs[other] == s.txs[other]
  {
  }

  // ---------------------------------------------------------------------------------------
  // Each request, alone
  // ---------------------------------------------------------------------------------------

  lemma {:induction false} Perform(start: State, steps: seq<Step>, step: Step)
    returns (more: seq<Step>, next: State)
    requires Legal(start, steps) && Enabled(Run(start, steps), step)
    ensures more == steps + [step] && Legal(start, more)
    ensures next == Run(start, more) == Apply(Run(start, steps), step)
    decreases |steps|
  {
    more := steps + [step];
    if steps != [] {
      var tail, _ := Perform(Apply(start, steps[0]), steps[1..], step);
      assert more[1..] == tail;
    }
    next := Run(start, more);
  }

  /** Only this transaction is open, it has read its profile, and it holds no number. */
  predicate ReadAlone(s: State, tx: Id) {
    && s.txs.Keys == {tx} && s.txs[tx].stage.ProfileRead? && !s.txs[tx].claimed && !s.txs[tx].released
  }

  predicate Refused(s: State, t: Tx) {
    NeedsClaim(t) && HeldByOther(s, t.want, t.account)
  }

  /** Up to the claim's answer: found free or not needed, found taken by an enable, or refused. */
  lemma SoloClaim(start: State, steps: seq<Step>, tx: Id) returns (more: seq<Step>, next: State)
    requires Legal(start, steps) && ReadAlone(Run(start, steps), tx)
    ensures Legal(start, more) && next == Run(start, more)
    ensures var s := Run(start, steps);
            var t := s.txs[tx];
            next == if Refused(s, t) && !t.work.Enable? then State(s.accounts, map[])
                    else State(s.accounts, map[tx := t.(stage := if Refused(s, t) then PhoneTaken else PhoneFree,
                                                        claimed := NeedsClaim(t))])
  {
    hide Run, Legal, Result, NeedsClaim, AfterRead;
    var s := Run(start, steps);
    assert s.txs == map[tx := s.txs[tx]];
    if NeedsClaim(s.txs[tx]) {
      more, next := Perform(start, steps, LockPhone(tx));
      SameAccountsHold(s, next, s.txs[tx].want, s.txs[tx].account);
      more, next := Perform(start, more, CheckPhone(tx));
    } else {
      more, next := Perform(start, steps, SkipClaim(tx));
    }
    if Refused(s, s.txs[tx]) && !s.txs[tx].work.Enable? {
      assert next.txs == map[];
    }
  }

  lemma SameAccountsHold(s: State, s': State, phone: Option<Phone>, account: Id)
    requires s.accounts == s'.accounts
    ensures HeldByOther(s, phone, account) <==> HeldByOther(s', phone, account)
  {
    assert forall other :: Holds(s, other, phone) <==> Holds(s', other, phone);
  }

  /** And to its commit. */
  lemma SoloWrite(start: State, steps: seq<Step>, tx: Id) returns (more: seq<Step>, next: State)
    requires Legal(start, steps)
    requires var s := Run(start, steps);
             s.txs.Keys == {tx} && (s.txs[tx].stage.PhoneFree? || s.txs[tx].stage.PhoneTaken?)
    ensures Legal(start, more) && next == Run(start, more)
    ensures var s := Run(start, steps);
            var t := AfterWrite(s.txs[tx]);
            next == State(s.accounts[t.account := Result(State(s.accounts, map[tx := t]), t)], map[])
  {
    hide Run, Legal, Result, NeedsClaim, AfterRead;
    var s := Run(start, steps);
    more, next := Perform(start, steps, WriteProfile(tx));
    assert next == State(s.accounts, map[tx := AfterWrite(s.txs[tx])]);
    more, next := Perform(start, more, Commit(tx));
    assert next.txs == map[];
  }

  /** An enable alone: the account is active again, with its phone unless an active account has it. */
  lemma SoloEnable(s: State, tx: Id, account: Id) returns (steps: seq<Step>, at: State)
    requires s.txs == map[] && account in s.accounts
    requires !s.accounts[account].active && !s.accounts[account].role.Admin?
    ensures Legal(s, steps) && at == Run(s, steps) && at.txs == map[]
    ensures var before := s.accounts[account];
            at.accounts == s.accounts[account := Account(before.role, true,
              if before.phone.Some? && HeldByOther(s, before.phone, account) then None else before.phone)]
  {
    assert Legal(s, []) && Run(s, []) == s;
    hide Run, Legal;
    steps, at := Perform(s, [], BeginEnable(tx, account));
    steps, at := Perform(s, steps, ReadProfile(tx));
    SameAccountsHold(s, at, s.accounts[account].phone, account);
    steps, at := SoloClaim(s, steps, tx);
    steps, at := SoloWrite(s, steps, tx);
  }

  /** Some other active account has the phone, and this one would be new to it. */
  predicate Taken(s: State, account: Id, asked: Option<Phone>, stored: Option<Phone>) {
    asked.Some? && asked != stored && HeldByOther(s, asked, account)
  }

  /** An admin's edit alone: refused when the phone is taken, and else phone and role as asked. */
  lemma SoloAdminEdit(s: State, tx: Id, account: Id, patch: Patch, newRole: Option<Role>)
    returns (steps: seq<Step>, at: State)
    requires s.txs == map[] && account in s.accounts && s.accounts[account].active
    requires StaffProfile(s.accounts[account].role) && (newRole.Some? ==> StaffProfile(newRole.value))
    ensures Legal(s, steps) && at == Run(s, steps) && at.txs == map[]
    ensures var before := s.accounts[account];
            var asked := if patch.Set? then Some(patch.phone) else if patch.Clear? then None else before.phone;
            at.accounts == if Taken(s, account, asked, before.phone) then s.accounts
                           else s.accounts[account := Account(if newRole.Some? then newRole.value else before.role,
                                                              true, asked)]
  {
    assert Legal(s, []) && Run(s, []) == s;
    hide Run, Legal;
    steps, at := Perform(s, [], BeginAdminEdit(tx, account, patch, newRole));
    steps, at := Perform(s, steps, ReadProfile(tx));
    SameAccountsHold(s, at, at.txs[tx].want, account);
    steps, at := SoloClaim(s, steps, tx);
    if tx in at.txs {
      steps, at := SoloWrite(s, steps, tx);
    }
  }

  /** A self-service edit alone: the same, role untouched. */
  lemma SoloSelfEdit(s: State, tx: Id, account: Id, patch: Patch) returns (steps: seq<Step>, at: State)
    requires s.txs == map[] && account in s.accounts && s.accounts[account].active
    ensures Legal(s, steps) && at == Run(s, steps) && at.txs == map[]
    ensures var before := s.accounts[account];
            var asked := if patch.Set? then Some(patch.phone) else if patch.Clear? then None else before.phone;
            at.accounts == if Taken(s, account, asked, before.phone) then s.accounts
                           else s.accounts[account := before.(phone := asked)]
  {
    assert Legal(s, []) && Run(s, []) == s;
    hide Run, Legal;
    steps, at := Perform(s, [], BeginSelfEdit(tx, account, patch));
    SameAccountsHold(s, at, at.txs[tx].want, account);
    steps, at := SoloClaim(s, steps, tx);
    if tx in at.txs {
      steps, at := SoloWrite(s, steps, tx);
    }
  }

  /** A create alone: refused when the phone is taken, and else a new active account. */
  lemma SoloCreate(s: State, tx: Id, account: Id, role: Role, phone: Option<Phone>)
    returns (steps: seq<Step>, at: State)
    requires s.txs == map[] && account !in s.accounts && StaffProfile(role)
    ensures Legal(s, steps) && at == Run(s, steps) && at.txs == map[]
    ensures at.accounts == if phone.Some? && HeldByOther(s, phone, account) then s.accounts
                           else s.accounts[account := Account(role, true, phone)]
  {
    assert Legal(s, []) && Run(s, []) == s;
    hide Run, Legal;
    steps, at := Perform(s, [], BeginCreate(tx, account, role, phone));
    SameAccountsHold(s, at, phone, account);
    steps, at := SoloClaim(s, steps, tx);
    if tx in at.txs {
      steps, at := SoloWrite(s, steps, tx);
    }
  }

  // ---------------------------------------------------------------------------------------
  // The overlap that does make two accounts share.
  // ---------------------------------------------------------------------------------------

  /** A claim that finds its number free runs to its write, and keeps its lock. */
  lemma ClaimAndWrite(start: State, steps: seq<Step>, tx: Id) returns (more: seq<Step>, next: State)
    requires Legal(start, steps) && InStage(Run(start, steps), tx, ProfileRead)
    requires var s := Run(start, steps);
             var t := s.txs[tx];
             && NeedsClaim(t) && PhoneLockFree(s, t.want) && !HeldByOther(s, t.want, t.account)
             && ProfileRowFree(s, t.account) && !t.work.Enable? && !t.released
    ensures Legal(start, more) && next == Run(start, more)
    ensures var s := Run(start, steps);
            next == s.(txs := s.txs[tx := s.txs[tx].(stage := Written, claimed := true)])
  {
    hide Run, Legal, Result;
    var s := Run(start, steps);
    var t := s.txs[tx];
    more, next := Perform(start, steps, LockPhone(tx));
    assert !HeldByOther(next, t.want, t.account) by {
      assert forall other :: Holds(next, other, t.want) ==> Holds(s, other, t.want);
    }
    more, next := Perform(start, more, CheckPhone(tx));
    assert ProfileRowFree(next, t.account);
    more, next := Perform(start, more, WriteProfile(tx));
  }

  lemma ClaimAndCommit(start: State, steps: seq<Step>, tx: Id) returns (more: seq<Step>, next: State)
    requires Legal(start, steps) && InStage(Run(start, steps), tx, ProfileRead)
    requires var s := Run(start, steps);
             var t := s.txs[tx];
             && NeedsClaim(t) && PhoneLockFree(s, t.want) && !HeldByOther(s, t.want, t.account)
             && ProfileRowFree(s, t.account) && !t.work.Enable? && !t.released
    ensures Legal(start, more) && next == Run(start, more)
    ensures var s := Run(start, steps);
            var t := s.txs[tx];
            next == State(s.accounts[t.account := Result(s, t)], s.txs - {tx})
  {
    hide Run, Legal;
    more, next := ClaimAndWrite(start, steps, tx);
    more, next := Perform(start, more, Commit(tx));
    assert next.txs == Run(start, steps).txs - {tx};
  }

  /** An admin edit of account 1 has read the number 7 and decided not to claim it. */
  lemma AdminEditReads() returns (start: State, steps: seq<Step>)
    ensures start == State(map[1 := Account(Staff, true, Some(7))], map[]) && Legal(start, steps)
    ensures Run(start, steps) == State(start.accounts, map[10 := WritingBack()])
  {
    start, steps := State(map[1 := Account(Staff, true, Some(7))], map[]), [];
    var s;
    steps, s := Perform(start, steps, BeginAdminEdit(10, 1, Keep, None));
    steps, s := Perform(start, steps, ReadProfile(10));
    steps, s := Perform(start, steps, SkipClaim(10));
  }

  function WritingBack(): Tx {
    Tx(1, AdminEdit(Keep, None), PhoneFree, Some(7), Some(7), false, false)
  }

  /** Meanwhile the account takes the number 8 itself. */
  lemma NumberGivenUp(start: State, steps: seq<Step>) returns (more: seq<Step>)
    requires Legal(start, steps)
    requires Run(start, steps) == State(map[1 := Account(Staff, true, Some(7))], map[10 := WritingBack()])
    ensures Legal(start, more)
    ensures Run(start, more) == State(map[1 := Account(Staff, true, Some(8))], map[10 := WritingBack()])
  {
    hide Run, Legal;
    var s;
    more, s := Perform(start, steps, BeginSelfEdit(11, 1, Set(8)));
    more, s := ClaimAndCommit(start, more, 11);
    assert s.txs == map[10 := WritingBack()];
  }

  /** And a new account takes 7. */
  lemma NumberTaken(start: State, steps: seq<Step>) returns (more: seq<Step>)
    requires Legal(start, steps)
    requires Run(start, steps) == State(map[1 := Account(Staff, true, Some(8))], map[10 := WritingBack()])
    ensures Legal(start, more)
    ensures Run(start, more).txs == map[10 := WritingBack()]
    ensures Holds(Run(start, more), 1, Some(8)) && Holds(Run(start, more), 2, Some(7))
  {
    hide Run, Legal;
    var s;
    more, s := Perform(start, steps, BeginCreate(12, 2, Staff, Some(7)));
    more, s := ClaimAndCommit(start, more, 12);
    assert s.txs == map[10 := WritingBack()];
  }

  /**
   A self-service edit that runs from start to commit inside an admin edit's window is enough to
   break uniqueness: the admin edit writes back, unclaimed, a number its account no longer had.
   */
  lemma LostUpdateShares() returns (start: State, steps: seq<Step>)
    ensures start.txs == map[] && Unique(start) && Legal(start, steps)
    ensures !Unique(Run(start, steps))
  {
    start, steps := AdminEditReads();
    steps := NumberGivenUp(start, steps);
    steps := NumberTaken(start, steps);
    var s;
    steps, s := Perform(start, steps, WriteProfile(10));
    steps, s := Perform(start, steps, Commit(10));
    assert Sharing(s, 1, 2);
  }

  /** A new account has claimed 7, found it free and written it, and has yet to commit. */
  lemma NumberClaimed(start: State, steps: seq<Step>) returns (more: seq<Step>, next: State)
    requires Legal(start, steps)
    requires Run(start, steps) == State(map[1 := Account(Staff, true, Some(8))], map[10 := WritingBack()])
    ensures Legal(start, more) && next == Run(start, more)
    ensures next == State(map[1 := Account(Staff, true, Some(8))],
                          map[10 := WritingBack(), 12 := Claiming()])
  {
    hide Run, Legal, AfterRead, Result, Resolve;
    more, next := Perform(start, steps, BeginCreate(12, 2, Staff, Some(7)));
    more, next := ClaimAndWrite(start, more, 12);
  }

  function Claiming(): Tx {
    Tx(2, Create(Staff), Written, None, Some(7), true, false)
  }

  /** The admin edit writes 7 back and commits. */
  lemma WrittenBack(start: State, steps: seq<Step>) returns (more: seq<Step>, next: State)
    requires Legal(start, steps)
    requires Run(start, steps) == State(map[1 := Account(Staff, true, Some(8))],
                                        map[10 := WritingBack(), 12 := Claiming()])
    ensures Legal(start, more) && next == Run(start, more)
    ensures next == State(map[1 := Account(Staff, true, Some(7))], map[12 := Claiming()])
  {
    hide Run, Legal, HeldByOther, NeedsClaim;
    more, next := Perform(start, steps, WriteProfile(10));
    WriteBackCommits(next);
    more, next := Perform(start, more, Commit(10));
  }

  lemma WriteBackCommits(s: State)
    requires s.accounts == map[1 := Account(Staff, true, Some(8))]
    requires s.txs == map[10 := WritingBack(), 12 := Claiming()][10 := AfterWrite(WritingBack())]
    ensures Enabled(s, Commit(10))
    ensures Apply(s, Commit(10)) == State(map[1 := Account(Staff, true, Some(7))], map[12 := Claiming()])
  {
    assert s.txs - {10} == map[12 := Claiming()];
  }

  lemma ClaimerCommits(s: State)
    requires s == State(map[1 := Account(Staff, true, Some(7))], map[12 := Claiming()])
    ensures Unique(s) && Enabled(s, Commit(12)) && Fresh(s, s.txs[12])
    ensures Sharing(Apply(s, Commit(12)), 1, 2)
  {
  }

  /**
   The same write back, committed before the claimer, overruns its claim: the pair then appears
   at a commit that is fresh and holds the lock of its number.
   */
  lemma OverrunClaimShares() returns (start: State, steps: seq<Step>)
    ensures start.txs == map[] && Unique(start) && Legal(start, steps)
    ensures var s := Run(start, steps);
            && Unique(s) && Enabled(s, Commit(12)) && Fresh(s, s.txs[12]) && s.txs[12].claimed
            && !Unique(Apply(s, Commit(12)))
  {
    start, steps := AdminEditReads();
    hide Run, Legal, Fresh;
    steps := NumberGivenUp(start, steps);
    var s;
    steps, s := NumberClaimed(start, steps);
    steps, s := WrittenBack(start, steps);
    ClaimerCommits(s);
  }
}
