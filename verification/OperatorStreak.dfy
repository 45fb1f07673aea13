/**
 The deny-streak lockout of one verification agent: three denials in a row disable the account,
 and only a superadmin or a reviewer of the agent's client may lift that lock.
 A deny is a read followed, later, by a write; any number may be in flight.
 */
module OperatorStreak {

  const DENY_THRESHOLD := 3

  /** users.disable_reason: NULL, 'manual' or 'auto_streak'. */
  datatype Reason = NoReason | Manual | AutoStreak

  /** users.consecutive_denials, users.disabled_at IS NOT NULL, users.disable_reason. */
  datatype Account = Account(denials: int, disabled: bool, reason: Reason)

  /** The account, the streaks that in-flight denies have read but not yet written back, and the lockout mails sent. */
  datatype System = System(account: Account, inFlight: seq<int>, mails: nat)

  datatype Action =
    | Approve
    | DenyRead
    | DenyWrite(i: nat)
    | DenyLost(i: nat)
    | ManualDisable
    | InstituteEnable
    | ReviewerEnable(inScope: bool)
    | SuperadminEnable

  const FRESH := Account(0, false, NoReason)

  // ---------- the UPDATE statements ----------

  /** The guarded trip: only a row that is still enabled is stamped. */
  function Trip(a: Account, streak: int): Account {
    if a.disabled then a else Account(streak, true, AutoStreak)
  }

  /** The write half of a deny that had read `seen`; the row may have changed since. */
  function WriteDeny(a: Account, seen: int): Account {
    if seen + 1 >= DENY_THRESHOLD then Trip(a, seen + 1) else a.(denials := seen + 1)
  }

  /** The institute admin's enable does not match an auto-locked row. */
  function LiftManual(a: Account): Account {
    if a.reason == AutoStreak then a else FRESH
  }

  function Without(s: seq<int>, i: nat): (r: seq<int>)
    requires i < |s|
    ensures forall x :: x in r ==> x in s
  {
    s[..i] + s[i + 1..]
  }

  function Next(s: System, a: Action): System {
    match a
    case Approve => s.(account := s.account.(denials := 0))
    case DenyRead => if s.account.disabled then s else s.(inFlight := s.inFlight + [s.account.denials])
    case DenyWrite(i) =>
      if i >= |s.inFlight| then s
      else
        var seen := s.inFlight[i];
        System(WriteDeny(s.account, seen), Without(s.inFlight, i),
               s.mails + if seen + 1 >= DENY_THRESHOLD then 1 else 0)
    case DenyLost(i) => if i >= |s.inFlight| then s else s.(inFlight := Without(s.inFlight, i))
    case ManualDisable => s.(account := s.account.(disabled := true, reason := Manual))
    case InstituteEnable => s.(account := LiftManual(s.account))
    case ReviewerEnable(inScope) => if inScope then s.(account := FRESH) else s
    case SuperadminEnable => s.(account := FRESH)
  }

  function Run(s: System, actions: seq<Action>): System
    decreases |actions|
  {
    if actions == [] then s else Run(Next(s, actions[0]), actions[1..])
  }

  // ---------- the counter, over every interleaving ----------

  /** At most three, and at most two whenever the account is enabled. */
  ghost predicate Bounded(s: System) {
    && 0 <= s.account.denials <= DENY_THRESHOLD
    && (!s.account.disabled ==> s.account.denials < DENY_THRESHOLD && s.account.reason == NoReason)
    && (s.account.disabled ==> s.account.reason != NoReason)
    && (forall seen :: seen in s.inFlight ==> 0 <= seen < DENY_THRESHOLD)
  }

  lemma NextKeepsBounded(s: System, a: Action)
    requires Bounded(s)
    ensures Bounded(Next(s, a))
  {
    if a.DenyWrite? && a.i < |s.inFlight| { assert s.inFlight[a.i] in s.inFlight; }
  }

  /** Whatever is in flight and however it interleaves, the counter never passes three, nor two while enabled. */
  lemma {:induction false} RunKeepsBounded(s: System, actions: seq<Action>)
    requires Bounded(s)
    ensures Bounded(Run(s, actions))
    decreases |actions|
  {
    if actions != [] {
      NextKeepsBounded(s, actions[0]);
      RunKeepsBounded(Next(s, actions[0]), actions[1..]);
    }
  }

  /** A deny whose write never happens leaves nothing behind but one deny less in flight. */
  lemma LostWritesNothing(s: System, i: nat)
    requires i < |s.inFlight|
    ensures var s' := Next(s, DenyLost(i));
            && s'.account == s.account && s'.mails == s.mails
            && multiset(s.inFlight) == multiset(s'.inFlight) + multiset{s.inFlight[i]}
  {
    assert s.inFlight == s.inFlight[..i] + [s.inFlight[i]] + s.inFlight[i + 1..];
  }

  // ---------- the lock ----------

  predicate Locked(s: System) {
    s.account.disabled && s.account.reason == AutoStreak
  }

  /** The two actions entitled to lift an automatic lock. */
  predicate Entitled(a: Action) {
    a == SuperadminEnable || a == ReviewerEnable(true)
  }

  /** One step lifts an automatic lock exactly when it is an entitled one, and then the counter is back at zero. */
  lemma LockLiftedOnlyByEntitled(s: System, a: Action)
    requires Locked(s)
    ensures !Next(s, a).account.disabled <==> Entitled(a)
    ensures Entitled(a) ==> Next(s, a).account == FRESH
    ensures !Entitled(a) && a != ManualDisable ==> Locked(Next(s, a))
  {}

  /** A disabled account opens exactly by an entitled enable or, after a manual disable, by the institute's own. */
  lemma OpensExactly(s: System, a: Action)
    requires Bounded(s) && s.account.disabled
    ensures !Next(s, a).account.disabled <==> Entitled(a) || (a == InstituteEnable && s.account.reason == Manual)
    ensures !Next(s, a).account.disabled ==> Next(s, a).account == FRESH
  {}

  /** An enabled account closes exactly by a manual disable or on a third deny, and keeps the reason apart. */
  lemma ClosesExactly(s: System, a: Action)
    requires Bounded(s) && !s.account.disabled
    ensures var t := Next(s, a).account;
            var third := a.DenyWrite? && a.i < |s.inFlight| && s.inFlight[a.i] == DENY_THRESHOLD - 1;
            && (t.disabled <==> a == ManualDisable || third)
            && (t.disabled ==> t.reason == if third then AutoStreak else Manual)
  {
    if a.DenyWrite? && a.i < |s.inFlight| { assert s.inFlight[a.i] in s.inFlight; }
  }

  /** Verdicts, stale writes and institute-admin enables, in any number and order, never lift the lock. */
  lemma {:induction false} LockHolds(s: System, actions: seq<Action>)
    requires Locked(s)
    requires forall i :: 0 <= i < |actions| ==> !Entitled(actions[i]) && actions[i] != ManualDisable
    ensures Locked(Run(s, actions))
    decreases |actions|
  {
    if actions != [] {
      LockLiftedOnlyByEntitled(s, actions[0]);
      assert forall i :: 0 <= i < |actions[1..]| ==> actions[1..][i] == actions[i + 1];
      LockHolds(Next(s, actions[0]), actions[1..]);
    }
  }

  /** The account is enabled at some point of the run. */
  predicate EverEnabled(s: System, actions: seq<Action>)
    decreases |actions|
  {
    !s.account.disabled || (actions != [] && EverEnabled(Next(s, actions[0]), actions[1..]))
  }

  /** A manual disable that an institute enable follows. */
  predicate DisableThenEnable(actions: seq<Action>)
    decreases |actions|
  {
    actions != [] &&
    ((actions[0] == ManualDisable && InstituteEnable in actions[1..]) || DisableThenEnable(actions[1..]))
  }

  lemma {:induction false} ManualLockEnds(s: System, actions: seq<Action>)
    requires s.account.disabled && s.account.reason == Manual
    requires forall a :: a in actions ==> !Entitled(a)
    ensures EverEnabled(s, actions) <==> InstituteEnable in actions
    decreases |actions|
  {
    if actions != [] && actions[0] != InstituteEnable {
      assert actions[0] in actions && actions == [actions[0]] + actions[1..];
      ManualLockEnds(Next(s, actions[0]), actions[1..]);
    }
  }

  /**
   The promise "only a superadmin or reviewer lifts an auto_streak lock" is not what the code keeps:
   a manual disable overwrites the reason, and the institute's own enable then matches the row.
   Among runs without an entitled enable, these are exactly the ones that open the account.
   */
  lemma {:induction false} LockEscapesExactlyBy(s: System, actions: seq<Action>)
    requires Locked(s)
    requires forall a :: a in actions ==> !Entitled(a)
    ensures EverEnabled(s, actions) <==> DisableThenEnable(actions)
    decreases |actions|
  {
    if actions != [] {
      var rest, s' := actions[1..], Next(s, actions[0]);
      assert forall a :: a in rest ==> a in actions;
      if actions[0] == ManualDisable {
        ManualLockEnds(s', rest);
        if DisableThenEnable(rest) { EnableInside(rest); }
      } else {
        LockLiftedOnlyByEntitled(s, actions[0]);
        LockEscapesExactlyBy(s', rest);
      }
    }
  }

  lemma {:induction false} EnableInside(actions: seq<Action>)
    requires DisableThenEnable(actions)
    ensures InstituteEnable in actions
    decreases |actions|
  {
    if !(actions[0] == ManualDisable && InstituteEnable in actions[1..]) { EnableInside(actions[1..]); }
  }

  // ---------- the lockout mail ----------

  predicate Trips(s: System, a: Action) {
    !s.account.disabled && Locked(Next(s, a))
  }

  /** The write of a third deny that was read before another writer disabled the row. */
  predicate StaleThird(s: System, a: Action) {
    a.DenyWrite? && a.i < |s.inFlight| && s.inFlight[a.i] == DENY_THRESHOLD - 1 && s.account.disabled
  }

  /**
   The mail is meant to go out exactly once, when the streak trips. A step mails without tripping exactly when
   it is such a write.
   */
  lemma MailWithoutTrip(s: System, a: Action)
    requires Bounded(s)
    ensures Next(s, a).mails == s.mails + (if Trips(s, a) || StaleThird(s, a) then 1 else 0)
    ensures !(Trips(s, a) && StaleThird(s, a))
  {
    if a.DenyWrite? && a.i < |s.inFlight| { assert s.inFlight[a.i] in s.inFlight; }
  }

  function TripCount(s: System, actions: seq<Action>): nat
    decreases |actions|
  {
    if actions == [] then 0 else (if Trips(s, actions[0]) then 1 else 0) + TripCount(Next(s, actions[0]), actions[1..])
  }

  predicate EverStale(s: System, actions: seq<Action>)
    decreases |actions|
  {
    actions != [] && (StaleThird(s, actions[0]) || EverStale(Next(s, actions[0]), actions[1..]))
  }

  /**
   Over every run there are at least as many mails as locks, and as many exactly when no third deny was
   written too late.
   */
  lemma {:induction false} MailsCountLocksExactly(s: System, actions: seq<Action>)
    requires Bounded(s)
    ensures Run(s, actions).mails >= s.mails + TripCount(s, actions)
    ensures Run(s, actions).mails == s.mails + TripCount(s, actions) <==> !EverStale(s, actions)
    decreases |actions|
  {
    if actions != [] {
      NextKeepsBounded(s, actions[0]);
      MailWithoutTrip(s, actions[0]);
      MailsCountLocksExactly(Next(s, actions[0]), actions[1..]);
    }
  }

  /** Two third denies in flight together: one lock, two mails. */
  lemma TwoMailsOneLock()
    ensures var s := System(Account(2, false, NoReason), [], 0);
            var s' := Run(s, [DenyRead, DenyRead, DenyWrite(0), DenyWrite(0)]);
            s'.mails == 2 && s'.account == Account(3, true, AutoStreak)
  {}

  // ---------- serial runs ----------

  datatype Op = Verified | Denied | Other(a: Action)

  /** A deny whose read and write are adjacent. */
  function Serial(s: System, op: Op): System {
    match op
    case Verified => Next(s, Approve)
    case Denied => if s.account.disabled then s else Next(Next(s, DenyRead), DenyWrite(|s.inFlight|))
    case Other(a) => if a.DenyRead? || a.DenyWrite? || a.DenyLost? then s else Next(s, a)
  }

  function SerialRun(ops: seq<Op>): System {
    if ops == [] then System(FRESH, [], 0) else Serial(SerialRun(ops[..|ops| - 1]), ops[|ops| - 1])
  }

  function StreakAfter(n: nat, op: Op): nat {
    match op
    case Verified => 0
    case Denied => n + 1
    case Other(a) => if a in {Approve, InstituteEnable, SuperadminEnable, ReviewerEnable(true)} then 0 else n
  }

  /** Denies since the last approve or enable. */
  function Streak(ops: seq<Op>): nat {
    if ops == [] then 0 else StreakAfter(Streak(ops[..|ops| - 1]), ops[|ops| - 1])
  }

  /** How often the automatic lock was set. */
  function Locks(ops: seq<Op>): nat {
    if ops == [] then 0
    else
      var before := SerialRun(ops[..|ops| - 1]);
      Locks(ops[..|ops| - 1]) + if !before.account.disabled && Locked(SerialRun(ops)) then 1 else 0
  }

  /** The system between two serial operations: bounded, nothing in flight, and the counter right while enabled. */
  ghost predicate InStep(s: System, streak: nat) {
    Bounded(s) && s.inFlight == [] && (!s.account.disabled ==> s.account.denials == streak)
  }

  /** A deny with nothing in between adds one to the counter, or trips the lock and mails. */
  lemma SerialDeny(s: System, streak: nat)
    requires InStep(s, streak) && !s.account.disabled
    ensures var s' := Serial(s, Denied);
            && InStep(s', streak + 1) && (Locked(s') <==> streak + 1 == DENY_THRESHOLD)
            && s'.mails == s.mails + if Locked(s') then 1 else 0
  {
    var read := Next(s, DenyRead);
    assert read.inFlight == [s.account.denials] && Without(read.inFlight, 0) == [];
    NextKeepsBounded(s, DenyRead);
    NextKeepsBounded(read, DenyWrite(0));
  }

  lemma SerialOther(s: System, op: Op, streak: nat)
    requires InStep(s, streak) && (op == Denied ==> s.account.disabled)
    ensures var s' := Serial(s, op);
            InStep(s', StreakAfter(streak, op)) && s'.mails == s.mails && (!s.account.disabled ==> !Locked(s'))
  {
    if op.Other? { NextKeepsBounded(s, op.a); }
  }

  lemma SerialUnfolds(ops: seq<Op>)
    requires ops != []
    ensures var front, last := ops[..|ops| - 1], ops[|ops| - 1];
            && SerialRun(ops) == Serial(SerialRun(front), last) && Streak(ops) == StreakAfter(Streak(front), last)
            && Locks(ops) ==
               Locks(front) + if !SerialRun(front).account.disabled && Locked(SerialRun(ops)) then 1 else 0
  {}

  /**
   One request at a time: while enabled, the counter is the denies since the last approve or enable;
   the account locks itself exactly on the third; and there is one mail per lock.
   */
  lemma {:induction false} SerialCounts(ops: seq<Op>)
    ensures InStep(SerialRun(ops), Streak(ops)) && SerialRun(ops).mails == Locks(ops)
    ensures |ops| > 0 && !SerialRun(ops[..|ops| - 1]).account.disabled ==>
              (Locked(SerialRun(ops)) <==> ops[|ops| - 1] == Denied && Streak(ops) == DENY_THRESHOLD)
  {
    if ops != [] {
      var front, last := ops[..|ops| - 1], ops[|ops| - 1];
      SerialCounts(front);
      SerialUnfolds(ops);
      if last == Denied && !SerialRun(front).account.disabled { SerialDeny(SerialRun(front), Streak(front)); }
      else { SerialOther(SerialRun(front), last, Streak(front)); }
    }
  }

  // ---------- the row, and the handlers' updates of it ----------

  datatype Outcome = Lifted | AutoLocked | AgentNotFound

  class AgentRow {
    var denials: int
    var disabled: bool
    var reason: Reason
    const orgId: int
    const isAgent: bool

    function Row(): Account
      reads this
    {
      Account(denials, disabled, reason)
    }

    constructor (orgId: int, isAgent: bool)
      ensures Row() == FRESH && this.orgId == orgId && this.isAgent == isAgent
    {
      this.orgId, this.isAgent := orgId, isAgent;
      denials, disabled, reason := 0, false, NoReason;
    }

    /** bumpOperatorStreak with nothing in between its read and its write. */
    method Bump(verified: bool) returns (mailed: bool)
      requires Bounded(System(Row(), [], 0))
      modifies this`denials, this`disabled, this`reason
      ensures System(Row(), [], if mailed then 1 else 0)
           == Serial(System(old(Row()), [], 0), if verified then Verified else Denied)
      ensures mailed <==> !verified && !old(disabled) && old(denials) == 2
    {
      if verified {
        denials := 0;
        return false;
      }
      var oldStreak, wasDisabled := denials, disabled;
      if wasDisabled { return false; }
      var newStreak := oldStreak + 1;
      ghost var read := Next(System(Row(), [], 0), DenyRead);
      assert read.inFlight == [oldStreak] && Without(read.inFlight, 0) == [];
      if newStreak >= DENY_THRESHOLD {
        if !disabled {
          denials, disabled, reason := newStreak, true, AutoStreak;
        }
        return true;
      }
      denials := newStreak;
      return false;
    }

    /** setOperatorDisabled: the institute admin's own switch. */
    method SetDisabled(callerOrg: int, disable: bool) returns (outcome: Outcome)
      modifies this`denials, this`disabled, this`reason
      ensures !(isAgent && callerOrg == orgId) ==> outcome == AgentNotFound && Row() == old(Row())
      ensures isAgent && callerOrg == orgId ==>
                && Row() == Next(System(old(Row()), [], 0), if disable then ManualDisable else InstituteEnable).account
                && (outcome == AutoLocked <==> !disable && old(reason) == AutoStreak)
                && (outcome == Lifted <==> disable || old(reason) != AutoStreak)
    {
      if !(isAgent && callerOrg == orgId) { return AgentNotFound; }
      if disable {
        disabled, reason := true, Manual;
        return Lifted;
      }
      if reason != AutoStreak {
        denials, disabled, reason := 0, false, NoReason;
        return Lifted;
      }
      return AutoLocked;
    }

    /**
     reviewerEnableAgent (`approvedByClient`: an approved row links the agent's organisation to the reviewer's
     client) and superadminEnableAgent.
     */
    method Enable(superadmin: bool, approvedByClient: bool) returns (outcome: Outcome)
      modifies this`denials, this`disabled, this`reason
      ensures isAgent ==>
                Row() == Next(System(old(Row()), [], 0),
                              if superadmin then SuperadminEnable else ReviewerEnable(approvedByClient)).account
      ensures outcome == Lifted <==> isAgent && (superadmin || approvedByClient)
      ensures outcome != Lifted ==> outcome == AgentNotFound && Row() == old(Row())
    {
      if !isAgent || !(superadmin || approvedByClient) { return AgentNotFound; }
      denials, disabled, reason := 0, false, NoReason;
      return Lifted;
    }
  }
}
