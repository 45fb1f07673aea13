/**
 The life of KYC applications under every writer of their status: the submit reconcile, reviewer
 calls that read first and write later, resubmission, retried Control Plane messages, and
 re-registration. Each SQL statement is one step; any number of calls may be in flight.
 */
module KycLifecycle {
  import opened Wrappers
  import opened Applications
  import opened Registration

  datatype Mode = AdminMode | ClientMode | BothMode

  /** A client board: kyc_review_mode and portal_enabled. */
  datatype Board = Board(mode: Mode, portal: bool)

  /** What a call is for; `scope` is the client reviewer's board, None for a superadmin. */
  datatype Task =
    | Approve(scope: Option<int>)
    | Reject(scope: Option<int>)
    | SuperApprove
    | SuperReject
    | ResubmitTask(documents: bool)

  /** A call in flight on one application, with what it has already read. */
  datatype Call = Call(task: Task, app: int, actor: int, note: string, stage: Stage)

  datatype Stage = Start | PortalChecked | RowChecked(queue: Queue) | Done(outcome: Outcome)

  datatype Outcome =
    | ApprovedIt | RejectedIt | HandedOff | Resubmitted
    | NotFound | NotPending | OutOfScope | PortalDisabled | NoteRequired
    | NotRejected | MissingDocuments | RouteFirst | ClientOnly | Failed

  datatype System = System(apps: Table, next: int, boards: map<int, Board>, calls: seq<Call>)

  datatype Action =
    | Receive(call: Call)
    | Step(i: nat)
    | Fail(i: nat)
    | SubmitReconcile(id: int, cpId: int)
    | ApproveDelivery(id: int)
    | RejectDelivery(id: int, note: string)
    | RevokeDelivery(id: int, note: string)
    | Registered(userEmails: set<Key>, req: Request, gone: set<int>)
    | Patched(id: int, who: Identity)
    | ModeChanged(client: int, mode: Mode)
    | QueueSwept(client: int, mode: Mode)

  // ---------- the calls ----------

  /** The pending_reviewer a mode routes to. */
  function Route(boards: map<int, Board>, client: Option<int>): Queue {
    if client.Some? && client.value in boards && boards[client.value].mode == ClientMode then ClientQueue
    else AdminQueue
  }

  /** applicationReviewMode: the destination board's mode, if the row has a board that exists. */
  function ReviewMode(s: System, id: int): Option<Mode> {
    if id in s.apps && s.apps[id].client.Some? && s.apps[id].client.value in s.boards
    then Some(s.boards[s.apps[id].client.value].mode)
    else None
  }

  function CheckPortal(s: System, scope: Option<int>): Stage {
    match scope
    case None => PortalChecked
    case Some(c) =>
      if c !in s.boards then Done(OutOfScope) else if !s.boards[c].portal then Done(PortalDisabled) else PortalChecked
  }

  function CheckRow(s: System, id: int, scope: Option<int>): Stage {
    if id !in s.apps then Done(NotFound)
    else if scope.Some? && s.apps[id].client != scope then Done(OutOfScope)
    else if s.apps[id].status != Pending then Done(NotPending)
    else RowChecked(NoQueue)
  }

  /** The next statement of a call: the table after it, and the call after it. */
  function Advanced(s: System, c: Call): (Table, Call) {
    match c.task
    case Approve(scope) => ApproveStep(s, c, scope)
    case Reject(scope) => RejectStep(s, c, scope)
    case SuperApprove => SuperApproveStep(s, c)
    case SuperReject => (s.apps, SuperRejectStep(s, c))
    case ResubmitTask(documents) => ResubmitStep(s, c, documents)
  }

  /** approveApplication: portal, row, guarded flip whose row count decides the answer. */
  function ApproveStep(s: System, c: Call, scope: Option<int>): (Table, Call) {
    match c.stage
    case Start => (s.apps, c.(stage := CheckPortal(s, scope)))
    case PortalChecked => (s.apps, c.(stage := CheckRow(s, c.app, scope)))
    case RowChecked(_) =>
      if MayApprove(s.apps, c.app, scope)
      then (ApproveFlip(s.apps, c.app, c.actor, c.note, scope), c.(stage := Done(ApprovedIt)))
      else (s.apps, c.(stage := Done(if scope.Some? then OutOfScope else NotPending)))
    case Done(_) => (s.apps, c)
  }

  /** rejectApplication: the same reads, and an update whose row count nobody looks at. */
  function RejectStep(s: System, c: Call, scope: Option<int>): (Table, Call) {
    match c.stage
    case Start => (s.apps, c.(stage := if c.note == "" then Done(NoteRequired) else CheckPortal(s, scope)))
    case PortalChecked => (s.apps, c.(stage := CheckRow(s, c.app, scope)))
    case RowChecked(_) => (RejectFlip(s.apps, c.app, c.actor, c.note), c.(stage := Done(RejectedIt)))
    case Done(_) => (s.apps, c)
  }

  /** superadminApproveApplication: a two-stage board gets a hand-off, any other row the full approval. */
  function SuperApproveStep(s: System, c: Call): (Table, Call) {
    match c.stage
    case Start =>
      (s.apps, if ReviewMode(s, c.app) == Some(BothMode) then c.(stage := RowChecked(ClientQueue))
               else c.(task := Approve(None)))
    case RowChecked(_) => (Advance(s.apps, c.app, c.note), c.(stage := Done(AdvanceOutcome(s.apps, c.app))))
    case PortalChecked => (s.apps, c)
    case Done(_) => (s.apps, c)
  }

  /** superadminRejectApplication: only rows routed to a board that is not client-only. */
  function SuperRejectStep(s: System, c: Call): Call {
    if !c.stage.Start? then c
    else if c.app !in s.apps then c.(stage := Done(NotFound))
    else if ReviewMode(s, c.app) == None then c.(stage := Done(RouteFirst))
    else if ReviewMode(s, c.app) == Some(ClientMode) then c.(stage := Done(ClientOnly))
    else c.(task := Reject(None))
  }

  /** adminResubmitMyKYCApplication: status, documents, routing, guarded update. */
  function ResubmitStep(s: System, c: Call, documents: bool): (Table, Call) {
    match c.stage
    case Start =>
      (s.apps, if c.app !in s.apps then c.(stage := Done(NotFound))
               else if s.apps[c.app].status != Rejected then c.(stage := Done(NotRejected))
               else c.(stage := PortalChecked))
    case PortalChecked =>
      (s.apps, if !documents then c.(stage := Done(MissingDocuments))
               else c.(stage := RowChecked(Route(s.boards, if c.app in s.apps then s.apps[c.app].client else None))))
    case RowChecked(queue) => (Resubmit(s.apps, c.app, queue), c.(stage := Done(Resubmitted)))
    case Done(_) => (s.apps, c)
  }

  function AdvanceOutcome(t: Table, id: int): Outcome {
    if MayAdvance(t, id) then HandedOff
    else if id in t && t[id].status != Pending then NotPending
    else NotFound
  }

  /**
   registerInit: `Register` while no two rows share an identity; on any other table which of the clashing
   rows go depends on the rows the checks happen to find, and `gone` is one possible outcome.
   */
  function Enrolled(s: System, userEmails: set<Key>, req: Request, gone: set<int>): System {
    if s.next in s.apps then s
    else if FullyUnique(s.apps) then
      var (t, res) := Register(s.apps, s.next, userEmails, req);
      s.(apps := t, next := if res.Created? then s.next + 1 else s.next)
    else if MayRegister(s.apps, s.next, req, gone) then
      s.(apps := (s.apps - gone)[s.next := NewDraft(req)], next := s.next + 1)
    else s
  }

  function Next(s: System, a: Action): System {
    match a
    case Receive(call) => if call.stage == Start then s.(calls := s.calls + [call]) else s
    case Step(i) =>
      if i >= |s.calls| then s
      else var (apps, call) := Advanced(s, s.calls[i]); s.(apps := apps, calls := s.calls[i := call])
    case Fail(i) => // a database error, or an organisation that could not be provisioned, ends the call
      if i < |s.calls| && !s.calls[i].stage.Done? then s.(calls := s.calls[i := s.calls[i].(stage := Done(Failed))])
      else s
    case SubmitReconcile(id, cpId) => s.(apps := Reconcile(s.apps, id, cpId))
    case ApproveDelivery(id) => s.(apps := Backfill(s.apps, id))
    case RejectDelivery(id, note) => s.(apps := CpReject(s.apps, id, note))
    case RevokeDelivery(id, note) => s.(apps := CpRevoke(s.apps, id, note))
    case Registered(userEmails, req, gone) => Enrolled(s, userEmails, req, gone)
    case Patched(id, who) => s.(apps := Patch(s.apps, id, who))
    case ModeChanged(client, mode) =>
      if client !in s.boards then s else s.(boards := s.boards[client := s.boards[client].(mode := mode)])
    case QueueSwept(client, mode) => // the second statement of a mode change
      s.(apps := Reroute(s.apps, client, if mode == ClientMode then ClientQueue else AdminQueue))
  }

  function Run(s: System, actions: seq<Action>): System {
    if actions == [] then s else Next(Run(s, actions[..|actions| - 1]), actions[|actions| - 1])
  }

  // ---------- what every step does to one row's status ----------

  /** The action is about to write "pending" over a rejected row, or replace it. */
  predicate Reopens(s: System, a: Action, id: int) {
    match a
    case RevokeDelivery(x, _) => x == id
    case Registered(_, req, gone) => id in (if FullyUnique(s.apps) then Clashing(s.apps, req.who) else gone)
    case Step(i) =>
      && i < |s.calls| && s.calls[i].task.ResubmitTask?
      && s.calls[i].app == id && s.calls[i].stage.RowChecked?
    case _ => false
  }

  /** Approved absorbs: no step of any writer moves or deletes an approved row. */
  lemma ApprovedStays(s: System, a: Action, id: int)
    requires id in s.apps && s.apps[id].status == Approved
    ensures id in Next(s, a).apps && Next(s, a).apps[id].status == Approved
  {
    if a.Step? && a.i < |s.calls| { OtherRowsStay(s, s.calls[a.i], id); }
  }

  /** The only ways out of rejected are a resubmission's write, a revoke, and replacement by a new registration. */
  lemma RejectedLeavesOnlyBy(s: System, a: Action, id: int)
    requires id in s.apps && s.apps[id].status == Rejected && !Reopens(s, a, id)
    ensures id in Next(s, a).apps && Next(s, a).apps[id].status == Rejected
  {
    if a.Step? && a.i < |s.calls| { OtherRowsStay(s, s.calls[a.i], id); }
  }

  /** One call step keeps the row's board, and moves a status only from pending, or from rejected by a resubmission. */
  lemma OtherRowsStay(s: System, c: Call, id: int)
    requires id in s.apps
    ensures var t := Advanced(s, c).0;
            && id in t && t[id].client == s.apps[id].client
            && (t[id].status == s.apps[id].status
                || (c.app == id && s.apps[id].status == Pending)
                || (c.app == id && s.apps[id].status == Rejected && c.task.ResubmitTask? && c.stage.RowChecked?))
  {}

  lemma {:induction false} ApprovedAbsorbs(s: System, actions: seq<Action>, id: int)
    requires id in s.apps && s.apps[id].status == Approved
    ensures id in Run(s, actions).apps && Run(s, actions).apps[id].status == Approved
  {
    if actions != [] {
      ApprovedAbsorbs(s, actions[..|actions| - 1], id);
      ApprovedStays(Run(s, actions[..|actions| - 1]), actions[|actions| - 1], id);
    }
  }

  predicate NeverReopened(s: System, actions: seq<Action>, id: int) {
    actions == [] ||
    (NeverReopened(s, actions[..|actions| - 1], id)
     && !Reopens(Run(s, actions[..|actions| - 1]), actions[|actions| - 1], id))
  }

  lemma {:induction false} RejectedPersists(s: System, actions: seq<Action>, id: int)
    requires id in s.apps && s.apps[id].status == Rejected && NeverReopened(s, actions, id)
    ensures id in Run(s, actions).apps && Run(s, actions).apps[id].status == Rejected
  {
    if actions != [] {
      RejectedPersists(s, actions[..|actions| - 1], id);
      RejectedLeavesOnlyBy(Run(s, actions[..|actions| - 1]), actions[|actions| - 1], id);
    }
  }

  /** What may turn one status into another: the cause each transition must have. */
  predicate Causes(s: System, a: Action, id: int, was: Status, now: Status) {
    match (was, now)
    case (Draft, Pending) => a.SubmitReconcile? && a.id == id
    case (Draft, Approved) => a == ApproveDelivery(id) && 0 < id
    case (Draft, Rejected) => a.RejectDelivery? && a.id == id && 0 < id
    case (Pending, Approved) => (a == ApproveDelivery(id) && 0 < id) || Flips(s, a, id, true)
    case (Pending, Rejected) => (a.RejectDelivery? && a.id == id && 0 < id) || Flips(s, a, id, false)
    case (Rejected, Pending) => Reopens(s, a, id) && !a.Registered?
    case _ => false
  }

  /** The write of a reviewer's approval, or rejection, of this application. */
  predicate Flips(s: System, a: Action, id: int, approval: bool) {
    && a.Step? && a.i < |s.calls| && s.calls[a.i].app == id && s.calls[a.i].stage.RowChecked?
    && if approval then s.calls[a.i].task.Approve? else s.calls[a.i].task.Reject?
  }

  /** A row's status moves only by one of the six transitions, each with its own cause. */
  lemma StatusMovesOnlyBy(s: System, a: Action, id: int)
    requires id in s.apps && id in Next(s, a).apps && Next(s, a).apps[id].status != s.apps[id].status
    ensures Causes(s, a, id, s.apps[id].status, Next(s, a).apps[id].status)
  {}

  // ---------- what the writers write ----------

  /** `t'` differs from `t` in this row only. */
  predicate OnlyRow(t: Table, t': Table, id: int) {
    t'.Keys == t.Keys && forall j :: j in t && j != id ==> t'[j] == t[j]
  }

  /** The row is still about the same institution: its identity, its board and its Control Plane id. */
  predicate SameApplicant(x: Application, y: Application) {
    x.who == y.who && x.client == y.client && x.cpId == y.cpId
  }

  /** A revoke puts a rejected row back into the client's queue, and touches no other row. */
  lemma RevokeReopens(s: System, id: int, note: string)
    requires Indexed(s.apps) && IsRejected(s.apps, id) && 0 < id
    ensures var t, t' := s.apps, Next(s, RevokeDelivery(id, note)).apps;
            && OnlyRow(t, t', id) && SameApplicant(t[id], t'[id]) && Indexed(t')
            && t'[id].status == Pending && t'[id].queue == ClientQueue && t'[id].note == note
  {
    LiveRewrite(s.apps, id, s.apps[id].(status := Pending, queue := ClientQueue, note := note));
  }

  /** A delivery without a proper application number does nothing. */
  lemma BadNumbersDoNothing(s: System, id: int, note: string)
    requires id <= 0
    ensures Next(s, ApproveDelivery(id)) == Next(s, RejectDelivery(id, note)) == Next(s, RevokeDelivery(id, note)) == s
  {}

  /** The Control Plane's decision closes a pending row, keeps an earlier note when it brings none, and no other row. */
  lemma DeliveryCloses(s: System, id: int, note: string)
    requires Indexed(s.apps) && IsPending(s.apps, id) && 0 < id
    ensures var t, t' := s.apps, Next(s, RejectDelivery(id, note)).apps;
            && OnlyRow(t, t', id) && SameApplicant(t[id], t'[id]) && Indexed(t')
            && t'[id].status == Rejected && t'[id].queue == NoQueue
            && t'[id].note == (if note == "" then t[id].note else note)
    ensures var t, t' := s.apps, Next(s, ApproveDelivery(id)).apps;
            OnlyRow(t, t', id) && SameApplicant(t[id], t'[id]) && Indexed(t') && t'[id].status == Approved
  {
    var row := s.apps[id];
    LiveRewrite(s.apps, id, row.(status := Rejected, queue := NoQueue, note := NoteOr(note, row.note)));
    LiveRewrite(s.apps, id, row.(status := Approved));
  }

  /** A call that has ended stays as it is; one that fails ends without touching the table or any other call. */
  lemma CallsEndOnce(s: System, a: Action, i: nat)
    requires i < |s.calls|
    ensures s.calls[i].stage.Done? ==> Next(s, a).calls[i] == s.calls[i]
    ensures var s' := Next(s, Fail(i));
            && s'.apps == s.apps && s'.boards == s.boards && s'.next == s.next && |s'.calls| == |s.calls|
            && s'.calls[i].stage.Done? && (!s.calls[i].stage.Done? ==> s'.calls[i].stage == Done(Failed))
            && forall j :: 0 <= j < |s.calls| && j != i ==> s'.calls[j] == s.calls[j]
  {}

  /** The row is pending and sits where a resubmission would now be sent. */
  predicate WellQueued(s: System, id: int) {
    id in s.apps && s.apps[id].status == Pending ==> s.apps[id].queue == Route(s.boards, s.apps[id].client)
  }

  predicate PendingUnder(s: System, id: int, client: int) {
    id in s.apps && s.apps[id].client == Some(client) && s.apps[id].status == Pending
  }

  /**
   A mode change is an update of the board and then a sweep of its pending rows. Whatever happened in between, the sweep
   puts all of them where a resubmission would now be sent exactly if the board's mode still sends them to the same
   queue as the swept one; it touches no other row and no other column.
   */
  lemma SweepQueuesExactly(s: System, client: int, mode: Mode)
    requires client in s.boards && exists id :: PendingUnder(s, id, client)
    ensures var s' := Next(s, QueueSwept(client, mode));
            && s'.boards == s.boards && s'.apps.Keys == s.apps.Keys
            && (forall id :: id in s.apps && !PendingUnder(s, id, client) ==> s'.apps[id] == s.apps[id])
            && (forall id :: id in s.apps ==> s'.apps[id] == s.apps[id].(queue := s'.apps[id].queue))
            && ((forall id :: PendingUnder(s, id, client) ==> WellQueued(s', id)) <==>
                (s.boards[client].mode == ClientMode <==> mode == ClientMode))
  {
    var id :| PendingUnder(s, id, client);
    assert PendingUnder(Next(s, QueueSwept(client, mode)), id, client);
  }

  /** Two mode changes whose sweeps cross leave the pending rows in the queue of the mode that was overwritten. */
  lemma CrossedSweeps(s: System, client: int, id: int)
    requires client in s.boards && PendingUnder(s, id, client)
    ensures var e := Next(Next(Next(Next(s, ModeChanged(client, ClientMode)), ModeChanged(client, AdminMode)),
                               QueueSwept(client, AdminMode)), QueueSwept(client, ClientMode));
            && client in e.boards && e.boards[client] == s.boards[client].(mode := AdminMode)
            && !WellQueued(e, id)
  {}

  /**
   A resubmission served alone goes through exactly for a rejected row with its documents on file; the row is then
   pending without note or reviewer, in the client's queue exactly if its board reviews alone, else in the admin's.
   */
  lemma ResubmitAnswersExactly(s: System, id: int, actor: int, documents: bool)
    requires Indexed(s.apps)
    ensures var (t, c) := Drive(s, Call(ResubmitTask(documents), id, actor, "", Start), 3);
            && (c.stage == Done(Resubmitted) <==> IsRejected(s.apps, id) && documents)
            && (c.stage == Done(NotFound) <==> id !in s.apps)
            && (c.stage == Done(NotRejected) <==> id in s.apps && s.apps[id].status != Rejected)
            && (c.stage == Done(MissingDocuments) <==> IsRejected(s.apps, id) && !documents)
            && (c.stage != Done(Resubmitted) ==> t == s.apps)
            && (c.stage == Done(Resubmitted) ==>
                  && OnlyRow(s.apps, t, id) && SameApplicant(s.apps[id], t[id])
                  && t[id].status == Pending && t[id].note == "" && t[id].reviewer == None
                  && t[id].queue in {ClientQueue, AdminQueue}
                  && (t[id].queue == ClientQueue <==> ReviewMode(s, id) == Some(ClientMode)))
  {
    var c := Call(ResubmitTask(documents), id, actor, "", Start);
    var c1 := Advanced(s, c).1;
    ReadThen(s, c, c1, 2);
    if c1.stage.Done? {
      DoneStays(s, c1, 2);
    } else {
      var c2 := Advanced(s, c1).1;
      ReadThen(s, c1, c2, 1);
      if c2.stage.Done? {
        DoneStays(s, c2, 1);
      } else {
        LiveRewrite(s.apps, id, s.apps[id].(status := Pending, queue := c2.stage.queue, note := "", reviewer := None));
      }
    }
  }

  /** A superadmin's rejection served alone: with a note, of a pending row, whose board does not review alone. */
  lemma SuperRejectAnswersExactly(s: System, id: int, actor: int, note: string)
    requires Indexed(s.apps)
    ensures var (t, c) := Drive(s, Call(SuperReject, id, actor, note, Start), 4);
            var routed := ReviewMode(s, id);
            && (c.stage == Done(RejectedIt) <==>
                  note != "" && IsPending(s.apps, id) && routed.Some? && routed != Some(ClientMode))
            && (c.stage == Done(NotFound) <==> id !in s.apps)
            && (c.stage == Done(RouteFirst) <==> id in s.apps && routed == None)
            && (c.stage == Done(ClientOnly) <==> routed == Some(ClientMode))
            && (c.stage != Done(RejectedIt) ==> t == s.apps)
            && (c.stage == Done(RejectedIt) ==>
                  OnlyRow(s.apps, t, id) && SameApplicant(s.apps[id], t[id]) && t[id].status == Rejected)
  {
    var c := Call(SuperReject, id, actor, note, Start);
    var c1 := Advanced(s, c).1;
    ReadThen(s, c, c1, 3);
    if c1.stage.Done? {
      DoneStays(s, c1, 3);
    } else if note == "" {
      ReadThen(s, c1, c1.(stage := Done(NoteRequired)), 2);
      DoneStays(s, c1.(stage := Done(NoteRequired)), 2);
    } else {
      ReadsOf(s, c1, None);
      if Refusal(s, id, None).Some? {
        DoneStays(s, c1.(stage := Done(Refusal(s, id, None).value)), 1);
      } else {
        var row := s.apps[id].(status := Rejected, queue := NoQueue, reviewer := Some(actor), note := note);
        LiveRewrite(s.apps, id, row);
        var ready := c1.(stage := RowChecked(NoQueue));
        assert Advanced(s, ready) == (s.apps[id := row], c1.(stage := Done(RejectedIt)));
        assert Drive(s, ready, 1) == Advanced(s, ready);
      }
    }
  }

  /**
   A registration in a run: on a table without shared identities it succeeds exactly if all four values are there,
   no enabled user has the e-mail and no live application clashes; then the clashing rows are gone, one draft of the
   request is there under the next id, and every other row is as before.
   */
  lemma RegistersExactly(s: System, userEmails: set<Key>, req: Request, gone: set<int>)
    requires forall id :: id in s.apps ==> id < s.next
    ensures var s' := Next(s, Registered(userEmails, req, gone));
            var clashing := set id | id in s.apps && Clash(s.apps[id].who, req.who);
            var replaced := if FullyUnique(s.apps) then clashing else gone;
            var succeeds := && Valid(req.who) && replaced <= clashing
                            && (forall id :: id in replaced ==> s.apps[id].status !in {Approved, Pending})
                            && (if FullyUnique(s.apps) then req.who.email !in userEmails
                                else Indexed((s.apps - gone)[s.next := NewDraft(req)]));
            && (!succeeds ==> s' == s)
            && (succeeds ==>
                  && s'.next == s.next + 1 && s'.boards == s.boards && s'.calls == s.calls
                  && s'.apps.Keys == s.apps.Keys - replaced + {s.next}
                  && (forall id :: id in s'.apps && id != s.next ==> s'.apps[id] == s.apps[id])
                  && s'.apps[s.next].status == Draft && s'.apps[s.next].who == req.who
                  && s'.apps[s.next].client == req.client)
  {
    assert Clashing(s.apps, req.who) == set id | id in s.apps && Clash(s.apps[id].who, req.who);
  }

  /** A row disappears only when a registration sharing a value with it replaces it, as a draft or when rejected. */
  lemma RowsLeaveOnlyBy(s: System, a: Action, id: int)
    requires id in s.apps && id !in Next(s, a).apps
    ensures a.Registered? && Clash(s.apps[id].who, a.req.who) && s.apps[id].status !in {Approved, Pending}
  {
    if a.Step? && a.i < |s.calls| { CallKeepsClients(s, s.calls[a.i]); }
  }

  // ---------- a reviewer stays on the board ----------

  /** The board a decision is confined to; None for a superadmin's. */
  function Scope(task: Task): Option<int> {
    match task
    case Approve(scope) => scope
    case Reject(scope) => scope
    case _ => None
  }

  /** A confined call past its row check, or that reported success, is about a row of its own board, if still there. */
  predicate OnBoard(s: System, c: Call) {
    Scope(c.task).Some? && (c.stage.RowChecked? || c.stage in {Done(ApprovedIt), Done(RejectedIt)}) ==>
      c.app < s.next && (c.app in s.apps ==> s.apps[c.app].client == Scope(c.task))
  }

  ghost predicate BoardsApart(s: System) {
    && (forall id :: id in s.apps ==> id < s.next)
    && forall i :: 0 <= i < |s.calls| ==> OnBoard(s, s.calls[i])
  }

  /** If the action is a statement of a call confined to a board, every row of another board is as before. */
  predicate SparesOtherBoards(s: System, a: Action) {
    a.Step? && a.i < |s.calls| && Scope(s.calls[a.i].task).Some? ==>
      forall id :: id in s.apps && s.apps[id].client != Scope(s.calls[a.i].task) ==>
        id in Next(s, a).apps && Next(s, a).apps[id] == s.apps[id]
  }

  /** No row changes board, and ids are not used twice. */
  lemma ClientsStay(s: System, a: Action)
    requires forall id :: id in s.apps ==> id < s.next
    ensures var s' := Next(s, a);
            && s.next <= s'.next && (forall id :: id in s'.apps ==> id < s'.next)
            && forall id :: id in s'.apps && id < s.next ==> id in s.apps && s'.apps[id].client == s.apps[id].client
  {
    if a.Step? && a.i < |s.calls| { CallKeepsClients(s, s.calls[a.i]); }
  }

  lemma CallKeepsClients(s: System, c: Call)
    ensures var t := Advanced(s, c).0;
            t.Keys == s.apps.Keys && forall id :: id in t ==> t[id].client == s.apps[id].client
  {}

  lemma CallStaysOnBoard(s: System, i: nat)
    requires BoardsApart(s) && i < |s.calls|
    ensures OnBoard(Next(s, Step(i)), Advanced(s, s.calls[i]).1)
    ensures SparesOtherBoards(s, Step(i))
  {
    assert OnBoard(s, s.calls[i]);
    ClientsStay(s, Step(i));
  }

  lemma NextStaysOnBoard(s: System, a: Action)
    requires BoardsApart(s)
    ensures BoardsApart(Next(s, a)) && SparesOtherBoards(s, a)
  {
    var s' := Next(s, a);
    ClientsStay(s, a);
    if a.Step? && a.i < |s.calls| { CallStaysOnBoard(s, a.i); }
    forall i | 0 <= i < |s'.calls| ensures OnBoard(s', s'.calls[i]) {
      if i < |s.calls| { assert OnBoard(s, s.calls[i]); }
    }
  }

  predicate OthersSparedThroughout(s: System, actions: seq<Action>) {
    actions == [] ||
    (&& OthersSparedThroughout(s, actions[..|actions| - 1])
     && SparesOtherBoards(Run(s, actions[..|actions| - 1]), actions[|actions| - 1]))
  }

  /**
   However calls interleave, with re-registrations and mode changes between a call's reads and its write: no statement
   of a reviewer of one board changes a row of another, and none answers "approved" or "rejected" for such a row.
   */
  lemma {:induction false} ReviewersStayOnTheirBoard(s: System, actions: seq<Action>)
    requires BoardsApart(s)
    ensures BoardsApart(Run(s, actions)) && OthersSparedThroughout(s, actions)
  {
    if actions != [] {
      ReviewersStayOnTheirBoard(s, actions[..|actions| - 1]);
      NextStaysOnBoard(Run(s, actions[..|actions| - 1]), actions[|actions| - 1]);
    }
  }

  // ---------- two approvers cannot both win ----------

  predicate Won(c: Call) {
    c.task.Approve? && c.stage == Done(ApprovedIt)
  }

  /** A call that answered "approved" left its row approved, and no other call says so of the same row. */
  ghost predicate OneWinner(s: System) {
    && (forall i :: 0 <= i < |s.calls| && Won(s.calls[i]) ==>
          s.calls[i].app in s.apps && s.apps[s.calls[i].app].status == Approved)
    && (forall i, j :: 0 <= i < j < |s.calls| && Won(s.calls[i]) && Won(s.calls[j]) ==>
          s.calls[i].app != s.calls[j].app)
  }

  /**
   The flip's row count is only positive when an index lets the write through, which for pending rows it
   always does.
   */
  lemma FlipLands(t: Table, id: int, actor: int, note: string, scope: Option<int>)
    requires Indexed(t) && MayApprove(t, id, scope)
    ensures id in ApproveFlip(t, id, actor, note, scope)
            && ApproveFlip(t, id, actor, note, scope)[id].status == Approved
  {}

  /** Rewriting a row that has left draft, without touching its identity, cannot offend an index. */
  lemma LiveRewrite(t: Table, id: int, row: Application)
    requires Indexed(t) && id in t && t[id].status != Draft && row.who == t[id].who
    ensures Indexed(t[id := row])
  {}

  lemma StepKeepsIndexed(s: System, a: Action)
    requires Indexed(s.apps)
    ensures Indexed(Next(s, a).apps)
  {
    if a.QueueSwept? {
      var t' := Next(s, a).apps;
      forall i, j | i in t' && j in t' && i != j ensures !IndexClash(t'[i], t'[j]) {
        assert !IndexClash(s.apps[i], s.apps[j]);
      }
    }
  }

  lemma StepKeepsOneWinner(s: System, i: nat)
    requires Indexed(s.apps) && OneWinner(s) && i < |s.calls|
    ensures OneWinner(Next(s, Step(i)))
  {
    var c := s.calls[i];
    var s' := Next(s, Step(i));
    if c.task.Approve? && c.stage.RowChecked? && MayApprove(s.apps, c.app, c.task.scope) {
      FlipLands(s.apps, c.app, c.actor, c.note, c.task.scope);
    }
    forall k | 0 <= k < |s'.calls| && Won(s'.calls[k])
      ensures s'.calls[k].app in s'.apps && s'.apps[s'.calls[k].app].status == Approved
      ensures k != i ==> Won(s.calls[k])
    {
      if k != i || Won(c) { ApprovedStays(s, Step(i), s.calls[k].app); }
    }
  }

  lemma NextKeepsOneWinner(s: System, a: Action)
    requires Indexed(s.apps) && OneWinner(s)
    ensures Indexed(Next(s, a).apps) && OneWinner(Next(s, a))
  {
    StepKeepsIndexed(s, a);
    if a.Step? && a.i < |s.calls| {
      StepKeepsOneWinner(s, a.i);
    } else {
      var s' := Next(s, a);
      forall k | 0 <= k < |s'.calls| && Won(s'.calls[k])
        ensures s'.calls[k].app in s'.apps && s'.apps[s'.calls[k].app].status == Approved
      {
        ApprovedStays(s, a, s.calls[k].app);
      }
    }
  }

  /**
   However approvals, rejections and deliveries interleave, at most one approve call per application reports
   success.
   */
  lemma {:induction false} AtMostOneApproval(s: System, actions: seq<Action>)
    requires Indexed(s.apps) && OneWinner(s)
    ensures Indexed(Run(s, actions).apps) && OneWinner(Run(s, actions))
  {
    if actions != [] {
      AtMostOneApproval(s, actions[..|actions| - 1]);
      NextKeepsOneWinner(Run(s, actions[..|actions| - 1]), actions[|actions| - 1]);
    }
  }

  /**
   rejectApplication does not look at its row count: it answers "rejected" whatever happened since its reads, which
   is true exactly when the row is still there and was still pending, or already rejected.
   */
  lemma RejectAnswerIsTrueExactly(s: System, c: Call)
    requires Indexed(s.apps) && c.task.Reject? && c.stage.RowChecked?
    ensures Advanced(s, c).1.stage == Done(RejectedIt)
    ensures IsRejected(Advanced(s, c).0, c.app) <==> c.app in s.apps && s.apps[c.app].status in {Pending, Rejected}
  {}

  /** An approve and a reject that both read "pending": both report success, and the row stays approved. */
  lemma BothDecisionsReported(who: Identity)
    ensures var s := System(map[1 := Application(Pending, AdminQueue, None, None, "", None, who)], 2, map[],
                            [Call(Approve(None), 1, 7, "", RowChecked(NoQueue)),
                             Call(Reject(None), 1, 8, "no", RowChecked(NoQueue))]);
            var s' := Next(Next(s, Step(0)), Step(1));
            && s'.calls[0].stage == Done(ApprovedIt) && s'.calls[1].stage == Done(RejectedIt)
            && 1 in s'.apps && s'.apps[1].status == Approved
  {}

  /**
   The approval's guarded flip: it succeeds exactly if the row is still pending and on the reviewer's board. Whoever
   lost the race changes nothing; a reviewer is then told "out of scope", a superadmin "not pending".
   */
  lemma FlipAnswersExactly(s: System, c: Call, scope: Option<int>)
    requires Indexed(s.apps) && c.task == Approve(scope) && c.stage.RowChecked?
    ensures var (t, c') := Advanced(s, c);
            var open := IsPending(s.apps, c.app) && (scope.Some? ==> s.apps[c.app].client == scope);
            && (c'.stage == Done(ApprovedIt) <==> open)
            && (!open ==> t == s.apps && c'.stage == Done(if scope.Some? then OutOfScope else NotPending))
            && (open ==> OnlyRow(s.apps, t, c.app) && t[c.app].status == Approved)
  {
    if c.app in s.apps && MayApprove(s.apps, c.app, scope) { FlipLands(s.apps, c.app, c.actor, c.note, scope); }
  }

  // ---------- two-stage boards ----------

  /** The row belongs to the two-stage board `c`, is not approved, and nobody but superadmins is working on it. */
  ghost predicate FirstStageOnly(s: System, id: int, c: int) {
    && id < s.next
    && c in s.boards && s.boards[c].mode == BothMode
    && (id in s.apps ==>
          && s.apps[id].client == Some(c) && s.apps[id].status != Approved
          && forall i :: 0 <= i < |s.calls| && s.calls[i].app == id ==> !s.calls[i].task.Approve?)
  }

  /** Everything except the client reviewer's own approval, the Control Plane's, and a change of the board's mode. */
  predicate NoFinalApproval(a: Action, id: int, c: int) {
    match a
    case Receive(call) => !(call.app == id && call.task.Approve?)
    case ApproveDelivery(x) => x != id
    case ModeChanged(client, mode) => client != c || mode == BothMode
    case _ => true
  }

  lemma NextKeepsFirstStage(s: System, a: Action, id: int, c: int)
    requires FirstStageOnly(s, id, c) && NoFinalApproval(a, id, c)
    ensures FirstStageOnly(Next(s, a), id, c)
  {
    var s' := Next(s, a);
    if a.Step? && a.i < |s.calls| && id in s.apps {
      OtherRowsStay(s, s.calls[a.i], id);
    }
  }

  /** However often superadmins approve it, an application of a two-stage board never becomes approved by that alone. */
  lemma {:induction false} TwoStageNeedsTheClient(s: System, actions: seq<Action>, id: int, c: int)
    requires FirstStageOnly(s, id, c)
    requires forall a :: a in actions ==> NoFinalApproval(a, id, c)
    ensures FirstStageOnly(Run(s, actions), id, c)
  {
    if actions != [] {
      TwoStageNeedsTheClient(s, actions[..|actions| - 1], id, c);
      assert actions[|actions| - 1] in actions;
      NextKeepsFirstStage(Run(s, actions[..|actions| - 1]), actions[|actions| - 1], id, c);
    }
  }

  // ---------- one decision epoch of the Control Plane ----------

  predicate Delivers(a: Action, id: int) {
    match a
    case ApproveDelivery(x) => x == id
    case RejectDelivery(x, _) => x == id
    case _ => false
  }

  /**
   The Control Plane has decided `id` one way. Submits may come late, and anything may happen to other rows: decisions,
   calls, registrations and PATCHes that keep the identities apart. Only local calls on `id` itself, a revoke of it
   and its replacement by a registration end the epoch.
   */
  predicate InEpoch(s: System, a: Action, id: int, decision: Status) {
    match a
    case ApproveDelivery(x) => x == id ==> decision == Approved
    case RejectDelivery(x, _) => x == id ==> decision == Rejected
    case RevokeDelivery(x, _) => x != id
    case Step(i) => i < |s.calls| ==> s.calls[i].app != id
    case Registered(_, req, _) => id in Clashing(s.apps, req.who) ==> id in s.apps && Active(s.apps[id])
    case Patched(_, _) => KeepsKeys(s, a)
    case _ => true
  }

  predicate InEpochThroughout(s: System, actions: seq<Action>, id: int, decision: Status) {
    actions == [] ||
    (InEpochThroughout(s, actions[..|actions| - 1], id, decision)
     && InEpoch(Run(s, actions[..|actions| - 1]), actions[|actions| - 1], id, decision))
  }

  predicate Delivered(actions: seq<Action>, id: int) {
    exists i :: 0 <= i < |actions| && Delivers(actions[i], id)
  }

  predicate Submitted(actions: seq<Action>, id: int) {
    exists i :: 0 <= i < |actions| && actions[i].SubmitReconcile? && actions[i].id == id
  }

  /** The Control Plane id the row ends with: that of the last submit before the first delivery. */
  function CpIdAfter(actions: seq<Action>, id: int, cpId: Option<int>): Option<int> {
    if actions == [] then cpId
    else
      var front, last := actions[..|actions| - 1], actions[|actions| - 1];
      if last.SubmitReconcile? && last.id == id && !Delivered(front, id) then Some(last.cpId)
      else CpIdAfter(front, id, cpId)
  }

  function StatusAfter(actions: seq<Action>, id: int, decision: Status, start: Status): Status {
    if Delivered(actions, id) then decision else if Submitted(actions, id) then Pending else start
  }

  /** What an action does to the row's status and Control Plane id in the epoch. */
  predicate EpochMoves(s: System, a: Action, id: int, decision: Status, t: Table) {
    && id in s.apps && id in t
    && if s.apps[id].status !in {Draft, Pending} then
         t[id].status == s.apps[id].status && t[id].cpId == s.apps[id].cpId
       else if Delivers(a, id) then t[id].status == decision && t[id].cpId == s.apps[id].cpId
       else if a.SubmitReconcile? && a.id == id then t[id].status == Pending && t[id].cpId == Some(a.cpId)
       else t[id].status == s.apps[id].status && t[id].cpId == s.apps[id].cpId
  }

  /** A submit reconcile or a message of the Control Plane. */
  predicate IsMessage(a: Action) {
    a.SubmitReconcile? || a.ApproveDelivery? || a.RejectDelivery? || a.RevokeDelivery?
  }

  lemma MessageMoves(s: System, a: Action, id: int, decision: Status)
    requires FullyUnique(s.apps) && id in s.apps && 0 < id && InEpoch(s, a, id, decision) && IsMessage(a)
    ensures EpochMoves(s, a, id, decision, Next(s, a).apps)
  {
    match a
    case SubmitReconcile(x, cpId) =>
      if x in s.apps { PutSameIdentity(s.apps, x, s.apps[x].(status := Pending, cpId := Some(cpId))); }
    case ApproveDelivery(x) =>
      if x in s.apps { PutSameIdentity(s.apps, x, s.apps[x].(status := Approved)); }
    case RejectDelivery(x, note) =>
      if x in s.apps {
        var row := s.apps[x];
        PutSameIdentity(s.apps, x, row.(status := Rejected, queue := NoQueue, note := NoteOr(note, row.note)));
      }
    case RevokeDelivery(x, note) =>
      if x in s.apps { PutSameIdentity(s.apps, x, s.apps[x].(status := Pending, queue := ClientQueue, note := note)); }
  }

  lemma OthersMove(s: System, a: Action, id: int, decision: Status)
    requires FullyUnique(s.apps) && id in s.apps && InEpoch(s, a, id, decision) && !IsMessage(a) && !a.Registered?
    requires id < s.next
    ensures EpochMoves(s, a, id, decision, Next(s, a).apps)
  {}

  lemma RegistrationMoves(s: System, a: Action, id: int, decision: Status)
    requires FullyUnique(s.apps) && id in s.apps && id < s.next && a.Registered? && InEpoch(s, a, id, decision)
    ensures EpochMoves(s, a, id, decision, Next(s, a).apps)
  {}

  lemma EpochStep(s: System, a: Action, id: int, decision: Status)
    requires FullyUnique(s.apps) && id in s.apps && 0 < id < s.next && InEpoch(s, a, id, decision)
    ensures FullyUnique(Next(s, a).apps) && id < Next(s, a).next && EpochMoves(s, a, id, decision, Next(s, a).apps)
  {
    NextKeepsKeysExactly(s, a);
    if IsMessage(a) { MessageMoves(s, a, id, decision); }
    else if a.Registered? { RegistrationMoves(s, a, id, decision); }
    else { OthersMove(s, a, id, decision); }
  }

  /**
   Within one decision epoch, whatever the order of the submit reconciles, however often the decision is delivered
   and whatever happens to other applications: once one delivery has landed the status is that decision for good,
   and the row keeps the Control Plane id of the last submit that came before it (a later submit's id is lost).
   */
  lemma {:induction false} EpochSettles(s: System, actions: seq<Action>, id: int, decision: Status)
    requires FullyUnique(s.apps) && id in s.apps && 0 < id < s.next
    requires s.apps[id].status in {Draft, Pending} && decision in {Approved, Rejected}
    requires InEpochThroughout(s, actions, id, decision)
    ensures var t := Run(s, actions).apps;
            && FullyUnique(t) && id in t && id < Run(s, actions).next
            && t[id].status == StatusAfter(actions, id, decision, s.apps[id].status)
            && t[id].cpId == CpIdAfter(actions, id, s.apps[id].cpId)
  {
    if actions != [] {
      var front, last := actions[..|actions| - 1], actions[|actions| - 1];
      EpochSettles(s, front, id, decision);
      EpochStep(Run(s, front), last, id, decision);
      LastCounts(actions, id);
    }
  }

  lemma LastCounts(actions: seq<Action>, id: int)
    requires actions != []
    ensures var front, last := actions[..|actions| - 1], actions[|actions| - 1];
            && (Delivered(actions, id) <==> Delivered(front, id) || Delivers(last, id))
            && (Submitted(actions, id) <==> Submitted(front, id) || (last.SubmitReconcile? && last.id == id))
  {}

  // ---------- the four keys, over whole runs ----------

  /** A PATCH must not slip a value past the indexes that a draft is part of; every other action may do as it likes. */
  predicate KeepsKeys(s: System, a: Action) {
    a.Patched? && a.id in s.apps ==> (DraftHolds(s.apps, a.id, a.who) ==> IndexRefuses(s.apps, a.id, a.who))
  }

  predicate KeepsKeysThroughout(s: System, actions: seq<Action>) {
    actions == [] ||
    (KeepsKeysThroughout(s, actions[..|actions| - 1])
     && KeepsKeys(Run(s, actions[..|actions| - 1]), actions[|actions| - 1]))
  }

  predicate UniqueThroughout(s: System, actions: seq<Action>) {
    FullyUnique(Run(s, actions).apps) && (actions == [] || UniqueThroughout(s, actions[..|actions| - 1]))
  }

  lemma IdentityUntouched(t: Table, t': Table)
    requires FullyUnique(t) && t'.Keys == t.Keys && forall id :: id in t ==> t'[id].who == t[id].who
    ensures FullyUnique(t')
  {}

  /** Only registrations and PATCHes touch identities or add and remove rows. */
  lemma IdentityKept(s: System, a: Action)
    requires !a.Registered? && !a.Patched?
    ensures var t := Next(s, a).apps; t.Keys == s.apps.Keys && forall id :: id in t ==> t[id].who == s.apps[id].who
  {}

  lemma NextKeepsKeysExactly(s: System, a: Action)
    requires FullyUnique(s.apps)
    ensures FullyUnique(Next(s, a).apps) <==> KeepsKeys(s, a)
  {
    match a
    case Registered(userEmails, req, _) =>
      if s.next !in s.apps { RegisterKeepsUnique(s.apps, s.next, userEmails, req); }
    case Patched(id, who) => if id in s.apps { PatchKeepsUniqueExactly(s.apps, id, who); }
    case _ =>
      IdentityKept(s, a);
      IdentityUntouched(s.apps, Next(s, a).apps);
  }

  lemma UniqueNow(s: System, actions: seq<Action>)
    requires UniqueThroughout(s, actions)
    ensures FullyUnique(Run(s, actions).apps)
  {}

  /**
   Over every run of registrations and status writers, no two applications share an identity value exactly
   when no PATCH slips past the indexes.
   */
  lemma {:induction false} KeysStayUniqueExactly(s: System, actions: seq<Action>)
    requires FullyUnique(s.apps)
    ensures UniqueThroughout(s, actions) <==> KeepsKeysThroughout(s, actions)
  {
    if actions != [] {
      var front, last := actions[..|actions| - 1], actions[|actions| - 1];
      KeysStayUniqueExactly(s, front);
      if UniqueThroughout(s, front) {
        UniqueNow(s, front);
        NextKeepsKeysExactly(Run(s, front), last);
      }
    }
  }

  // ---------- the handlers, each run to its end without interference ----------

  /** `n` statements of one call, back to back. */
  function Drive(s: System, c: Call, n: nat): (Table, Call)
    decreases n
  {
    if n == 0 then (s.apps, c)
    else
      var (t, c') := Advanced(s, c);
      Drive(s.(apps := t), c', n - 1)
  }

  lemma {:induction false} DoneStays(s: System, c: Call, n: nat)
    requires c.stage.Done?
    ensures Drive(s, c, n) == (s.apps, c)
    decreases n
  {
    if n > 0 {
      assert Advanced(s, c) == (s.apps, c);
      DoneStays(s, c, n - 1);
    }
  }

  /** A statement that only reads, then the rest of the call. */
  lemma ReadThen(s: System, c: Call, c': Call, n: nat)
    requires Advanced(s, c) == (s.apps, c')
    ensures Drive(s, c, n + 1) == Drive(s, c', n)
  {}

  /** `n` steps of one call in a run, back to back. */
  function Steps(s: System, i: nat, n: nat): System
    decreases n
  {
    if n == 0 then s else Steps(Next(s, Step(i)), i, n - 1)
  }

  lemma {:induction false} SameDrive(s: System, s': System, c: Call, n: nat)
    requires s'.apps == s.apps && s'.boards == s.boards
    ensures Drive(s', c, n) == Drive(s, c, n)
    decreases n
  {
    if n > 0 {
      var (t, c') := Advanced(s, c);
      assert Advanced(s', c) == (t, c');
      SameDrive(s.(apps := t), s'.(apps := t), c', n - 1);
    }
  }

  lemma {:induction false} StepsDrive(s: System, i: nat, n: nat)
    requires i < |s.calls|
    ensures var (t, c) := Drive(s, s.calls[i], n); Steps(s, i, n) == s.(apps := t, calls := s.calls[i := c])
    decreases n
  {
    if n == 0 {
      assert s.calls == s.calls[i := s.calls[i]];
    } else {
      var (t, c) := Advanced(s, s.calls[i]);
      var s' := Next(s, Step(i));
      assert s' == s.(apps := t, calls := s.calls[i := c]);
      StepsDrive(s', i, n - 1);
      SameDrive(s.(apps := t), s', c, n - 1);
    }
  }

  /** A call that arrives in a run and is served at once does what `Drive` says, and no other call moves. */
  lemma ServedAtOnce(s: System, c: Call, n: nat)
    requires c.stage == Start
    ensures var (t, c') := Drive(s, c, n);
            Steps(Next(s, Receive(c)), |s.calls|, n) == s.(apps := t, calls := s.calls + [c'])
  {
    var s' := Next(s, Receive(c));
    StepsDrive(s', |s.calls|, n);
    SameDrive(s, s', c, n);
  }

  /** What the portal check and the row check together answer, if they refuse. */
  function Refusal(s: System, id: int, scope: Option<int>): Option<Outcome> {
    match CheckPortal(s, scope)
    case Done(o) => Some(o)
    case _ => match CheckRow(s, id, scope) case Done(o) => Some(o) case _ => None
  }

  /** Which refusal the reads give: the portal first, then the row, its board, and its status. */
  lemma RefusesExactly(s: System, id: int, scope: Option<int>)
    ensures var r := Refusal(s, id, scope);
            var known := scope.Some? ==> scope.value in s.boards;
            var on := known && (scope.Some? ==> s.boards[scope.value].portal);
            var own := on && id in s.apps && (scope.Some? ==> s.apps[id].client == scope);
            && (r == Some(PortalDisabled) <==> known && !on)
            && (r == Some(NotFound) <==> on && id !in s.apps)
            && (r == Some(OutOfScope) <==> !known || (on && id in s.apps && !own))
            && (r == Some(NotPending) <==> own && s.apps[id].status != Pending)
            && (r == None <==> own && s.apps[id].status == Pending)
  {}

  /** The two reads of a decision: a refusal ends the call, anything else leaves it before its update. */
  lemma ReadsOf(s: System, c: Call, scope: Option<int>)
    requires c.stage == Start && (c.task == Approve(scope) || (c.task == Reject(scope) && c.note != ""))
    ensures var refused := Refusal(s, c.app, scope);
            var c' := c.(stage := match refused case Some(o) => Done(o) case None => RowChecked(NoQueue));
            Drive(s, c, 3) == Drive(s, c', 1)
  {}

  /** A pending application may be decided by a superadmin, or by its own board's reviewer while the portal is on. */
  predicate MayDecide(boards: map<int, Board>, t: Table, id: int, scope: Option<int>) {
    && (scope.Some? ==> scope.value in boards && boards[scope.value].portal)
    && IsPending(t, id)
    && (scope.Some? ==> t[id].client == scope)
  }

  class ReviewDesk {
    var apps: Table
    var boards: map<int, Board>

    function Snapshot(): System
      reads this
    {
      System(apps, 0, boards, [])
    }

    constructor ()
      ensures apps == map[] && boards == map[]
    {
      apps, boards := map[], map[];
    }

    /** The reads both decisions start with. */
    method ReadPending(id: int, scope: Option<int>) returns (refusal: Option<Outcome>)
      ensures refusal == Refusal(Snapshot(), id, scope)
    {
      if scope.Some? {
        if scope.value !in boards { return Some(OutOfScope); }
        if !boards[scope.value].portal { return Some(PortalDisabled); }
      }
      if id !in apps { return Some(NotFound); }
      var row := apps[id];
      if scope.Some? && row.client != scope { return Some(OutOfScope); }
      return if row.status != Pending then Some(NotPending) else None;
    }

    /**
     Between its reads and its update the approval makes sure the organisation exists; `provisioned` is that
     call's success.
     */
    method ApproveApplication(id: int, actor: int, scope: Option<int>, note: string, provisioned: bool)
      returns (o: Outcome)
      requires Indexed(apps)
      modifies this`apps
      ensures Indexed(apps)
      ensures o != Failed ==> Drive(old(Snapshot()), Call(Approve(scope), id, actor, note, Start), 3)
                              == (apps, Call(Approve(scope), id, actor, note, Done(o)))
      ensures o == Failed <==> !provisioned && old(Refusal(Snapshot(), id, scope)) == None
      ensures o == ApprovedIt <==> provisioned && MayDecide(boards, old(apps), id, scope)
      ensures o == ApprovedIt ==>
                && OnlyRow(old(apps), apps, id) && SameApplicant(old(apps)[id], apps[id])
                && apps[id].status == Approved && apps[id].queue == NoQueue
                && apps[id].reviewer == Some(actor) && apps[id].note == note
      ensures o != ApprovedIt ==> apps == old(apps)
    {
      ghost var s, c := Snapshot(), Call(Approve(scope), id, actor, note, Start);
      ReadsOf(s, c, scope);
      var refusal := ReadPending(id, scope);
      if refusal.Some? {
        DoneStays(s, c.(stage := Done(refusal.value)), 1);
        return refusal.value;
      }
      if !provisioned { return Failed; }
      var row := apps[id].(status := Approved, queue := NoQueue, reviewer := Some(actor), note := note);
      LiveRewrite(apps, id, row);
      ghost var at := c.(stage := RowChecked(NoQueue));
      assert Advanced(s, at) == (apps[id := row], c.(stage := Done(ApprovedIt)));
      apps := apps[id := row];
      return ApprovedIt;
    }

    method RejectApplication(id: int, actor: int, scope: Option<int>, note: string) returns (o: Outcome)
      requires Indexed(apps)
      modifies this`apps
      ensures Indexed(apps)
      ensures Drive(old(Snapshot()), Call(Reject(scope), id, actor, note, Start), 3)
           == (apps, Call(Reject(scope), id, actor, note, Done(o)))
      ensures o == RejectedIt <==> note != "" && MayDecide(boards, old(apps), id, scope)
      ensures o == RejectedIt ==>
                && OnlyRow(old(apps), apps, id) && SameApplicant(old(apps)[id], apps[id])
                && apps[id].status == Rejected && apps[id].queue == NoQueue
                && apps[id].reviewer == Some(actor) && apps[id].note == note
      ensures o != RejectedIt ==> apps == old(apps)
    {
      ghost var s, c := Snapshot(), Call(Reject(scope), id, actor, note, Start);
      if note == "" {
        ReadThen(s, c, c.(stage := Done(NoteRequired)), 2);
        DoneStays(s, c.(stage := Done(NoteRequired)), 2);
        return NoteRequired;
      }
      ReadsOf(s, c, scope);
      var refusal := ReadPending(id, scope);
      if refusal.Some? {
        DoneStays(s, c.(stage := Done(refusal.value)), 1);
        return refusal.value;
      }
      var row := apps[id].(status := Rejected, queue := NoQueue, reviewer := Some(actor), note := note);
      LiveRewrite(apps, id, row);
      ghost var at := c.(stage := RowChecked(NoQueue));
      assert Advanced(s, at) == (apps[id := row], c.(stage := Done(RejectedIt)));
      apps := apps[id := row];
      return RejectedIt;
    }

    /** A two-stage board's row is handed to the client's queue; any other row gets the full approval. */
    method SuperadminApprove(id: int, actor: int, note: string, provisioned: bool) returns (o: Outcome)
      requires Indexed(apps)
      modifies this`apps
      ensures Indexed(apps)
      ensures o != Failed ==>
                var end := Drive(old(Snapshot()), Call(SuperApprove, id, actor, note, Start), 4);
                apps == end.0 && end.1.stage == Done(o)
      ensures o == Failed ==> !provisioned && apps == old(apps) && old(ReviewMode(Snapshot(), id)) != Some(BothMode)
      ensures old(ReviewMode(Snapshot(), id)) == Some(BothMode) ==>
                && id in apps && apps[id].status == old(apps)[id].status && OnlyRow(old(apps), apps, id)
                && (o == HandedOff <==> IsPending(old(apps), id) && old(apps)[id].queue != ClientQueue)
                && (o == NotPending <==> old(apps)[id].status != Pending)
                && (o == NotFound <==> IsPending(old(apps), id) && old(apps)[id].queue == ClientQueue)
                && (if o == HandedOff then apps[id].queue == ClientQueue else apps == old(apps))
      ensures o == ApprovedIt <==>
                && provisioned && IsPending(old(apps), id) && old(ReviewMode(Snapshot(), id)) != Some(BothMode)
    {
      ghost var s, c := Snapshot(), Call(SuperApprove, id, actor, note, Start);
      if ReviewMode(Snapshot(), id) != Some(BothMode) {
        ReadThen(s, c, c.(task := Approve(None)), 3);
        o := ApproveApplication(id, actor, None, note, provisioned);
        if o == Failed { return; }
        DriveOnceMore(s, c.(task := Approve(None)), 3);
        return;
      }
      ReadThen(s, c, c.(stage := RowChecked(ClientQueue)), 3);
      o := if MayAdvance(apps, id) then HandedOff else if apps[id].status != Pending then NotPending else NotFound;
      var row := apps[id].(queue := ClientQueue, note := NoteOr(note, apps[id].note));
      LiveThenDone(s, c, row);
      if o == HandedOff { apps := apps[id := row]; }
    }
  }

  /** A call that has ended by step `n` reads the same one step later. */
  lemma {:induction false} DriveOnceMore(s: System, c: Call, n: nat)
    requires Drive(s, c, n).1.stage.Done?
    ensures Drive(s, c, n + 1) == Drive(s, c, n)
    decreases n
  {
    if n == 0 {
      DoneStays(s, c, 1);
    } else {
      var (t, c') := Advanced(s, c);
      DriveOnceMore(s.(apps := t), c', n - 1);
    }
  }

  /** The hand-off statement of a two-stage approval, and the end of the call. */
  lemma LiveThenDone(s: System, c: Call, row: Application)
    requires Indexed(s.apps) && c.task == SuperApprove && c.app in s.apps
    requires row == s.apps[c.app].(queue := ClientQueue, note := NoteOr(c.note, s.apps[c.app].note))
    ensures var c' := c.(stage := RowChecked(ClientQueue));
            Drive(s, c', 3) == (if MayAdvance(s.apps, c.app) then s.apps[c.app := row] else s.apps,
                                c.(stage := Done(AdvanceOutcome(s.apps, c.app))))
    ensures MayAdvance(s.apps, c.app) ==> Indexed(s.apps[c.app := row])
  {}
}
