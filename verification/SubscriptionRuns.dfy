/**
 Runs over the subscription tables. Three handlers read a row and write later (the access request, the
 operator upload, the revoke); everything else is one statement or one transaction. Any number of the
 three may be between their read and their write.
 */
module SubscriptionRuns {
  import opened Wrappers
  import opened SubscriptionTables
  import opened BulkDecisions

  datatype Task =
    | Subscribe(pair: Pair)
    | Upload(pair: Pair, rows: seq<Row>)
    | Revoke(client: int, pair: Pair)

  datatype Stage = Start | Checked | Finished

  datatype Call = Call(task: Task, stage: Stage)

  datatype System = System(t: Tables, calls: seq<Call>)

  /** What a reviewer of `client` can do in one step. */
  datatype Ruling =
    | ApproveOne(pair: Pair)
    | ApproveAll(pair: Pair)
    | RejectOne(pair: Pair)
    | ResetOne(pair: Pair)
    | Bulk(orgIds: seq<int>, examIds: seq<int>, verdict: Verdict)
    | Csv(lines: seq<Line>)

  /** Clients, organisations, exams and grants come and go. */
  datatype Change =
    | AddClient(client: int)
    | DropClient(client: int)
    | AddOrg(code: Code, org: int)
    | CreateExam(exam: int, client: int, open: bool, fanOut: FanOut)
    | OpenExam(exam: int, open: bool)
    | DropExam(exam: int)
    | Grant(clients: set<int>, org: int)

  datatype Action =
    | Receive(task: Task)
    | Step(i: nat)
    | Rule(client: int, ruling: Ruling)
    | Unsubscribe(pair: Pair)
    | SetExams(org: int, user: int, list: seq<int>)
    | Catalogue(change: Change)
    | DropUser(user: int)
    | CreateUser(user: int, home: Option<int>)

  /** The read a call starts with: whether it goes on. */
  predicate Passes(t: Tables, task: Task) {
    match task
    case Subscribe(p) => p.exam in t.exams && t.exams[p.exam].open && !HasApproved(t, p) && !HasPending(t, p)
    case Upload(p, _) => HasApproved(t, p)
    case Revoke(client, p) => Owns(t, client, p.exam) && HasApproved(t, p)
  }

  function Written(t: Tables, task: Task): Tables {
    match task
    case Subscribe(p) => Requested(t, p)
    case Upload(p, rows) => Uploaded(t, p, rows)
    case Revoke(client, p) => RevokedOne(t, client, p)
  }

  function RuledOn(t: Tables, client: int, r: Ruling): Tables {
    match r
    case ApproveOne(p) => ApprovedOne(t, client, p)
    case ApproveAll(p) => ApprovedBlanket(t, client, p)
    case RejectOne(p) => Stamped(t, client, p, Rejected)
    case ResetOne(p) => Stamped(t, client, p, Pending)
    case Bulk(orgIds, examIds, v) => BulkDecided(t, client, orgIds, examIds, v)
    case Csv(lines) => AfterLines(t, client, lines)
  }

  function Changed(t: Tables, c: Change): Tables {
    match c
    case AddClient(client) => t.(clients := t.clients + {client})
    case DropClient(client) => ClientDropped(t, client)
    case AddOrg(code, org) => OrgAdded(t, code, org)
    case CreateExam(exam, client, open, fanOut) => ExamCreated(t, exam, client, open, fanOut)
    case OpenExam(exam, open) =>
      if exam !in t.exams then t else t.(exams := t.exams[exam := t.exams[exam].(open := open)])
    case DropExam(exam) => ExamDropped(t, exam)
    case Grant(clients, org) => Granted(t, clients, org)
  }

  function Next(s: System, a: Action): System {
    match a
    case Receive(task) => s.(calls := s.calls + [Call(task, Start)])
    case Step(i) =>
      if i >= |s.calls| then s
      else
        var c := s.calls[i];
        if c.stage == Start then
          s.(calls := s.calls[i := c.(stage := if Passes(s.t, c.task) then Checked else Finished)])
        else if c.stage == Checked then
          s.(t := Written(s.t, c.task), calls := s.calls[i := c.(stage := Finished)])
        else s
    case Rule(client, r) => s.(t := RuledOn(s.t, client, r))
    case Unsubscribe(p) => s.(t := Unsubscribed(s.t, p))
    case SetExams(org, user, list) => s.(t := ExamsSet(s.t, org, user, list))
    case Catalogue(change) => s.(t := Changed(s.t, change))
    case DropUser(user) => s.(t := UserDropped(s.t, user))
    case CreateUser(user, org) =>
      if user in s.t.users || (org.Some? && !IsOrg(s.t, org.value)) then s
      else s.(t := s.t.(users := s.t.users[user := org]))
  }

  function Run(s: System, actions: seq<Action>): System {
    if actions == [] then s else Next(Run(s, actions[..|actions| - 1]), actions[|actions| - 1])
  }

  // ---------- every assignment is backed ----------

  predicate BackedUser(t: Tables, u: int) {
    u in t.held && u in t.users && t.users[u].Some? && HasApproved(t, Pair(t.users[u].value, t.held[u]))
  }

  /** Each operator's exam is one its organisation holds an approved subscription for. */
  ghost predicate Backed(t: Tables) {
    forall u :: u in t.held ==> BackedUser(t, u)
  }

  /**
   The step is about to take an approved row away without a cascade, or to link operators to a row no longer
   approved.
   */
  ghost predicate Harms(s: System, a: Action) {
    match a
    case Rule(client, RejectOne(p)) => Owns(s.t, client, p.exam) && InUse(s.t, p)
    case Rule(client, ResetOne(p)) => Owns(s.t, client, p.exam) && InUse(s.t, p)
    case Step(i) =>
      i < |s.calls| && s.calls[i].stage == Checked &&
      (match s.calls[i].task
       case Subscribe(p) => IsOrg(s.t, p.org) && p.exam in s.t.exams && InUse(s.t, p)
       case Upload(p, rows) => !HasApproved(s.t, p) && LinksSomeone(s.t, p, rows)
       case Revoke(_, _) => false)
    case _ => false
  }

  /** The upload goes through and names at least one user of the organisation, present or new. */
  ghost predicate LinksSomeone(t: Tables, p: Pair, rows: seq<Row>) {
    Linkable(t, p, rows) && exists u :: u in Named(rows) && Ours(t, p, u)
  }

  // ---------- one lemma per statement ----------

  /** Rows that stay approved keep their operators backed. */
  lemma ApprovedKept(t: Tables, t': Tables)
    requires Backed(t) && t'.users == t.users && t'.held == t.held
    requires forall p :: HasApproved(t, p) ==> HasApproved(t', p)
    ensures Backed(t')
  {}

  /** Overwriting one row with a status that is not approved keeps Backed exactly when nobody uses it. */
  lemma RowLost(t: Tables, p: Pair, sub: Sub)
    requires Backed(t) && sub.status != Approved
    ensures Backed(t.(subs := t.subs[p := sub])) <==> !InUse(t, p)
  {}

  lemma FlipKeeps(t: Tables, picked: set<Pair>, v: Verdict)
    requires Backed(t) && forall p :: p in picked ==> !HasApproved(t, p)
    ensures Backed(Flipped(t, picked, v))
  {}

  lemma {:induction false} LinesKeepBacked(t: Tables, client: int, lines: seq<Line>)
    requires Backed(t)
    ensures Backed(AfterLines(t, client, lines))
  {
    if lines != [] {
      var front, last := lines[..|lines| - 1], lines[|lines| - 1];
      LinesKeepBacked(t, client, front);
      var u := AfterLines(t, client, front);
      match Settles(u.orgs, last)
      case None =>
      case Some((org, approve)) => FlipKeeps(u, PendingOf(u, client, org), LineVerdict(approve));
    }
  }

  lemma RulingKeeps(t: Tables, client: int, r: Ruling)
    requires Backed(t) && !r.RejectOne? && !r.ResetOne?
    ensures Backed(RuledOn(t, client, r))
  {
    match r
    case ApproveOne(p) => ApprovedKept(t, ApprovedOne(t, client, p));
    case ApproveAll(p) => ApprovedKept(t, ApprovedBlanket(t, client, p));
    case Bulk(orgIds, examIds, v) => ApprovedKept(t, BulkDecided(t, client, orgIds, examIds, v));
    case Csv(lines) => LinesKeepBacked(t, client, lines);
  }

  lemma StampKeepsExactly(t: Tables, client: int, p: Pair, status: Status)
    requires Backed(t) && status != Approved
    ensures Backed(Stamped(t, client, p, status)) <==> !(Owns(t, client, p.exam) && InUse(t, p))
  {}

  lemma RevokeKeeps(t: Tables, client: int, p: Pair)
    requires Backed(t)
    ensures Backed(RevokedOne(t, client, p))
  {}

  lemma UnsubscribeKeeps(t: Tables, p: Pair)
    requires Backed(t)
    ensures Backed(Unsubscribed(t, p))
  {}

  lemma SetExamsKeeps(t: Tables, org: int, user: int, list: seq<int>)
    requires Backed(t)
    ensures Backed(ExamsSet(t, org, user, list))
  {}

  lemma UploadKeepsExactly(t: Tables, p: Pair, rows: seq<Row>)
    requires Backed(t)
    ensures Backed(Uploaded(t, p, rows)) <==> !(!HasApproved(t, p) && LinksSomeone(t, p, rows))
  {
    UploadExactly(t, p, rows);
    var t' := Uploaded(t, p, rows);
    if Linkable(t, p, rows) {
      if LinksSomeone(t, p, rows) {
        var u :| u in Named(rows) && Ours(t, p, u);
        assert u in t'.held && t'.held[u] == p.exam && t'.users[u] == Some(p.org);
        if !HasApproved(t, p) { assert !BackedUser(t', u); }
      }
      forall u | u in t'.held && (HasApproved(t, p) || !LinksSomeone(t, p, rows)) ensures BackedUser(t', u) {
        if u in t.held { assert BackedUser(t, u); }
      }
    }
  }

  lemma DropsKeep(t: Tables, x: int)
    requires Backed(t)
    ensures Backed(ExamDropped(t, x)) && Backed(UserDropped(t, x))
  {
    forall u | u in ExamDropped(t, x).held ensures BackedUser(ExamDropped(t, x), u) { assert BackedUser(t, u); }
    forall u | u in UserDropped(t, x).held ensures BackedUser(UserDropped(t, x), u) { assert BackedUser(t, u); }
  }

  lemma ChangeKeeps(t: Tables, c: Change)
    requires Backed(t)
    ensures Backed(Changed(t, c))
  {
    if c.DropExam? { DropsKeep(t, c.exam); } else { ApprovedKept(t, Changed(t, c)); }
  }

  lemma WriteKeepsExactly(t: Tables, task: Task)
    requires Backed(t)
    ensures Backed(Written(t, task)) <==>
            match task
            case Subscribe(p) => !(IsOrg(t, p.org) && p.exam in t.exams && InUse(t, p))
            case Upload(p, rows) => !(!HasApproved(t, p) && LinksSomeone(t, p, rows))
            case Revoke(_, _) => true
  {
    match task
    case Subscribe(p) => if IsOrg(t, p.org) && p.exam in t.exams { RowLost(t, p, Sub(Pending, Unset)); }
    case Upload(p, rows) => UploadKeepsExactly(t, p, rows);
    case Revoke(client, p) => RevokeKeeps(t, client, p);
  }

  lemma CreateUserKeeps(t: Tables, user: int, org: Option<int>)
    requires Backed(t) && user !in t.users
    ensures Backed(t.(users := t.users[user := org]))
  {}

  // ---------- the theorems ----------

  /** Exactly the harmful steps break the backing, and no other step of any handler does. */
  lemma NextKeepsExactly(s: System, a: Action)
    requires Backed(s.t)
    ensures Backed(Next(s, a).t) <==> !Harms(s, a)
  {
    match a
    case Receive(_) =>
    case Step(i) =>
      if i < |s.calls| && s.calls[i].stage == Checked { WriteKeepsExactly(s.t, s.calls[i].task); }
    case Rule(client, r) =>
      if r.RejectOne? { StampKeepsExactly(s.t, client, r.pair, Rejected); }
      else if r.ResetOne? { StampKeepsExactly(s.t, client, r.pair, Pending); }
      else { RulingKeeps(s.t, client, r); }
    case Unsubscribe(p) => UnsubscribeKeeps(s.t, p);
    case SetExams(org, user, list) => SetExamsKeeps(s.t, org, user, list);
    case Catalogue(change) => ChangeKeeps(s.t, change);
    case DropUser(user) => DropsKeep(s.t, user);
    case CreateUser(user, org) => if user !in s.t.users { CreateUserKeeps(s.t, user, org); }
  }

  ghost predicate HarmlessRun(s: System, actions: seq<Action>) {
    actions == [] ||
    (HarmlessRun(s, actions[..|actions| - 1]) && !Harms(Run(s, actions[..|actions| - 1]), actions[|actions| - 1]))
  }

  /** Throughout a run every prefix is backed exactly when no step of it was harmful. */
  ghost predicate BackedThroughout(s: System, actions: seq<Action>) {
    Backed(Run(s, actions).t) && (actions == [] || BackedThroughout(s, actions[..|actions| - 1]))
  }

  lemma {:induction false} BackedExactlyIfHarmless(s: System, actions: seq<Action>)
    requires Backed(s.t)
    ensures BackedThroughout(s, actions) <==> HarmlessRun(s, actions)
  {
    if actions != [] {
      var front, last := actions[..|actions| - 1], actions[|actions| - 1];
      BackedExactlyIfHarmless(s, front);
      if BackedThroughout(s, front) {
        StillBacked(s, front);
        NextKeepsExactly(Run(s, front), last);
      }
    }
  }

  lemma StillBacked(s: System, actions: seq<Action>)
    requires BackedThroughout(s, actions)
    ensures Backed(Run(s, actions).t)
  {}

  /** An upload checked before its exam was deleted rolls back, and the assignments stay backed. */
  lemma UploadAfterDeletion(s: System, p: Pair, rows: seq<Row>)
    requires Backed(s.t) && s.calls == [Call(Upload(p, rows), Checked)]
    ensures var t := Next(Next(s, Catalogue(DropExam(p.exam))), Step(0)).t;
            Backed(t) && (forall u :: u in t.held ==> t.held[u] != p.exam) && t.held.Keys <= s.t.held.Keys
  {
    var s1 := Next(s, Catalogue(DropExam(p.exam)));
    NextKeepsExactly(s, Catalogue(DropExam(p.exam)));
    NothingLinked(s1.t, p, rows);
    NextKeepsExactly(s1, Step(0));
  }

  lemma NothingLinked(t: Tables, p: Pair, rows: seq<Row>)
    requires p.exam !in t.exams && forall u :: u in t.held ==> t.held[u] != p.exam
    ensures !LinksSomeone(t, p, rows) && Uploaded(t, p, rows) == t
  {
    UploadExactly(t, p, rows);
    if Linkable(t, p, rows) {
      forall i | 0 <= i < |rows| ensures !Ours(t, p, rows[i].user) { NotOurs(t, p, rows, i); }
      assert UsersWith(t.users, p.org, Named(rows)) == t.users && HeldWith(t, p, Named(rows)) == t.held;
    }
  }

  lemma {:induction false} NotOurs(t: Tables, p: Pair, rows: seq<Row>, i: nat)
    requires p.exam !in t.exams && forall u :: u in t.held ==> t.held[u] != p.exam
    requires Linkable(t, p, rows) && i < |rows|
    ensures !Ours(t, p, rows[i].user)
  {
    assert RowFits(t, p, Named(rows[..i]), rows[i]);
    if rows[i].user !in t.users {
      var j :| 0 <= j < i && rows[..i][j].user == rows[i].user;
      NotOurs(t, p, rows, j);
    }
  }

  /** A request checked before an approval and written after an assignment leaves the operator on a pending exam. */
  lemma StaleRequestUnbacks(p: Pair, user: int, client: int, code: Code)
    ensures var t := Tables({client}, map[p.exam := Exam(client, true)], map[code := p.org], map[user := Some(p.org)],
                            map[], {}, map[]);
            var s := System(t, [Call(Subscribe(p), Start)]);
            var end := Run(s, [Step(0), Rule(client, ApproveOne(p)), SetExams(p.org, user, [p.exam]), Step(0)]).t;
            && user in end.held && end.held[user] == p.exam && p in end.subs && end.subs[p].status == Pending
  {
    var t := Tables({client}, map[p.exam := Exam(client, true)], map[code := p.org], map[user := Some(p.org)],
                    map[], {}, map[]);
    var s := System(t, [Call(Subscribe(p), Start)]);
    var a := [Step(0), Rule(client, ApproveOne(p)), SetExams(p.org, user, [p.exam]), Step(0)];
    var s1 := Next(s, a[0]);
    assert IsOrg(t, p.org) by { assert code in t.orgs; }
    var s2 := Next(s1, a[1]);
    CountingCheck(s2.t, p.org, [p.exam]);
    var s3 := Next(s2, a[2]);
    assert s3.t.held == map[user := p.exam];
    assert IsOrg(s3.t, p.org) by { assert code in s3.t.orgs; }
    FourSteps(s, a);
  }

  lemma FourSteps(s: System, a: seq<Action>)
    requires |a| == 4
    ensures Run(s, a) == Next(Next(Next(Next(s, a[0]), a[1]), a[2]), a[3])
  {
    assert a[..3][..2] == a[..2] && a[..2][..1] == a[..1] && a[..1][..0] == [];
    assert Run(s, a[..1]) == Next(s, a[0]);
    assert Run(s, a[..2]) == Next(Next(s, a[0]), a[1]);
    assert Run(s, a[..3]) == Next(Next(Next(s, a[0]), a[1]), a[2]);
  }

  // ---------- assignments one operator at a time ----------

  /** setOperatorExams changes something exactly for one approved exam of the operator's own organisation. */
  lemma SetExamsExactly(t: Tables, org: int, user: int, list: seq<int>)
    ensures MaySet(t, org, user, list) <==>
            && user in t.users && t.users[user] == Some(org)
            && |list| == 1 && HasApproved(t, Pair(org, list[0]))
  {
    CountingCheck(t, org, list);
    if |list| == 1 { assert forall e :: e in list <==> e == list[0]; }
  }

  // ---------- one click on one row ----------

  /** The answer says "approved"; in blanket mode that is so exactly unless the row had been rejected or revoked. */
  lemma BlanketClickAnswersTrueExactly(t: Tables, client: int, p: Pair)
    requires Owns(t, client, p.exam) && IsOrg(t, p.org)
    ensures HasApproved(ApprovedBlanket(t, client, p), p)
            <==> p !in t.subs || t.subs[p].status in {Pending, Approved}
    ensures HasApproved(ApprovedOne(t, client, p), p)
  {}

  // ---------- new exams and grants ----------

  /** The foreign keys of exams on clients, of subscriptions and grants, and of assignments. */
  ghost predicate Keyed(t: Tables) {
    && (forall e :: e in t.exams ==> t.exams[e].client in t.clients)
    && (forall p :: p in t.subs ==> p.exam in t.exams && IsOrg(t, p.org))
    && (forall g :: g in t.grants ==> g.0 in t.clients && IsOrg(t, g.1))
    && (forall u :: u in t.held ==> u in t.users && t.held[u] in t.exams)
  }

  lemma {:induction false} LinesKeepKeys(t: Tables, client: int, lines: seq<Line>)
    requires Keyed(t)
    ensures Keyed(AfterLines(t, client, lines))
  {
    LinesKeepRows(t, client, lines);
  }

  lemma RulingKeepsKeyed(t: Tables, client: int, r: Ruling)
    requires Keyed(t)
    ensures Keyed(RuledOn(t, client, r))
  {
    if r.Csv? { LinesKeepKeys(t, client, r.lines); }
  }

  lemma WriteKeepsKeyed(t: Tables, task: Task)
    requires Keyed(t)
    ensures Keyed(Written(t, task))
  {
    if task.Upload? { UploadKeepsKeyed(t, task.pair, task.rows); }
  }

  lemma UploadKeepsKeyed(t: Tables, p: Pair, rows: seq<Row>)
    requires Keyed(t)
    ensures Keyed(Uploaded(t, p, rows))
  {
    UploadExactly(t, p, rows);
    var t' := Uploaded(t, p, rows);
    if p.exam in t.exams || !Linkable(t, p, rows) {
      forall u | u in t'.held ensures u in t'.users && t'.held[u] in t'.exams {}
    } else {
      NothingLinked(t, p, rows);
    }
  }

  /** Organisations are only ever added. */
  lemma OrgsGrow(t: Tables, code: Code, org: int)
    ensures forall o :: IsOrg(t, o) ==> IsOrg(OrgAdded(t, code, org), o)
  {
    forall o | IsOrg(t, o) ensures IsOrg(OrgAdded(t, code, org), o) {
      var c :| c in t.orgs && t.orgs[c] == o;
      assert c in OrgAdded(t, code, org).orgs && OrgAdded(t, code, org).orgs[c] == o;
    }
  }

  lemma ChangeKeepsKeyed(t: Tables, c: Change)
    requires Keyed(t)
    ensures Keyed(Changed(t, c))
  {
    match c
    case AddOrg(code, org) => OrgsGrow(t, code, org);
    case CreateExam(exam, client, open, fanOut) => NewExamKeepsKeyed(t, exam, client, open, fanOut);
    case _ =>
  }

  lemma NewExamKeepsKeyed(t: Tables, exam: int, client: int, open: bool, fanOut: FanOut)
    requires Keyed(t)
    ensures Keyed(ExamCreated(t, exam, client, open, fanOut))
  {}

  lemma NextKeepsKeyed(s: System, a: Action)
    requires Keyed(s.t)
    ensures Keyed(Next(s, a).t)
  {
    if a.Catalogue? { ChangeKeepsKeyed(s.t, a.change); }
    if a.Rule? { RulingKeepsKeyed(s.t, a.client, a.ruling); }
    if a.Step? && a.i < |s.calls| { WriteKeepsKeyed(s.t, s.calls[a.i].task); }
  }

  lemma {:induction false} RunKeyed(s: System, actions: seq<Action>)
    requires Keyed(s.t)
    ensures Keyed(Run(s, actions).t)
  {
    if actions != [] {
      RunKeyed(s, actions[..|actions| - 1]);
      NextKeepsKeyed(Run(s, actions[..|actions| - 1]), actions[|actions| - 1]);
    }
  }

  /**
   After any run: an organisation is approved for an exam created next exactly when the single-exam route created it,
   its fan-out landed, and the client had granted the organisation by then. No other row changes.
   */
  lemma NewExamReachesExactly(s: System, actions: seq<Action>, exam: int, client: int, open: bool, fanOut: FanOut,
                              org: int)
    requires Keyed(s.t) && exam !in Run(s, actions).t.exams
    ensures var t := Run(s, actions).t;
            var t' := Next(Run(s, actions), Catalogue(CreateExam(exam, client, open, fanOut))).t;
            && (HasApproved(t', Pair(org, exam)) <==> fanOut == Landed && (client, org) in t.grants)
            && (Pair(org, exam) in t'.subs ==> t'.subs[Pair(org, exam)] == Sub(Approved, Blanket))
            && forall p: Pair :: p.exam != exam ==> SameRow(t, t', p)
  {
    RunKeyed(s, actions);
    FansOutExactly(Run(s, actions).t, exam, client, open, fanOut, org);
  }

  lemma FansOutExactly(t: Tables, exam: int, client: int, open: bool, fanOut: FanOut, org: int)
    requires Keyed(t) && exam !in t.exams
    ensures var t' := ExamCreated(t, exam, client, open, fanOut);
            && (HasApproved(t', Pair(org, exam)) <==> fanOut == Landed && (client, org) in t.grants)
            && (Pair(org, exam) in t'.subs ==> t'.subs[Pair(org, exam)] == Sub(Approved, Blanket))
            && forall p: Pair :: p.exam != exam ==> SameRow(t, t', p)
  {}

  /**
   A granted organisation gets no subscription to an exam created from a CSV, and a later exam's fan-out does
   not make up for it.
   */
  lemma CsvExamMissesGrants(t: Tables, exam: int, other: int, client: int, open: bool, org: int)
    requires Keyed(t) && (client, org) in t.grants && exam !in t.exams && other !in t.exams && exam != other
    ensures var s := System(t, []);
            var first := Next(s, Catalogue(CreateExam(exam, client, open, NoneForCsv)));
            var end := Next(first, Catalogue(CreateExam(other, client, open, Landed))).t;
            Pair(org, exam) !in end.subs && HasApproved(end, Pair(org, other))
  {}

  // ---------- what is there ----------

  /** Clients and organisations come and go exactly by the changes named after them; a client with exams stays. */
  lemma PartiesExactly(t: Tables, c: Change, client: int, code: Code)
    ensures var t' := Changed(t, c);
            && (client in t'.clients <==>
                  || c == AddClient(client)
                  || (client in t.clients &&
                      (c == DropClient(client) ==> exists e :: e in t.exams && t.exams[e].client == client)))
            && (code in t.orgs ==> code in t'.orgs && t'.orgs[code] == t.orgs[code])
            && (code !in t.orgs ==>
                  (code in t'.orgs <==> c.AddOrg? && c.code == code && !IsOrg(t, c.org) && t'.orgs[code] == c.org))
  {}

  lemma RulingKeepsParties(t: Tables, client: int, r: Ruling)
    ensures var t' := RuledOn(t, client, r);
            t'.clients == t.clients && t'.orgs == t.orgs && t'.exams == t.exams && t'.users == t.users
  {
    if r.Csv? { LinesKeepRows(t, client, r.lines); }
  }

  lemma WriteKeepsParties(t: Tables, task: Task)
    ensures var t' := Written(t, task);
            && t'.clients == t.clients && t'.orgs == t.orgs && t'.exams == t.exams
            && (!task.Upload? ==> t'.users == t.users)
            && forall u :: u in t.users ==> u in t'.users && t'.users[u] == t.users[u]
  {
    if task.Upload? { UploadExactly(t, task.pair, task.rows); }
  }

  /** So do exams: a new one starts as given, opening or closing changes nothing else, and deletion takes it away. */
  lemma ExamsExactly(t: Tables, c: Change, exam: int)
    ensures var t' := Changed(t, c);
            && (exam in t.exams ==>
                  && (exam !in t'.exams <==> c == DropExam(exam))
                  && (exam in t'.exams ==>
                        && t'.exams[exam].client == t.exams[exam].client
                        && t'.exams[exam].open == if c.OpenExam? && c.exam == exam then c.open else t.exams[exam].open))
            && (exam !in t.exams ==>
                  (exam in t'.exams <==>
                   && c.CreateExam? && c.exam == exam && c.client in t.clients
                   && t'.exams[exam] == Exam(c.client, c.open)))
  {}

  /** No other action touches them. */
  lemma CatalogueKept(s: System, a: Action)
    requires !a.Catalogue?
    ensures var t, t' := s.t, Next(s, a).t; t'.clients == t.clients && t'.orgs == t.orgs && t'.exams == t.exams
  {
    if a.Rule? { RulingKeepsParties(s.t, a.client, a.ruling); }
    if a.Step? && a.i < |s.calls| { WriteKeepsParties(s.t, s.calls[a.i].task); }
  }

  /** Users never change organisation; one goes only by deletion, with the assignment. */
  lemma UsersExactly(s: System, a: Action, user: int)
    ensures var t, t' := s.t, Next(s, a).t;
            && (user in t.users ==>
                  && (user !in t'.users <==> a == DropUser(user))
                  && (user in t'.users ==> t'.users[user] == t.users[user]))
            && (a == DropUser(user) ==> user !in t'.held)
            && (user !in t.users && a.CreateUser? ==>
                  (user in t'.users <==>
                   a.user == user && (a.home.Some? ==> IsOrg(t, a.home.value)) && t'.users[user] == a.home))
  {
    match a
    case Rule(client, r) => RulingKeepsParties(s.t, client, r);
    case Step(i) => if i < |s.calls| { WriteKeepsParties(s.t, s.calls[i].task); }
    case Catalogue(change) => ChangeKeepsUsers(s.t, change);
    case _ =>
  }

  lemma ChangeKeepsUsers(t: Tables, c: Change)
    ensures Changed(t, c).users == t.users
  {}

  /** The action grants the client's catalogue to the organisation. */
  predicate Grants(s: System, a: Action, client: int, org: int) {
    match a
    case Rule(c, ApproveAll(p)) => c == client && p.org == org && Owns(s.t, client, p.exam) && IsOrg(s.t, org)
    case Rule(c, Bulk(orgIds, _, v)) =>
      c == client && v == Approve(Blanket) && GrantsAllowed(s.t, client, orgIds, v) && org in orgIds && org > 0
    case Catalogue(Grant(clients, o)) => o == org && client in clients && client in s.t.clients && IsOrg(s.t, org)
    case _ => false
  }

  /** A grant is there after a step exactly if the step makes it, or it was there and its client is not deleted. */
  lemma GrantsExactly(s: System, a: Action, client: int, org: int)
    requires Keyed(s.t)
    ensures (client, org) in Next(s, a).t.grants <==>
            || Grants(s, a, client, org)
            || ((client, org) in s.t.grants && client in Next(s, a).t.clients)
  {
    match a
    case Rule(c, r) => RulingGrantsExactly(s, c, r, client, org);
    case Step(i) =>
      if i < |s.calls| {
        WriteKeepsParties(s.t, s.calls[i].task);
        WriteGrantsNothing(s.t, s.calls[i].task);
      }
    case Catalogue(change) => ChangeGrantsExactly(s, change, client, org);
    case _ =>
  }

  lemma RulingGrantsExactly(s: System, c: int, r: Ruling, client: int, org: int)
    requires Keyed(s.t)
    ensures RuledOn(s.t, c, r).clients == s.t.clients
    ensures (client, org) in RuledOn(s.t, c, r).grants <==>
            Grants(s, Rule(c, r), client, org) || (client, org) in s.t.grants
  {
    RulingKeepsParties(s.t, c, r);
    match r
    case ApproveAll(p) => BlanketClickWrites(s.t, c, p, p);
    case Csv(lines) => LinesKeepRows(s.t, c, lines);
    case _ =>
  }

  lemma WriteGrantsNothing(t: Tables, task: Task)
    ensures Written(t, task).grants == t.grants
  {
    if task.Upload? { UploadExactly(t, task.pair, task.rows); }
  }

  lemma ChangeGrantsExactly(s: System, c: Change, client: int, org: int)
    requires Keyed(s.t)
    ensures (client, org) in Changed(s.t, c).grants <==>
            || Grants(s, Catalogue(c), client, org)
            || ((client, org) in s.t.grants && client in Changed(s.t, c).clients)
  {}

  // ---------- every approval, withdrawal and rejection has its cause ----------

  /** The ruling of this client's reviewer approves the row, which was not approved. */
  predicate RulingApproves(t: Tables, client: int, r: Ruling, p: Pair) {
    Owns(t, client, p.exam) &&
    match r
    case ApproveOne(x) => x == p && IsOrg(t, p.org)
    case ApproveAll(x) =>
      && Owns(t, client, x.exam) && IsOrg(t, x.org) && x.org == p.org
      && (HasPending(t, p) || (x == p && p !in t.subs))
    case Bulk(orgIds, examIds, v) =>
      && v.Approve? && GrantsAllowed(t, client, orgIds, v)
      && HasPending(t, p) && Listed(p, orgIds, examIds, OrgWide(v, examIds))
    case Csv(lines) => HasPending(t, p) && FirstFor(t.orgs, lines, p.org) == Some(true)
    case _ => false
  }

  /** The row becomes approved: by a ruling, or with a new exam's fan-out to a granted organisation. */
  predicate Approves(s: System, a: Action, p: Pair) {
    match a
    case Rule(client, r) => RulingApproves(s.t, client, r, p)
    case Catalogue(CreateExam(exam, client, _, fanOut)) =>
      && exam == p.exam && exam !in s.t.exams && client in s.t.clients
      && fanOut == Landed && (client, p.org) in s.t.grants
    case _ => false
  }

  /** The approved row loses its approval. */
  predicate Withdraws(s: System, a: Action, p: Pair) {
    match a
    case Rule(client, RejectOne(x)) => x == p && Owns(s.t, client, p.exam)
    case Rule(client, ResetOne(x)) => x == p && Owns(s.t, client, p.exam)
    case Unsubscribe(x) => x == p
    case Catalogue(DropExam(exam)) => exam == p.exam
    case Step(i) =>
      i < |s.calls| && s.calls[i].stage == Checked &&
      (match s.calls[i].task
       case Subscribe(x) => x == p && IsOrg(s.t, p.org) && p.exam in s.t.exams
       case Revoke(client, x) => x == p && Owns(s.t, client, p.exam)
       case Upload(_, _) => false)
    case _ => false
  }

  lemma RulingDecidesExactly(t: Tables, client: int, r: Ruling, p: Pair)
    ensures !HasApproved(t, p) ==> (HasApproved(RuledOn(t, client, r), p) <==> RulingApproves(t, client, r, p))
    ensures HasApproved(t, p) ==>
              (HasApproved(RuledOn(t, client, r), p) <==>
               !(r in {RejectOne(p), ResetOne(p)} && Owns(t, client, p.exam)))
  {
    if r.Csv? { LinesDecideExactly(t, client, r.lines, p); }
  }

  lemma LinesDecideExactly(t: Tables, client: int, lines: seq<Line>, p: Pair)
    ensures HasApproved(AfterLines(t, client, lines), p) <==>
            || HasApproved(t, p)
            || (Owns(t, client, p.exam) && HasPending(t, p) && FirstFor(t.orgs, lines, p.org) == Some(true))
  {
    FirstLineSettles(t, client, lines);
  }

  lemma WriteDecidesExactly(s: System, i: nat, p: Pair)
    requires i < |s.calls| && s.calls[i].stage == Checked
    ensures HasApproved(Next(s, Step(i)).t, p) <==> HasApproved(s.t, p) && !Withdraws(s, Step(i), p)
  {
    if s.calls[i].task.Upload? { UploadExactly(s.t, s.calls[i].task.pair, s.calls[i].task.rows); }
  }

  lemma ChangeDecidesExactly(s: System, c: Change, p: Pair)
    requires Keyed(s.t)
    ensures HasApproved(Changed(s.t, c), p) <==>
            if HasApproved(s.t, p) then !Withdraws(s, Catalogue(c), p) else Approves(s, Catalogue(c), p)
  {}

  /** One step of any writer approves a row, or ends its approval, exactly when it is one of these. */
  lemma NextDecidesExactly(s: System, a: Action, p: Pair)
    requires Keyed(s.t)
    ensures HasApproved(Next(s, a).t, p) <==>
            if HasApproved(s.t, p) then !Withdraws(s, a, p) else Approves(s, a, p)
  {
    match a
    case Rule(client, r) => RulingDecidesExactly(s.t, client, r, p);
    case Catalogue(change) => ChangeDecidesExactly(s, change, p);
    case Step(i) => if i < |s.calls| && s.calls[i].stage == Checked { WriteDecidesExactly(s, i, p); }
    case _ =>
  }

  /** The last of the run's approvals and withdrawals of the row was an approval. */
  predicate ApprovedLast(s: System, actions: seq<Action>, p: Pair) {
    if actions == [] then HasApproved(s.t, p)
    else
      var front, last := actions[..|actions| - 1], actions[|actions| - 1];
      if ApprovedLast(s, front, p) then !Withdraws(Run(s, front), last, p) else Approves(Run(s, front), last, p)
  }

  /** Over every run: a row ends up approved exactly if the last such step for it was an approval. */
  lemma {:induction false} ApprovedExactlyIfLast(s: System, actions: seq<Action>, p: Pair)
    requires Keyed(s.t)
    ensures HasApproved(Run(s, actions).t, p) <==> ApprovedLast(s, actions, p)
  {
    if actions != [] {
      var front, last := actions[..|actions| - 1], actions[|actions| - 1];
      RunKeyed(s, front);
      ApprovedExactlyIfLast(s, front, p);
      NextDecidesExactly(Run(s, front), last, p);
    }
  }

  predicate HasRejected(t: Tables, p: Pair) {
    p in t.subs && t.subs[p].status == Rejected
  }

  /** The reviewer rejects the row: by itself, in bulk, or by the first line of a CSV file for its organisation. */
  predicate Rejects(s: System, a: Action, p: Pair) {
    match a
    case Rule(client, RejectOne(x)) => x == p && p in s.t.subs && Owns(s.t, client, p.exam)
    case Rule(client, Bulk(orgIds, examIds, v)) =>
      && !v.Approve? && HasPending(s.t, p) && Owns(s.t, client, p.exam)
      && Listed(p, orgIds, examIds, OrgWide(v, examIds))
    case Rule(client, Csv(lines)) =>
      HasPending(s.t, p) && Owns(s.t, client, p.exam) && FirstFor(s.t.orgs, lines, p.org) == Some(false)
    case _ => false
  }

  lemma RulingRejectsExactly(s: System, client: int, r: Ruling, p: Pair)
    requires !HasRejected(s.t, p)
    ensures HasRejected(RuledOn(s.t, client, r), p) <==> Rejects(s, Rule(client, r), p)
  {
    if r.Csv? { FirstLineSettles(s.t, client, r.lines); }
  }

  /** A row that is not rejected becomes so exactly by one of these. */
  lemma RejectedExactlyBy(s: System, a: Action, p: Pair)
    requires !HasRejected(s.t, p)
    ensures HasRejected(Next(s, a).t, p) <==> Rejects(s, a, p)
  {
    match a
    case Rule(client, r) => RulingRejectsExactly(s, client, r, p);
    case Step(i) => if i < |s.calls| { WriteRejectsNothing(s.t, s.calls[i].task, p); }
    case Catalogue(change) => ChangeRejectsNothing(s.t, change, p);
    case _ =>
  }

  lemma WriteRejectsNothing(t: Tables, task: Task, p: Pair)
    requires !HasRejected(t, p)
    ensures !HasRejected(Written(t, task), p)
  {
    if task.Upload? { UploadExactly(t, task.pair, task.rows); }
  }

  lemma ChangeRejectsNothing(t: Tables, c: Change, p: Pair)
    requires !HasRejected(t, p)
    ensures !HasRejected(Changed(t, c), p)
  {}

  // ---------- a request, an upload or a revoke served at once ----------

  /** A call that arrives and takes its two steps with nothing in between. */
  function Served(s: System, task: Task): System {
    Next(Next(Next(s, Receive(task)), Step(|s.calls|)), Step(|s.calls|))
  }

  /** Served alone, an access request changes its row exactly for an open exam with no approved or pending row yet. */
  lemma RequestServed(s: System, p: Pair)
    requires IsOrg(s.t, p.org)
    ensures var t' := Served(s, Subscribe(p)).t;
            var passes := p.exam in s.t.exams && s.t.exams[p.exam].open && !HasApproved(s.t, p) && !HasPending(s.t, p);
            && OnlyRow(s.t, t', p) && (!passes ==> t' == s.t)
            && (passes ==> p in t'.subs && t'.subs[p] == Sub(Pending, Unset))
  {
    RequestLeavesPending(s.t, p);
  }

  /** Served alone, a revoke revokes exactly an approved row of the client's own exam. */
  lemma RevokeServed(s: System, client: int, p: Pair)
    ensures var t' := Served(s, Revoke(client, p)).t;
            var passes := HasApproved(s.t, p) && Owns(s.t, client, p.exam);
            && (!passes ==> t' == s.t)
            && (passes ==> p in t'.subs && t'.subs[p] == Sub(Revoked, s.t.subs[p].kind) && FreesHolders(s.t, t', p))
  {
    RevokeSettles(s.t, client, p);
  }

  /** Served alone, an upload links exactly the organisation's named users, for an approved subscription only. */
  lemma UploadServed(s: System, p: Pair, rows: seq<Row>)
    ensures Served(s, Upload(p, rows)).t ==
            if HasApproved(s.t, p) && Linkable(s.t, p, rows) then AllLinked(s.t, p, Named(rows)) else s.t
  {
    UploadExactly(s.t, p, rows);
  }

  /** The call itself is then over, and no other call has moved. */
  lemma ServedOnce(s: System, task: Task)
    ensures Served(s, task).calls == s.calls + [Call(task, Finished)]
  {}

  // ---------- no reviewer reaches another client ----------

  /** Rows of other clients' exams, and other clients' grants, are as before; no ruling assigns or frees an operator. */
  ghost predicate Scoped(t: Tables, t': Tables, client: int) {
    && (forall p: Pair :: !Owns(t, client, p.exam) ==> SameRow(t, t', p))
    && (forall g :: g in t.grants ==> g in t'.grants) && (forall g :: g in t'.grants && g.0 != client ==> g in t.grants)
    && t'.clients == t.clients && t'.exams == t.exams && t'.orgs == t.orgs
    && t'.users == t.users && t'.held == t.held
  }

  lemma FlipScoped(t: Tables, client: int, picked: set<Pair>, v: Verdict)
    requires forall p :: p in picked ==> Owns(t, client, p.exam)
    ensures Scoped(t, Flipped(t, picked, v), client)
  {}

  lemma ScopedChain(t: Tables, u: Tables, w: Tables, client: int)
    requires Scoped(t, u, client) && Scoped(u, w, client)
    ensures Scoped(t, w, client)
  {}

  lemma {:induction false} LinesScoped(t: Tables, client: int, lines: seq<Line>)
    ensures Scoped(t, AfterLines(t, client, lines), client)
  {
    if lines != [] {
      var front, last := lines[..|lines| - 1], lines[|lines| - 1];
      LinesScoped(t, client, front);
      var u := AfterLines(t, client, front);
      match Settles(u.orgs, last)
      case None =>
      case Some((org, approve)) =>
        FlipScoped(u, client, PendingOf(u, client, org), LineVerdict(approve));
        ScopedChain(t, u, AfterLine(u, client, last), client);
    }
  }

  lemma GrantScoped(t: Tables, client: int, more: set<(int, int)>)
    requires forall g :: g in more ==> g.0 == client
    ensures Scoped(t, t.(grants := t.grants + more), client)
  {}

  lemma BulkScoped(t: Tables, client: int, orgIds: seq<int>, examIds: seq<int>, v: Verdict)
    ensures Scoped(t, BulkDecided(t, client, orgIds, examIds, v), client)
  {
    var picked := Picked(t, client, orgIds, examIds, OrgWide(v, examIds));
    FlipScoped(t, client, picked, v);
    var u := Flipped(t, picked, v);
    if v == Approve(Blanket) {
      GrantScoped(u, client, GrantedTo(client, orgIds));
      ScopedChain(t, u, u.(grants := u.grants + GrantedTo(client, orgIds)), client);
    }
  }

  lemma BlanketScoped(t: Tables, client: int, p: Pair)
    ensures Scoped(t, ApprovedBlanket(t, client, p), client)
  {
    if Owns(t, client, p.exam) && IsOrg(t, p.org) {
      var granted := t.(grants := t.grants + {(client, p.org)});
      GrantScoped(t, client, {(client, p.org)});
      var picked := PendingOf(granted, client, p.org);
      FlipScoped(granted, client, picked, Approve(Blanket));
      ScopedChain(t, granted, Flipped(granted, picked, Approve(Blanket)), client);
    }
  }

  /**
   The write of a revoke, whatever happened since its check: on an exam of its client a row that is still there is
   revoked and exactly the organisation's holders of the exam are freed; nothing else changes, and on another client's
   exam nothing at all.
   */
  lemma RevokeStaysInScope(s: System, i: nat, client: int, p: Pair)
    requires i < |s.calls| && s.calls[i] == Call(Revoke(client, p), Checked)
    ensures var t, t' := s.t, Next(s, Step(i)).t;
            && (!Owns(t, client, p.exam) ==> t' == t)
            && (forall q: Pair :: q != p ==> SameRow(t, t', q))
            && (Owns(t, client, p.exam) ==> FreesHolders(t, t', p))
            && (Owns(t, client, p.exam) && p in t.subs ==> p in t'.subs && t'.subs[p] == Sub(Revoked, t.subs[p].kind))
            && (p !in t.subs ==> p !in t'.subs)
  {
    RevokeSettles(s.t, client, p);
  }

  /** Whatever a reviewer sends, one row or thousands, only rows and grants of that client can change. */
  lemma RulingsStayInScope(t: Tables, client: int, r: Ruling)
    ensures Scoped(t, RuledOn(t, client, r), client)
  {
    match r
    case ApproveOne(p) =>
    case ApproveAll(p) => BlanketScoped(t, client, p);
    case RejectOne(p) =>
    case ResetOne(p) =>
    case Bulk(orgIds, examIds, v) => BulkScoped(t, client, orgIds, examIds, v);
    case Csv(lines) => LinesScoped(t, client, lines);
  }

  // ---------- the institute's handlers, run without interference ----------

  datatype UploadReply = Stored(created: nat, linked: nat, passedOver: nat) | NotSubscribed | RolledBack

  class InstituteDesk {
    var t: Tables

    constructor (t: Tables)
      ensures this.t == t
    {
      this.t := t;
    }

    /** Delete the operator's rows and insert the list again; the second insert for one operator is refused. */
    method SetOperatorExams(org: int, user: int, list: seq<int>) returns (ok: bool)
      modifies this
      ensures t == ExamsSet(old(t), org, user, list)
      ensures ok <==> && user in old(t).users && old(t).users[user] == Some(org)
                      && |list| == 1 && HasApproved(old(t), Pair(org, list[0]))
    {
      SetExamsExactly(t, org, user, list);
      if list == [] { return false; }
      if user !in t.users || t.users[user] != Some(org) { return false; }
      if |ApprovedAmong(t, org, list)| != |list| { return false; }
      var start := t;
      t := t.(held := t.held - {user});
      for i := 0 to |list|
        invariant i <= 1
        invariant t == start.(held := if i == 0 then start.held - {user} else start.held[user := list[0]])
      {
        if user in t.held {
          t := start;
          return false;
        }
        t := t.(held := t.held[user := list[i]]);
        assert t.held == start.held[user := list[0]];
      }
      return true;
    }

    /**
     One line: a new user joins and holds the exam, the organisation's own user holds it, anyone else is
     passed over.
     */
    method LinkRow(p: Pair, row: Row) returns (e: Effect)
      modifies this
      ensures e == Refused <==> RowLinked(old(t), p, row) == None
      ensures if e == Refused then t == old(t) else RowLinked(old(t), p, row) == Some(t)
      ensures e == Created ==> row.user !in old(t).users
      ensures e in {Linked, PassedOver} ==> row.user in old(t).users
    {
      var start := t;
      if row.user !in t.users {
        if row.refused { return Refused; }
        t := t.(users := t.users[row.user := Some(p.org)]);
        if p.exam !in t.exams {
          t := start;
          return Refused;
        }
        t := t.(held := t.held[row.user := p.exam]);
        return Created;
      }
      if t.users[row.user] != Some(p.org) { return PassedOver; }
      if row.user in t.held { return if t.held[row.user] == p.exam then Linked else Refused; }
      if p.exam !in t.exams { return Refused; }
      t := t.(held := t.held[row.user := p.exam]);
      return Linked;
    }

    /** The linking loop: any refused statement rolls the whole file back. */
    method UploadExamOperators(p: Pair, rows: seq<Row>) returns (r: UploadReply)
      modifies this
      ensures r == NotSubscribed <==> !HasApproved(old(t), p)
      ensures r.Stored? <==> HasApproved(old(t), p) && Linkable(old(t), p, rows)
      ensures t == if r.Stored? then AllLinked(old(t), p, Named(rows)) else old(t)
      ensures r.Stored? ==> r.created + r.linked + r.passedOver == |rows|
      ensures r.Stored? ==> r.created == |Named(rows) - old(t).users.Keys|
    {
      UploadExactly(t, p, rows);
      if !HasApproved(t, p) { return NotSubscribed; }
      var start := t;
      var created, linked, passedOver := 0, 0, 0;
      assert Named(rows[..0]) - start.users.Keys == {};
      for i := 0 to |rows|
        invariant RowsLinked(start, p, rows[..i]) == Some(t)
        invariant created + linked + passedOver == i
        invariant created == |Named(rows[..i]) - start.users.Keys|
      {
        NextRow(start, t, p, rows, i);
        var e := LinkRow(p, rows[i]);
        match e
        case Refused =>
          t := start;
          return RolledBack;
        case Created => created := created + 1;
        case Linked => linked := linked + 1;
        case PassedOver => passedOver := passedOver + 1;
      }
      assert rows[..|rows|] == rows;
      return Stored(created, linked, passedOver);
    }
  }

  datatype Effect = Created | Linked | PassedOver | Refused

  /** The loop's next prefix, its outcome, and how many new users it has named. */
  lemma NextRow(start: Tables, now: Tables, p: Pair, rows: seq<Row>, i: nat)
    requires i < |rows| && RowsLinked(start, p, rows[..i]) == Some(now)
    ensures RowsLinked(start, p, rows[..i + 1]) == RowLinked(now, p, rows[i])
    ensures RowLinked(now, p, rows[i]) == None ==> RowsLinked(start, p, rows) == None
    ensures |Named(rows[..i + 1]) - start.users.Keys|
         == |Named(rows[..i]) - start.users.Keys| + if rows[i].user in now.users then 0 else 1
  {
    assert rows[..i + 1][..i] == rows[..i] && rows[..i + 1][i] == rows[i];
    NamedGrows(rows[..i + 1]);
    NewNames(Named(rows[..i]), start.users.Keys, rows[i].user);
    UploadExactly(start, p, rows[..i]);
    UploadExactly(start, p, rows[..i + 1]);
    if RowLinked(now, p, rows[i]) == None {
      PrefixFails(start, p, rows, i + 1);
      UploadExactly(start, p, rows);
    }
  }

  lemma NewNames(named: set<int>, known: set<int>, x: int)
    ensures |(named + {x}) - known| == |named - known| + if x in named || x in known then 0 else 1
  {
    if x in named || x in known {
      assert (named + {x}) - known == named - known;
    } else {
      assert (named + {x}) - known == (named - known) + {x};
    }
  }

  lemma PrefixFails(t: Tables, p: Pair, rows: seq<Row>, n: nat)
    requires n <= |rows| && !Linkable(t, p, rows[..n])
    ensures !Linkable(t, p, rows)
  {
    var i :| 0 <= i < n && !RowFits(t, p, Named(rows[..n][..i]), rows[..n][i]);
    assert rows[..n][..i] == rows[..i] && rows[..n][i] == rows[i];
  }
}
