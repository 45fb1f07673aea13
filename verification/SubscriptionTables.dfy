/**
 Exam subscriptions, client-wide grants and operator assignments: the four tables, and every statement
 or explicit transaction that writes them, each as one step on the tables.
 */
module SubscriptionTables {
  import opened Wrappers

  datatype Status = Pending | Approved | Rejected | Revoked

  /** approval_type. */
  datatype Kind = Unset | PerExam | Blanket

  datatype Sub = Sub(status: Status, kind: Kind)

  /** `open` is visible = 1 and closed = 0. */
  datatype Exam = Exam(client: int, open: bool)

  /** The primary key of organization_exam_subscriptions. */
  datatype Pair = Pair(org: int, exam: int)

  /** organizations.code. */
  datatype Code = Code(text: string)

  /**
   `users` gives each user's organisation, if any; `grants` the approved (client, organisation) pairs.
   operator_exams is unique on the user, so an operator holds at most one exam.
   */
  datatype Tables = Tables(
    clients: set<int>, exams: map<int, Exam>, orgs: map<Code, int>, users: map<int, Option<int>>,
    subs: map<Pair, Sub>, grants: set<(int, int)>, held: map<int, int>)

  predicate IsOrg(t: Tables, org: int) {
    exists c :: c in t.orgs && t.orgs[c] == org
  }

  predicate Owns(t: Tables, client: int, exam: int) {
    exam in t.exams && t.exams[exam].client == client
  }

  predicate HasApproved(t: Tables, p: Pair) {
    p in t.subs && t.subs[p].status == Approved
  }

  predicate HasPending(t: Tables, p: Pair) {
    p in t.subs && t.subs[p].status == Pending
  }

  /** Some operator of the organisation holds the exam. */
  ghost predicate InUse(t: Tables, p: Pair) {
    exists u :: u in t.held && Holds(t, u, p)
  }

  predicate Holds(t: Tables, u: int, p: Pair) {
    u in t.held && t.held[u] == p.exam && u in t.users && t.users[u] == Some(p.org)
  }

  // ---------- the institute's statements ----------

  /** The upsert at the end of adminSubscribe: it does not look at the status it overwrites. */
  function Requested(t: Tables, p: Pair): Tables {
    if !IsOrg(t, p.org) || p.exam !in t.exams then t else t.(subs := t.subs[p := Sub(Pending, Unset)])
  }

  /** Every operator of the organisation loses the exam. */
  function Cascaded(t: Tables, p: Pair): Tables {
    t.(held := map u | u in t.held && !Holds(t, u, p) :: t.held[u])
  }

  function Unsubscribed(t: Tables, p: Pair): Tables {
    if p !in t.subs then t else Cascaded(t.(subs := t.subs - {p}), p)
  }

  // ---------- one reviewer decision ----------

  function ApprovedOne(t: Tables, client: int, p: Pair): Tables {
    if !Owns(t, client, p.exam) || !IsOrg(t, p.org) then t
    else t.(subs := t.subs[p := Sub(Approved, PerExam)])
  }

  /** The update's status only; approval_type is left as it was. */
  function Stamped(t: Tables, client: int, p: Pair, status: Status): Tables {
    if !Owns(t, client, p.exam) || p !in t.subs then t
    else t.(subs := t.subs[p := t.subs[p].(status := status)])
  }

  /** The revoke transaction, after its status check. */
  function RevokedOne(t: Tables, client: int, p: Pair): Tables {
    if !Owns(t, client, p.exam) then t else Cascaded(Stamped(t, client, p, Revoked), p)
  }

  predicate SameRow(t: Tables, t': Tables, p: Pair) {
    (p in t.subs <==> p in t'.subs) && (p in t.subs ==> t.subs[p] == t'.subs[p])
  }

  /** Only this row of the subscriptions differs, and nothing else does. */
  ghost predicate OnlyRow(t: Tables, t': Tables, p: Pair) {
    t' == t.(subs := t'.subs) && forall q: Pair :: q != p ==> SameRow(t, t', q)
  }

  /** Apart from the subscriptions, only this: exactly the organisation's holders of the exam have lost it. */
  ghost predicate FreesHolders(t: Tables, t': Tables, p: Pair) {
    && t' == t.(subs := t'.subs, held := t'.held)
    && (forall u :: u in t'.held ==> u in t.held && t'.held[u] == t.held[u])
    && (forall u :: u in t.held ==> (u !in t'.held <==> Holds(t, u, p)))
  }

  /** An unsubscription removes the row and frees its operators, or finds no row and does nothing. */
  lemma UnsubscribeRemoves(t: Tables, p: Pair)
    ensures var t' := Unsubscribed(t, p);
            && p !in t'.subs && (forall q: Pair :: q != p ==> SameRow(t, t', q))
            && (p in t.subs ==> FreesHolders(t, t', p)) && (p !in t.subs ==> t' == t)
  {}

  /** A request leaves the row pending, whatever it was. */
  lemma RequestLeavesPending(t: Tables, p: Pair)
    ensures var t' := Requested(t, p);
            && OnlyRow(t, t', p)
            && (IsOrg(t, p.org) && p.exam in t.exams ==> p in t'.subs && t'.subs[p] == Sub(Pending, Unset))
            && (!(IsOrg(t, p.org) && p.exam in t.exams) ==> t' == t)
  {}

  /**
   What one click of a reviewer leaves in its row: approved one by one, rejected, or pending again. The row must be
   under an exam of the reviewer's client; a rejection or reset needs a row, and keeps how it was once approved.
   */
  lemma ClicksWrite(t: Tables, client: int, p: Pair)
    ensures var t' := ApprovedOne(t, client, p);
            && OnlyRow(t, t', p) && (!Owns(t, client, p.exam) ==> t' == t)
            && (Owns(t, client, p.exam) && IsOrg(t, p.org) ==> p in t'.subs && t'.subs[p] == Sub(Approved, PerExam))
    ensures var t' := Stamped(t, client, p, Rejected);
            && OnlyRow(t, t', p) && (!Owns(t, client, p.exam) || p !in t.subs ==> t' == t)
            && (Owns(t, client, p.exam) && p in t.subs ==> t'.subs[p] == Sub(Rejected, t.subs[p].kind))
    ensures var t' := Stamped(t, client, p, Pending);
            && OnlyRow(t, t', p) && (!Owns(t, client, p.exam) || p !in t.subs ==> t' == t)
            && (Owns(t, client, p.exam) && p in t.subs ==> t'.subs[p] == Sub(Pending, t.subs[p].kind))
  {}

  /** A blanket click grants the client's catalogue, and approves its pending rows and the clicked one if missing. */
  lemma BlanketClickWrites(t: Tables, client: int, p: Pair, q: Pair)
    ensures var t' := ApprovedBlanket(t, client, p);
            var may := Owns(t, client, p.exam) && IsOrg(t, p.org);
            var open := q.org == p.org && HasPending(t, q) && Owns(t, client, q.exam);
            var hit := may && (open || (q == p && p !in t.subs));
            && t' == t.(subs := t'.subs, grants := t'.grants)
            && t'.grants == t.grants + (if may then {(client, p.org)} else {})
            && (hit ==> q in t'.subs && t'.subs[q] == Sub(Approved, Blanket))
            && (!hit ==> SameRow(t, t', q))
  {}

  /** A revoke leaves the row there and revoked, and frees its operators; it does so only for the client's own exam. */
  lemma RevokeSettles(t: Tables, client: int, p: Pair)
    ensures var t' := RevokedOne(t, client, p);
            && (!Owns(t, client, p.exam) ==> t' == t)
            && (forall q: Pair :: q != p ==> SameRow(t, t', q))
            && (Owns(t, client, p.exam) ==> FreesHolders(t, t', p))
            && (Owns(t, client, p.exam) && p in t.subs ==> p in t'.subs && t'.subs[p] == Sub(Revoked, t.subs[p].kind))
            && (p !in t.subs ==> p !in t'.subs)
  {}

  // ---------- decisions on many rows ----------

  datatype Verdict = Approve(kind: Kind) | Reject | RejectLine

  function Ruled(v: Verdict, was: Sub): Sub {
    match v
    case Approve(kind) => Sub(Approved, kind)
    case Reject => Sub(Rejected, was.kind)
    case RejectLine => Sub(Rejected, PerExam) // the CSV update writes approval_type whatever the decision
  }

  function Flipped(t: Tables, picked: set<Pair>, v: Verdict): Tables {
    t.(subs := map p | p in t.subs :: if p in picked then Ruled(v, t.subs[p]) else t.subs[p])
  }

  /** The pending rows of one organisation under the client's exams. */
  function PendingOf(t: Tables, client: int, org: int): set<Pair> {
    set p | p in t.subs && p.org == org && HasPending(t, p) && Owns(t, client, p.exam)
  }

  /** Blanket approval from one row: the grant, every pending row, and the clicked row if it did not exist. */
  function ApprovedBlanket(t: Tables, client: int, p: Pair): Tables {
    if !Owns(t, client, p.exam) || !IsOrg(t, p.org) then t
    else
      var granted := t.(grants := t.grants + {(client, p.org)});
      var u := Flipped(granted, PendingOf(granted, client, p.org), Approve(Blanket));
      if p in u.subs then u else u.(subs := u.subs[p := Sub(Approved, Blanket)])
  }

  /**
   The fan-out after an exam is created: single creation tries it, its failure is only logged, and CSV
   creation has none.
   */
  datatype FanOut = Landed | FailedLogged | NoneForCsv

  /** A new exam, auto-subscribed for every organisation its client has granted if the fan-out lands. */
  function ExamCreated(t: Tables, exam: int, client: int, open: bool, fanOut: FanOut): Tables {
    if exam in t.exams || client !in t.clients then t
    else if fanOut != Landed then t.(exams := t.exams[exam := Exam(client, open)])
    else
      t.(exams := t.exams[exam := Exam(client, open)],
         subs := (map g | g in t.grants && g.0 == client :: Pair(g.1, exam) := Sub(Approved, Blanket)) + t.subs)
  }

  /** KYC approval and the Control Plane's org message grant clients' catalogues to an organisation. */
  function Granted(t: Tables, clients: set<int>, org: int): Tables {
    if !IsOrg(t, org) then t else t.(grants := t.grants + set c | c in clients && c in t.clients :: (c, org))
  }

  /** A client with exams cannot be deleted; with any other its grants go too. */
  function ClientDropped(t: Tables, client: int): Tables {
    if exists exam :: exam in t.exams && t.exams[exam].client == client then t
    else t.(clients := t.clients - {client}, grants := set g | g in t.grants && g.0 != client)
  }

  function OrgAdded(t: Tables, code: Code, org: int): Tables {
    if code in t.orgs || IsOrg(t, org) then t else t.(orgs := t.orgs[code := org])
  }

  /** Deleting an exam takes its subscriptions and assignments with it. */
  function ExamDropped(t: Tables, exam: int): Tables {
    t.(exams := t.exams - {exam},
       subs := map p | p in t.subs && p.exam != exam :: t.subs[p],
       held := map u | u in t.held && t.held[u] != exam :: t.held[u])
  }

  /** Deleting a user takes the assignment with it. */
  function UserDropped(t: Tables, user: int): Tables {
    t.(users := t.users - {user}, held := t.held - {user})
  }

  // ---------- assignments ----------

  /** SELECT COUNT(*) over the IN list. */
  function ApprovedAmong(t: Tables, org: int, list: seq<int>): set<int> {
    set e | e in list && HasApproved(t, Pair(org, e))
  }

  predicate Distinct(list: seq<int>) {
    forall i, j :: 0 <= i < j < |list| ==> list[i] != list[j]
  }

  /** setOperatorExams: the checks, then delete and re-insert, which the unique index lets through for one exam only. */
  predicate MaySet(t: Tables, org: int, user: int, list: seq<int>) {
    && list != []
    && user in t.users && t.users[user] == Some(org)
    && |ApprovedAmong(t, org, list)| == |list|
    && |list| == 1
  }

  function ExamsSet(t: Tables, org: int, user: int, list: seq<int>): Tables {
    if MaySet(t, org, user, list) then t.(held := t.held[user := list[0]]) else t
  }

  function Members(list: seq<int>): set<int> {
    set e | e in list
  }

  lemma MembersSnoc(front: seq<int>, last: int)
    ensures Members(front + [last]) == Members(front) + {last}
  {
    assert forall e :: e in front + [last] <==> e in front || e == last;
  }

  lemma DistinctSnoc(front: seq<int>, last: int)
    ensures Distinct(front + [last]) <==> Distinct(front) && last !in front
  {
    var list := front + [last];
    assert forall i :: 0 <= i < |front| ==> list[i] == front[i];
    if last in front {
      var i :| 0 <= i < |front| && front[i] == last;
      assert list[i] == list[|front|];
    }
  }

  lemma {:induction false} DistinctCount(list: seq<int>)
    ensures |Members(list)| <= |list|
    ensures |Members(list)| == |list| <==> Distinct(list)
  {
    if list == [] {
      assert Members(list) == {};
    } else {
      var front, last := list[..|list| - 1], list[|list| - 1];
      assert list == front + [last];
      DistinctCount(front);
      MembersSnoc(front, last);
      DistinctSnoc(front, last);
      assert last in Members(front) ==> Members(list) == Members(front);
    }
  }

  lemma SubsetCount(a: set<int>, b: set<int>)
    requires a <= b
    ensures |a| <= |b| && (|a| == |b| ==> a == b)
    decreases |b|
  {
    if x :| x in b && x !in a {
      SubsetCount(a, b - {x});
    } else {
      assert forall x :: x in b ==> x in a;
      assert a == b;
    }
  }

  /** The counting check accepts exactly the duplicate-free lists of approved exams. */
  lemma CountingCheck(t: Tables, org: int, list: seq<int>)
    ensures |ApprovedAmong(t, org, list)| == |list|
            <==> Distinct(list) && forall e :: e in list ==> HasApproved(t, Pair(org, e))
  {
    var all := Members(list);
    DistinctCount(list);
    SubsetCount(ApprovedAmong(t, org, list), all);
    if |ApprovedAmong(t, org, list)| == |list| {
      assert forall e :: e in list ==> e in all;
    } else if forall e :: e in list ==> HasApproved(t, Pair(org, e)) {
      assert ApprovedAmong(t, org, list) == all;
    }
  }

  /** A CSV line of uploadExamOperators; `refused` says that hashing its password or inserting this user would fail. */
  datatype Row = Row(user: int, refused: bool)

  /**
   One line inside the upload's transaction; None once a statement has failed, which no later one can undo. The insert
   of an assignment fails on another exam of the operator, and when the exam has been deleted since the upload's check.
   */
  function RowLinked(t: Tables, p: Pair, row: Row): Option<Tables> {
    if row.user !in t.users then
      if row.refused || p.exam !in t.exams then None
      else Some(t.(users := t.users[row.user := Some(p.org)], held := t.held[row.user := p.exam]))
    else if t.users[row.user] != Some(p.org) then Some(t)
    else if row.user !in t.held then
      if p.exam in t.exams then Some(t.(held := t.held[row.user := p.exam])) else None
    else if t.held[row.user] == p.exam then Some(t)
    else None
  }

  function RowsLinked(t: Tables, p: Pair, rows: seq<Row>): Option<Tables> {
    if rows == [] then Some(t)
    else match RowsLinked(t, p, rows[..|rows| - 1])
      case None => None
      case Some(u) => RowLinked(u, p, rows[|rows| - 1])
  }

  /** The upload's transaction as a whole. */
  function Uploaded(t: Tables, p: Pair, rows: seq<Row>): Tables {
    match RowsLinked(t, p, rows) case None => t case Some(u) => u
  }

  /** A line whose user belongs to the organisation, or does not exist and will. */
  predicate Ours(t: Tables, p: Pair, user: int) {
    user !in t.users || t.users[user] == Some(p.org)
  }

  function Named(rows: seq<Row>): set<int> {
    set i | 0 <= i < |rows| :: rows[i].user
  }

  /** The user holds the exam, or holds none and the exam exists. */
  predicate MayHold(t: Tables, p: Pair, user: int) {
    if user in t.held then t.held[user] == p.exam else p.exam in t.exams
  }

  /**
   A line makes the batch fail when its user is new and refused, holds another exam, or is to be linked to an
   exam that is gone.
   */
  predicate RowFits(t: Tables, p: Pair, earlier: set<int>, row: Row) {
    if row.user in t.users
    then Ours(t, p, row.user) ==> MayHold(t, p, row.user)
    else row.user in earlier || (!row.refused && p.exam in t.exams)
  }

  predicate Linkable(t: Tables, p: Pair, rows: seq<Row>) {
    forall i :: 0 <= i < |rows| ==> RowFits(t, p, Named(rows[..i]), rows[i])
  }

  /** The batch's effect in one stroke: who is new joins the organisation, and all who are in it hold the exam. */
  function AllLinked(t: Tables, p: Pair, named: set<int>): Tables {
    t.(users := UsersWith(t.users, p.org, named), held := HeldWith(t, p, named))
  }

  function UsersWith(users: map<int, Option<int>>, org: int, named: set<int>): map<int, Option<int>> {
    map u | u in users.Keys + named :: if u in users then users[u] else Some(org)
  }

  function HeldWith(t: Tables, p: Pair, named: set<int>): map<int, int> {
    map u | u in t.held.Keys + named && (u in t.held || Ours(t, p, u)) ::
      if u in named && Ours(t, p, u) then p.exam else t.held[u]
  }

  lemma LinkableSplits(t: Tables, p: Pair, rows: seq<Row>)
    requires rows != []
    ensures var front, last := rows[..|rows| - 1], rows[|rows| - 1];
            Linkable(t, p, rows) <==> Linkable(t, p, front) && RowFits(t, p, Named(front), last)
  {
    var front, last := rows[..|rows| - 1], rows[|rows| - 1];
    assert forall i :: 0 <= i < |front| ==> front[..i] == rows[..i] && front[i] == rows[i];
  }

  lemma NamedGrows(rows: seq<Row>)
    requires rows != []
    ensures Named(rows) == Named(rows[..|rows| - 1]) + {rows[|rows| - 1].user}
  {}

  lemma UsersAfterOneMore(users: map<int, Option<int>>, org: int, named: set<int>, x: int)
    ensures var u := UsersWith(users, org, named);
            UsersWith(users, org, named + {x}) == if x in u then u else u[x := Some(org)]
  {}

  lemma HeldAfterOneMore(t: Tables, p: Pair, named: set<int>, x: int)
    ensures var h := HeldWith(t, p, named);
            HeldWith(t, p, named + {x}) == if Ours(t, p, x) then h[x := p.exam] else h
  {}

  lemma OneMoreRow(t: Tables, p: Pair, named: set<int>, row: Row)
    requires forall u :: u in named && u in t.users && Ours(t, p, u) ==> MayHold(t, p, u)
    requires RowFits(t, p, named, row)
    ensures RowLinked(AllLinked(t, p, named), p, row) == Some(AllLinked(t, p, named + {row.user}))
  {
    UsersAfterOneMore(t.users, p.org, named, row.user);
    HeldAfterOneMore(t, p, named, row.user);
    var u, v := AllLinked(t, p, named), AllLinked(t, p, named + {row.user});
    if row.user in u.users && Ours(t, p, row.user) && row.user in u.held {
      assert u.held[row.user] == p.exam;
      assert u.held[row.user := p.exam] == u.held;
    }
  }

  lemma FitsThroughout(t: Tables, p: Pair, rows: seq<Row>, u: int)
    requires Linkable(t, p, rows) && u in Named(rows) && u in t.users && Ours(t, p, u)
    ensures MayHold(t, p, u)
  {
    var i :| 0 <= i < |rows| && rows[i].user == u;
    assert RowFits(t, p, Named(rows[..i]), rows[i]);
  }

  lemma UnfitRowFails(t: Tables, p: Pair, named: set<int>, row: Row)
    requires !RowFits(t, p, named, row)
    requires row.user in named && row.user in t.users && Ours(t, p, row.user) ==> MayHold(t, p, row.user)
    ensures RowLinked(AllLinked(t, p, named), p, row) == None
  {}

  /**
   The upload is all or nothing: it succeeds exactly when no new user is refused, no named operator of the
   organisation holds another exam, and the exam still exists if anybody is to be linked to it; then every
   named user of the organisation, new or old, holds this exam,
   users of other organisations are passed over, and nothing else changes.
   */
  lemma {:induction false} UploadExactly(t: Tables, p: Pair, rows: seq<Row>)
    ensures RowsLinked(t, p, rows) == if Linkable(t, p, rows) then Some(AllLinked(t, p, Named(rows))) else None
  {
    if rows == [] {
      assert Named(rows) == {};
      assert UsersWith(t.users, p.org, {}) == t.users && HeldWith(t, p, {}) == t.held;
    } else {
      var front, last := rows[..|rows| - 1], rows[|rows| - 1];
      UploadExactly(t, p, front);
      LinkableSplits(t, p, rows);
      NamedGrows(rows);
      if Linkable(t, p, front) {
        forall u | u in Named(front) && u in t.users && Ours(t, p, u) ensures MayHold(t, p, u) {
          FitsThroughout(t, p, front, u);
        }
        if RowFits(t, p, Named(front), last) {
          OneMoreRow(t, p, Named(front), last);
        } else {
          UnfitRowFails(t, p, Named(front), last);
        }
      }
    }
  }
}
