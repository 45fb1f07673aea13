/**
 The institution_applications table of the Data Plane: its rows, its unique indexes, and the single
 UPDATE statements that move a row's status.
 */
module Applications {
  import opened Wrappers

  datatype Status = Draft | Pending | Approved | Rejected

  /** pending_reviewer: whose queue a pending row sits in. */
  datatype Queue = NoQueue | AdminQueue | ClientQueue

  /** An identity column after the handlers' trimming and case folding; Null is the absent value. */
  datatype Key = Null | Key(text: string)

  datatype Field = Aishe | Pan | Email | Mobile

  datatype Identity = Identity(aishe: Key, pan: Key, email: Key, mobile: Key) {
    function Get(f: Field): Key {
      match f
      case Aishe => aishe
      case Pan => pan
      case Email => email
      case Mobile => mobile
    }
  }

  datatype Application = Application(
    status: Status, queue: Queue, client: Option<int>, cpId: Option<int>,
    note: string, reviewer: Option<int>, who: Identity)

  type Table = map<int, Application>

  // ---------- the unique indexes ----------

  /** The two identities hold the same non-null value in `f`. */
  predicate Same(a: Identity, b: Identity, f: Field) {
    a.Get(f) != Null && a.Get(f) == b.Get(f)
  }

  predicate Clash(a: Identity, b: Identity) {
    Same(a, b, Aishe) || Same(a, b, Pan) || Same(a, b, Email) || Same(a, b, Mobile)
  }

  /** AISHE is unique over all rows; PAN, email and mobile only among rows that have left draft. */
  predicate IndexClash(x: Application, y: Application) {
    || Same(x.who, y.who, Aishe)
    || (x.status != Draft && y.status != Draft && Clash(x.who, y.who))
  }

  /** Absent values never clash; any shared value does, but in the indexes a draft's only by its AISHE code. */
  lemma ClashExactly(x: Application, y: Application)
    ensures Clash(x.who, y.who) <==> exists f :: x.who.Get(f) != Null && y.who.Get(f) == x.who.Get(f)
    ensures IndexClash(x, y) <==>
            exists f :: x.who.Get(f) != Null && y.who.Get(f) == x.who.Get(f)
                        && (f == Aishe || (x.status != Draft && y.status != Draft))
  {}

  predicate Indexed(t: Table) {
    forall i, j :: i in t && j in t && i != j ==> !IndexClash(t[i], t[j])
  }

  /** No two rows, of whatever status, share an identity value. */
  predicate FullyUnique(t: Table) {
    forall i, j :: i in t && j in t && i != j ==> !Clash(t[i].who, t[j].who)
  }

  /** Writing one row: the statement fails, and changes nothing, when an index refuses it. */
  function Put(t: Table, id: int, row: Application): Table {
    if Indexed(t[id := row]) then t[id := row] else t
  }

  /** In a fully unique table no change of status is ever refused. */
  lemma PutSameIdentity(t: Table, id: int, row: Application)
    requires FullyUnique(t) && id in t && row.who == t[id].who
    ensures Put(t, id, row) == t[id := row] && FullyUnique(t[id := row])
  {}

  // ---------- the UPDATE statements ----------

  predicate Undecided(t: Table, id: int) {
    id in t && t[id].status in {Draft, Pending}
  }

  predicate IsPending(t: Table, id: int) {
    id in t && t[id].status == Pending
  }

  predicate IsRejected(t: Table, id: int) {
    id in t && t[id].status == Rejected
  }

  /** COALESCE(NULLIF(note, ''), review_note). */
  function NoteOr(note: string, was: string): string {
    if note == "" then was else note
  }

  /** The submit proxy's update after the Control Plane accepted the submission. */
  function Reconcile(t: Table, id: int, cpId: int): Table {
    if !Undecided(t, id) then t else Put(t, id, t[id].(status := Pending, cpId := Some(cpId)))
  }

  /** backfillDPApplication: an approve delivery from the Control Plane. */
  function Backfill(t: Table, id: int): Table {
    if id <= 0 || !Undecided(t, id) then t else Put(t, id, t[id].(status := Approved))
  }

  /** A reject delivery from the Control Plane. */
  function CpReject(t: Table, id: int, note: string): Table {
    if id <= 0 || !Undecided(t, id) then t
    else Put(t, id, t[id].(status := Rejected, queue := NoQueue, note := NoteOr(note, t[id].note)))
  }

  function CpRevoke(t: Table, id: int, note: string): Table {
    if id <= 0 || !IsRejected(t, id) then t
    else Put(t, id, t[id].(status := Pending, queue := ClientQueue, note := note))
  }

  /** The guard of approveApplication's flip, with the scope folded in for client reviewers. */
  predicate MayApprove(t: Table, id: int, scope: Option<int>) {
    IsPending(t, id) && (scope == None || t[id].client == scope)
  }

  function ApproveFlip(t: Table, id: int, actor: int, note: string, scope: Option<int>): Table {
    if !MayApprove(t, id, scope) then t
    else Put(t, id, t[id].(status := Approved, queue := NoQueue, reviewer := Some(actor), note := note))
  }

  function RejectFlip(t: Table, id: int, actor: int, note: string): Table {
    if !IsPending(t, id) then t
    else Put(t, id, t[id].(status := Rejected, queue := NoQueue, reviewer := Some(actor), note := note))
  }

  function Resubmit(t: Table, id: int, queue: Queue): Table {
    if !IsRejected(t, id) then t
    else Put(t, id, t[id].(status := Pending, queue := queue, note := "", reviewer := None))
  }

  predicate MayAdvance(t: Table, id: int) {
    IsPending(t, id) && t[id].queue != ClientQueue
  }

  /** The first half of a two-stage approval: hand the row to the client's queue. */
  function Advance(t: Table, id: int, note: string): Table {
    if !MayAdvance(t, id) then t else Put(t, id, t[id].(queue := ClientQueue, note := NoteOr(note, t[id].note)))
  }

  /** After a board changes its review mode, its pending rows move to the queue the new mode names. */
  function Reroute(t: Table, client: int, queue: Queue): Table {
    map id | id in t ::
      if t[id].client == Some(client) && t[id].status == Pending then t[id].(queue := queue) else t[id]
  }

  /** PATCH of the identity columns: gated on an earlier read of the status, not on the status at the write. */
  function Patch(t: Table, id: int, who: Identity): Table {
    if id !in t then t else Put(t, id, t[id].(who := who))
  }
}
