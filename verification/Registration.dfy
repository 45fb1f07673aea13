/**
 registerInit: the four-key uniqueness discipline of a new registration, as one transaction that
 deletes replaceable rows or refuses, and what the resubmit form's PATCH does to it.
 */
module Registration {
  import opened Wrappers
  import opened Applications

  datatype Request = Request(who: Identity, client: Option<int>)

  datatype Result = Created(id: int) | Conflict | Invalid

  predicate Active(row: Application) {
    row.status in {Approved, Pending}
  }

  /** validateInit: all four identity values must be present. */
  predicate Valid(who: Identity) {
    who.aishe != Null && who.pan != Null && who.email != Null && who.mobile != Null
  }

  function NewDraft(req: Request): Application {
    Application(Draft, NoQueue, req.client, None, "", None, req.who)
  }

  function Clashing(t: Table, who: Identity): set<int> {
    set id | id in t && Clash(t[id].who, who)
  }

  /**
   The transaction on a fully unique table: refuse if any clashing row is live or an enabled user has the
   e-mail, else replace them all by one draft.
   */
  function Register(t: Table, next: int, userEmails: set<Key>, req: Request): (Table, Result) {
    if !Valid(req.who) then (t, Invalid)
    else if req.who.email in userEmails || (exists id :: id in Clashing(t, req.who) && Active(t[id])) then (t, Conflict)
    else ((t - Clashing(t, req.who))[next := NewDraft(req)], Created(next))
  }

  // ---------- the transaction, statement by statement ----------

  function Matching(t: Table, f: Field, v: Key): set<int> {
    set id | id in t && t[id].who.Get(f) == v
  }

  /** One of the four checks: SELECT one row by the key, refuse if it is live, delete it if it is draft or rejected. */
  method FreeKey(t: Table, f: Field, v: Key) returns (t': Table, ok: bool)
    requires v != Null
    ensures !ok ==> exists id :: id in Matching(t, f, v) && Active(t[id])
    ensures ok ==> t' == t - Gone(t, t') && Gone(t, t') <= Matching(t, f, v)
    ensures ok ==> forall id :: id in Gone(t, t') ==> !Active(t[id])
    ensures ok && FullyUnique(t) ==> Gone(t, t') == Matching(t, f, v)
    ensures ok && Indexed(t) && f == Aishe ==> Gone(t, t') == Matching(t, f, v)
  {
    if exists id :: id in t && t[id].who.Get(f) == v {
      var id :| id in t && t[id].who.Get(f) == v;
      if Active(t[id]) { return t, false; }
      t' := t - {id};
      ok := true;
      SoleMatch(t, f, v, id);
    } else {
      t', ok := t, true;
      NoMatch(t, f, v);
    }
  }

  lemma SoleMatch(t: Table, f: Field, v: Key, id: int)
    requires v != Null && id in t && t[id].who.Get(f) == v
    ensures Gone(t, t - {id}) == {id}
    ensures FullyUnique(t) || (Indexed(t) && f == Aishe) ==> Matching(t, f, v) == {id}
  {
    assert forall j :: j in Gone(t, t - {id}) <==> j == id;
    if FullyUnique(t) || (Indexed(t) && f == Aishe) {
      forall j | j in Matching(t, f, v) ensures j == id {
        assert Same(t[id].who, t[j].who, f);
        assert j != id && FullyUnique(t) ==> !Clash(t[id].who, t[j].who);
        assert j != id && Indexed(t) ==> !IndexClash(t[id], t[j]);
      }
      assert forall j :: j in Matching(t, f, v) <==> j in {id};
    }
  }

  lemma NoMatch(t: Table, f: Field, v: Key)
    requires !exists id :: id in t && t[id].who.Get(f) == v
    ensures Gone(t, t) == {} && Matching(t, f, v) == {}
  {
    assert forall j :: j !in Matching(t, f, v) && j !in Gone(t, t);
  }

  function Gone(t: Table, t': Table): set<int> {
    t.Keys - t'.Keys
  }

  /** `t'` is `t` without some rows, none of them live. */
  ghost predicate Cleaned(t: Table, t': Table) {
    && t' == t - Gone(t, t')
    && t'.Keys <= t.Keys
    && forall id :: id in Gone(t, t') ==> !Active(t[id])
  }

  lemma CleanedTwice(t: Table, t1: Table, t2: Table)
    requires Cleaned(t, t1) && Cleaned(t1, t2)
    ensures Cleaned(t, t2) && Gone(t, t2) == Gone(t, t1) + Gone(t1, t2)
    ensures FullyUnique(t) ==> FullyUnique(t2)
    ensures Indexed(t) ==> Indexed(t2)
  {}

  lemma CleanedNothing(t: Table)
    ensures Cleaned(t, t) && Gone(t, t) == {}
  {}

  /** The four checks in the handler's order. */
  method FreeIdentity(t: Table, userEmails: set<Key>, who: Identity) returns (t': Table, ok: bool)
    requires Valid(who) && Indexed(t)
    ensures !ok ==> who.email in userEmails || exists id :: id in Clashing(t, who) && Active(t[id])
    ensures ok ==> Cleaned(t, t') && Gone(t, t') <= Clashing(t, who) && Indexed(t')
    ensures ok ==> Matching(t', Aishe, who.aishe) == {} && who.email !in userEmails
    ensures ok && FullyUnique(t) ==> Gone(t, t') == Clashing(t, who)
  {
    CleanedNothing(t);
    var t1, t2, t3;
    t1, ok := FreeKey(t, Aishe, who.aishe);
    if !ok { LiveClash(t, t, who, Aishe); return t, false; }
    CleanedTwice(t, t, t1);
    t2, ok := FreeKey(t1, Pan, who.pan);
    if !ok { LiveClash(t, t1, who, Pan); return t, false; }
    CleanedTwice(t, t1, t2);
    if who.email in userEmails { return t, false; }
    t3, ok := FreeKey(t2, Email, who.email);
    if !ok { LiveClash(t, t2, who, Email); return t, false; }
    CleanedTwice(t, t2, t3);
    t', ok := FreeKey(t3, Mobile, who.mobile);
    if !ok { LiveClash(t, t3, who, Mobile); return t, false; }
    CleanedTwice(t, t3, t');
    AllFreed(t, t1, t2, t3, t', who);
  }

  lemma LiveClash(t: Table, t1: Table, who: Identity, f: Field)
    requires Cleaned(t, t1) && Valid(who)
    requires exists id :: id in Matching(t1, f, who.Get(f)) && Active(t1[id])
    ensures exists id :: id in Clashing(t, who) && Active(t[id])
  {}

  lemma AllFreed(t: Table, t1: Table, t2: Table, t3: Table, t4: Table, who: Identity)
    requires Valid(who)
    requires Cleaned(t, t1) && Cleaned(t1, t2) && Cleaned(t2, t3) && Cleaned(t3, t4) && Cleaned(t, t4)
    requires Gone(t, t1) == Matching(t, Aishe, who.aishe)
    requires Gone(t1, t2) <= Matching(t1, Pan, who.pan)
    requires Gone(t2, t3) <= Matching(t2, Email, who.email)
    requires Gone(t3, t4) <= Matching(t3, Mobile, who.mobile)
    ensures Gone(t, t4) <= Clashing(t, who) && Matching(t4, Aishe, who.aishe) == {}
    ensures Gone(t1, t2) == Matching(t1, Pan, who.pan) && Gone(t2, t3) == Matching(t2, Email, who.email)
            && Gone(t3, t4) == Matching(t3, Mobile, who.mobile)
            ==> Gone(t, t4) == Clashing(t, who)
  {
    forall id | id in Gone(t, t4) ensures id in Clashing(t, who) {
      if id in t3 { assert Same(t[id].who, who, Mobile); }
      else if id in t2 { assert Same(t[id].who, who, Email); }
      else if id in t1 { assert Same(t[id].who, who, Pan); }
      else { assert Same(t[id].who, who, Aishe); }
    }
    assert forall id :: id in t4 ==> id in t1 && t4[id] == t[id];
    if Gone(t1, t2) == Matching(t1, Pan, who.pan) && Gone(t2, t3) == Matching(t2, Email, who.email)
       && Gone(t3, t4) == Matching(t3, Mobile, who.mobile) {
      assert forall id :: id in Clashing(t, who) ==> id in Gone(t, t4);
    }
  }

  /**
   What a successful registration may do to any table: some clashing rows, none of them live, give way to one
   draft.
   */
  predicate MayRegister(t: Table, next: int, req: Request, gone: set<int>) {
    && next !in t && Valid(req.who)
    && gone <= Clashing(t, req.who)
    && (forall id :: id in gone ==> !Active(t[id]))
    && Indexed((t - gone)[next := NewDraft(req)])
  }

  class ApplicationTable {
    var rows: Table
    var nextId: int

    predicate IdsBelow()
      reads this
    {
      forall id :: id in rows ==> id < nextId
    }

    constructor ()
      ensures rows == map[] && IdsBelow() && Indexed(rows)
    {
      rows, nextId := map[], 1;
    }

    /**
     A refusal leaves the table as it was. A success removes only draft and rejected rows that clash with
     the newcomer, whatever state the table was in; on a fully unique table it is exactly `Register`.
     */
    method RegisterInit(userEmails: set<Key>, req: Request) returns (res: Result, ghost gone: set<int>)
      requires Indexed(rows) && IdsBelow()
      modifies this
      ensures Indexed(rows) && IdsBelow()
      ensures !res.Created? ==> rows == old(rows) && nextId == old(nextId)
      ensures res == Invalid <==> !Valid(req.who)
      ensures FullyUnique(old(rows)) ==>
                (res == Conflict <==>
                 && Valid(req.who)
                 && (|| req.who.email in userEmails
                     || exists id :: id in Clashing(old(rows), req.who) && Active(old(rows)[id])))
      ensures res.Created? ==>
                && MayRegister(old(rows), old(nextId), req, gone)
                && rows == (old(rows) - gone)[old(nextId) := NewDraft(req)]
                && res.id == old(nextId) && nextId == old(nextId) + 1
                && rows[res.id].status == Draft && rows[res.id].queue == NoQueue
                && rows[res.id].who == req.who && rows[res.id].client == req.client
                && rows[res.id].cpId == None && rows[res.id].reviewer == None && rows[res.id].note == ""
                && (forall id :: id in old(rows) && old(rows)[id].status in {Approved, Pending} ==>
                      id in rows && rows[id] == old(rows)[id])
                && req.who.email !in userEmails && Valid(req.who)
      ensures FullyUnique(old(rows)) ==> (rows, res) == Register(old(rows), old(nextId), userEmails, req)
    {
      gone := {};
      if !Valid(req.who) { return Invalid, gone; }
      var cleaned, ok := FreeIdentity(rows, userEmails, req.who);
      if !ok { return Conflict, gone; }
      InsertDraft(cleaned, nextId, req);
      gone := Gone(rows, cleaned);
      rows := cleaned[nextId := NewDraft(req)];
      nextId := nextId + 1;
      res := Created(nextId - 1);
    }
  }

  lemma InsertDraft(t: Table, next: int, req: Request)
    requires Indexed(t) && Matching(t, Aishe, req.who.aishe) == {} && req.who.aishe != Null
    ensures Indexed(t[next := NewDraft(req)])
  {
    var t' := t[next := NewDraft(req)];
    forall i, j | i in t' && j in t' && i != j ensures !IndexClash(t'[i], t'[j]) {
      if i == next || j == next {
        var k := if i == next then j else i;
        assert k in t && k !in Matching(t, Aishe, req.who.aishe);
      } else {
        assert !IndexClash(t[i], t[j]);
      }
    }
  }

  // ---------- what registration keeps ----------

  /** Registration keeps all four keys unique over rows of every status, and never deletes a live row. */
  lemma RegisterKeepsUnique(t: Table, next: int, userEmails: set<Key>, req: Request)
    requires FullyUnique(t) && next !in t
    ensures var (t', res) := Register(t, next, userEmails, req);
            && FullyUnique(t')
            && (res.Created? <==> t' != t)
            && forall id :: id in t && t[id].status in {Approved, Pending} ==> id in t' && t'[id] == t[id]
  {}

  /**
   Another row holds one of the values being written, and one of the two rows is a draft, which three of the
   four indexes leave out.
   */
  predicate DraftHolds(t: Table, id: int, who: Identity)
    requires id in t
  {
    exists j :: j in t && j != id && (t[j].status == Draft || t[id].status == Draft) && Clash(t[j].who, who)
  }

  /** An index would refuse the values. */
  predicate IndexRefuses(t: Table, id: int, who: Identity)
    requires id in t
  {
    exists j :: j in t && j != id && IndexClash(t[j], t[id].(who := who))
  }

  /**
   The comment beside PATCH says an identity another application owns is refused. The indexes leave drafts
   out, so PATCH keeps the table fully unique exactly when no draft holds a new value, or an index refuses anyway.
   */
  lemma PatchKeepsUniqueExactly(t: Table, id: int, who: Identity)
    requires FullyUnique(t) && id in t
    ensures FullyUnique(Patch(t, id, who)) <==> (DraftHolds(t, id, who) ==> IndexRefuses(t, id, who))
  {
    var t' := t[id := t[id].(who := who)];
    if IndexRefuses(t, id, who) {
      var j :| j in t && j != id && IndexClash(t[j], t[id].(who := who));
      assert IndexClash(t'[j], t'[id]);
      assert Patch(t, id, who) == t;
    } else {
      PatchAccepted(t, id, who);
      if DraftHolds(t, id, who) {
        var j :| j in t && j != id && Clash(t[j].who, who);
        assert Clash(t'[j].who, t'[id].who);
      } else {
        forall i, j | i in t' && j in t' && i != j ensures !Clash(t'[i].who, t'[j].who) {
          OneMoved(t, id, who, i, j);
        }
      }
    }
  }

  lemma PatchAccepted(t: Table, id: int, who: Identity)
    requires FullyUnique(t) && id in t && !IndexRefuses(t, id, who)
    ensures Patch(t, id, who) == t[id := t[id].(who := who)]
  {
    var t' := t[id := t[id].(who := who)];
    forall i, j | i in t' && j in t' && i != j ensures !IndexClash(t'[i], t'[j]) {
      if i != id && j != id { assert !Clash(t[i].who, t[j].who); }
      if i == id { assert !IndexClash(t[j], t'[id]); }
    }
  }

  lemma OneMoved(t: Table, id: int, who: Identity, i: int, j: int)
    requires FullyUnique(t) && id in t && i in t && j in t && i != j
    requires !DraftHolds(t, id, who) && !IndexRefuses(t, id, who)
    ensures var t' := t[id := t[id].(who := who)]; !Clash(t'[i].who, t'[j].who)
  {
    var k := if i == id then j else i;
    if i == id || j == id { assert !IndexClash(t[k], t[id].(who := who)); }
  }

  /** The concrete case: a rejected applicant takes the email a draft has already registered. */
  lemma PatchTakesADraftsEmail()
    ensures var a := Identity(Key("H-1"), Key("ABCDE1234F"), Key("a@x.in"), Key("9000000001"));
            var b := Identity(Key("H-2"), Key("BCDEF2345G"), Key("b@x.in"), Key("9000000002"));
            var t := map[1 := Application(Rejected, NoQueue, None, None, "", None, a),
                         2 := Application(Draft, NoQueue, None, None, "", None, b)];
            FullyUnique(t) && !FullyUnique(Patch(t, 1, a.(email := Key("b@x.in"))))
  {
    var a := Identity(Key("H-1"), Key("ABCDE1234F"), Key("a@x.in"), Key("9000000001"));
    var b := Identity(Key("H-2"), Key("BCDEF2345G"), Key("b@x.in"), Key("9000000002"));
    var t := map[1 := Application(Rejected, NoQueue, None, None, "", None, a),
                 2 := Application(Draft, NoQueue, None, None, "", None, b)];
    assert "H-1"[2] != "H-2"[2] && "ABCDE1234F"[0] != "BCDEF2345G"[0];
    assert "a@x.in"[0] != "b@x.in"[0] && "9000000001"[9] != "9000000002"[9];
    var who := a.(email := Key("b@x.in"));
    assert !Clash(a, b) && !Clash(b, a) && FullyUnique(t);
    assert Clash(t[2].who, who) && DraftHolds(t, 1, who);
    assert !IndexRefuses(t, 1, who);
    PatchKeepsUniqueExactly(t, 1, who);
  }
}
