/**
 A client reviewer's decisions on many subscription requests at once: bulk approve, bulk reject, and the
 CSV upload. Each runs in one transaction, as nested loops of UPDATE ... RETURNING statements.
 */
module BulkDecisions {
  import opened Wrappers
  import opened Text
  import opened SubscriptionTables

  // ---------- what a bulk decision is meant to touch ----------

  /** The rows one UPDATE of the inner loop selects; None is the statement without an exam. */
  function Where(t: Tables, client: int, org: int, exam: Option<int>): set<Pair> {
    set p | p in PendingOf(t, client, org) && (exam == None || Some(p.exam) == exam)
  }

  predicate Listed(p: Pair, orgIds: seq<int>, examIds: seq<int>, orgWide: bool) {
    p.org in orgIds && p.org > 0 && (orgWide || (p.exam in examIds && p.exam > 0))
  }

  /**
   The pending rows of the listed organisations under the client's exams, restricted to listed exams unless
   org-wide.
   */
  function Picked(t: Tables, client: int, orgIds: seq<int>, examIds: seq<int>, orgWide: bool): set<Pair> {
    set p | p in t.subs && HasPending(t, p) && Owns(t, client, p.exam) && Listed(p, orgIds, examIds, orgWide)
  }

  /** A blanket decision ignores the exam list, and so does one without a list. */
  predicate OrgWide(v: Verdict, examIds: seq<int>) {
    v == Approve(Blanket) || examIds == []
  }

  function GrantedTo(client: int, orgIds: seq<int>): set<(int, int)> {
    set o | o in orgIds && o > 0 :: (client, o)
  }

  function GrantsAfter(t: Tables, client: int, orgIds: seq<int>, v: Verdict): set<(int, int)> {
    if v == Approve(Blanket) then t.grants + GrantedTo(client, orgIds) else t.grants
  }

  /** The blanket grant is an insert, which fails for a client or an organisation that does not exist. */
  predicate MayGrant(t: Tables, client: int, org: int, v: Verdict) {
    v == Approve(Blanket) ==> client in t.clients && IsOrg(t, org)
  }

  predicate GrantsAllowed(t: Tables, client: int, orgIds: seq<int>, v: Verdict) {
    forall o :: o in orgIds && o > 0 ==> MayGrant(t, client, o, v)
  }

  /** The whole bulk transaction. */
  function BulkDecided(t: Tables, client: int, orgIds: seq<int>, examIds: seq<int>, v: Verdict): Tables {
    if !GrantsAllowed(t, client, orgIds, v) then t
    else
      Flipped(t, Picked(t, client, orgIds, examIds, OrgWide(v, examIds)), v)
        .(grants := GrantsAfter(t, client, orgIds, v))
  }

  predicate NoRepeats<T(==)>(s: seq<T>) {
    forall i, j :: 0 <= i < j < |s| ==> s[i] != s[j]
  }

  predicate Lists<T(==)>(s: seq<T>, elements: set<T>) {
    NoRepeats(s) && (forall x :: x in s ==> x in elements) && forall x :: x in elements ==> x in s
  }

  // ---------- composing flips ----------

  lemma StillPending(t: Tables, a: set<Pair>, v: Verdict, p: Pair)
    ensures HasPending(Flipped(t, a, v), p) <==> HasPending(t, p) && p !in a
  {}

  lemma FlipTwice(t: Tables, a: set<Pair>, b: set<Pair>, v: Verdict)
    requires a !! b
    ensures Flipped(Flipped(t, a, v), b, v) == Flipped(t, a + b, v)
  {}

  /** A flipped row is no longer pending, so no later statement selects it; grants play no part in the selection. */
  lemma PickedForAfter(t: Tables, now: Tables, a: set<Pair>, v: Verdict, client: int, org: int, examIds: seq<int>,
                       orgWide: bool)
    requires now == Flipped(t, a, v).(grants := now.grants)
    ensures PickedFor(now, client, org, examIds, orgWide) == PickedFor(t, client, org, examIds, orgWide) - a
  {}

  lemma WhereAfter(t: Tables, now: Tables, a: set<Pair>, v: Verdict, client: int, org: int, exam: Option<int>)
    requires now == Flipped(t, a, v).(grants := now.grants)
    ensures Where(now, client, org, exam) == Where(t, client, org, exam) - a
  {}

  /** The rows flipped so far, as the tables and as the list to be mailed. */
  predicate Progress(t: Tables, now: Tables, flips: seq<Pair>, a: set<Pair>, v: Verdict) {
    now == Flipped(t, a, v).(grants := now.grants) && Lists(flips, a)
  }

  function PairsOf(org: int, exams: seq<int>): seq<Pair> {
    seq(|exams|, i requires 0 <= i < |exams| => Pair(org, exams[i]))
  }

  lemma ListsMore(flips: seq<Pair>, a: set<Pair>, more: seq<Pair>, b: set<Pair>)
    requires Lists(flips, a) && Lists(more, b) && a !! b
    ensures Lists(flips + more, a + b)
  {
    forall i, j | 0 <= i < j < |flips + more| ensures (flips + more)[i] != (flips + more)[j] {
      if i < |flips| && |flips| <= j {
        assert flips[i] in a && more[j - |flips|] in b;
      }
    }
    forall x | x in a + b ensures x in flips + more {
      if x in a { assert x in flips; } else { assert x in more; }
    }
  }

  lemma PairsList(t: Tables, client: int, org: int, exam: Option<int>, exams: seq<int>)
    requires Lists(exams, set p | p in Where(t, client, org, exam) :: p.exam)
    ensures Lists(PairsOf(org, exams), Where(t, client, org, exam))
  {
    var pairs, w := PairsOf(org, exams), Where(t, client, org, exam);
    forall x | x in pairs ensures x in w {
      var i :| 0 <= i < |pairs| && pairs[i] == x;
      assert exams[i] in exams;
    }
    forall x | x in w ensures x in pairs {
      assert x.exam in exams;
      var i :| 0 <= i < |exams| && exams[i] == x.exam;
      assert pairs[i] == x;
    }
  }

  /** One more statement of a loop: of the rows `b` it is meant for, it changes those not changed before. */
  lemma Advanced(t: Tables, now: Tables, flips: seq<Pair>, a: set<Pair>, v: Verdict, b: set<Pair>, more: seq<Pair>)
    requires Progress(t, now, flips, a, v) && Lists(more, b - a)
    ensures Progress(t, Flipped(now, b - a, v), flips + more, a + b, v)
  {
    FlipTwice(t, a, b - a, v);
    ListsMore(flips, a, more, b - a);
    assert a + b == a + (b - a);
    assert Flipped(now, b - a, v) == Flipped(Flipped(t, a, v), b - a, v).(grants := now.grants);
  }

  /** What the loop over exams has selected for one organisation after `k` of them. */
  function PickedFor(t: Tables, client: int, org: int, examIds: seq<int>, orgWide: bool): set<Pair> {
    set p | p in PendingOf(t, client, org) && (orgWide || (p.exam in examIds && p.exam > 0))
  }

  lemma PickedForGrows(t: Tables, client: int, org: int, examIds: seq<int>, k: nat)
    requires k < |examIds|
    ensures PickedFor(t, client, org, examIds[..k + 1], false)
         == PickedFor(t, client, org, examIds[..k], false)
            + if examIds[k] > 0 then Where(t, client, org, Some(examIds[k])) else {}
  {}

  lemma PickedGrows(t: Tables, client: int, orgIds: seq<int>, examIds: seq<int>, orgWide: bool, i: nat)
    requires i < |orgIds|
    ensures Picked(t, client, orgIds[..i + 1], examIds, orgWide)
         == Picked(t, client, orgIds[..i], examIds, orgWide)
            + if orgIds[i] > 0 then PickedFor(t, client, orgIds[i], examIds, orgWide) else {}
  {}

  lemma GrantsGrow(client: int, orgIds: seq<int>, i: nat)
    requires i < |orgIds|
    ensures GrantedTo(client, orgIds[..i + 1])
         == GrantedTo(client, orgIds[..i]) + if orgIds[i] > 0 then {(client, orgIds[i])} else {}
  {}

  /** What the outer loop has done after these organisations. */
  ghost predicate BulkSoFar(start: Tables, now: Tables, flips: seq<Pair>, client: int, orgIds: seq<int>,
                            examIds: seq<int>, v: Verdict) {
    && Progress(start, now, flips, Picked(start, client, orgIds, examIds, OrgWide(v, examIds)), v)
    && now.grants == GrantsAfter(start, client, orgIds, v)
    && GrantsAllowed(start, client, orgIds, v)
  }

  lemma SkippedOrg(start: Tables, now: Tables, flips: seq<Pair>, client: int, orgIds: seq<int>, examIds: seq<int>,
                   v: Verdict, i: nat)
    requires i < |orgIds| && orgIds[i] <= 0
    requires BulkSoFar(start, now, flips, client, orgIds[..i], examIds, v)
    ensures BulkSoFar(start, now, flips, client, orgIds[..i + 1], examIds, v)
  {
    PickedGrows(start, client, orgIds, examIds, OrgWide(v, examIds), i);
    GrantsGrow(client, orgIds, i);
    assert orgIds[..i + 1] == orgIds[..i] + [orgIds[i]];
  }

  function GrantedOne(t: Tables, client: int, org: int, v: Verdict): Tables {
    if v == Approve(Blanket) then t.(grants := t.grants + {(client, org)}) else t
  }

  /** One more organisation of the outer loop: the grant if there is one, then the rows. */
  lemma NextOrg(start: Tables, now: Tables, flips: seq<Pair>, client: int, orgIds: seq<int>, examIds: seq<int>,
                v: Verdict, i: nat, more: seq<Pair>)
    requires i < |orgIds| && orgIds[i] > 0 && MayGrant(start, client, orgIds[i], v)
    requires BulkSoFar(start, now, flips, client, orgIds[..i], examIds, v)
    requires Lists(more, PickedFor(now, client, orgIds[i], examIds, OrgWide(v, examIds)))
    ensures var granted := GrantedOne(now, client, orgIds[i], v);
            BulkSoFar(start, Flipped(granted, PickedFor(granted, client, orgIds[i], examIds, OrgWide(v, examIds)), v),
                      flips + more, client, orgIds[..i + 1], examIds, v)
  {
    var granted, orgWide := GrantedOne(now, client, orgIds[i], v), OrgWide(v, examIds);
    var a := Picked(start, client, orgIds[..i], examIds, orgWide);
    var b := PickedFor(start, client, orgIds[i], examIds, orgWide);
    PickedForAfter(start, now, a, v, client, orgIds[i], examIds, orgWide);
    PickedForAfter(start, granted, a, v, client, orgIds[i], examIds, orgWide);
    Advanced(start, granted, flips, a, v, b, more);
    PickedGrows(start, client, orgIds, examIds, orgWide, i);
    GrantsGrow(client, orgIds, i);
    assert orgIds[..i + 1] == orgIds[..i] + [orgIds[i]];
  }

  // ---------- consequences ----------

  /** Nothing is left for a second run of the same request. */
  lemma BulkRunsOnce(t: Tables, client: int, orgIds: seq<int>, examIds: seq<int>, v: Verdict)
    requires GrantsAllowed(t, client, orgIds, v)
    ensures var t' := BulkDecided(t, client, orgIds, examIds, v);
            && Picked(t', client, orgIds, examIds, OrgWide(v, examIds)) == {}
            && BulkDecided(t', client, orgIds, examIds, v) == t'
  {}

  /**
   After a blanket decision no request of a listed organisation is pending under the client, whatever exam
   list was sent.
   */
  lemma BlanketClearsTheQueue(t: Tables, client: int, orgIds: seq<int>, examIds: seq<int>, p: Pair)
    requires GrantsAllowed(t, client, orgIds, Approve(Blanket))
    requires p.org in orgIds && p.org > 0 && Owns(t, client, p.exam)
    ensures var t' := BulkDecided(t, client, orgIds, examIds, Approve(Blanket));
            && !HasPending(t', p) && (client, p.org) in t'.grants
            && (HasPending(t, p) ==> HasApproved(t', p))
  {}

  // ---------- the CSV upload ----------

  /** parseDecisionToken: None for a token it does not know. */
  function Decision(s: string): Option<bool> {
    var token := Lower(Trim(s));
    if token in ["true", "t", "yes", "y", "1", "approve", "approved", "ok"] then Some(true)
    else if token in ["false", "f", "no", "n", "0", "reject", "rejected", "deny", "denied"] then Some(false)
    else None
  }

  predicate IsHeader(record: seq<string>) {
    record != [] &&
    var first := Lower(Trim(record[0]));
    Contains(first, "aishe") || first in ["code", "org_code"]
  }

  /** The records without a header row. */
  function Body(records: seq<seq<string>>): seq<seq<string>> {
    if records != [] && IsHeader(records[0]) then records[1..] else records
  }

  /** The candidates for an organisation's code, in the order they are tried. */
  datatype Candidates = Candidates(bare: Code, prefixed: Code)

  /** What the loop reads off one record: its codes, None when blank, and its decision, None when not recognised. */
  datatype Line = Line(codes: Option<Candidates>, decision: Option<bool>)

  function ParseLine(record: seq<string>): Line {
    var code := if record == [] then "" else Trim(record[0]);
    Line(if code == "" then None else Some(Candidates(Code(code), Code("AISHE_" + code))),
         Decision(if |record| > 2 then record[2] else ""))
  }

  /** The tokens that approve and those that reject, in any case and with blanks around them; no other decides. */
  lemma DecisionTokens(s: string)
    ensures Decision(s) == Some(true) <==>
            Lower(Trim(s)) in {"true", "t", "yes", "y", "1", "approve", "approved", "ok"}
    ensures Decision(s) == Some(false) <==>
            Lower(Trim(s)) in {"false", "f", "no", "n", "0", "reject", "rejected", "deny", "denied"}
  {}

  /** A line is its first and third column: the code as it stands and prefixed, and the decision. */
  lemma LineReads(record: seq<string>, other: seq<string>)
    requires |record| > 2 && |other| > 2
    requires Trim(record[0]) == Trim(other[0]) && Lower(Trim(record[2])) == Lower(Trim(other[2]))
    ensures ParseLine(record) == ParseLine(other)
    ensures ParseLine(record).codes == None <==> Trim(record[0]) == ""
    ensures ParseLine(record).codes.Some? ==>
              && ParseLine(record).codes.value.bare == Code(Trim(record[0]))
              && ParseLine(record).codes.value.prefixed == Code("AISHE_" + Trim(record[0]))
    ensures ParseLine(record).decision == Decision(record[2])
  {}

  /** A line too short to hold a decision decides nothing. */
  lemma ShortLine(record: seq<string>)
    requires |record| <= 2
    ensures ParseLine(record).decision == None
  {
    assert Lower(Trim("")) == "";
  }

  function Parsed(records: seq<seq<string>>): seq<Line> {
    var body := Body(records);
    seq(|body|, i requires 0 <= i < |body| => ParseLine(body[i]))
  }

  /**
   A header row is optional and codes may come in the stored form "AISHE_...". The first record is dropped exactly when
   its first cell looks like a header; every other record is read.
   */
  lemma FirstRecordDroppedExactly(records: seq<seq<string>>)
    requires records != []
    ensures var lines := Parsed(records);
            var cell := if records[0] == [] then "" else Lower(Trim(records[0][0]));
            && (|lines| == |records| - 1 || |lines| == |records|)
            && (|lines| == |records| - 1 <==> Contains(cell, "aishe") || cell == "code" || cell == "org_code")
            && forall i :: 0 <= i < |lines| ==> lines[i] == ParseLine(records[|records| - |lines| + i])
  {
    assert !Contains("", "aishe") by {
      forall i | 0 <= i <= 0 ensures !OccursAt("", "aishe", i) { assert |"aishe"| == 5; }
    }
  }

  /** Such a stored code in the first record always looks like a header, so its decision is lost. */
  lemma StoredCodeTakenForHeader(records: seq<seq<string>>, code: string)
    requires records != [] && records[0] != [] && Trim(records[0][0]) == "AISHE_" + code
    ensures IsHeader(records[0]) && |Parsed(records)| == |records| - 1
  {
    var first := Lower("AISHE_" + code);
    assert |"AISHE_"| == 6 && |first| == 6 + |code|;
    assert first[0..5] == "aishe";
    assert OccursAt(first, "aishe", 0);
  }

  function Resolve(orgs: map<Code, int>, c: Candidates): Option<int> {
    if c.bare in orgs then Some(orgs[c.bare]) else if c.prefixed in orgs then Some(orgs[c.prefixed]) else None
  }

  /** A code names an organisation as it stands or else prefixed, the bare one first. */
  lemma ResolvesExactly(orgs: map<Code, int>, record: seq<string>)
    requires record != [] && Trim(record[0]) != ""
    ensures var bare, prefixed := Code(Trim(record[0])), Code("AISHE_" + Trim(record[0]));
            var found := Resolve(orgs, ParseLine(record).codes.value);
            && (bare in orgs ==> found == Some(orgs[bare]))
            && (bare !in orgs && prefixed in orgs ==> found == Some(orgs[prefixed]))
            && (bare !in orgs && prefixed !in orgs ==> found == None)
  {}

  /** The organisation a line decides, and how. */
  function Settles(orgs: map<Code, int>, line: Line): Option<(int, bool)> {
    if line.codes == None || line.decision == None || Resolve(orgs, line.codes.value) == None then None
    else Some((Resolve(orgs, line.codes.value).value, line.decision.value))
  }

  function LineVerdict(approve: bool): Verdict {
    if approve then Approve(PerExam) else RejectLine
  }

  function AfterLine(t: Tables, client: int, one: Line): Tables {
    match Settles(t.orgs, one)
    case None => t
    case Some((org, approve)) => Flipped(t, PendingOf(t, client, org), LineVerdict(approve))
  }

  function AfterLines(t: Tables, client: int, lines: seq<Line>): Tables {
    if lines == [] then t
    else AfterLine(AfterLines(t, client, lines[..|lines| - 1]), client, lines[|lines| - 1])
  }

  datatype Outcome = ApprovedLine | RejectedLine | SkippedLine

  datatype Report = Report(line: nat, outcome: Outcome, org: Option<int>, affected: nat)

  /** What the answer says about one line; blank codes are not reported. */
  function ReportOf(t: Tables, client: int, one: Line, line: nat): seq<Report> {
    if one.codes == None then []
    else match Settles(t.orgs, one)
      case None => [Report(line, SkippedLine, None, 0)]
      case Some((org, approve)) =>
        var n := |PendingOf(t, client, org)|;
        [Report(line, if n == 0 then SkippedLine else if approve then ApprovedLine else RejectedLine, Some(org), n)]
  }

  /**
   A line gets no row for a blank code; "skipped" without an organisation if it decides none; else its organisation, how
   many of its pending rows there were, and "skipped" exactly if none, otherwise its own decision.
   */
  lemma ReportsExactly(t: Tables, client: int, one: Line, line: nat)
    ensures var rows, settles := ReportOf(t, client, one, line), Settles(t.orgs, one);
            && (rows == [] <==> one.codes == None) && |rows| <= 1
            && (rows != [] ==> rows[0].line == line)
            && (rows != [] && settles == None ==>
                  rows[0].outcome == SkippedLine && rows[0].org == None && rows[0].affected == 0)
            && (settles.Some? ==>
                  && rows != [] && rows[0].org == Some(settles.value.0)
                  && rows[0].affected == |PendingOf(t, client, settles.value.0)|
                  && (rows[0].outcome == SkippedLine <==> rows[0].affected == 0)
                  && (rows[0].outcome == ApprovedLine <==> rows[0].affected > 0 && settles.value.1)
                  && (rows[0].outcome == RejectedLine <==> rows[0].affected > 0 && !settles.value.1))
    ensures Settles(t.orgs, one).Some? <==>
            one.codes.Some? && one.decision.Some? && Resolve(t.orgs, one.codes.value).Some?
    ensures Settles(t.orgs, one).Some? ==>
              Settles(t.orgs, one).value == (Resolve(t.orgs, one.codes.value).value, one.decision.value)
  {}

  function Reports(t: Tables, client: int, lines: seq<Line>): seq<Report> {
    if lines == [] then []
    else
      var front := lines[..|lines| - 1];
      Reports(t, client, front) + ReportOf(AfterLines(t, client, front), client, lines[|lines| - 1], |lines|)
  }

  function Tally(reports: seq<Report>, o: Outcome): nat {
    if reports == [] then 0
    else Tally(reports[..|reports| - 1], o) + if reports[|reports| - 1].outcome == o then 1 else 0
  }

  function TotalAffected(reports: seq<Report>): nat {
    if reports == [] then 0 else TotalAffected(reports[..|reports| - 1]) + reports[|reports| - 1].affected
  }

  /** The decision of the first line that settles the organisation. */
  function FirstFor(orgs: map<Code, int>, lines: seq<Line>, org: int): Option<bool> {
    if lines == [] then None
    else match FirstFor(orgs, lines[..|lines| - 1], org)
      case Some(b) => Some(b)
      case None =>
        match Settles(orgs, lines[|lines| - 1])
        case None => None
        case Some((o, approve)) => if o == org then Some(approve) else None
  }

  /** A subscription row after the upload, by its organisation's first settling line alone. */
  function Settled(t: Tables, client: int, lines: seq<Line>, p: Pair): Sub
    requires p in t.subs
  {
    if !HasPending(t, p) || !Owns(t, client, p.exam) then t.subs[p]
    else match FirstFor(t.orgs, lines, p.org)
      case None => t.subs[p]
      case Some(approve) => Sub(if approve then Approved else Rejected, PerExam)
  }

  /**
   Each pending request of this client is settled by the first recognised line for its organisation; nothing
   else changes.
   */
  lemma {:induction false} FirstLineSettles(t: Tables, client: int, lines: seq<Line>)
    ensures AfterLines(t, client, lines) == t.(subs := map p | p in t.subs :: Settled(t, client, lines, p))
  {
    if lines == [] {
      assert (map p | p in t.subs :: Settled(t, client, lines, p)) == t.subs;
    } else {
      var front, last := lines[..|lines| - 1], lines[|lines| - 1];
      FirstLineSettles(t, client, front);
      SameElsewhere(AfterLines(t, client, front), client, last);
      forall p | p in t.subs ensures p in AfterLines(t, client, lines).subs
                                     && AfterLines(t, client, lines).subs[p] == Settled(t, client, lines, p) {
        RowAfterLine(t, client, lines, p);
      }
    }
  }

  lemma SameElsewhere(t: Tables, client: int, one: Line)
    ensures var u := AfterLine(t, client, one);
            u.subs.Keys == t.subs.Keys && u == t.(subs := u.subs)
  {}

  lemma RowAfterLine(t: Tables, client: int, lines: seq<Line>, p: Pair)
    requires lines != [] && p in t.subs
    requires var front := lines[..|lines| - 1];
             AfterLines(t, client, front) == t.(subs := map p | p in t.subs :: Settled(t, client, front, p))
    ensures var u := AfterLines(t, client, lines);
            p in u.subs && u.subs[p] == Settled(t, client, lines, p)
  {
    var front, last := lines[..|lines| - 1], lines[|lines| - 1];
    var u := AfterLines(t, client, front);
    assert u.subs[p] == Settled(t, client, front, p);
    if Settles(t.orgs, last).Some? {
      assert p in PendingOf(u, client, Settles(t.orgs, last).value.0)
        <==> p.org == Settles(t.orgs, last).value.0 && u.subs[p].status == Pending && Owns(t, client, p.exam);
    }
  }

  /** Once a line settled an organisation, every later line for it reports nothing affected and is skipped. */
  lemma LaterLinesReportNothing(t: Tables, client: int, lines: seq<Line>, one: Line, line: nat)
    requires Settles(t.orgs, one).Some? && FirstFor(t.orgs, lines, Settles(t.orgs, one).value.0).Some?
    ensures ReportOf(AfterLines(t, client, lines), client, one, line)
         == [Report(line, SkippedLine, Some(Settles(t.orgs, one).value.0), 0)]
  {
    FirstLineSettles(t, client, lines);
    var u := AfterLines(t, client, lines);
    var org := Settles(t.orgs, one).value.0;
    forall p ensures p !in PendingOf(u, client, org) {
      assert p in u.subs ==> u.subs[p] == Settled(t, client, lines, p);
    }
    assert PendingOf(u, client, org) == {};
  }

  lemma {:induction false} TallySnoc(reports: seq<Report>, r: Report, o: Outcome)
    ensures Tally(reports + [r], o) == Tally(reports, o) + if r.outcome == o then 1 else 0
    ensures TotalAffected(reports + [r]) == TotalAffected(reports) + r.affected
  {}

  lemma {:induction false} TalliesAddUp(reports: seq<Report>)
    ensures Tally(reports, ApprovedLine) + Tally(reports, RejectedLine) + Tally(reports, SkippedLine) == |reports|
  {
    if reports != [] { TalliesAddUp(reports[..|reports| - 1]); }
  }

  /** Rows that were pending in `t` and are not in `u`. */
  function LeftPending(t: Tables, u: Tables): set<Pair> {
    set p | p in t.subs && HasPending(t, p) && !HasPending(u, p)
  }

  lemma {:induction false} LinesKeepRows(t: Tables, client: int, lines: seq<Line>)
    ensures var u := AfterLines(t, client, lines);
            && u.subs.Keys == t.subs.Keys && u == t.(subs := u.subs)
            && forall p :: HasPending(u, p) ==> HasPending(t, p)
  {
    if lines != [] { LinesKeepRows(t, client, lines[..|lines| - 1]); }
  }

  /** The counts reported line by line add up to the requests that left the queue. */
  lemma {:induction false} CountsMatchTheQueue(t: Tables, client: int, lines: seq<Line>)
    ensures TotalAffected(Reports(t, client, lines)) == |LeftPending(t, AfterLines(t, client, lines))|
  {
    if lines == [] {
      assert LeftPending(t, t) == {};
    } else {
      var front, last := lines[..|lines| - 1], lines[|lines| - 1];
      CountsMatchTheQueue(t, client, front);
      LinesKeepRows(t, client, front);
      LineLeaves(t, AfterLines(t, client, front), client, last, |lines|);
      TotalMore(Reports(t, client, front), ReportOf(AfterLines(t, client, front), client, last, |lines|));
    }
  }

  lemma TotalMore(rows: seq<Report>, item: seq<Report>)
    requires |item| <= 1
    ensures TotalAffected(rows + item) == TotalAffected(rows) + if item == [] then 0 else item[0].affected
  {
    if item == [] {
      assert rows + item == rows;
    } else {
      assert item == [item[0]];
      TallySnoc(rows, item[0], SkippedLine);
    }
  }

  lemma MoreLeft(t: Tables, u: Tables, a: set<Pair>, v: Verdict)
    requires u.subs.Keys == t.subs.Keys && forall p :: HasPending(u, p) ==> HasPending(t, p)
    requires forall p :: p in a ==> HasPending(u, p)
    ensures |LeftPending(t, Flipped(u, a, v))| == |LeftPending(t, u)| + |a|
  {
    forall p ensures p in LeftPending(t, Flipped(u, a, v)) <==> p in LeftPending(t, u) + a {
      StillPending(u, a, v, p);
    }
    assert LeftPending(t, Flipped(u, a, v)) == LeftPending(t, u) + a;
    assert LeftPending(t, u) !! a;
  }

  lemma LineLeaves(t: Tables, u: Tables, client: int, one: Line, line: nat)
    requires u.subs.Keys == t.subs.Keys && forall p :: HasPending(u, p) ==> HasPending(t, p)
    ensures var r := ReportOf(u, client, one, line);
            |r| <= 1 && |LeftPending(t, AfterLine(u, client, one))|
            == |LeftPending(t, u)| + if r == [] then 0 else r[0].affected
  {
    match Settles(u.orgs, one)
    case None =>
    case Some((org, approve)) =>
      MoreLeft(t, u, PendingOf(u, client, org), LineVerdict(approve));
  }

  // ---------- the handlers ----------

  /** Exactly these rows have the new status, with the kind given or else their own; no row comes or goes. */
  ghost predicate RowsSet(t: Tables, t': Tables, rows: seq<Pair>, status: Status, kind: Option<Kind>) {
    && t' == t.(subs := t'.subs, grants := t'.grants) && t'.subs.Keys == t.subs.Keys
    && forall p :: p in t.subs ==>
         t'.subs[p] == if p in rows then Sub(status, if kind.Some? then kind.value else t.subs[p].kind) else t.subs[p]
  }

  datatype BulkReply = Flips(rows: seq<Pair>) | BadRequest | ServerError

  datatype CsvReply = Tallied(approved: nat, rejected: nat, skipped: nat, rows: seq<Report>) | CsvEmpty

  class ReviewerDesk {
    var t: Tables

    constructor (t: Tables)
      ensures this.t == t
    {
      this.t := t;
    }

    /** UPDATE ... WHERE status = 'pending' ... RETURNING exam_id, in whatever order the rows come. */
    method UpdateReturning(client: int, org: int, exam: Option<int>, v: Verdict) returns (exams: seq<int>)
      modifies this
      ensures t == Flipped(old(t), Where(old(t), client, org, exam), v)
      ensures Lists(exams, set p | p in Where(old(t), client, org, exam) :: p.exam)
    {
      var rows := Where(t, client, org, exam);
      t := Flipped(t, rows, v);
      var left := set p | p in rows :: p.exam;
      exams := [];
      while left != {}
        invariant left <= set p | p in rows :: p.exam
        invariant Lists(exams, (set p | p in rows :: p.exam) - left)
        decreases |left|
      {
        var e :| e in left;
        ghost var before := exams;
        exams := exams + [e];
        left := left - {e};
        assert forall x :: x in exams <==> x in before || x == e;
      }
    }

    /** The statements for one organisation: one for all its rows, or one per listed exam. */
    method UpdateListed(client: int, org: int, examIds: seq<int>, orgWide: bool, v: Verdict) returns (flips: seq<Pair>)
      modifies this
      ensures t == Flipped(old(t), PickedFor(old(t), client, org, examIds, orgWide), v)
      ensures Lists(flips, PickedFor(old(t), client, org, examIds, orgWide))
    {
      ghost var start := t;
      if orgWide {
        var exams := UpdateReturning(client, org, None, v);
        PairsList(start, client, org, None, exams);
        assert Where(start, client, org, None) == PickedFor(start, client, org, examIds, true);
        return PairsOf(org, exams);
      }
      flips := [];
      assert Flipped(start, {}, v) == start && PickedFor(start, client, org, examIds[..0], false) == {};
      for k := 0 to |examIds|
        invariant Progress(start, t, flips, PickedFor(start, client, org, examIds[..k], false), v)
        invariant t.grants == start.grants
      {
        PickedForGrows(start, client, org, examIds, k);
        if examIds[k] > 0 {
          ghost var now, a, was := t, PickedFor(start, client, org, examIds[..k], false), flips;
          var exams := UpdateReturning(client, org, Some(examIds[k]), v);
          flips := flips + PairsOf(org, exams);
          WhereAfter(start, now, a, v, client, org, Some(examIds[k]));
          PairsList(now, client, org, Some(examIds[k]), exams);
          Advanced(start, now, was, a, v, Where(start, client, org, Some(examIds[k])), PairsOf(org, exams));
        }
      }
      assert examIds[..|examIds|] == examIds;
    }

    /** The blanket grant's INSERT ... ON CONFLICT, refused by its foreign keys. */
    method GrantBlanket(client: int, org: int, v: Verdict) returns (ok: bool)
      modifies this
      ensures ok <==> MayGrant(old(t), client, org, v)
      ensures t == if ok then GrantedOne(old(t), client, org, v) else old(t)
    {
      if v != Approve(Blanket) { return true; }
      if client !in t.clients || !IsOrg(t, org) { return false; }
      t := t.(grants := t.grants + {(client, org)});
      return true;
    }

    /** The loop of bulk approve and bulk reject over organisations; a refused blanket grant rolls everything back. */
    method BulkDecide(client: int, orgIds: seq<int>, examIds: seq<int>, v: Verdict) returns (r: BulkReply)
      modifies this
      ensures t == BulkDecided(old(t), client, orgIds, examIds, v)
      ensures r == ServerError <==> !GrantsAllowed(old(t), client, orgIds, v)
      ensures r != ServerError ==>
                r.Flips? && Lists(r.rows, Picked(old(t), client, orgIds, examIds, OrgWide(v, examIds)))
    {
      var start := t;
      var flips: seq<Pair> := [];
      assert Picked(start, client, orgIds[..0], examIds, OrgWide(v, examIds)) == {};
      assert GrantedTo(client, orgIds[..0]) == {} && Flipped(start, {}, v) == start;
      for i := 0 to |orgIds|
        invariant BulkSoFar(start, t, flips, client, orgIds[..i], examIds, v)
      {
        if orgIds[i] <= 0 {
          SkippedOrg(start, t, flips, client, orgIds, examIds, v, i);
        } else {
          ghost var now := t;
          var granted := GrantBlanket(client, orgIds[i], v);
          if !granted {
            assert orgIds[i] in orgIds && !MayGrant(start, client, orgIds[i], v);
            t := start;
            return ServerError;
          }
          var more := UpdateListed(client, orgIds[i], examIds, OrgWide(v, examIds), v);
          NextOrg(start, now, flips, client, orgIds, examIds, v, i, more);
          flips := flips + more;
        }
      }
      assert orgIds[..|orgIds|] == orgIds;
      return Flips(flips);
    }

    method BulkApprove(client: int, orgIds: seq<int>, examIds: seq<int>, blanket: bool) returns (r: BulkReply)
      modifies this
      ensures r == BadRequest <==> orgIds == []
      ensures var v := Approve(if blanket then Blanket else PerExam);
              && (orgIds != [] ==> t == BulkDecided(old(t), client, orgIds, examIds, v))
              && (r.Flips? ==> Lists(r.rows, Picked(old(t), client, orgIds, examIds, blanket || examIds == [])))
              && (!r.Flips? ==> t == old(t))
      ensures r == ServerError <==>
              blanket && exists o :: o in orgIds && o > 0 && !(client in old(t).clients && IsOrg(old(t), o))
      ensures r.Flips? ==>
                && RowsSet(old(t), t, r.rows, Approved, Some(if blanket then Blanket else PerExam))
                && t.grants == if blanket then old(t).grants + GrantedTo(client, orgIds) else old(t).grants
    {
      if orgIds == [] { return BadRequest; }
      r := BulkDecide(client, orgIds, examIds, Approve(if blanket then Blanket else PerExam));
    }

    method BulkReject(client: int, orgIds: seq<int>, examIds: seq<int>, note: string) returns (r: BulkReply)
      modifies this
      ensures r == BadRequest <==> orgIds == [] || Trim(note) == ""
      ensures r == BadRequest ==> t == old(t)
      ensures r != BadRequest ==>
                && r.Flips? && Lists(r.rows, Picked(old(t), client, orgIds, examIds, examIds == []))
                && RowsSet(old(t), t, r.rows, Rejected, None) && t.grants == old(t).grants
    {
      if orgIds == [] || Trim(note) == "" { return BadRequest; }
      r := BulkDecide(client, orgIds, examIds, Reject);
    }

    /** One CSV line: nothing for a blank code, otherwise one row of the answer. */
    method DecideLine(client: int, one: Line, line: nat) returns (item: seq<Report>)
      modifies this
      ensures t == AfterLine(old(t), client, one)
      ensures item == ReportOf(old(t), client, one, line) && |item| <= 1
    {
      if one.codes == None { return []; }
      if one.decision == None { return [Report(line, SkippedLine, None, 0)]; }
      var org := Resolve(t.orgs, one.codes.value);
      if org == None { return [Report(line, SkippedLine, None, 0)]; }
      var exams := UpdateReturning(client, org.value, None, LineVerdict(one.decision.value));
      assert Where(old(t), client, org.value, None) == PendingOf(old(t), client, org.value);
      CountRows(org.value, exams, PendingOf(old(t), client, org.value));
      var action := if |exams| == 0 then SkippedLine else if one.decision.value then ApprovedLine else RejectedLine;
      return [Report(line, action, org, |exams|)];
    }

    /** One turn of the loop: the line's decision and its row of the answer. */
    method DecideNext(client: int, lines: seq<Line>, i: nat, ghost start: Tables, ghost rows: seq<Report>)
      returns (item: seq<Report>)
      requires i < |lines| && DoneUpTo(start, t, client, lines[..i], rows)
      modifies this
      ensures DoneUpTo(start, t, client, lines[..i + 1], rows + item) && |item| <= 1
    {
      LinesSnoc(start, client, lines, i);
      item := DecideLine(client, lines[i], i + 1);
    }

    /** The loop over CSV lines. */
    method DecideLines(client: int, lines: seq<Line>)
      returns (approved: nat, rejected: nat, skipped: nat, rows: seq<Report>)
      modifies this
      ensures DoneUpTo(old(t), t, client, lines, rows) && Counted(rows, approved, rejected, skipped)
    {
      rows := [];
      approved, rejected, skipped := 0, 0, 0;
      for i := 0 to |lines|
        invariant DoneUpTo(old(t), t, client, lines[..i], rows) && Counted(rows, approved, rejected, skipped)
      {
        var item := DecideNext(client, lines, i, old(t), rows);
        TallyMore(rows, item);
        if item != [] {
          match item[0].outcome
          case ApprovedLine => approved := approved + 1;
          case RejectedLine => rejected := rejected + 1;
          case SkippedLine => skipped := skipped + 1;
        }
        rows := rows + item;
      }
      assert lines[..|lines|] == lines;
    }

    /** The upload: records to lines, lines to decisions. */
    method DecideCsv(client: int, records: seq<seq<string>>) returns (r: CsvReply)
      modifies this
      ensures r == CsvEmpty <==> records == []
      ensures records == [] ==> t == old(t)
      ensures records != [] ==> t == AfterLines(old(t), client, Parsed(records))
      ensures t == old(t).(subs := t.subs) && t.subs.Keys == old(t).subs.Keys
      ensures r.Tallied? ==> forall p :: p in old(t).subs ==>
                var first := FirstFor(old(t).orgs, Parsed(records), p.org);
                t.subs[p] == if HasPending(old(t), p) && Owns(old(t), client, p.exam) && first.Some?
                             then Sub(if first.value then Approved else Rejected, PerExam) else old(t).subs[p]
      ensures r.Tallied? ==>
                && r.rows == Reports(old(t), client, Parsed(records))
                && r.approved == Tally(r.rows, ApprovedLine) && r.rejected == Tally(r.rows, RejectedLine)
                && r.skipped == Tally(r.rows, SkippedLine)
                && r.approved + r.rejected + r.skipped == |r.rows|
    {
      if records == [] { return CsvEmpty; }
      FirstLineSettles(t, client, Parsed(records));
      var approved, rejected, skipped, rows := DecideLines(client, Parsed(records));
      TalliesAddUp(rows);
      return Tallied(approved, rejected, skipped, rows);
    }
  }

  /** Tables and answer after these lines. */
  predicate DoneUpTo(start: Tables, now: Tables, client: int, lines: seq<Line>, rows: seq<Report>) {
    now == AfterLines(start, client, lines) && rows == Reports(start, client, lines)
  }

  predicate Counted(rows: seq<Report>, approved: nat, rejected: nat, skipped: nat) {
    && approved == Tally(rows, ApprovedLine)
    && rejected == Tally(rows, RejectedLine)
    && skipped == Tally(rows, SkippedLine)
  }

  lemma LinesSnoc(t: Tables, client: int, lines: seq<Line>, i: nat)
    requires i < |lines|
    ensures AfterLines(t, client, lines[..i + 1]) == AfterLine(AfterLines(t, client, lines[..i]), client, lines[i])
    ensures Reports(t, client, lines[..i + 1])
         == Reports(t, client, lines[..i]) + ReportOf(AfterLines(t, client, lines[..i]), client, lines[i], i + 1)
  {
    assert lines[..i + 1][..i] == lines[..i] && lines[..i + 1][i] == lines[i];
  }

  lemma TallyMore(rows: seq<Report>, item: seq<Report>)
    requires |item| <= 1
    ensures forall o :: Tally(rows + item, o) == Tally(rows, o) + if item != [] && item[0].outcome == o then 1 else 0
  {
    if item == [] {
      assert rows + item == rows;
    } else {
      assert item == [item[0]];
      forall o { TallySnoc(rows, item[0], o); }
    }
  }

  /** A list without repeats has as many entries as the set it lists. */
  lemma {:induction false} CountRows(org: int, exams: seq<int>, rows: set<Pair>)
    requires forall p :: p in rows ==> p.org == org
    requires Lists(exams, set p | p in rows :: p.exam)
    ensures |exams| == |rows|
  {
    if exams == [] {
      assert forall p :: p in rows ==> p.exam in exams;
      assert rows == {};
    } else {
      var e := exams[|exams| - 1];
      assert e in exams;
      var p := Pair(org, e);
      assert p in rows;
      var front := exams[..|exams| - 1];
      forall x | x in (set q | q in rows - {p} :: q.exam) ensures x in front {
        assert x in exams;
      }
      forall x | x in front ensures x in (set q | q in rows - {p} :: q.exam) {
        assert x in exams;
        assert Pair(org, x) in rows;
        assert x != e;
      }
      CountRows(org, front, rows - {p});
    }
  }
}
