/**
 Creating an organisation and its admin user, from the Control Plane's org message and from the Data
 Plane's own submit path. A call looks for an existing admin first and opens its transaction later;
 any number of calls, with whatever payloads, may be between the two.
 */
module OrgProvisioning {
  import opened Wrappers
  import opened Text

  // ---------- names derived from a payload ----------

  /** The three prefixes of an organisation code; the texts they stand for never coincide. */
  datatype Code = AisheCode(text: string) | ExternalCode(id: int) | LocalCode(id: int)

  /** The text "slug_id": the number after the last underscore, and what precedes it. */
  datatype Username = Username(slug: string, id: int)

  predicate Plain(c: char) {
    'a' <= c <= 'z' || '0' <= c <= '9'
  }

  /** Lower case letters and digits survive, blanks and dashes become underscores, the rest is dropped. */
  function Kept(name: string): string {
    if name == "" then ""
    else
      var c := LowerChar(name[0]);
      (if Plain(c) then [c] else if c in " -_" then "_" else "") + Kept(name[1..])
  }

  function TrimLeft(s: string): string {
    if s != "" && s[0] == '_' then TrimLeft(s[1..]) else s
  }

  function TrimRight(s: string): string {
    if s != "" && s[|s| - 1] == '_' then TrimRight(s[..|s| - 1]) else s
  }

  /** slugifyUsername. */
  function Slug(name: string): string {
    var out := TrimRight(TrimLeft(Kept(name)));
    var cut := if |out| > 32 then out[..32] else out;
    if cut == "" then "institution" else cut
  }

  predicate SlugText(s: string) {
    forall i :: 0 <= i < |s| ==> Plain(s[i]) || s[i] == '_'
  }

  lemma {:induction false} KeptText(name: string)
    ensures SlugText(Kept(name))
  {
    if name != "" { KeptText(name[1..]); }
  }

  lemma {:induction false} TrimmedLeft(s: string)
    requires SlugText(s)
    ensures SlugText(TrimLeft(s)) && (TrimLeft(s) != "" ==> Plain(TrimLeft(s)[0]))
  {
    if s != "" && s[0] == '_' { TrimmedLeft(s[1..]); }
  }

  lemma {:induction false} TrimmedRight(s: string)
    requires SlugText(s) && (s != "" ==> Plain(s[0]))
    ensures SlugText(TrimRight(s)) && (TrimRight(s) != "" ==> Plain(TrimRight(s)[0]))
  {
    if s != "" && s[|s| - 1] == '_' { TrimmedRight(s[..|s| - 1]); }
  }

  /** Whatever the name: one to 32 characters from a-z, 0-9 and underscore, never starting with an underscore. */
  lemma SlugIsAUsername(name: string)
    ensures 1 <= |Slug(name)| <= 32 && SlugText(Slug(name)) && Plain(Slug(name)[0])
  {
    KeptText(name);
    TrimmedLeft(Kept(name));
    TrimmedRight(TrimLeft(Kept(name)));
  }

  /** A name that is a user name already. */
  predicate Slugged(name: string) {
    && 1 <= |name| <= 32 && name[0] != '_' && name[|name| - 1] != '_'
    && forall i :: 0 <= i < |name| ==> 'a' <= name[i] <= 'z' || '0' <= name[i] <= '9' || name[i] == '_'
  }

  lemma {:induction false} KeptAsItIs(name: string)
    requires forall i :: 0 <= i < |name| ==> 'a' <= name[i] <= 'z' || '0' <= name[i] <= '9' || name[i] == '_'
    ensures Kept(name) == name
  {
    if name != "" {
      assert forall i :: 0 <= i < |name[1..]| ==> name[1..][i] == name[i + 1];
      KeptAsItIs(name[1..]);
    }
  }

  /** Such a name stays as it is. */
  lemma SlugKeepsSlugs(name: string)
    requires Slugged(name)
    ensures Slug(name) == name
  {
    KeptAsItIs(name);
  }

  lemma {:induction false} KeptSplits(x: string, y: string)
    ensures Kept(x + y) == Kept(x) + Kept(y)
  {
    if x == "" {
      assert x + y == y;
    } else {
      assert (x + y)[1..] == x[1..] + y;
      KeptSplits(x[1..], y);
    }
  }

  lemma KeptAround(x: string, c: string, y: string)
    ensures Kept(x + c + y) == Kept(x) + Kept(c) + Kept(y)
  {
    KeptSplits(x + c, y);
    KeptSplits(x, c);
  }

  lemma KeptOne(c: char)
    ensures Kept([c]) == if Plain(LowerChar(c)) then [LowerChar(c)] else if c in " -_" then "_" else ""
  {
    assert [c][1..] == "";
  }

  lemma SameSlug(x: string, y: string)
    requires Kept(x) == Kept(y)
    ensures Slug(x) == Slug(y)
  {}

  /** Case does not matter. */
  lemma SlugIgnoresCase(x: string, c: char, y: string)
    requires 'A' <= c <= 'Z'
    ensures Slug(x + [c] + y) == Slug(x + [(c as int + 32) as char] + y)
  {
    var l := (c as int + 32) as char;
    KeptAround(x, [c], y);
    KeptAround(x, [l], y);
    KeptOne(c);
    KeptOne(l);
    SameSlug(x + [c] + y, x + [l] + y);
  }

  /** Blanks and dashes count as underscores. */
  lemma SlugJoinsWords(x: string, c: char, y: string)
    requires c == ' ' || c == '-'
    ensures Slug(x + [c] + y) == Slug(x + "_" + y)
  {
    KeptAround(x, [c], y);
    KeptAround(x, "_", y);
    KeptOne(c);
    KeptOne('_');
    SameSlug(x + [c] + y, x + "_" + y);
  }

  /** Any other character counts as nothing. */
  lemma SlugDropsOthers(x: string, c: char, y: string)
    requires !('a' <= c <= 'z' || 'A' <= c <= 'Z' || '0' <= c <= '9' || c == ' ' || c == '-' || c == '_')
    ensures Slug(x + [c] + y) == Slug(x + y)
  {
    KeptAround(x, [c], y);
    KeptSplits(x, y);
    KeptOne(c);
    assert Kept(x) + "" + Kept(y) == Kept(x + y);
    SameSlug(x + [c] + y, x + y);
  }

  /** Underscores at either end do not matter. */
  lemma SlugTrims(name: string)
    ensures Slug("_" + name) == Slug(name)
    ensures Slug(name + "_") == Slug(name)
  {
    assert Kept("_") == "_" by { assert "_"[1..] == ""; }
    KeptSplits("_", name);
    KeptSplits(name, "_");
    var k := Kept(name);
    assert ("_" + k)[1..] == k;
    TrimLeftSnoc(k);
  }

  lemma {:induction false} TrimLeftSnoc(k: string)
    ensures TrimRight(TrimLeft(k + "_")) == TrimRight(TrimLeft(k))
  {
    if k == "" {
      assert k + "_" == "_" && "_"[1..] == "";
      assert TrimLeft("_") == TrimLeft("");
    } else if k[0] == '_' {
      assert (k + "_")[1..] == k[1..] + "_";
      TrimLeftSnoc(k[1..]);
    } else {
      assert (k + "_")[..|k + "_"| - 1] == k;
    }
  }

  // ---------- state ----------

  /** What one call will do; `byLink` marks the local path, which prechecks by application instead of by code. */
  datatype Job = Job(
    code: Code, username: Username, email: string, name: string,
    link: Option<int>, byLink: bool, client: Option<int>)

  /** The Control Plane's org message. */
  function MessageJob(external: int, name: string, email: string, aishe: string, dpApp: int, client: int): Job {
    Job(if aishe == "" then ExternalCode(external) else AisheCode(aishe),
        Username(Slug(name), external), email, name,
        if dpApp > 0 then Some(dpApp) else None, false, if client > 0 then Some(client) else None)
  }

  /** provisionOrgAndAdmin on one application row. */
  function LocalJob(app: int, name: string, email: string, aishe: string): Job {
    Job(if aishe == "" then LocalCode(app) else AisheCode(aishe),
        Username(Slug(name), app), email, name, Some(app), true, None)
  }

  datatype Org = Org(id: int, name: string, link: Option<int>)

  datatype User = User(id: int, org: int, email: string, admin: bool)

  /**
   Organisations by their unique code, users by their unique name, the catalogue grants, and the applications
   there are.
   */
  datatype Desk = Desk(
    orgs: map<Code, Org>, users: map<Username, User>, clients: set<int>, grants: set<(int, int)>, apps: set<int>,
    nextOrg: int, nextUser: int)

  datatype Reply =
    | Provisioned(org: int, user: int, username: Username, again: bool)
    | ServerError | UnknownClient | NoApplication

  /** Missed: the precheck found nobody. Loaded: the local path has also read its application row. */
  datatype Stage = Start | Missed | Loaded | Done(reply: Reply)

  datatype Call = Call(job: Job, stage: Stage)

  datatype System = System(desk: Desk, calls: seq<Call>)

  /** How a transaction may end: committed and answered, rolled back, or committed with the answer lost. */
  datatype Fate = Fine | Broken | Unanswered

  datatype Action =
    | Receive(job: Job)
    | Look(i: nat, pick: Username)
    | LoadApplication(i: nat)
    | Commit(i: nat, fate: Fate)
    | OtherUser(username: Username, org: int, email: string)
    | UserDropped(username: Username)
    | ApplicationAdded(app: int)
    | ApplicationsDeleted(gone: set<int>)
    | ClientAdded(client: int)
    | ClientDropped(client: int)

  // ---------- the statements ----------

  /** application_id = $1, which a null never satisfies. */
  predicate Linked(o: Org, j: Job) {
    o.link.Some? && o.link == j.link
  }

  /** The precheck's join finds user `u`. */
  predicate Finds(d: Desk, j: Job, u: Username) {
    && u in d.users && d.users[u].admin
    && if j.byLink then exists c :: c in d.orgs && Linked(d.orgs[c], j) && d.orgs[c].id == d.users[u].org
       else j.code in d.orgs && d.orgs[j.code].id == d.users[u].org
  }

  function Found(d: Desk, u: Username): Reply
    requires u in d.users
  {
    Provisioned(d.users[u].org, d.users[u].id, u, true)
  }

  /** INSERT ... ON CONFLICT (code): the message renames the organisation, neither path replaces a link. */
  function Upserted(d: Desk, j: Job): Org {
    if j.code !in d.orgs then Org(d.nextOrg, j.name, j.link)
    else
      var was := d.orgs[j.code];
      Org(was.id, if j.byLink then was.name else j.name, if was.link == None then j.link else was.link)
  }

  /** The user name is unique; one person may hold several accounts, so the e-mail is not. */
  predicate UserRefused(d: Desk, username: Username) {
    username in d.users
  }

  /** organizations.application_id is a foreign key: a link that would be written must be to an application there is. */
  predicate LinkRefused(d: Desk, j: Job) {
    j.link.Some? && j.link.value !in d.apps && (j.code !in d.orgs || d.orgs[j.code].link == None)
  }

  function NewAdmin(d: Desk, j: Job): User {
    User(d.nextUser, Upserted(d, j).id, j.email, true)
  }

  predicate Commits(d: Desk, j: Job) {
    !LinkRefused(d, j) && !UserRefused(d, j.username) && (j.client.Some? ==> j.client.value in d.clients)
  }

  /** The whole transaction: organisation, admin and grant, or nothing. */
  function Transacted(d: Desk, j: Job): Desk {
    if !Commits(d, j) then d
    else
      Desk(d.orgs[j.code := Upserted(d, j)], d.users[j.username := NewAdmin(d, j)], d.clients,
           if j.client.Some? then d.grants + {(j.client.value, Upserted(d, j).id)} else d.grants, d.apps,
           d.nextOrg + 1, d.nextUser + 1)
  }

  function TransactionReply(d: Desk, j: Job): Reply {
    if LinkRefused(d, j) || UserRefused(d, j.username) then ServerError
    else if j.client.Some? && j.client.value !in d.clients then UnknownClient
    else Provisioned(Upserted(d, j).id, d.nextUser, j.username, false)
  }

  /** organizations.application_id is ON DELETE SET NULL. */
  function Unlinked(d: Desk, gone: set<int>): Desk {
    d.(orgs := map c | c in d.orgs ::
         if d.orgs[c].link.Some? && d.orgs[c].link.value in gone then d.orgs[c].(link := None) else d.orgs[c],
       apps := d.apps - gone)
  }

  /** A client's grants are ON DELETE CASCADE. */
  function WithoutClient(d: Desk, client: int): Desk {
    d.(clients := d.clients - {client}, grants := set g | g in d.grants && g.0 != client)
  }

  function Answered(s: System, i: nat, stage: Stage): System
    requires i < |s.calls|
  {
    s.(calls := s.calls[i := Call(s.calls[i].job, stage)])
  }

  /** The application row is there to be read. */
  predicate HasApplication(d: Desk, j: Job) {
    j.link.Some? && j.link.value in d.apps
  }

  /** The call's next statement is its transaction. */
  predicate ReadyToCommit(c: Call) {
    c.stage == if c.job.byLink then Loaded else Missed
  }

  function Next(s: System, a: Action): System {
    match a
    case Receive(job) => s.(calls := s.calls + [Call(job, Start)])
    case Look(i, pick) =>
      if i >= |s.calls| || s.calls[i].stage != Start then s
      else if Finds(s.desk, s.calls[i].job, pick) then Answered(s, i, Done(Found(s.desk, pick)))
      else if exists u :: u in s.desk.users && Finds(s.desk, s.calls[i].job, u) then s // LIMIT 1 never returns `pick`
      else Answered(s, i, Missed)
    case LoadApplication(i) =>
      if i >= |s.calls| || s.calls[i].stage != Missed || !s.calls[i].job.byLink then s
      else Answered(s, i, if HasApplication(s.desk, s.calls[i].job) then Loaded else Done(NoApplication))
    case Commit(i, fate) =>
      if i >= |s.calls| || !ReadyToCommit(s.calls[i]) then s
      else if fate == Broken then Answered(s, i, Done(ServerError))
      else Answered(s.(desk := Transacted(s.desk, s.calls[i].job)), i,
                    Done(if fate == Fine then TransactionReply(s.desk, s.calls[i].job) else ServerError))
    case OtherUser(username, org, email) =>
      if org >= s.desk.nextOrg || UserRefused(s.desk, username) then s
      else
        s.(desk := s.desk.(users := s.desk.users[username := User(s.desk.nextUser, org, email, false)],
                           nextUser := s.desk.nextUser + 1))
    case UserDropped(username) => s.(desk := s.desk.(users := s.desk.users - {username}))
    case ApplicationAdded(app) => s.(desk := s.desk.(apps := s.desk.apps + {app}))
    case ApplicationsDeleted(gone) => s.(desk := Unlinked(s.desk, gone))
    case ClientAdded(client) => s.(desk := s.desk.(clients := s.desk.clients + {client}))
    case ClientDropped(client) => s.(desk := WithoutClient(s.desk, client))
  }

  function Run(s: System, actions: seq<Action>): System {
    if actions == [] then s else Next(Run(s, actions[..|actions| - 1]), actions[|actions| - 1])
  }

  // ---------- what is there, and how calls move ----------

  /** Applications, clients and users come and go exactly by the actions named after them, and users by commits. */
  lemma WhatIsThereExactly(s: System, a: Action, app: int, client: int, u: Username)
    ensures app in Next(s, a).desk.apps <==>
            a == ApplicationAdded(app) || (app in s.desk.apps && !(a.ApplicationsDeleted? && app in a.gone))
    ensures client in Next(s, a).desk.clients <==>
            a == ClientAdded(client) || (client in s.desk.clients && a != ClientDropped(client))
    ensures u in Next(s, a).desk.users <==>
            || (u in s.desk.users && a != UserDropped(u))
            || (a.OtherUser? && a.username == u && a.org < s.desk.nextOrg)
            || (a.Commit? && a.i < |s.calls| && ReadyToCommit(s.calls[a.i]) && a.fate != Broken
                && Commits(s.desk, s.calls[a.i].job) && s.calls[a.i].job.username == u)
    ensures a.OtherUser? && a.username !in s.desk.users && a.org < s.desk.nextOrg ==>
              var x := Next(s, a).desk.users[a.username];
              x.org == a.org && x.email == a.email && !x.admin && x.id == s.desk.nextUser
  {}

  /** How far a call has come; an answer is final. */
  function Progress(x: Stage): nat {
    match x
    case Start => 0
    case Missed => 1
    case Loaded => 2
    case Done(_) => 3
  }

  /**
   No call changes its job, goes back or is answered twice, and only a local one loads its application; a precheck
   misses exactly if nobody is there.
   */
  lemma CallsAdvance(s: System, a: Action, i: nat)
    requires i < |s.calls|
    ensures var c, c' := s.calls[i], Next(s, a).calls[i];
            && c'.job == c.job && (c.stage.Done? ==> c' == c)
            && (c' != c ==> Progress(c.stage) < Progress(c'.stage))
            && (c'.stage.Loaded? ==> c' == c || (c.stage.Missed? && c.job.byLink))
            && (c.stage.Start? && a.Look? && a.i == i ==>
                  (c'.stage.Missed? <==> forall u :: !Finds(s.desk, c.job, u)))
  {}

  // ---------- the application link ----------

  /**
   An organisation keeps its id for good, and its link changes exactly when it was empty and is filled, or its
   application is deleted.
   */
  lemma LinkChangesExactly(s: System, a: Action, c: Code)
    requires c in s.desk.orgs && s.desk.orgs[c].link.Some?
    ensures c in Next(s, a).desk.orgs && Next(s, a).desk.orgs[c].id == s.desk.orgs[c].id
    ensures Next(s, a).desk.orgs[c].link != s.desk.orgs[c].link
            <==> a.ApplicationsDeleted? && s.desk.orgs[c].link.value in a.gone
  {}

  predicate Deletes(actions: seq<Action>, app: int) {
    exists i :: 0 <= i < |actions| && actions[i].ApplicationsDeleted? && app in actions[i].gone
  }

  predicate CarriesLink(d: Desk, c: Code, id: int, app: int) {
    c in d.orgs && d.orgs[c].id == id && d.orgs[c].link == Some(app)
  }

  /** At every moment of the run the organisation is there, with this id and this link. */
  predicate CarriesThroughout(s: System, actions: seq<Action>, c: Code, id: int, app: int) {
    CarriesLink(Run(s, actions).desk, c, id, app)
    && (actions == [] || CarriesThroughout(s, actions[..|actions| - 1], c, id, app))
  }

  /**
   Across every interleaving of calls from both planes, a set link holds throughout exactly when its
   application row is never deleted.
   */
  lemma {:induction false} LinkHoldsExactly(s: System, actions: seq<Action>, c: Code, app: int)
    requires c in s.desk.orgs && s.desk.orgs[c].link == Some(app)
    ensures CarriesThroughout(s, actions, c, s.desk.orgs[c].id, app) <==> !Deletes(actions, app)
  {
    if actions != [] {
      var front, last := actions[..|actions| - 1], actions[|actions| - 1];
      LinkHoldsExactly(s, front, c, app);
      assert Deletes(actions, app) <==> Deletes(front, app) || (last.ApplicationsDeleted? && app in last.gone) by {
        assert forall i :: 0 <= i < |front| ==> front[i] == actions[i];
      }
      if CarriesThroughout(s, front, c, s.desk.orgs[c].id, app) {
        CarriedTo(s, front, c, s.desk.orgs[c].id, app);
        LinkChangesExactly(Run(s, front), last, c);
      }
    }
  }

  lemma CarriedTo(s: System, actions: seq<Action>, c: Code, id: int, app: int)
    requires CarriesThroughout(s, actions, c, id, app)
    ensures CarriesLink(Run(s, actions).desk, c, id, app)
  {}

  /** Every set link is to an application there is. */
  predicate LinksLive(d: Desk) {
    forall c :: c in d.orgs && d.orgs[c].link.Some? ==> d.orgs[c].link.value in d.apps
  }

  lemma NextLinksLive(s: System, a: Action)
    requires LinksLive(s.desk)
    ensures LinksLive(Next(s, a).desk)
  {}

  /** Over every run no organisation is linked to an application that is not there. */
  lemma {:induction false} RunLinksLive(s: System, actions: seq<Action>)
    requires LinksLive(s.desk)
    ensures LinksLive(Run(s, actions).desk)
  {
    if actions != [] {
      RunLinksLive(s, actions[..|actions| - 1]);
      NextLinksLive(Run(s, actions[..|actions| - 1]), actions[|actions| - 1]);
    }
  }

  /** A registration that replaces application 1 empties the link, and the next call points it at application 2. */
  lemma RelinkedAfterDeletion(c: Code, was: Org, j: Job)
    requires was.link == Some(1) && j.link == Some(2) && j.code == c && j.username.id == 2 && !j.byLink
    ensures var s := System(Desk(map[c := was], map[], {}, {}, {1, 2}, 10, 20), [Call(j.(client := None), Missed)]);
            var d := Run(s, [ApplicationsDeleted({1}), Commit(0, Fine)]).desk;
            c in d.orgs && d.orgs[c].link == Some(2)
  {
    var s := System(Desk(map[c := was], map[], {}, {}, {1, 2}, 10, 20), [Call(j.(client := None), Missed)]);
    var a0, a1 := ApplicationsDeleted({1}), Commit(0, Fine);
    assert [a0, a1][..1] == [a0] && [a0][..0] == [];
    assert Run(s, [a0]) == Next(s, a0);
    assert Run(s, [a0, a1]) == Next(Next(s, a0), a1);
  }

  // ---------- the client's grant ----------

  /** The action commits a payload that names this client, for the organisation with this id. */
  predicate CommitsGrant(s: System, a: Action, client: int, org: int) {
    && a.Commit? && a.i < |s.calls| && ReadyToCommit(s.calls[a.i]) && a.fate != Broken
    && Commits(s.desk, s.calls[a.i].job) && s.calls[a.i].job.client == Some(client)
    && org == if s.calls[a.i].job.code in s.desk.orgs then s.desk.orgs[s.calls[a.i].job.code].id else s.desk.nextOrg
  }

  /** A grant is there after a step exactly if the step commits it, or it was there and its client is not deleted. */
  lemma GrantsExactly(s: System, a: Action, client: int, org: int)
    ensures (client, org) in Next(s, a).desk.grants <==>
            CommitsGrant(s, a, client, org) || ((client, org) in s.desk.grants && a != ClientDropped(client))
  {}

  predicate DropsClient(actions: seq<Action>, client: int) {
    ClientDropped(client) in actions
  }

  ghost predicate GrantedThroughout(s: System, actions: seq<Action>, client: int, org: int) {
    (client, org) in Run(s, actions).desk.grants
    && (actions == [] || GrantedThroughout(s, actions[..|actions| - 1], client, org))
  }

  /** A grant holds throughout a run exactly if its client is never deleted. */
  lemma {:induction false} GrantHoldsExactly(s: System, actions: seq<Action>, client: int, org: int)
    requires (client, org) in s.desk.grants
    ensures GrantedThroughout(s, actions, client, org) <==> !DropsClient(actions, client)
  {
    if actions != [] {
      var front, last := actions[..|actions| - 1], actions[|actions| - 1];
      assert actions == front + [last];
      GrantHoldsExactly(s, front, client, org);
      GrantsExactly(Run(s, front), last, client, org);
    }
  }

  predicate EverGranted(s: System, actions: seq<Action>, client: int, org: int) {
    actions != [] &&
    (EverGranted(s, actions[..|actions| - 1], client, org)
     || CommitsGrant(Run(s, actions[..|actions| - 1]), actions[|actions| - 1], client, org))
  }

  /** Over every run a client's grant comes only from a payload that named the client and committed. */
  lemma {:induction false} GrantsComeFromCommits(s: System, actions: seq<Action>, client: int, org: int)
    requires (client, org) in Run(s, actions).desk.grants
    ensures (client, org) in s.desk.grants || EverGranted(s, actions, client, org)
  {
    if actions != [] {
      var front, last := actions[..|actions| - 1], actions[|actions| - 1];
      GrantsExactly(Run(s, front), last, client, org);
      if !CommitsGrant(Run(s, front), last, client, org) { GrantsComeFromCommits(s, front, client, org); }
    }
  }

  // ---------- one admin per organisation ----------

  /** Ids are handed out once, to organisations and to users; every user belongs to an organisation that was created. */
  ghost predicate Tidy(d: Desk) {
    && (forall u :: u in d.users ==> d.users[u].id < d.nextUser)
    && (forall u, v :: u in d.users && v in d.users && u != v ==> d.users[u].id != d.users[v].id)
    && (forall c :: c in d.orgs ==> d.orgs[c].id < d.nextOrg)
    && (forall c, e :: c in d.orgs && e in d.orgs && c != e ==> d.orgs[c].id != d.orgs[e].id)
    && (forall u :: u in d.users ==> d.users[u].org < d.nextOrg)
  }

  predicate AdminOf(d: Desk, c: Code, u: Username) {
    c in d.orgs && u in d.users && d.users[u].admin && d.users[u].org == d.orgs[c].id
  }

  predicate HasAdmin(d: Desk, c: Code) {
    exists u :: u in d.users && AdminOf(d, c, u)
  }

  ghost predicate OneAdmin(d: Desk, c: Code) {
    forall u, v :: AdminOf(d, c, u) && AdminOf(d, c, v) ==> u == v
  }

  /** A transaction is about to commit whose precheck found nobody, although by now the organisation has an admin. */
  predicate SecondAdmin(s: System, a: Action, c: Code) {
    && a.Commit? && a.i < |s.calls| && ReadyToCommit(s.calls[a.i]) && a.fate != Broken
    && s.calls[a.i].job.code == c && Commits(s.desk, s.calls[a.i].job) && HasAdmin(s.desk, c)
  }

  lemma TransactionAdmins(d: Desk, k: Job, c: Code, u: Username)
    requires Tidy(d) && Commits(d, k)
    ensures AdminOf(Transacted(d, k), c, u) <==> AdminOf(d, c, u) || (u == k.username && c == k.code)
  {}

  lemma TransactionOneAdmin(d: Desk, k: Job, c: Code)
    requires Tidy(d) && OneAdmin(d, c) && Commits(d, k)
    ensures OneAdmin(Transacted(d, k), c) <==> !(k.code == c && HasAdmin(d, c))
  {
    forall u ensures AdminOf(Transacted(d, k), c, u) <==> AdminOf(d, c, u) || (u == k.username && c == k.code) {
      TransactionAdmins(d, k, c, u);
    }
    if k.code == c && HasAdmin(d, c) {
      var u :| u in d.users && AdminOf(d, c, u);
      assert AdminOf(Transacted(d, k), c, u) && AdminOf(Transacted(d, k), c, k.username);
    }
  }

  lemma AdminsUntouched(s: System, a: Action, c: Code, u: Username)
    requires Tidy(s.desk) && !a.Commit?
    ensures AdminOf(Next(s, a).desk, c, u) <==> AdminOf(s.desk, c, u) && a != UserDropped(u)
  {}

  /**
   Of all payloads and both paths, a step gives the organisation its second admin exactly when it is such a
   commit.
   */
  lemma OneAdminExactly(s: System, a: Action, c: Code)
    requires Tidy(s.desk) && OneAdmin(s.desk, c)
    ensures OneAdmin(Next(s, a).desk, c) <==> !SecondAdmin(s, a, c)
  {
    if a.Commit? {
      if a.i < |s.calls| && ReadyToCommit(s.calls[a.i]) && a.fate != Broken && Commits(s.desk, s.calls[a.i].job) {
        TransactionOneAdmin(s.desk, s.calls[a.i].job, c);
      }
    } else {
      forall u ensures AdminOf(Next(s, a).desk, c, u) ==> AdminOf(s.desk, c, u) { AdminsUntouched(s, a, c, u); }
    }
  }

  ghost predicate OneAdminThroughout(s: System, actions: seq<Action>, c: Code) {
    OneAdmin(Run(s, actions).desk, c) && (actions == [] || OneAdminThroughout(s, actions[..|actions| - 1], c))
  }

  /** Some commit of the run finds an admin that its precheck did not. */
  predicate EverSecond(s: System, actions: seq<Action>, c: Code) {
    actions != [] &&
    (EverSecond(s, actions[..|actions| - 1], c)
     || SecondAdmin(Run(s, actions[..|actions| - 1]), actions[|actions| - 1], c))
  }

  lemma {:induction false} RunTidy(s: System, actions: seq<Action>)
    requires Tidy(s.desk)
    ensures Tidy(Run(s, actions).desk)
  {
    if actions != [] {
      RunTidy(s, actions[..|actions| - 1]);
      NextTidy(Run(s, actions[..|actions| - 1]), actions[|actions| - 1]);
    }
  }

  /**
   Over every run of any messages and local calls, an organisation keeps one admin exactly when no commit
   overtakes another this way.
   */
  lemma {:induction false} OneAdminExactlyIfNoneOvertaken(s: System, actions: seq<Action>, c: Code)
    requires Tidy(s.desk) && OneAdmin(s.desk, c)
    ensures OneAdminThroughout(s, actions, c) <==> !EverSecond(s, actions, c)
  {
    if actions != [] {
      var front, last := actions[..|actions| - 1], actions[|actions| - 1];
      OneAdminExactlyIfNoneOvertaken(s, front, c);
      RunTidy(s, front);
      if OneAdminThroughout(s, front, c) {
        OneAdminNow(s, front, c);
        OneAdminExactly(Run(s, front), last, c);
      }
    }
  }

  lemma OneAdminNow(s: System, actions: seq<Action>, c: Code)
    requires OneAdminThroughout(s, actions, c)
    ensures OneAdmin(Run(s, actions).desk, c)
  {}

  /** What a call does when nothing comes between its statements, if its precheck finds nobody. */
  predicate CommitsAtOnce(d: Desk, j: Job) {
    (j.byLink ==> HasApplication(d, j)) && Commits(d, j)
  }

  /**
   Without interleaving: a call whose precheck finds nobody and that commits at once adds a second admin exactly
   when the organisation of its code already has one. That only happens to a local call, on an organisation under
   another application's link or none; a message never does it.
   */
  lemma SerialSecondAdminExactly(d: Desk, j: Job)
    requires Tidy(d) && OneAdmin(d, j.code) && CommitsAtOnce(d, j) && forall u :: !Finds(d, j, u)
    ensures OneAdmin(Transacted(d, j), j.code) <==> !HasAdmin(d, j.code)
    ensures HasAdmin(d, j.code) ==> j.byLink && !Linked(d.orgs[j.code], j)
  {
    TransactionOneAdmin(d, j, j.code);
    if HasAdmin(d, j.code) {
      var u :| u in d.users && AdminOf(d, j.code, u);
      assert !Finds(d, j, u);
    }
  }

  // ---------- retries of one payload ----------

  /** Only retries of `j` use its organisation code or, on the local path, its application. */
  predicate Concerns(k: Job, j: Job) {
    k.code == j.code || (j.byLink && k.link.Some? && k.link == j.link)
  }

  ghost predicate OnlyRetries(calls: seq<Call>, j: Job) {
    forall i :: 0 <= i < |calls| && Concerns(calls[i].job, j) ==> calls[i].job == j
  }

  /** The organisation of `j` has no admin but the one named by `j`. */
  ghost predicate SoleAdmin(d: Desk, j: Job) {
    forall u :: AdminOf(d, j.code, u) ==> u == j.username
  }

  /** The admin of `j` stays the only one exactly until a call with another user name commits for its code. */
  lemma SoleAdminExactly(s: System, a: Action, j: Job)
    requires Tidy(s.desk) && SoleAdmin(s.desk, j)
    ensures SoleAdmin(Next(s, a).desk, j) <==>
            !(a.Commit? && a.i < |s.calls| && ReadyToCommit(s.calls[a.i]) && a.fate != Broken
              && s.calls[a.i].job.code == j.code && s.calls[a.i].job.username != j.username
              && Commits(s.desk, s.calls[a.i].job))
  {
    if !a.Commit? {
      forall u ensures AdminOf(Next(s, a).desk, j.code, u) ==> AdminOf(s.desk, j.code, u) {
        AdminsUntouched(s, a, j.code, u);
      }
    } else if a.i < |s.calls| && Commits(s.desk, s.calls[a.i].job) {
      SoleAfter(s.desk, s.calls[a.i].job, j);
    }
  }

  lemma SoleAfter(d: Desk, k: Job, j: Job)
    requires Tidy(d) && SoleAdmin(d, j) && Commits(d, k)
    ensures SoleAdmin(Transacted(d, k), j) <==> !(k.code == j.code && k.username != j.username)
  {
    forall u ensures AdminOf(Transacted(d, k), j.code, u)
                     <==> AdminOf(d, j.code, u) || (u == k.username && j.code == k.code) {
      TransactionAdmins(d, k, j.code, u);
    }
    if k.code == j.code && k.username != j.username { assert AdminOf(Transacted(d, k), j.code, k.username); }
  }

  ghost predicate SoleLink(d: Desk, j: Job) {
    j.byLink ==> forall c :: c in d.orgs && Linked(d.orgs[c], j) ==> c == j.code
  }

  predicate GivenIds(c: Call, j: Job) {
    c.job == j && c.stage.Done? && c.stage.reply.Provisioned?
  }

  /** Every successful answer so far carries the ids of that one admin. */
  predicate Agrees(d: Desk, c: Call, j: Job) {
    GivenIds(c, j) ==>
      && j.username in d.users && c.stage.reply.username == j.username
      && c.stage.reply.org == d.users[j.username].org && c.stage.reply.user == d.users[j.username].id
  }

  /** What keeps the organisation of `j` to the one admin; deleting users cannot disturb it. */
  ghost predicate Guarded(s: System, j: Job) {
    Tidy(s.desk) && SoleAdmin(s.desk, j) && SoleLink(s.desk, j) && OnlyRetries(s.calls, j)
  }

  ghost predicate AllAgree(s: System, j: Job) {
    forall i :: 0 <= i < |s.calls| ==> Agrees(s.desk, s.calls[i], j)
  }

  ghost predicate Settled(s: System, j: Job) {
    Guarded(s, j) && AllAgree(s, j)
  }

  lemma TransactionTidy(d: Desk, k: Job)
    requires Tidy(d)
    ensures Tidy(Transacted(d, k))
  {}

  lemma NextTidy(s: System, a: Action)
    requires Tidy(s.desk)
    ensures Tidy(Next(s, a).desk)
  {
    if a.Commit? && a.i < |s.calls| { TransactionTidy(s.desk, s.calls[a.i].job); }
  }

  /** No statement changes a user that exists, and only a deletion removes one. */
  lemma UsersStay(s: System, a: Action, u: Username)
    requires u in s.desk.users && a != UserDropped(u)
    ensures u in Next(s, a).desk.users && Next(s, a).desk.users[u] == s.desk.users[u]
  {}

  lemma LookFindsTheAdmin(d: Desk, j: Job, u: Username)
    requires SoleAdmin(d, j) && SoleLink(d, j) && Finds(d, j, u)
    ensures u == j.username
  {
    assert AdminOf(d, j.code, u);
  }

  lemma StepAgrees(s: System, a: Action, j: Job, i: nat)
    requires Settled(s, j) && i < |Next(s, a).calls| && a != UserDropped(j.username)
    ensures Agrees(Next(s, a).desk, Next(s, a).calls[i], j)
  {
    if j.username in s.desk.users { UsersStay(s, a, j.username); }
    if a.Look? && a.i == i && i < |s.calls| && s.calls[i].job == j && Finds(s.desk, j, a.pick) {
      LookFindsTheAdmin(s.desk, j, a.pick);
    }
  }

  lemma TransactionSoleLink(d: Desk, k: Job, j: Job)
    requires Tidy(d) && SoleLink(d, j) && (Concerns(k, j) ==> k == j)
    ensures SoleLink(Transacted(d, k), j)
  {}

  lemma LinkStaysSole(s: System, a: Action, j: Job)
    requires Tidy(s.desk) && SoleLink(s.desk, j) && OnlyRetries(s.calls, j)
    ensures SoleLink(Next(s, a).desk, j)
  {
    if a.Commit? && a.i < |s.calls| { TransactionSoleLink(s.desk, s.calls[a.i].job, j); }
  }

  /** The action brings in nothing but retries of `j` for its organisation and application. */
  predicate OnlyRetry(a: Action, j: Job) {
    a.Receive? && Concerns(a.job, j) ==> a.job == j
  }

  lemma NextGuarded(s: System, a: Action, j: Job)
    requires Guarded(s, j) && OnlyRetry(a, j)
    ensures Guarded(Next(s, a), j)
  {
    NextTidy(s, a);
    SoleAdminExactly(s, a, j);
    LinkStaysSole(s, a, j);
    assert OnlyRetries(Next(s, a).calls, j);
  }

  /** The admin of `j` is deleted although a caller has been given its ids. */
  predicate DropsAnswered(s: System, a: Action, j: Job) {
    a == UserDropped(j.username) && exists i :: 0 <= i < |s.calls| && GivenIds(s.calls[i], j)
  }

  lemma NextSettledExactly(s: System, a: Action, j: Job)
    requires Settled(s, j) && OnlyRetry(a, j)
    ensures Guarded(Next(s, a), j)
    ensures AllAgree(Next(s, a), j) <==> !DropsAnswered(s, a, j)
  {
    NextGuarded(s, a, j);
    if a != UserDropped(j.username) {
      forall i | 0 <= i < |Next(s, a).calls| ensures Agrees(Next(s, a).desk, Next(s, a).calls[i], j) {
        StepAgrees(s, a, j, i);
      }
    } else if i :| 0 <= i < |s.calls| && GivenIds(s.calls[i], j) {
      assert !Agrees(Next(s, a).desk, Next(s, a).calls[i], j);
    }
  }

  predicate OnlyRetryThroughout(actions: seq<Action>, j: Job) {
    forall a :: a in actions ==> OnlyRetry(a, j)
  }

  lemma {:induction false} RunGuarded(s: System, actions: seq<Action>, j: Job)
    requires Guarded(s, j) && OnlyRetryThroughout(actions, j)
    ensures Guarded(Run(s, actions), j)
  {
    if actions != [] {
      var front, last := actions[..|actions| - 1], actions[|actions| - 1];
      RunGuarded(s, front, j);
      assert last in actions;
      NextGuarded(Run(s, front), last, j);
    }
  }

  ghost predicate AgreeThroughout(s: System, actions: seq<Action>, j: Job) {
    AllAgree(Run(s, actions), j) && (actions == [] || AgreeThroughout(s, actions[..|actions| - 1], j))
  }

  predicate EverDropsAnswered(s: System, actions: seq<Action>, j: Job) {
    actions != [] &&
    (EverDropsAnswered(s, actions[..|actions| - 1], j)
     || DropsAnswered(Run(s, actions[..|actions| - 1]), actions[|actions| - 1], j))
  }

  lemma AgreeNow(s: System, actions: seq<Action>, j: Job)
    requires AgreeThroughout(s, actions, j)
    ensures AllAgree(Run(s, actions), j)
  {}

  /**
   One payload, retried any number of times with prechecks and transactions interleaved among calls for other
   organisations, deletions of users and of applications: its organisation never has a second admin, and all its
   successful answers carry the ids of the admin there throughout exactly when that admin is never deleted after
   an answer.
   */
  lemma {:induction false} RetriesAgreeExactly(s: System, actions: seq<Action>, j: Job)
    requires Settled(s, j) && OnlyRetryThroughout(actions, j)
    ensures Guarded(Run(s, actions), j)
    ensures AgreeThroughout(s, actions, j) <==> !EverDropsAnswered(s, actions, j)
  {
    RunGuarded(s, actions, j);
    if actions != [] {
      var front, last := actions[..|actions| - 1], actions[|actions| - 1];
      RetriesAgreeExactly(s, front, j);
      assert last in actions;
      if AgreeThroughout(s, front, j) {
        AgreeNow(s, front, j);
        NextSettledExactly(Run(s, front), last, j);
      }
    }
  }

  lemma SameIds(s: System, j: Job, x: nat, y: nat)
    requires Settled(s, j) && x < |s.calls| && y < |s.calls|
    requires GivenIds(s.calls[x], j) && GivenIds(s.calls[y], j)
    ensures s.calls[x].stage.reply.(again := true) == s.calls[y].stage.reply.(again := true)
  {
    assert Agrees(s.desk, s.calls[x], j) && Agrees(s.desk, s.calls[y], j);
  }

  /** The admin is deleted between two calls: the second one provisions another user and answers with its id. */
  lemma DroppedMeansNewId(j: Job, org: Org, user: User, nextUser: int)
    requires user.org == org.id && user.id < nextUser
    requires !j.byLink && j.client == None && org.link == None && j.link == None
    ensures var d := Desk(map[j.code := org], map[j.username := user], {}, {}, {}, org.id + 1, nextUser);
            var s := System(d, [Call(j, Done(Provisioned(org.id, user.id, j.username, false))), Call(j, Start)]);
            var e := Next(Next(Next(s, UserDropped(j.username)), Look(1, j.username)), Commit(1, Fine));
            e.calls[1].stage == Done(Provisioned(org.id, nextUser, j.username, false)) && nextUser != user.id
  {
    var d := Desk(map[j.code := org], map[j.username := user], {}, {}, {}, org.id + 1, nextUser);
    var s := System(d, [Call(j, Done(Provisioned(org.id, user.id, j.username, false))), Call(j, Start)]);
    var s1 := Next(s, UserDropped(j.username));
    assert s1.desk.users == map[];
    var s2 := Next(s1, Look(1, j.username));
    assert s2.calls[1].stage == Missed;
  }

  /** Any tidy desk that has not seen the code or the application is a place to start. */
  lemma FreshIsSettled(d: Desk, j: Job)
    requires Tidy(d) && j.code !in d.orgs
    requires j.byLink ==> forall c :: c in d.orgs ==> !Linked(d.orgs[c], j)
    ensures Settled(System(d, []), j)
  {}

  /** Two applications with one AISHE code, both past the precheck: the organisation gets two admins. */
  lemma TwoPayloadsTwoAdmins(x: Job, y: Job, apps: set<int>)
    requires (x.link.Some? ==> x.link.value in apps) && (y.link.Some? ==> y.link.value in apps)
    requires x.code == y.code && x.username != y.username
    requires x.client == None && y.client == None && !x.byLink && !y.byLink
    ensures var s := System(Desk(map[], map[], {}, {}, apps, 10, 20), [Call(x, Start), Call(y, Start)]);
            var d := Run(s, [Look(0, x.username), Look(1, x.username), Commit(0, Fine), Commit(1, Fine)]).desk;
            && x.username in d.users && y.username in d.users && x.code in d.orgs
            && d.users[x.username].org == d.users[y.username].org == d.orgs[x.code].id
            && d.users[x.username].admin && d.users[y.username].admin
  {
    var s0 := System(Desk(map[], map[], {}, {}, apps, 10, 20), [Call(x, Start), Call(y, Start)]);
    var a := [Look(0, x.username), Look(1, x.username), Commit(0, Fine), Commit(1, Fine)];
    var s2 := System(s0.desk, [Call(x, Missed), Call(y, Missed)]);
    TwoLooks(s0, a[..2], s2);
    assert a[..3][..2] == a[..2] && a[..4] == a && a[..3][2] == a[2];
    assert Run(s0, a[..3]) == Next(s2, a[2]);
    assert Run(s0, a) == Next(Next(s2, a[2]), a[3]);
  }

  lemma TwoLooks(s: System, a: seq<Action>, s': System)
    requires |a| == 2 && a[0].Look? && a[1].Look? && a[0].i == 0 && a[1].i == 1
    requires s.desk.users == map[] && |s.calls| == 2 && s.calls[0].stage == s.calls[1].stage == Start
    requires s' == System(s.desk, [Call(s.calls[0].job, Missed), Call(s.calls[1].job, Missed)])
    ensures Run(s, a) == s'
  {
    assert a[..1] == [a[0]] && a[..1][..0] == [];
    assert Run(s, a[..1]) == Next(s, a[0]);
    assert Run(s, a) == Next(Next(s, a[0]), a[1]);
  }

  /**
   After a local call provisioned the organisation, a retry's precheck finds the admin exactly when the
   organisation carries this application's link; on an organisation linked elsewhere the retry's own insert is refused.
   */
  lemma LocalRetryAnswersExactly(d: Desk, j: Job)
    requires Tidy(d) && SoleAdmin(d, j) && SoleLink(d, j) && j.byLink && j.link.Some? && Commits(d, j)
    ensures var d' := Transacted(d, j);
            && (Finds(d', j, j.username) <==> d'.orgs[j.code].link == j.link)
            && (d'.orgs[j.code].link == j.link <==> j.code !in d.orgs || d.orgs[j.code].link in {None, j.link})
            && TransactionReply(d', j) == ServerError
  {}

  // ---------- a call served at once, in a run ----------

  /** What the database refuses: a link to be written to a missing application, a taken user name, a missing client. */
  lemma TransactionAnswersExactly(d: Desk, j: Job)
    ensures var unlinked := j.code !in d.orgs || d.orgs[j.code].link == None;
            var refused := (j.link.Some? && j.link.value !in d.apps && unlinked) || j.username in d.users;
            var r := TransactionReply(d, j);
            && (r == ServerError <==> refused)
            && (r == UnknownClient <==> !refused && j.client.Some? && j.client.value !in d.clients)
            && (r.Provisioned? <==> !refused && (j.client.Some? ==> j.client.value in d.clients))
            && (r.Provisioned? <==> Transacted(d, j) != d)
            && (r.Provisioned? ==> !r.again && r == Found(Transacted(d, j), j.username).(again := false))
  {
    if Commits(d, j) { assert Transacted(d, j).nextUser != d.nextUser; }
  }

  /** A message that arrives and is served with nothing in between, whatever row the precheck would pick. */
  function Served(s: System, j: Job, pick: Username, fate: Fate): System {
    var n := |s.calls|;
    var looked := Next(Next(s, Receive(j)), Look(n, pick));
    Next(if j.byLink then Next(looked, LoadApplication(n)) else looked, Commit(n, fate))
  }

  /**
   Served at once: an admin found by the precheck answers and nothing moves. If there is none, a local call needs its
   application; then the transaction is done unless the database breaks it, and answered unless the answer is lost.
   */
  lemma ServedExactly(s: System, j: Job, pick: Username, fate: Fate)
    requires Finds(s.desk, j, pick) || forall u :: !Finds(s.desk, j, u)
    ensures var e := Served(s, j, pick, fate);
            var stage := if Finds(s.desk, j, pick) then Done(Found(s.desk, pick))
                         else if j.byLink && !HasApplication(s.desk, j) then Done(NoApplication)
                         else Done(if fate == Fine then TransactionReply(s.desk, j) else ServerError);
            && e.calls == s.calls + [Call(j, stage)]
            && e.desk == if Finds(s.desk, j, pick) || (j.byLink && !HasApplication(s.desk, j)) || fate == Broken
                         then s.desk else Transacted(s.desk, j)
  {
    var n := |s.calls|;
    var arrived := Next(s, Receive(j));
    var looked := Next(arrived, Look(n, pick));
    assert looked.desk == s.desk;
    if Finds(s.desk, j, pick) {
      assert looked.calls == s.calls + [Call(j, Done(Found(s.desk, pick)))];
    } else {
      assert looked.calls == s.calls + [Call(j, Missed)];
      if j.byLink {
        var loaded := Next(looked, LoadApplication(n));
        assert loaded.calls == s.calls + [Call(j, if HasApplication(s.desk, j) then Loaded else Done(NoApplication))];
      }
    }
  }

  // ---------- the handler, run without interference ----------

  class Provisioner {
    var desk: Desk

    constructor (clients: set<int>, apps: set<int>)
      ensures Tidy(desk) && desk == Desk(map[], map[], clients, {}, apps, 1, 1)
    {
      desk := Desk(map[], map[], clients, {}, apps, 1, 1);
    }

    /** A call from start to finish: an existing admin answers it, otherwise its transaction does. */
    method Provision(j: Job) returns (r: Reply)
      requires Tidy(desk)
      modifies this
      ensures Tidy(desk)
      ensures r.Provisioned? && r.again ==>
                desk == old(desk) && Finds(desk, j, r.username) && r == Found(desk, r.username)
      ensures !(r.Provisioned? && r.again) ==> forall u :: !Finds(old(desk), j, u)
      ensures r == NoApplication ==> desk == old(desk) && j.byLink && !HasApplication(desk, j)
      ensures !(r.Provisioned? && r.again) && r != NoApplication ==>
                && (j.byLink ==> HasApplication(old(desk), j))
                && desk == Transacted(old(desk), j) && r == TransactionReply(old(desk), j)
      ensures !j.byLink && r.Provisioned? ==>
                Finds(desk, j, r.username) && r.(again := true) == Found(desk, r.username)
    {
      if u :| u in desk.users && Finds(desk, j, u) {
        return Found(desk, u);
      }
      assert forall u :: !Finds(desk, j, u);
      if j.byLink && !HasApplication(desk, j) { return NoApplication; }
      TransactionTidy(desk, j);
      r := TransactionReply(desk, j);
      desk := Transacted(desk, j);
    }

    /** The Control Plane's message, None when a required field is missing. */
    method InternalOrgsCreate(external: int, name: string, head: string, email: string, designation: string,
                              aishe: string, dpApp: int, client: int) returns (r: Option<Reply>)
      requires Tidy(desk)
      modifies this
      ensures Tidy(desk)
      ensures r == None <==>
              || external <= 0 || Trim(name) == ""
              || Trim(head) == "" || Trim(email) == "" || Trim(designation) == ""
      ensures r == None ==> desk == old(desk)
      ensures r.Some? && (!r.value.Provisioned? || r.value.again) ==> desk == old(desk)
      ensures r.Some? && r.value.Provisioned? ==>
                && Finds(desk, MessageJob(external, Trim(name), Lower(Trim(email)), Trim(aishe), dpApp, client),
                         r.value.username)
                && r.value.org == desk.users[r.value.username].org && r.value.user == desk.users[r.value.username].id
      ensures r.Some? && r.value.Provisioned? && !r.value.again ==>
                var code := if Trim(aishe) == "" then ExternalCode(external) else AisheCode(Trim(aishe));
                && r.value.username == Username(Slug(Trim(name)), external)
                && old(r.value.username !in desk.users) && code in desk.orgs
                && desk.users == old(desk).users[r.value.username :=
                                   User(r.value.user, r.value.org, Lower(Trim(email)), true)]
                && desk.orgs == old(desk).orgs[code := desk.orgs[code]]
                && desk.orgs[code].id == r.value.org && desk.orgs[code].name == Trim(name)
                && desk.orgs[code].link ==
                     (if code in old(desk).orgs && old(desk).orgs[code].link.Some? then old(desk).orgs[code].link
                      else if dpApp > 0 then Some(dpApp) else None)
                && desk.grants == if client > 0 then old(desk).grants + {(client, r.value.org)} else old(desk).grants
    {
      if external <= 0 { return None; }
      if Trim(name) == "" || Trim(head) == "" || Trim(email) == "" || Trim(designation) == "" { return None; }
      var reply := Provision(MessageJob(external, Trim(name), Lower(Trim(email)), Trim(aishe), dpApp, client));
      return Some(reply);
    }

    /** The local path; the last three are what the application row says, if there is one. */
    method ProvisionOrgAndAdmin(app: int, name: string, email: string, aishe: string) returns (r: Reply)
      requires Tidy(desk)
      modifies this
      ensures Tidy(desk)
      ensures r == NoApplication <==>
              app !in old(desk).apps && forall u :: !Finds(old(desk), LocalJob(app, "", "", ""), u)
      ensures !r.Provisioned? || r.again ==> desk == old(desk)
      ensures r.Provisioned? && r.again ==>
                Finds(desk, LocalJob(app, "", "", ""), r.username) && r == Found(desk, r.username)
      ensures r.Provisioned? && !r.again ==>
                && desk == Transacted(old(desk), LocalJob(app, name, Lower(Trim(email)), aishe)) && desk != old(desk)
                && r.username in desk.users && r.(again := true) == Found(desk, r.username)
      ensures r.Provisioned? && !r.again ==>
                var code := if aishe == "" then LocalCode(app) else AisheCode(aishe);
                && r.username == Username(Slug(name), app) && code in desk.orgs
                && desk.users == old(desk).users[r.username := User(r.user, r.org, Lower(Trim(email)), true)]
                && desk.orgs == old(desk).orgs[code := desk.orgs[code]]
                && desk.orgs[code].id == r.org
                && desk.orgs[code].name == (if code in old(desk).orgs then old(desk).orgs[code].name else name)
                && desk.orgs[code].link ==
                     (if code in old(desk).orgs && old(desk).orgs[code].link.Some? then old(desk).orgs[code].link
                      else Some(app))
                && desk.grants == old(desk).grants
    {
      var j := LocalJob(app, name, Lower(Trim(email)), aishe);
      assert forall u :: Finds(desk, j, u) <==> Finds(desk, LocalJob(app, "", "", ""), u);
      r := Provision(j);
    }

    /** A message repeated at once: the second answer is the first one's ids, and the desk does not move. */
    method ProvisionTwice(j: Job) returns (first: Reply, second: Reply)
      requires Tidy(desk) && !j.byLink && SoleAdmin(desk, j)
      modifies this
      ensures Tidy(desk)
      ensures first.Provisioned? ==> second == first.(again := true)
      ensures first.Provisioned? && first.again ==> desk == old(desk)
    {
      if Commits(desk, j) { SoleAfter(desk, j, j); }
      first := Provision(j);
      ghost var d := desk;
      second := Provision(j);
      if first.Provisioned? {
        assert Finds(d, j, first.username);
        LookFindsTheAdmin(d, j, first.username);
        assert second.again && desk == d;
        LookFindsTheAdmin(d, j, second.username);
      }
    }
  }
}
