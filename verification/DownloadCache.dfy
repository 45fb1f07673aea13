/**
 The install bundle on offer: which file is picked from the downloads directory, and a hash cache shared
 by all requests, keyed by path and trusted as long as modification time and size are unchanged.
 */
module DownloadCache {
  import opened Wrappers
  import opened Text

  // ---------- the cache under concurrent requests ----------

  datatype Path = Path(name: string)

  datatype Content = Content(bytes: seq<int>)

  /** SHA-256 taken as ideal: the digest determines the content. */
  datatype Digest = Sha256(of: Content)

  datatype Info = Info(mtime: int, size: nat)

  datatype File = File(info: Info, content: Content)

  datatype Entry = Entry(info: Info, digest: Digest)

  datatype Stage =
    | Start
    | Statted(info: Info)
    | Missed(info: Info)
    | Hashed(info: Info, digest: Digest)
    | Done(digest: Digest)
    | Failed

  /** `seen` is the file as it was at the request's stat. */
  datatype Request = Request(path: Path, stage: Stage, seen: Option<File>)

  /** `past` records every version a path has ever had. */
  datatype System = System(files: map<Path, File>, cache: map<Path, Entry>, requests: seq<Request>,
                           past: set<(Path, File)>)

  datatype Action =
    | Publish(path: Path, file: File)
    | Remove(path: Path)
    | Receive(path: Path)
    | Step(i: nat)

  /** The next statement of one request: stat, look up, read and hash, store and answer. */
  function Stepped(s: System, r: Request): (map<Path, Entry>, Request) {
    match r.stage
    case Start =>
      (s.cache, if r.path !in s.files then r.(stage := Failed)
                else r.(stage := Statted(s.files[r.path].info), seen := Some(s.files[r.path])))
    case Statted(info) =>
      (s.cache, r.(stage := if r.path in s.cache && s.cache[r.path].info == info then Done(s.cache[r.path].digest)
                            else Missed(info)))
    case Missed(info) =>
      (s.cache, r.(stage := if r.path !in s.files then Failed else Hashed(info, Sha256(s.files[r.path].content))))
    case Hashed(info, digest) => (s.cache[r.path := Entry(info, digest)], r.(stage := Done(digest)))
    case Done(_) => (s.cache, r)
    case Failed => (s.cache, r)
  }

  function Next(s: System, a: Action): System {
    match a
    case Publish(path, file) => s.(files := s.files[path := file], past := s.past + {(path, file)})
    case Remove(path) => s.(files := s.files - {path})
    case Receive(path) => s.(requests := s.requests + [Request(path, Start, None)])
    case Step(i) =>
      if i >= |s.requests| then s
      else var (cache, r) := Stepped(s, s.requests[i]); s.(cache := cache, requests := s.requests[i := r])
  }

  function Run(s: System, actions: seq<Action>): System {
    if actions == [] then s else Next(Run(s, actions[..|actions| - 1]), actions[|actions| - 1])
  }

  /** What the actions do to the directory and the requests: files come, change and go as published and removed. */
  lemma FilesExactly(s: System, a: Action, p: Path)
    ensures var s' := Next(s, a);
            && (p in s'.files <==> (a.Publish? && a.path == p) || (p in s.files && a != Remove(p)))
            && (p in s'.files ==> s'.files[p] == if a.Publish? && a.path == p then a.file else s.files[p])
            && s'.past == s.past + (if a.Publish? then {(a.path, a.file)} else {})
            && (a.Receive? ==> s'.requests == s.requests + [Request(a.path, Start, None)])
  {}

  /** Only a path without a file fails, at the stat or at the read; other requests and finished ones stay. */
  lemma FailsExactly(s: System, i: nat)
    requires i < |s.requests|
    ensures var s' := Next(s, Step(i));
            var r, r' := s.requests[i], s'.requests[i];
            && s'.requests == s.requests[i := r'] && r'.path == r.path
            && (r.stage.Done? || r.stage.Failed? ==> r' == r)
            && (!r.stage.Failed? ==> (r'.stage.Failed? <==> r.path !in s.files && (r.stage.Start? || r.stage.Missed?)))
            && (!r.stage.Hashed? ==> s'.cache == s.cache)
  {}

  /** Equal path, modification time and size mean equal content, over all versions ever published. */
  ghost predicate Telling(past: set<(Path, File)>) {
    forall p, f, g :: (p, f) in past && (p, g) in past && f.info == g.info ==> f.content == g.content
  }

  /** The step reads a file for a request that has stat it earlier. */
  predicate Reads(s: System, a: Action) {
    a.Step? && a.i < |s.requests| && s.requests[a.i].stage.Missed? && s.requests[a.i].path in s.files
  }

  /** A request about to read finds the file with the stat it took, or finds no file. */
  predicate ReadInTime(s: System, a: Action) {
    Reads(s, a) ==> s.files[s.requests[a.i].path].info == s.requests[a.i].stage.info
  }

  /** A request about to read finds the content the file had at its stat, or finds no file. */
  predicate ReadUnchanged(s: System, a: Action) {
    Reads(s, a) ==>
      s.requests[a.i].seen.Some? && s.files[s.requests[a.i].path].content == s.requests[a.i].seen.value.content
  }

  /** The digest is that of a version of the path with this stat. */
  ghost predicate Vouched(past: set<(Path, File)>, p: Path, info: Info, d: Digest) {
    exists f :: (p, f) in past && f.info == info && d == Sha256(f.content)
  }

  ghost predicate RequestSound(past: set<(Path, File)>, r: Request) {
    match r.stage
    case Start => true
    case Failed => true
    case Statted(info) => r.seen.Some? && (r.path, r.seen.value) in past && r.seen.value.info == info
    case Missed(info) => r.seen.Some? && (r.path, r.seen.value) in past && r.seen.value.info == info
    case Hashed(info, d) =>
      r.seen.Some? && (r.path, r.seen.value) in past && r.seen.value.info == info && Vouched(past, r.path, info, d)
    case Done(d) =>
      r.seen.Some? && (r.path, r.seen.value) in past && Vouched(past, r.path, r.seen.value.info, d)
  }

  ghost predicate Sound(s: System) {
    && (forall p :: p in s.files ==> (p, s.files[p]) in s.past)
    && (forall p :: p in s.cache ==> Vouched(s.past, p, s.cache[p].info, s.cache[p].digest))
    && (forall i :: 0 <= i < |s.requests| ==> RequestSound(s.past, s.requests[i]))
  }

  lemma PastGrows(s: System, more: set<(Path, File)>)
    requires Sound(s) && s.past <= more
    ensures forall p :: p in s.cache ==> Vouched(more, p, s.cache[p].info, s.cache[p].digest)
    ensures forall i :: 0 <= i < |s.requests| ==> RequestSound(more, s.requests[i])
  {}

  /** Under telling stats, a version is vouched for exactly when the digest is that of any version with its stat. */
  lemma VouchedExactly(past: set<(Path, File)>, p: Path, f: File, d: Digest)
    requires Telling(past) && (p, f) in past
    ensures Vouched(past, p, f.info, d) <==> d == Sha256(f.content)
  {}

  lemma ReadSoundExactly(s: System, i: nat)
    requires Sound(s) && Telling(s.past) && Reads(s, Step(i))
    ensures RequestSound(s.past, Stepped(s, s.requests[i]).1) <==> ReadUnchanged(s, Step(i))
  {
    var r := s.requests[i];
    assert RequestSound(s.past, r);
    VouchedExactly(s.past, r.path, r.seen.value, Sha256(s.files[r.path].content));
  }

  lemma OtherStepSound(s: System, i: nat)
    requires Sound(s) && i < |s.requests| && !Reads(s, Step(i))
    ensures RequestSound(s.past, Stepped(s, s.requests[i]).1)
    ensures forall p :: p in Stepped(s, s.requests[i]).0 ==>
              Vouched(s.past, p, Stepped(s, s.requests[i]).0[p].info, Stepped(s, s.requests[i]).0[p].digest)
  {
    assert RequestSound(s.past, s.requests[i]);
  }

  lemma StepSoundExactly(s: System, i: nat)
    requires Sound(s) && Telling(s.past)
    ensures Sound(Next(s, Step(i))) <==> ReadUnchanged(s, Step(i))
  {
    if i < |s.requests| {
      var s' := Next(s, Step(i));
      if Reads(s, Step(i)) { ReadSoundExactly(s, i); } else { OtherStepSound(s, i); }
      assert s'.requests[i] == Stepped(s, s.requests[i]).1;
      assert forall j :: 0 <= j < |s.requests| && j != i ==> s'.requests[j] == s.requests[j];
    }
  }

  /**
   One action spoils the cache and its requests exactly when it is a read that finds other content than at the
   stat.
   */
  lemma NextSoundExactly(s: System, a: Action)
    requires Sound(s) && Telling(Next(s, a).past)
    ensures Sound(Next(s, a)) <==> ReadUnchanged(s, a)
  {
    match a
    case Publish(path, file) => PastGrows(s, Next(s, a).past);
    case Remove(_) =>
    case Receive(_) =>
    case Step(i) => StepSoundExactly(s, i);
  }

  ghost predicate AllUnchanged(s: System, actions: seq<Action>) {
    actions == [] ||
    (&& AllUnchanged(s, actions[..|actions| - 1])
     && ReadUnchanged(Run(s, actions[..|actions| - 1]), actions[|actions| - 1]))
  }

  ghost predicate SoundThroughout(s: System, actions: seq<Action>) {
    Sound(Run(s, actions)) && (actions == [] || SoundThroughout(s, actions[..|actions| - 1]))
  }

  lemma TellingEarlier(s: System, a: Action)
    requires Telling(Next(s, a).past)
    ensures Telling(s.past)
  {}

  lemma SoundNow(s: System, actions: seq<Action>)
    requires SoundThroughout(s, actions)
    ensures Sound(Run(s, actions))
  {}

  /**
   Over runs whose stats tell versions apart, cache and requests stay sound throughout exactly when every read
   finds unchanged content.
   */
  lemma {:induction false} SoundExactlyIfUnchanged(s: System, actions: seq<Action>)
    requires Sound(s) && Telling(Run(s, actions).past)
    ensures SoundThroughout(s, actions) <==> AllUnchanged(s, actions)
  {
    if actions != [] {
      var front, last := actions[..|actions| - 1], actions[|actions| - 1];
      TellingEarlier(Run(s, front), last);
      SoundExactlyIfUnchanged(s, front);
      if SoundThroughout(s, front) {
        SoundNow(s, front);
        NextSoundExactly(Run(s, front), last);
      }
    }
  }

  ghost predicate AllInTime(s: System, actions: seq<Action>) {
    actions == [] ||
    (AllInTime(s, actions[..|actions| - 1]) && ReadInTime(Run(s, actions[..|actions| - 1]), actions[|actions| - 1]))
  }

  lemma InTimeIsUnchanged(s: System, a: Action)
    requires Sound(s) && Telling(s.past) && ReadInTime(s, a)
    ensures ReadUnchanged(s, a)
  {
    if Reads(s, a) {
      assert RequestSound(s.past, s.requests[a.i]);
      assert (s.requests[a.i].path, s.files[s.requests[a.i].path]) in s.past;
    }
  }

  lemma {:induction false} AllInTimeIsSound(s: System, actions: seq<Action>)
    requires Sound(s) && AllInTime(s, actions) && Telling(Run(s, actions).past)
    ensures Sound(Run(s, actions))
  {
    if actions != [] {
      var front, last := actions[..|actions| - 1], actions[|actions| - 1];
      TellingEarlier(Run(s, front), last);
      AllInTimeIsSound(s, front);
      InTimeIsUnchanged(Run(s, front), last);
      NextSoundExactly(Run(s, front), last);
    }
  }

  /**
   Whatever is published meanwhile and however requests interleave: if stats tell versions apart and no file
   changes between a request's stat and its read, every answer is the hash of the file as it was at that
   request's stat, and so of the current file if that still has the same stat.
   */
  lemma AnswersAreTrue(s: System, actions: seq<Action>, i: nat)
    requires Sound(s) && AllInTime(s, actions) && Telling(Run(s, actions).past)
    requires i < |Run(s, actions).requests| && Run(s, actions).requests[i].stage.Done?
    ensures var e := Run(s, actions);
            var r := e.requests[i];
            && r.seen.Some? && r.stage.digest == Sha256(r.seen.value.content)
            && (r.path in e.files && e.files[r.path].info == r.seen.value.info ==>
                  r.stage.digest == Sha256(e.files[r.path].content))
  {
    AllInTimeIsSound(s, actions);
    SoundAnswer(Run(s, actions), i);
  }

  lemma SoundAnswer(e: System, i: nat)
    requires Sound(e) && Telling(e.past) && i < |e.requests| && e.requests[i].stage.Done?
    ensures var r := e.requests[i];
            && r.seen.Some? && r.stage.digest == Sha256(r.seen.value.content)
            && (r.path in e.files && e.files[r.path].info == r.seen.value.info ==>
                  r.stage.digest == Sha256(e.files[r.path].content))
  {
    var r := e.requests[i];
    assert RequestSound(e.past, r);
    VouchedExactly(e.past, r.path, r.seen.value, r.stage.digest);
    if r.path in e.files { assert (r.path, e.files[r.path]) in e.past; }
  }

  /**
   The request that reads changed content, and only such a one, goes on to give a wrong answer, and stores it
   for others.
   */
  lemma ReadAnswersTrueExactly(s: System, i: nat)
    requires Sound(s) && Reads(s, Step(i))
    ensures var e := Next(Next(s, Step(i)), Step(i));
            var r := e.requests[i];
            && r.stage.Done? && r.seen.Some? && r.path in e.cache
            && (r.stage.digest == Sha256(r.seen.value.content) <==> ReadUnchanged(s, Step(i)))
            && e.cache[r.path] == Entry(r.seen.value.info, r.stage.digest)
  {
    assert RequestSound(s.past, s.requests[i]);
  }

  /**
   A read that is not in time puts another version's hash under the old stat; a later request is then answered
   wrongly.
   */
  lemma LateReadPoisons(p: Path, x: File, y: File)
    requires x.info != y.info && x.content != y.content
    ensures var s := System(map[p := x], map[], [Request(p, Start, None), Request(p, Start, None)], {(p, x)});
            var a := [Step(0), Step(0), Publish(p, y), Step(0), Step(0), Publish(p, x), Step(1), Step(1)];
            var e := Run(s, a);
            && |e.requests| == 2 && e.requests[1].stage == Done(Sha256(y.content))
            && p in e.files && e.files[p] == x && Telling(e.past)
  {
    var s := System(map[p := x], map[], [Request(p, Start, None), Request(p, Start, None)], {(p, x)});
    var a := [Step(0), Step(0), Publish(p, y), Step(0), Step(0), Publish(p, x), Step(1), Step(1)];
    RunSplits(s, a, 4);
    assert a[..4] == [Step(0), Step(0), Publish(p, y), Step(0)];
    assert a[4..] == [Step(0), Publish(p, x), Step(1), Step(1)];
    ReadTooLate(p, x, y);
    StoredAnyway(p, x, y);
  }

  lemma ReadTooLate(p: Path, x: File, y: File)
    ensures Run(System(map[p := x], map[], [Request(p, Start, None), Request(p, Start, None)], {(p, x)}),
                [Step(0), Step(0), Publish(p, y), Step(0)])
         == System(map[p := y], map[],
                   [Request(p, Hashed(x.info, Sha256(y.content)), Some(x)), Request(p, Start, None)], {(p, x), (p, y)})
  {
    var r := Request(p, Start, None);
    var s := System(map[p := x], map[], [r, r], {(p, x)});
    FourSteps(s, [Step(0), Step(0), Publish(p, y), Step(0)]);
    var s1 := System(map[p := x], map[], [Request(p, Statted(x.info), Some(x)), r], {(p, x)});
    assert Next(s, Step(0)) == s1;
    var s2 := System(map[p := x], map[], [Request(p, Missed(x.info), Some(x)), r], {(p, x)});
    assert Next(s1, Step(0)) == s2;
    var s3 := System(map[p := y], map[], [Request(p, Missed(x.info), Some(x)), r], {(p, x), (p, y)});
    assert Next(s2, Publish(p, y)) == s3;
  }

  lemma StoredAnyway(p: Path, x: File, y: File)
    ensures Run(System(map[p := y], map[],
                       [Request(p, Hashed(x.info, Sha256(y.content)), Some(x)), Request(p, Start, None)],
                       {(p, x), (p, y)}),
                [Step(0), Publish(p, x), Step(1), Step(1)])
         == System(map[p := x], map[p := Entry(x.info, Sha256(y.content))],
                   [Request(p, Done(Sha256(y.content)), Some(x)), Request(p, Done(Sha256(y.content)), Some(x))],
                   {(p, x), (p, y)})
  {
    var d := Sha256(y.content);
    var done := Request(p, Done(d), Some(x));
    var s := System(map[p := y], map[], [Request(p, Hashed(x.info, d), Some(x)), Request(p, Start, None)],
                    {(p, x), (p, y)});
    FourSteps(s, [Step(0), Publish(p, x), Step(1), Step(1)]);
    var cache := map[p := Entry(x.info, d)];
    var s1 := System(map[p := y], cache, [done, Request(p, Start, None)], {(p, x), (p, y)});
    assert Next(s, Step(0)) == s1;
    var s2 := System(map[p := x], cache, [done, Request(p, Start, None)], {(p, x), (p, y)});
    assert Next(s1, Publish(p, x)) == s2 by { assert {(p, x), (p, y)} + {(p, x)} == {(p, x), (p, y)}; }
    var s3 := System(map[p := x], cache, [done, Request(p, Statted(x.info), Some(x))], {(p, x), (p, y)});
    assert Next(s2, Step(1)) == s3;
  }

  lemma FourSteps(s: System, a: seq<Action>)
    requires |a| == 4
    ensures Run(s, a) == Next(Next(Next(Next(s, a[0]), a[1]), a[2]), a[3])
  {
    assert a[..3][..2] == a[..2] && a[..2][..1] == a[..1] && a[..1][..0] == [];
    assert Run(s, a[..1]) == Next(s, a[0]);
    assert Run(s, a[..2]) == Next(Next(s, a[0]), a[1]);
    assert Run(s, a[..3]) == Next(Next(Next(s, a[0]), a[1]), a[2]);
  }

  lemma {:induction false} RunSplits(s: System, a: seq<Action>, n: nat)
    requires n <= |a|
    ensures Run(s, a) == Run(Run(s, a[..n]), a[n..])
    decreases |a|
  {
    if n == |a| {
      assert a[..n] == a && a[n..] == [];
    } else {
      var front := a[..|a| - 1];
      RunSplits(s, front, n);
      assert front[..n] == a[..n] && a[n..][..|a| - n - 1] == front[n..];
    }
  }

  /** cachedSHA256 as one request runs it alone. */
  class HashCache {
    var entries: map<Path, Entry>
    /** Every version the files have had. */
    ghost const past: set<(Path, File)>

    ghost predicate Valid()
      reads this
    {
      Telling(past) && forall p :: p in entries ==> Vouched(past, p, entries[p].info, entries[p].digest)
    }

    constructor (ghost past: set<(Path, File)>)
      requires Telling(past)
      ensures Valid() && this.past == past && entries == map[]
    {
      entries := map[];
      this.past := past;
    }

    /** From the cache or by reading, the answer is the file's hash, and what is stored can be trusted again. */
    method CachedSHA256(path: Path, file: File) returns (digest: Digest)
      requires Valid() && (path, file) in past
      modifies this`entries
      ensures Valid() && digest == Sha256(file.content)
      ensures path in entries && entries[path] == Entry(file.info, digest)
      ensures forall p :: p != path ==> (p in entries <==> p in old(entries))
      ensures forall p :: p != path && p in entries ==> entries[p] == old(entries)[p]
    {
      if path in entries && entries[path].info == file.info {
        return entries[path].digest;
      }
      digest := Sha256(file.content);
      entries := entries[path := Entry(file.info, digest)];
      assert Vouched(past, path, file.info, digest);
    }
  }

  // ---------- which bundle ----------

  /** A glob with one star. */
  datatype Pattern = Pattern(prefix: string, suffix: string)

  predicate Matches(p: Pattern, name: string) {
    |name| >= |p.prefix| + |p.suffix| && StartsWith(name, p.prefix) && EndsWith(name, p.suffix)
  }

  /** As a glob: the prefix, anything, and the suffix. */
  lemma MatchesExactly(p: Pattern, name: string)
    ensures Matches(p, name) <==> exists middle :: name == p.prefix + middle + p.suffix
  {
    if Matches(p, name) {
      var middle := name[|p.prefix|..|name| - |p.suffix|];
      assert name == name[..|p.prefix|] + middle + name[|name| - |p.suffix|..];
    }
    if middle :| name == p.prefix + middle + p.suffix {
      assert name[0..0 + |p.prefix|] == p.prefix;
      var k := |name| - |p.suffix|;
      assert name[k..k + |p.suffix|] == p.suffix;
    }
  }

  const PATTERNS := [
    Pattern("OperatorPortalSetup-", ".exe"),
    Pattern("OperatorPortalSetup-", ".msi"),
    Pattern("VerificationPortalClient-", ".zip"),
    Pattern("VerificationPortalClient-", "-windows.zip")]

  /** A directory entry in glob order; `stat` is None when the stat fails. */
  datatype Listed = Listed(name: string, isDir: bool, stat: Option<Info>)

  predicate Usable(p: Pattern, e: Listed) {
    Matches(p, e.name) && e.stat.Some? && !e.isDir
  }

  /** Entry `k` is the pick: of the first pattern with a usable match, a newest one, and the first of those. */
  predicate IsPick(patterns: seq<Pattern>, dir: seq<Listed>, t: nat, k: nat) {
    && t < |patterns| && k < |dir| && Usable(patterns[t], dir[k])
    && (forall u, j :: 0 <= u < t && 0 <= j < |dir| ==> !Usable(patterns[u], dir[j]))
    && (forall j :: 0 <= j < |dir| && Usable(patterns[t], dir[j]) ==>
          dir[j].stat.value.mtime <= dir[k].stat.value.mtime)
    && (forall j :: 0 <= j < k && Usable(patterns[t], dir[j]) ==> dir[j].stat.value.mtime < dir[k].stat.value.mtime)
  }

  /** findOperatorClient's two loops. */
  method FindBundle(patterns: seq<Pattern>, dir: seq<Listed>) returns (pick: Option<(nat, nat)>)
    ensures pick.Some? ==> IsPick(patterns, dir, pick.value.0, pick.value.1)
    ensures pick.Some? ==>
              var e := dir[pick.value.1];
              !e.isDir && e.stat.Some? && Matches(patterns[pick.value.0], e.name)
    ensures pick == None ==> forall u, j :: 0 <= u < |patterns| && 0 <= j < |dir| ==> !Usable(patterns[u], dir[j])
  {
    for t := 0 to |patterns|
      invariant forall u, j :: 0 <= u < t && 0 <= j < |dir| ==> !Usable(patterns[u], dir[j])
    {
      var best: Option<nat> := None;
      for i := 0 to |dir|
        invariant best == None ==> forall j :: 0 <= j < i ==> !Usable(patterns[t], dir[j])
        invariant best.Some? ==> best.value < i && Usable(patterns[t], dir[best.value])
        invariant best.Some? ==> forall j :: 0 <= j < i && Usable(patterns[t], dir[j]) ==>
                                   dir[j].stat.value.mtime <= dir[best.value].stat.value.mtime
        invariant best.Some? ==> forall j :: 0 <= j < best.value && Usable(patterns[t], dir[j]) ==>
                                   dir[j].stat.value.mtime < dir[best.value].stat.value.mtime
      {
        var e := dir[i];
        if !Matches(patterns[t], e.name) || e.stat == None || e.isDir { continue; }
        if best == None || e.stat.value.mtime > dir[best.value].stat.value.mtime { best := Some(i); }
      }
      if best.Some? { return Some((t, best.value)); }
    }
    return None;
  }

  /** The pick is determined by the directory. */
  lemma PickIsUnique(patterns: seq<Pattern>, dir: seq<Listed>, t: nat, k: nat, u: nat, j: nat)
    requires IsPick(patterns, dir, t, k) && IsPick(patterns, dir, u, j)
    ensures t == u && k == j
  {}

  lemma FourthImpliesThird(name: string)
    requires Matches(PATTERNS[3], name)
    ensures Matches(PATTERNS[2], name)
  {}

  /** The last of the four patterns never decides: whatever it matches the third matches too. */
  lemma FourthPatternIsIdle(dir: seq<Listed>, t: nat, k: nat)
    requires IsPick(PATTERNS, dir, t, k)
    ensures t < 3
  {
    if Matches(PATTERNS[3], dir[k].name) { FourthImpliesThird(dir[k].name); }
  }
}
