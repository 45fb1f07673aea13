/**
 The in-memory index of who has which biometric on file. At boot it is the disk scan with the database
 flags OR-ed in; each bulk upload then updates index and database separately. The question is when the
 running index still equals what a restart would build.
 */
module BiometricIndex {
  import opened Wrappers
  import opened Text

  datatype Modality = Photo | FpImage | FpTemplate | Iris

  /** The four has_* flags of a candidate. */
  datatype Marks = Marks(photo: bool, fpImage: bool, fpTemplate: bool, iris: bool) {
    predicate Has(m: Modality) {
      match m
      case Photo => photo
      case FpImage => fpImage
      case FpTemplate => fpTemplate
      case Iris => iris
    }

    function Or(more: Marks): (r: Marks)
      ensures forall m :: r.Has(m) <==> Has(m) || more.Has(m)
    {
      Marks(photo || more.photo, fpImage || more.fpImage, fpTemplate || more.fpTemplate, iris || more.iris)
    }
  }

  const NONE := Marks(false, false, false, false)

  function Only(m: Modality): (r: Marks)
    ensures forall k :: r.Has(k) <==> k == m
  {
    Marks(m == Photo, m == FpImage, m == FpTemplate, m == Iris)
  }

  lemma SameMarks(a: Marks, b: Marks)
    requires forall m :: a.Has(m) <==> b.Has(m)
    ensures a == b
  {
    assert a.Has(Photo) == b.Has(Photo) && a.Has(FpImage) == b.Has(FpImage);
    assert a.Has(FpTemplate) == b.Has(FpTemplate) && a.Has(Iris) == b.Has(Iris);
  }

  datatype Roll = Roll(text: string)

  /** The key of an exam_candidates row. */
  datatype Seat = Seat(exam: int, roll: Roll)

  /** For each roll the flags that are true; disk scan and index have this form. */
  type Flags = map<Roll, Marks>

  /** exam_candidates: one row per exam and roll. */
  type Candidates = map<Seat, Marks>

  predicate Has(x: Flags, r: Roll, m: Modality) {
    r in x && x[r].Has(m)
  }

  ghost predicate HasRow(db: Candidates, r: Roll, m: Modality) {
    exists s :: s in db && s.roll == r && db[s].Has(m)
  }

  ghost predicate OnRecord(db: Candidates, r: Roll) {
    exists m :: HasRow(db, r, m)
  }

  /** The index is the disk scan OR-ed with the flags of the roll in all its exams. */
  ghost predicate Synced(index: Flags, disk: Flags, db: Candidates) {
    && (forall r, m :: Has(index, r, m) <==> Has(disk, r, m) || HasRow(db, r, m))
    && (forall r :: r in index <==> r in disk || OnRecord(db, r))
  }

  /** There is only one such index. */
  lemma SyncedIsUnique(a: Flags, b: Flags, disk: Flags, db: Candidates)
    requires Synced(a, disk, db) && Synced(b, disk, db)
    ensures a == b
  {
    assert forall r :: r in a <==> r in b;
    forall r | r in a ensures a[r] == b[r] {
      forall m ensures a[r].Has(m) <==> b[r].Has(m) { assert Has(a, r, m) <==> Has(b, r, m); }
      SameMarks(a[r], b[r]);
    }
  }

  function FlagsOf(x: Flags, r: Roll): Marks {
    if r in x then x[r] else NONE
  }

  /** Index.Upsert: true flags are added, nothing is cleared, and a new roll gets an entry. */
  function Upsert(x: Flags, r: Roll, more: Marks): Flags {
    x[r := FlagsOf(x, r).Or(more)]
  }

  // ---------- boot ----------

  lemma UpsertSyncs(index: Flags, disk: Flags, db: Candidates, s: Seat, more: Marks)
    requires Synced(index, disk, db) && s !in db && more != NONE
    ensures Synced(Upsert(index, s.roll, more), disk, db[s := more])
  {
    var index', db' := Upsert(index, s.roll, more), db[s := more];
    forall r, m ensures HasRow(db', r, m) <==> HasRow(db, r, m) || (r == s.roll && more.Has(m)) {
      RowAdded(db, s, more, r, m);
    }
    forall r ensures r in index' <==> r in disk || OnRecord(db', r) {
      if OnRecord(db, r) {
        var m :| HasRow(db, r, m);
        assert HasRow(db', r, m);
      }
      if r == s.roll {
        SomeMark(more);
        var m :| more.Has(m);
        assert HasRow(db', r, m);
      }
    }
  }

  lemma RowAdded(db: Candidates, s: Seat, more: Marks, r: Roll, m: Modality)
    requires s !in db
    ensures HasRow(db[s := more], r, m) <==> HasRow(db, r, m) || (r == s.roll && more.Has(m))
  {}

  lemma SomeMark(a: Marks)
    requires a != NONE
    ensures exists m :: a.Has(m)
  {
    if forall m :: !a.Has(m) {
      SameMarks(a, NONE);
      assert false;
    }
  }

  lemma EmptyRowIsNothing(index: Flags, disk: Flags, db: Candidates, s: Seat)
    requires Synced(index, disk, db) && s !in db
    ensures Synced(index, disk, db[s := NONE])
  {
    forall r, m ensures HasRow(db[s := NONE], r, m) <==> HasRow(db, r, m) { RowAdded(db, s, NONE, r, m); }
    forall r ensures OnRecord(db[s := NONE], r) <==> OnRecord(db, r) {
      if OnRecord(db, r) {
        var m :| HasRow(db, r, m);
        assert HasRow(db[s := NONE], r, m);
      }
      if OnRecord(db[s := NONE], r) {
        var m :| HasRow(db[s := NONE], r, m);
        assert HasRow(db, r, m);
      }
    }
  }

  /** HydrateIndexFromDB over a fresh disk scan, rows in any order. */
  method Restart(disk: Flags, db: Candidates) returns (index: Flags)
    ensures Synced(index, disk, db)
  {
    index := disk;
    var left := db.Keys;
    ghost var done: Candidates := map[];
    while left != {}
      invariant left <= db.Keys
      invariant done == map s | s in db && s !in left :: db[s]
      invariant Synced(index, disk, done)
      decreases |left|
    {
      var s :| s in left;
      left := left - {s};
      if db[s] != NONE {
        UpsertSyncs(index, disk, done, s, db[s]);
        index := Upsert(index, s.roll, db[s]);
      } else {
        EmptyRowIsNothing(index, disk, done, s);
      }
      done := done[s := db[s]];
    }
    assert done == db;
  }

  // ---------- file names ----------

  /** The position of the last dot, or -1. */
  function LastDot(s: string): (d: int)
    ensures -1 <= d < |s|
    ensures d >= 0 ==> s[d] == '.'
    ensures forall i :: 0 <= i < |s| && d < i ==> s[i] != '.'
  {
    if s == "" then -1
    else if s[|s| - 1] == '.' then |s| - 1
    else LastDot(s[..|s| - 1])
  }

  function Extension(s: string): string {
    if LastDot(s) < 0 then "" else s[LastDot(s)..]
  }

  /** parseRollFilename: the roll as written, the extension in lower case. */
  function ParseRoll(base: string): Option<(Roll, string)> {
    var name := Trim(base);
    if name == "" || '/' in name || '\\' in name then None
    else
      var ext := Extension(name);
      var roll := name[..|name| - |ext|];
      if Lower(ext) == "" || Lower(ext) == "." || roll in ["", ".", ".."] then None
      else Some((Roll(roll), Lower(ext)))
  }

  predicate Separated(name: string, roll: string, ext: string) {
    && name == roll + ext && roll !in ["", ".", ".."] && |ext| >= 2 && ext[0] == '.' && '.' !in ext[1..]
    && '/' !in name && '\\' !in name
  }

  /** A file name is accepted exactly when it is a roll, a dot and a dotless extension; the split is the only one. */
  lemma ParseRollExactly(base: string, roll: string, ext: string)
    ensures Separated(Trim(base), roll, ext) ==> ParseRoll(base) == Some((Roll(roll), Lower(ext)))
    ensures ParseRoll(base).Some? ==>
              exists e :: Lower(e) == ParseRoll(base).value.1 && Separated(Trim(base), ParseRoll(base).value.0.text, e)
  {
    var name := Trim(base);
    if Separated(name, roll, ext) {
      assert name[|roll|] == '.';
      forall i | |roll| < i < |name| ensures name[i] != '.' {
        assert name[i] == ext[1..][i - |roll| - 1];
      }
      assert LastDot(name) == |roll|;
      assert name[|roll|..] == ext && name[..|roll|] == roll;
    }
    if ParseRoll(base).Some? {
      var e := Extension(name);
      assert |Lower(e)| == |e| && e[0] == '.';
      assert |e| != 1 || Lower(e) == ".";
      assert name == name[..LastDot(name)] + e;
      assert Separated(name, ParseRoll(base).value.0.text, e);
    }
  }

  // ---------- a bulk upload ----------

  const ENTRY_LIMIT := 20 * 1024 * 1024

  datatype Body = Unopenable | Unreadable | Bytes(size: nat, stored: bool)

  /** One zip entry: its base name, and what reading and storing it would do. */
  datatype Entry = Entry(name: string, dir: bool, body: Body)

  datatype Status = Uploaded | Skipped | Errored

  datatype FileResult = FileResult(name: string, roll: Option<Roll>, status: Status)

  datatype Response = Response(total: nat, uploaded: nat, skipped: nat, errors: nat, files: seq<FileResult>)

  function Allowed(m: Modality): seq<string> {
    match m
    case Photo => [".jpg", ".jpeg", ".png"]
    case FpTemplate => [".iso", ".fmr", ".ansi", ".bin"]
    case Iris => [".iso", ".k7", ".bmp", ".bin"]
    case FpImage => []
  }

  /** The outcome for one entry that is not a directory. */
  function Judged(m: Modality, enrolled: set<Roll>, e: Entry): FileResult {
    match ParseRoll(e.name)
    case None => FileResult(e.name, None, Skipped)
    case Some((roll, ext)) =>
      FileResult(e.name, Some(roll),
        if ext !in Allowed(m) || roll !in enrolled then Skipped
        else if && e.body.Bytes?
                && (if e.body.size < ENTRY_LIMIT then e.body.size else ENTRY_LIMIT) != ENTRY_LIMIT
                && e.body.stored
        then Uploaded
        else Errored)
  }

  /**
   A file is passed over exactly if its name is no roll of the exam with an extension of the modality; of the others
   it is stored exactly if it can be read, is below the limit, and storing it works.
   */
  lemma JudgedExactly(m: Modality, enrolled: set<Roll>, e: Entry)
    ensures var f, parsed := Judged(m, enrolled, e), ParseRoll(e.name);
            && f.name == e.name && (f.roll.Some? <==> parsed.Some?)
            && (parsed.Some? ==> f.roll == Some(parsed.value.0))
            && (f.status == Skipped <==>
                  parsed == None || parsed.value.0 !in enrolled || parsed.value.1 !in Allowed(m))
            && (f.status == Uploaded <==>
                  f.status != Skipped && e.body.Bytes? && e.body.size < ENTRY_LIMIT && e.body.stored)
  {}

  function FilesOf(m: Modality, enrolled: set<Roll>, entries: seq<Entry>): seq<FileResult> {
    if entries == [] then []
    else
      FilesOf(m, enrolled, entries[..|entries| - 1])
      + if entries[|entries| - 1].dir then [] else [Judged(m, enrolled, entries[|entries| - 1])]
  }

  lemma FilesSnoc(m: Modality, enrolled: set<Roll>, entries: seq<Entry>, i: nat)
    requires i < |entries|
    ensures FilesOf(m, enrolled, entries[..i + 1])
         == FilesOf(m, enrolled, entries[..i]) + if entries[i].dir then [] else [Judged(m, enrolled, entries[i])]
  {
    assert entries[..i + 1][..i] == entries[..i] && entries[..i + 1][i] == entries[i];
  }

  function Count(files: seq<FileResult>, s: Status): nat {
    if files == [] then 0 else Count(files[..|files| - 1], s) + if files[|files| - 1].status == s then 1 else 0
  }

  /** The rolls whose file was stored. */
  function Stored(files: seq<FileResult>): set<Roll> {
    set f | f in files && f.status == Uploaded && f.roll.Some? :: f.roll.value
  }

  lemma CountSnoc(files: seq<FileResult>, f: FileResult)
    ensures forall s :: Count(files + [f], s) == Count(files, s) + if f.status == s then 1 else 0
    ensures Stored(files + [f]) == Stored(files) + if f.status == Uploaded && f.roll.Some? then {f.roll.value} else {}
  {}

  /** The four counters fit the lines so far, and `rolls` lists what was stored. */
  predicate Tallied(r: Response, rolls: seq<Roll>) {
    && r.total == r.uploaded + r.skipped + r.errors == |r.files|
    && r.uploaded == Count(r.files, Uploaded) && r.skipped == Count(r.files, Skipped)
    && Elements(rolls) == Stored(r.files)
  }

  lemma TalliedMore(r: Response, rolls: seq<Roll>, f: FileResult)
    requires Tallied(r, rolls) && (f.status == Uploaded ==> f.roll.Some?)
    ensures var more := r.(total := r.total + 1, files := r.files + [f]);
            match f.status
            case Uploaded => Tallied(more.(uploaded := r.uploaded + 1), rolls + [f.roll.value])
            case Skipped => Tallied(more.(skipped := r.skipped + 1), rolls)
            case Errored => Tallied(more.(errors := r.errors + 1), rolls)
  {
    CountSnoc(r.files, f);
    if f.status == Uploaded { ElementsSnoc(rolls, f.roll.value); }
  }

  /** Who is on an exam's roster. */
  lemma EnrolledExactly(db: Candidates, exam: int, r: Roll)
    ensures r in Enrolled(db, exam) <==> Seat(exam, r) in db
  {
    if r in Enrolled(db, exam) {
      var s :| s in db && s.exam == exam && s.roll == r;
      assert s == Seat(exam, r);
    }
  }

  function Elements(rolls: seq<Roll>): set<Roll> {
    set r | r in rolls
  }

  lemma ElementsSnoc(rolls: seq<Roll>, r: Roll)
    ensures Elements(rolls + [r]) == Elements(rolls) + {r}
  {}

  function Enrolled(db: Candidates, exam: int): set<Roll> {
    set s | s in db && s.exam == exam :: s.roll
  }

  /** The flag added to each of the rolls. */
  function Marked(index: Flags, rolls: set<Roll>, m: Modality): Flags {
    map r | r in index.Keys + rolls :: if r in rolls then FlagsOf(index, r).Or(Only(m)) else index[r]
  }

  /** flipCandidateFlag: the exam's rows of those rolls. */
  function Flipped(db: Candidates, exam: int, rolls: set<Roll>, m: Modality): Candidates {
    map s | s in db :: if s.exam == exam && s.roll in rolls then db[s].Or(Only(m)) else db[s]
  }

  /** A flag update touches the rows of this exam and these rolls, sets this flag, and nothing else. */
  lemma FlippedExactly(db: Candidates, exam: int, rolls: set<Roll>, m: Modality, s: Seat, k: Modality)
    ensures var db' := Flipped(db, exam, rolls, m);
            && db'.Keys == db.Keys
            && (s in db ==> (db'[s].Has(k) <==> db[s].Has(k) || (s.exam == exam && s.roll in rolls && k == m)))
  {}

  lemma MarkOne(index: Flags, rolls: set<Roll>, r: Roll, m: Modality)
    ensures Upsert(Marked(index, rolls, m), r, Only(m)) == Marked(index, rolls + {r}, m)
  {}

  class Server {
    var index: Flags
    var disk: Flags
    var db: Candidates

    constructor (disk: Flags, db: Candidates)
      ensures this.disk == disk && this.db == db && Synced(index, disk, db)
    {
      var i := Restart(disk, db);
      this.disk, this.db, this.index := disk, db, i;
    }

    /** The checks on one entry, in order. */
    method StoreEntry(m: Modality, enrolled: set<Roll>, e: Entry) returns (f: FileResult)
      ensures f == Judged(m, enrolled, e)
      ensures f.status == Uploaded ==> f.roll.Some? && f.roll.value in enrolled
    {
      var parsed := ParseRoll(e.name);
      if parsed == None { return FileResult(e.name, None, Skipped); }
      var (roll, ext) := parsed.value;
      if ext !in Allowed(m) { return FileResult(e.name, Some(roll), Skipped); }
      if roll !in enrolled { return FileResult(e.name, Some(roll), Skipped); }
      if !e.body.Bytes? { return FileResult(e.name, Some(roll), Errored); }
      var read := if e.body.size < ENTRY_LIMIT then e.body.size else ENTRY_LIMIT;
      if read == ENTRY_LIMIT || !e.body.stored { return FileResult(e.name, Some(roll), Errored); }
      return FileResult(e.name, Some(roll), Uploaded);
    }

    /** The entry loop: what to answer, and which rolls were stored. */
    method StoreEntries(m: Modality, enrolled: set<Roll>, entries: seq<Entry>)
      returns (resp: Response, rolls: seq<Roll>)
      ensures resp.files == FilesOf(m, enrolled, entries)
      ensures resp.total == resp.uploaded + resp.skipped + resp.errors == |resp.files|
      ensures resp.uploaded == Count(resp.files, Uploaded) && resp.skipped == Count(resp.files, Skipped)
      ensures Elements(rolls) == Stored(resp.files)
    {
      rolls, resp := [], Response(0, 0, 0, 0, []);
      for i := 0 to |entries|
        invariant resp.files == FilesOf(m, enrolled, entries[..i]) && Tallied(resp, rolls)
      {
        FilesSnoc(m, enrolled, entries, i);
        if !entries[i].dir {
          var f := StoreEntry(m, enrolled, entries[i]);
          TalliedMore(resp, rolls, f);
          resp := resp.(total := resp.total + 1, files := resp.files + [f]);
          match f.status {
            case Uploaded =>
              resp := resp.(uploaded := resp.uploaded + 1);
              rolls := rolls + [f.roll.value];
            case Skipped => resp := resp.(skipped := resp.skipped + 1);
            case Errored => resp := resp.(errors := resp.errors + 1);
          }
        }
      }
      assert entries[..|entries|] == entries;
    }

    /** The entries, then one Upsert per stored roll, then the flag updates in one transaction that may fail. */
    method BulkUpload(exam: int, m: Modality, entries: seq<Entry>, flipFails: bool) returns (resp: Response)
      modifies this`index, this`db
      ensures resp.files == FilesOf(m, Enrolled(old(db), exam), entries)
      ensures resp.total == resp.uploaded + resp.skipped + resp.errors == |resp.files|
      ensures resp.uploaded == Count(resp.files, Uploaded) && resp.skipped == Count(resp.files, Skipped)
      ensures index == Marked(old(index), Stored(resp.files), m)
      ensures db == if flipFails then old(db) else Flipped(old(db), exam, Stored(resp.files), m)
      ensures Synced(old(index), disk, old(db)) && !flipFails ==> Synced(index, disk, db)
    {
      StoredAreEnrolled(m, Enrolled(db, exam), entries);
      var rolls: seq<Roll>;
      resp, rolls := StoreEntries(m, Enrolled(db, exam), entries);
      if Synced(index, disk, db) { UploadStaysSynced(index, disk, db, exam, Stored(resp.files), m); }
      MarkAll(rolls, m);
      if !flipFails { db := Flipped(db, exam, Elements(rolls), m); }
    }

    method MarkAll(rolls: seq<Roll>, m: Modality)
      modifies this`index
      ensures index == Marked(old(index), Elements(rolls), m)
    {
      assert Marked(index, Elements(rolls[..0]), m) == index;
      for i := 0 to |rolls|
        invariant index == Marked(old(index), Elements(rolls[..i]), m)
      {
        MarkOne(old(index), Elements(rolls[..i]), rolls[i], m);
        assert rolls[..i + 1] == rolls[..i] + [rolls[i]];
        ElementsSnoc(rolls[..i], rolls[i]);
        index := Upsert(index, rolls[i], Only(m));
      }
      assert rolls[..|rolls|] == rolls;
    }

    /**
     The one-candidate upload: a file on disk, the index rebuilt from the disk alone unless the scan fails, and
     for a photo whose copy reaches remote storage the database flag, unless its update fails, and an Upsert.
     Afterwards the index is what a restart would build exactly as the two conditions say.
     */
    method SingleUpload(exam: int, roll: Roll, m: Modality, o: Outcome) returns (accepted: bool)
      modifies this
      ensures accepted <==> Seat(exam, roll) in old(db)
      ensures State(index, disk, db) == if accepted then AfterSingle(old(State(index, disk, db)), exam, roll, m, o)
                                        else old(State(index, disk, db))
      ensures accepted && !o.scanFails ==>
                (Synced(index, disk, db) <==>
                 forall r, k :: HasRow(old(db), r, k) ==> Has(old(disk), r, k) || (r == roll && k == m))
      ensures accepted && o.scanFails && old(Synced(index, disk, db)) ==>
                (Synced(index, disk, db) <==> Has(old(index), roll, m) || (m == Photo && o.mirrored))
    {
      if Seat(exam, roll) !in db { return false; }
      ghost var s := State(index, disk, db);
      disk := Upsert(disk, roll, Only(m));
      if !o.scanFails { index := disk; }
      if m == Photo && o.mirrored {
        if !o.flagFails { db := Flipped(db, exam, {roll}, Photo); }
        index := Upsert(index, roll, Only(Photo));
      }
      if !o.scanFails { ScannedSyncedExactly(s, exam, roll, m, o); }
      if o.scanFails && Synced(s.index, s.disk, s.db) { UnscannedSyncedExactly(s, exam, roll, m, o); }
      return true;
    }
  }

  /**
   What else may happen in a one-candidate upload: the rescan fails, a photo's copy is stored remotely, its
   flag update fails.
   */
  datatype Outcome = Outcome(scanFails: bool, mirrored: bool, flagFails: bool)

  // ---------- the index against a restart ----------

  /** No upload clears a flag. */
  lemma FlagsOnlyGrow(index: Flags, rolls: set<Roll>, m: Modality, r: Roll, k: Modality)
    ensures Has(index, r, k) ==> Has(Marked(index, rolls, m), r, k)
    ensures Has(Marked(index, rolls, m), r, k) ==> Has(index, r, k) || (r in rolls && k == m)
  {}

  lemma FlippedRows(db: Candidates, exam: int, rolls: set<Roll>, m: Modality, r: Roll, k: Modality)
    requires rolls <= Enrolled(db, exam)
    ensures HasRow(Flipped(db, exam, rolls, m), r, k) <==> HasRow(db, r, k) || (r in rolls && k == m)
  {}

  /** After an upload whose flag update commits, the running index is what a restart would build. */
  lemma UploadStaysSynced(index: Flags, disk: Flags, db: Candidates, exam: int, rolls: set<Roll>, m: Modality)
    requires Synced(index, disk, db) && rolls <= Enrolled(db, exam)
    ensures Synced(Marked(index, rolls, m), disk, Flipped(db, exam, rolls, m))
  {
    var index', db' := Marked(index, rolls, m), Flipped(db, exam, rolls, m);
    forall r, k ensures Has(index', r, k) <==> Has(disk, r, k) || HasRow(db', r, k) {
      FlippedRows(db, exam, rolls, m, r, k);
    }
    forall r ensures r in index' <==> r in disk || OnRecord(db', r) {
      forall k { FlippedRows(db, exam, rolls, m, r, k); }
      if r in rolls { assert HasRow(db', r, m); }
    }
  }

  /**
   When the flag update fails the index runs ahead of the database, exactly unless every stored file was on
   record already.
   */
  lemma FailedFlipSyncedExactly(index: Flags, disk: Flags, db: Candidates, rolls: set<Roll>, m: Modality)
    requires Synced(index, disk, db)
    ensures Synced(Marked(index, rolls, m), disk, db) <==> forall r :: r in rolls ==> Has(index, r, m)
  {
    var index' := Marked(index, rolls, m);
    if forall r :: r in rolls ==> Has(index, r, m) {
      forall r | r in index' ensures r in index && index'[r] == index[r] {
        if r in rolls { assert Has(index, r, m); }
      }
      assert index' == index;
    } else {
      var r :| r in rolls && !Has(index, r, m);
      assert Has(index', r, m);
    }
  }

  lemma UpsertHas(x: Flags, roll: Roll, m: Modality, r: Roll, k: Modality)
    ensures Has(Upsert(x, roll, Only(m)), r, k) <==> Has(x, r, k) || (r == roll && k == m)
  {}

  /** An index rebuilt from the disk alone is in step exactly when the database knows nothing the disk does not. */
  lemma DiskSyncedExactly(disk: Flags, db: Candidates)
    ensures Synced(disk, disk, db) <==> forall r, k :: HasRow(db, r, k) ==> Has(disk, r, k)
  {}

  /** The three stores after an accepted one-candidate upload. */
  function AfterSingle(s: State, exam: int, roll: Roll, m: Modality, o: Outcome): State {
    var disk := Upsert(s.disk, roll, Only(m));
    var index := if o.scanFails then s.index else disk;
    if m == Photo && o.mirrored then
      State(Upsert(index, roll, Only(Photo)), disk, if o.flagFails then s.db else Flipped(s.db, exam, {roll}, Photo))
    else State(index, disk, s.db)
  }

  /** It writes the file's flag on disk and, for a mirrored photo whose update works, that candidate's database flag. */
  lemma SingleWrites(s: State, exam: int, roll: Roll, m: Modality, o: Outcome, seat: Seat, k: Modality)
    ensures var e := AfterSingle(s, exam, roll, m, o);
            && (Has(e.disk, seat.roll, k) <==> Has(s.disk, seat.roll, k) || (seat.roll == roll && k == m))
            && e.db.Keys == s.db.Keys
            && (seat in s.db ==>
                  (e.db[seat].Has(k) <==>
                   || s.db[seat].Has(k)
                   || (seat == Seat(exam, roll) && k == m == Photo && o.mirrored && !o.flagFails)))
  {
    UpsertHas(s.disk, roll, m, seat.roll, k);
    FlippedExactly(s.db, exam, {roll}, Photo, seat, k);
  }

  lemma UpsertTwice(x: Flags, roll: Roll, m: Modality)
    ensures Upsert(Upsert(x, roll, Only(m)), roll, Only(m)) == Upsert(x, roll, Only(m))
  {}

  /** After the upload the database has at most the photo's flag more, and that flag is on disk too. */
  lemma SingleRows(s: State, exam: int, roll: Roll, m: Modality, o: Outcome, r: Roll, k: Modality)
    requires Seat(exam, roll) in s.db
    ensures HasRow(s.db, r, k) ==> HasRow(AfterSingle(s, exam, roll, m, o).db, r, k)
    ensures HasRow(AfterSingle(s, exam, roll, m, o).db, r, k) ==> HasRow(s.db, r, k) || (r == roll && k == m == Photo)
  {
    assert {roll} <= Enrolled(s.db, exam);
    FlippedRows(s.db, exam, {roll}, Photo, r, k);
  }

  /**
   When the scan succeeds: in step exactly if the old disk knew every flag of the database but the one just
   uploaded.
   */
  lemma ScannedSyncedExactly(s: State, exam: int, roll: Roll, m: Modality, o: Outcome)
    requires Seat(exam, roll) in s.db && !o.scanFails
    ensures var e := AfterSingle(s, exam, roll, m, o);
            Synced(e.index, e.disk, e.db) <==>
            forall r, k :: HasRow(s.db, r, k) ==> Has(s.disk, r, k) || (r == roll && k == m)
  {
    var e := AfterSingle(s, exam, roll, m, o);
    if m == Photo { UpsertTwice(s.disk, roll, Photo); }
    assert e.index == e.disk;
    DiskSyncedExactly(e.disk, e.db);
    forall r, k ensures (HasRow(e.db, r, k) ==> Has(e.disk, r, k))
                        <==> (HasRow(s.db, r, k) ==> Has(s.disk, r, k) || (r == roll && k == m)) {
      SingleRows(s, exam, roll, m, o, r, k);
      UpsertHas(s.disk, roll, m, r, k);
    }
  }

  /** When the scan fails: in step exactly if the flag was known already or the photo branch put it into the index. */
  lemma UnscannedSyncedExactly(s: State, exam: int, roll: Roll, m: Modality, o: Outcome)
    requires Seat(exam, roll) in s.db && o.scanFails && Synced(s.index, s.disk, s.db)
    ensures var e := AfterSingle(s, exam, roll, m, o);
            Synced(e.index, e.disk, e.db) <==> Has(s.index, roll, m) || (m == Photo && o.mirrored)
  {
    var e := AfterSingle(s, exam, roll, m, o);
    UpsertHas(s.disk, roll, m, roll, m);
    if Has(s.index, roll, m) || (m == Photo && o.mirrored) {
      forall r, k ensures Has(e.index, r, k) <==> Has(e.disk, r, k) || HasRow(e.db, r, k) {
        SingleRows(s, exam, roll, m, o, r, k);
        UpsertHas(s.disk, roll, m, r, k);
        UpsertHas(s.index, roll, Photo, r, k);
      }
      forall r ensures r in e.index <==> r in e.disk || OnRecord(e.db, r) {
        SameRecord(s, exam, roll, m, o, r);
      }
    }
  }

  lemma SameRecord(s: State, exam: int, roll: Roll, m: Modality, o: Outcome, r: Roll)
    requires Seat(exam, roll) in s.db
    ensures r == roll || (OnRecord(AfterSingle(s, exam, roll, m, o).db, r) <==> OnRecord(s.db, r))
  {
    forall k {
      SingleRows(s, exam, roll, m, o, r, k);
    }
  }

  /** A bulk-uploaded photo disappears from the index when a file is uploaded for another candidate. */
  lemma RefreshForgetsUploads(exam: int, a: Roll, b: Roll)
    requires a != b
    ensures var db := map[Seat(exam, a) := Only(Photo)];
            var disk := Upsert(map[], b, Only(Photo));
            HasRow(db, a, Photo) && !Has(disk, a, Photo) && !Synced(disk, disk, db)
  {}

  // ---------- any sequence of uploads ----------

  datatype Upload =
    | Archive(exam: int, m: Modality, entries: seq<Entry>, flipFails: bool)
    | Single(exam: int, roll: Roll, m: Modality, outcome: Outcome)

  datatype State = State(index: Flags, disk: Flags, db: Candidates)

  function StoredBy(s: State, u: Upload): set<Roll>
    requires u.Archive?
  {
    Stored(FilesOf(u.m, Enrolled(s.db, u.exam), u.entries))
  }

  function After(s: State, u: Upload): State {
    match u
    case Archive(exam, m, _, flipFails) =>
      s.(index := Marked(s.index, StoredBy(s, u), m),
         db := if flipFails then s.db else Flipped(s.db, exam, StoredBy(s, u), m))
    case Single(exam, roll, m, o) => if Seat(exam, roll) in s.db then AfterSingle(s, exam, roll, m, o) else s
  }

  function AfterAll(s: State, us: seq<Upload>): State {
    if us == [] then s else After(AfterAll(s, us[..|us| - 1]), us[|us| - 1])
  }

  lemma {:induction false} StoredAreEnrolled(m: Modality, enrolled: set<Roll>, entries: seq<Entry>)
    ensures Stored(FilesOf(m, enrolled, entries)) <= enrolled
  {
    if entries != [] {
      var front, last := entries[..|entries| - 1], entries[|entries| - 1];
      StoredAreEnrolled(m, enrolled, front);
      if last.dir {
        assert FilesOf(m, enrolled, entries) == FilesOf(m, enrolled, front);
      } else {
        CountSnoc(FilesOf(m, enrolled, front), Judged(m, enrolled, last));
      }
    }
  }

  /**
   The upload makes the index differ from a rebuild: an unrecorded flag after a failed update, or a recorded
   one the scan cannot see.
   */
  ghost predicate Parts(s: State, u: Upload) {
    match u
    case Archive(_, m, _, flipFails) => flipFails && exists r :: r in StoredBy(s, u) && !Has(s.index, r, m)
    case Single(exam, roll, m, o) =>
      Seat(exam, roll) in s.db &&
      if o.scanFails then !(Has(s.index, roll, m) || (m == Photo && o.mirrored))
      else exists r, k :: HasRow(s.db, r, k) && !Has(s.disk, r, k) && !(r == roll && k == m)
  }

  lemma AfterSyncedExactly(s: State, u: Upload)
    requires Synced(s.index, s.disk, s.db)
    ensures var e := After(s, u); Synced(e.index, e.disk, e.db) <==> !Parts(s, u)
  {
    match u
    case Archive(exam, m, entries, flipFails) =>
      StoredAreEnrolled(m, Enrolled(s.db, exam), entries);
      if flipFails { FailedFlipSyncedExactly(s.index, s.disk, s.db, StoredBy(s, u), m); }
      else { UploadStaysSynced(s.index, s.disk, s.db, exam, StoredBy(s, u), m); }
    case Single(exam, roll, m, o) =>
      if Seat(exam, roll) in s.db {
        if o.scanFails {
          UnscannedSyncedExactly(s, exam, roll, m, o);
        } else {
          ScannedSyncedExactly(s, exam, roll, m, o);
        }
      }
  }

  ghost predicate SyncedThroughout(s: State, us: seq<Upload>) {
    var e := AfterAll(s, us);
    Synced(e.index, e.disk, e.db) && (us == [] || SyncedThroughout(s, us[..|us| - 1]))
  }

  ghost predicate NeverParts(s: State, us: seq<Upload>) {
    us == [] || (NeverParts(s, us[..|us| - 1]) && !Parts(AfterAll(s, us[..|us| - 1]), us[|us| - 1]))
  }

  /**
   Over any sequence of archive and single uploads, with whatever failures, the index equals a rebuild
   throughout exactly when no upload parts them.
   */
  lemma {:induction false} SyncedExactlyIfNeverParted(s: State, us: seq<Upload>)
    requires Synced(s.index, s.disk, s.db)
    ensures SyncedThroughout(s, us) <==> NeverParts(s, us)
  {
    if us != [] {
      var front, last := us[..|us| - 1], us[|us| - 1];
      SyncedExactlyIfNeverParted(s, front);
      if SyncedThroughout(s, front) {
        SyncedNow(s, front);
        AfterSyncedExactly(AfterAll(s, front), last);
      }
    }
  }

  lemma SyncedNow(s: State, us: seq<Upload>)
    requires SyncedThroughout(s, us)
    ensures var e := AfterAll(s, us); Synced(e.index, e.disk, e.db)
  {}

  /**
   However many archives are uploaded with committed updates, for whatever exams and modalities, the index
   equals a rebuild and no flag is lost.
   */
  lemma {:induction false} UploadsStaySynced(s: State, us: seq<Upload>)
    requires Synced(s.index, s.disk, s.db) && forall u :: u in us ==> u.Archive? && !u.flipFails
    ensures var e := AfterAll(s, us);
            && e.disk == s.disk && Synced(e.index, e.disk, e.db)
            && forall r, k :: Has(s.index, r, k) ==> Has(e.index, r, k)
  {
    if us != [] {
      var front, u := us[..|us| - 1], us[|us| - 1];
      assert u in us && forall v :: v in front ==> v in us;
      UploadsStaySynced(s, front);
      AfterSyncedExactly(AfterAll(s, front), u);
    }
  }
}
