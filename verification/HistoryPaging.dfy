/**
 An operator's verification history, thirty rows a page, newest first. The cursor is the id of the last
 row returned; a thirty-first row fetched and dropped tells whether there is another page.
 */
module HistoryPaging {
  import opened Wrappers

  const PAGE_SIZE := 30

  datatype Verdict = Verified | Denied | Other

  datatype Row = Row(operator: int, verdict: Verdict)

  /** verifications, by id. */
  type Table = map<int, Row>

  function Mine(t: Table, operator: int): set<int> {
    set id | id in t && t[id].operator == operator && t[id].verdict in {Verified, Denied}
  }

  /** The operator's own row, with a verdict. */
  predicate Shown(r: Row, operator: int) {
    r.operator == operator && r.verdict != Other
  }

  /** `AND v.id < before`; a cursor that is absent or not positive asks for the first page. */
  function Below(ids: set<int>, before: int): set<int> {
    if before > 0 then set id | id in ids && id < before else ids
  }

  // ---------- newest first ----------

  predicate IsMax(ids: set<int>, m: int) {
    m in ids && forall x :: x in ids ==> x <= m
  }

  lemma Member(ids: set<int>) returns (x: int)
    requires ids != {}
    ensures x in ids
  {
    if forall y :: y !in ids { assert false; }
    x :| x in ids;
  }

  lemma {:induction false} MaxExists(ids: set<int>)
    requires ids != {}
    ensures exists m :: IsMax(ids, m)
    decreases |ids|
  {
    var x := Member(ids);
    var rest := ids - {x};
    if rest == {} {
      assert forall y :: y in ids ==> y == x || y in rest;
      assert IsMax(ids, x);
    } else {
      MaxExists(rest);
      var m: int :| IsMax(rest, m);
      assert forall y :: y in ids ==> y == x || y in rest;
      assert IsMax(ids, if x < m then m else x);
    }
  }

  predicate Descending(s: seq<int>) {
    forall i, j :: 0 <= i < j < |s| ==> s[i] > s[j]
  }

  /** `s` is the set in descending order. */
  ghost predicate Sorts(s: seq<int>, ids: set<int>) {
    Descending(s) && forall x :: x in s <==> x in ids
  }

  lemma {:induction false} SortsLength(s: seq<int>, ids: set<int>)
    requires Sorts(s, ids)
    ensures |s| == |ids|
  {
    if s == [] {
      assert forall x :: x in ids ==> x in s;
      assert ids == {};
    } else {
      assert s[0] in s;
      forall x ensures x in s[1..] <==> x in ids - {s[0]} {
        if x in s[1..] {
          var i :| 0 <= i < |s[1..]| && s[1..][i] == x;
          assert s[i + 1] == x && s[0] > s[i + 1];
          assert x in s;
        }
        if x in ids - {s[0]} { assert x in s; }
      }
      SortsLength(s[1..], ids - {s[0]});
    }
  }

  /** The first `k` of a sorted list are the largest; the rest sort what lies below the last of them. */
  lemma SplitSorted(s: seq<int>, ids: set<int>, k: nat)
    requires Sorts(s, ids) && 0 < k <= |s| && 0 < s[k - 1]
    ensures Sorts(s[k..], Below(ids, s[k - 1]))
  {}

  // ---------- one page ----------

  datatype Page = Page(items: seq<int>, next: Option<int>)

  /** What one request must answer: the next thirty, and a cursor exactly when more remain. */
  ghost predicate IsPage(p: Page, ids: set<int>, before: int) {
    exists s :: Sorts(s, Below(ids, before)) && p == PageOf(s)
  }

  function PageOf(s: seq<int>): Page {
    if |s| > PAGE_SIZE then Page(s[..PAGE_SIZE], Some(s[PAGE_SIZE - 1])) else Page(s, None)
  }

  /** A page lists only rows that are there, and any it leaves out lies below its cursor. */
  lemma PageCovers(s: seq<int>, ids: set<int>)
    requires Sorts(s, ids)
    ensures forall id :: id in PageOf(s).items ==> id in ids
    ensures forall id :: id in ids ==> id in PageOf(s).items || (PageOf(s).next.Some? && id < PageOf(s).next.value)
  {
    forall id | id in PageOf(s).items ensures id in ids { assert id in s; }
    forall id | id in ids ensures id in PageOf(s).items || (PageOf(s).next.Some? && id < PageOf(s).next.value) {
      assert id in s;
      var i :| 0 <= i < |s| && s[i] == id;
    }
  }

  function Limited(s: seq<int>, n: nat): seq<int> {
    if |s| <= n then s else s[..n]
  }

  /** The selection so far: `all` lists what has left `left`, newest first, and the rest is older. */
  ghost predicate Selecting(ids: set<int>, left: set<int>, all: seq<int>) {
    left <= ids && Sorts(all, ids - left) && forall x, y :: x in all && y in left ==> x > y
  }

  lemma SelectMore(ids: set<int>, left: set<int>, all: seq<int>, m: int)
    requires Selecting(ids, left, all) && IsMax(left, m)
    ensures Selecting(ids, left - {m}, all + [m])
  {
    assert forall i :: 0 <= i < |all| ==> all[i] in all;
    assert forall x :: x in all + [m] <==> x in all || x == m;
  }

  /** ORDER BY id DESC LIMIT n. */
  method SelectNewest(ids: set<int>, n: nat) returns (s: seq<int>)
    ensures exists all :: Sorts(all, ids) && s == Limited(all, n)
  {
    var left := ids;
    s := [];
    ghost var all: seq<int> := [];
    while left != {}
      invariant Selecting(ids, left, all) && s == Limited(all, n)
      decreases |left|
    {
      MaxExists(left);
      var m :| m in left && IsMax(left, m);
      SelectMore(ids, left, all, m);
      all := all + [m];
      if |s| < n { s := s + [m]; }
      left := left - {m};
    }
  }

  /** listMyVerifications: fetch one row too many, then trim it and set the cursor. */
  method ListMyVerifications(t: Table, operator: int, before: int) returns (p: Page)
    ensures IsPage(p, Mine(t, operator), before)
    ensures |p.items| <= PAGE_SIZE
    ensures p.next.Some? <==> |Below(Mine(t, operator), before)| > PAGE_SIZE
    ensures forall id :: id in p.items ==> id in t && Shown(t[id], operator) && (before > 0 ==> id < before)
    ensures forall id :: id in t && Shown(t[id], operator) && (before > 0 ==> id < before) ==>
              id in p.items || (p.next.Some? && id < p.next.value)
  {
    var ids := Below(Mine(t, operator), before);
    var items := SelectNewest(ids, PAGE_SIZE + 1);
    ghost var all: seq<int> :| Sorts(all, ids) && items == Limited(all, PAGE_SIZE + 1);
    SortsLength(all, ids);
    var next := None;
    if |items| > PAGE_SIZE {
      items := items[..PAGE_SIZE];
      next := Some(items[|items| - 1]);
    }
    p := Page(items, next);
    assert p == PageOf(all);
    PageCovers(all, ids);
  }

  // ---------- following the cursor ----------

  /** Pages fetched one after another, each from the table as it was at that moment. */
  ghost predicate Walk(pages: seq<Page>, tables: seq<set<int>>, before: int)
    decreases |pages|
  {
    && |pages| == |tables|
    && (pages != [] ==>
          && IsPage(pages[0], tables[0], before)
          && if pages[0].next == None then |pages| == 1 else Walk(pages[1..], tables[1..], pages[0].next.value))
  }

  function Items(pages: seq<Page>): seq<int> {
    if pages == [] then [] else pages[0].items + Items(pages[1..])
  }

  /** Only newer rows have come since `base`. */
  predicate Newer(base: set<int>, t: set<int>) {
    base <= t && forall x, y :: x in t - base && y in base ==> x > y
  }

  ghost predicate Agree(base: set<int>, tables: seq<set<int>>, before: int) {
    forall i :: 0 <= i < |tables| ==> Below(tables[i], before) == Below(base, before)
  }

  lemma SortsUnique(s: seq<int>, r: seq<int>, ids: set<int>)
    requires Sorts(s, ids) && Sorts(r, ids)
    ensures s == r
    decreases |s|
  {
    SortsLength(s, ids);
    SortsLength(r, ids);
    if s != [] {
      assert s[0] in s && r[0] in r;
      assert s[0] in r && r[0] in s;
      TailSorts(s, ids);
      TailSorts(r, ids);
      assert s[0] == r[0] by {
        var i :| 0 <= i < |r| && r[i] == s[0];
        var j :| 0 <= j < |s| && s[j] == r[0];
      }
      SortsUnique(s[1..], r[1..], ids - {s[0]});
    }
  }

  lemma TailSorts(s: seq<int>, ids: set<int>)
    requires Sorts(s, ids) && s != []
    ensures Sorts(s[1..], ids - {s[0]})
  {}

  lemma CursorAgrees(base: set<int>, tables: seq<set<int>>, before: int, c: int)
    requires Agree(base, tables, before) && 0 < c && (before <= 0 || c < before)
    ensures Agree(base, tables, c)
  {
    forall i | 0 <= i < |tables| ensures Below(tables[i], c) == Below(base, c) {
      BelowLower(tables[i], before, c);
      BelowLower(base, before, c);
    }
  }

  lemma BelowLower(ids: set<int>, before: int, c: int)
    requires 0 < c && (before <= 0 || c < before)
    ensures Below(ids, c) == Below(Below(ids, before), c)
  {}

  lemma FirstPage(p: Page, t: set<int>, before: int, s: seq<int>)
    requires IsPage(p, t, before) && Sorts(s, Below(t, before))
    ensures p == PageOf(s)
  {
    var first: seq<int> :| Sorts(first, Below(t, before)) && p == PageOf(first);
    SortsUnique(first, s, Below(t, before));
  }

  /** What the walk after the first page is about: the rest of the list. */
  lemma RestOfList(s: seq<int>, base: set<int>, before: int)
    requires Sorts(s, Below(base, before)) && |s| > PAGE_SIZE && forall x :: x in base ==> 0 < x
    ensures var c := s[PAGE_SIZE - 1];
            0 < c && (before <= 0 || c < before) && Sorts(s[PAGE_SIZE..], Below(base, c))
  {
    var c := s[PAGE_SIZE - 1];
    assert c in s;
    SplitSorted(s, Below(base, before), PAGE_SIZE);
    BelowLower(base, before, c);
  }

  /** The pages so far are the start of the list, and they end exactly when they are all of it. */
  predicate Covers(pages: seq<Page>, s: seq<int>) {
    && Items(pages) <= s
    && (pages != [] ==>
          && (pages[|pages| - 1].next == None <==> |s| <= PAGE_SIZE * |pages|)
          && (pages[|pages| - 1].next == None ==> Items(pages) == s))
  }

  lemma CoversMore(pages: seq<Page>, s: seq<int>)
    requires pages != [] && pages[0] == PageOf(s)
    requires if |s| <= PAGE_SIZE then |pages| == 1 else Covers(pages[1..], s[PAGE_SIZE..])
    ensures Covers(pages, s)
  {}

  /** From any cursor, over tables that agree below it with `base`. */
  lemma {:induction false} WalkLists(pages: seq<Page>, tables: seq<set<int>>, before: int, base: set<int>, s: seq<int>)
    requires Walk(pages, tables, before) && Agree(base, tables, before)
    requires Sorts(s, Below(base, before)) && forall x :: x in base ==> 0 < x
    ensures Covers(pages, s)
    decreases |pages|
  {
    if pages != [] {
      FirstPage(pages[0], tables[0], before, s);
      if |s| > PAGE_SIZE {
        RestOfList(s, base, before);
        assert forall i :: 0 <= i < |tables[1..]| ==> tables[1..][i] == tables[i + 1];
        CursorAgrees(base, tables[1..], before, s[PAGE_SIZE - 1]);
        WalkLists(pages[1..], tables[1..], s[PAGE_SIZE - 1], base, s[PAGE_SIZE..]);
      }
      CoversMore(pages, s);
    }
  }

  /** The tables each later request sees hold the rows of the first one, and newer rows. */
  ghost predicate OnlyNewer(tables: seq<set<int>>) {
    forall i :: 0 <= i < |tables| ==> Newer(tables[0], tables[i])
  }

  /**
   From page one, with newer rows arriving between fetches: the walk ends after one page per thirty rows
   (at least one), and it has then listed exactly the rows present at the start, newest first, each once.
   */
  lemma WalkFromTheTop(pages: seq<Page>, tables: seq<set<int>>)
    requires pages != [] && Walk(pages, tables, 0) && OnlyNewer(tables) && forall x :: x in tables[0] ==> 0 < x
    ensures pages[|pages| - 1].next == None <==> |tables[0]| <= PAGE_SIZE * |pages|
    ensures pages[|pages| - 1].next == None ==> Sorts(Items(pages), tables[0]) && |Items(pages)| == |tables[0]|
  {
    var base := tables[0];
    var s: seq<int> :| Sorts(s, Below(base, 0)) && pages[0] == PageOf(s);
    SortsLength(s, base);
    if |s| > PAGE_SIZE {
      RestOfList(s, base, 0);
      NewerAgrees(tables, s[PAGE_SIZE - 1]);
      WalkLists(pages[1..], tables[1..], s[PAGE_SIZE - 1], base, s[PAGE_SIZE..]);
    }
    CoversMore(pages, s);
  }

  lemma NewerAgrees(tables: seq<set<int>>, c: int)
    requires tables != [] && OnlyNewer(tables) && c in tables[0] && 0 < c
    ensures Agree(tables[0], tables[1..], c)
  {
    forall i | 0 <= i < |tables[1..]| ensures Below(tables[1..][i], c) == Below(tables[0], c) {
      assert tables[1..][i] == tables[i + 1] && Newer(tables[0], tables[i + 1]);
      forall x ensures x in Below(tables[i + 1], c) <==> x in Below(tables[0], c) {
        if x in tables[i + 1] && x !in tables[0] { assert x in tables[i + 1] - tables[0]; }
      }
    }
  }
}
