/**
 The in-memory sliding-window limiter (`registerLimiter`) that every rate limit of the
 server is an instance of, proved against a plain log of what it admitted and evicted.
 Times are nanoseconds relative to Go's zero time, keys are client addresses or user ids.
 */
module RegisterLimiter {

  datatype Key = Key(text: string)

  /** What happened to the limiter's map: a request let through, or a key thrown out by the soft cap. */
  datatype Event = Admit(key: Key, at: int) | Evict(key: Key, at: int)

  const ZERO_TIME: int := 0

  // ---------- the specification: functions of the log ----------

  /** The stamps admitted for `k` since `k` was last evicted, oldest first. */
  function Live(log: seq<Event>, k: Key): seq<int> {
    if log == [] then []
    else
      var before := Live(log[..|log| - 1], k);
      match log[|log| - 1]
      case Admit(key, at) => if key == k then before + [at] else before
      case Evict(key, _) => if key == k then [] else before
  }

  /** The stamps strictly later than `cutoff`, in order. */
  function After(stamps: seq<int>, cutoff: int): seq<int> {
    if stamps == [] then []
    else
      var rest := After(stamps[..|stamps| - 1], cutoff);
      if stamps[|stamps| - 1] > cutoff then rest + [stamps[|stamps| - 1]] else rest
  }

  /** How many requests of `k` were admitted at a time in (lo, hi]. */
  function AdmitsIn(log: seq<Event>, k: Key, lo: int, hi: int): nat {
    if log == [] then 0
    else
      var e := log[|log| - 1];
      AdmitsIn(log[..|log| - 1], k, lo, hi) + if e.Admit? && e.key == k && lo < e.at <= hi then 1 else 0
  }

  /** How many times `k` was evicted at a time in (lo, hi]. */
  function EvictsIn(log: seq<Event>, k: Key, lo: int, hi: int): nat {
    if log == [] then 0
    else
      var e := log[|log| - 1];
      EvictsIn(log[..|log| - 1], k, lo, hi) + if e.Evict? && e.key == k && lo < e.at <= hi then 1 else 0
  }

  /** The log is in time order and ends no later than `clock`. */
  ghost predicate Chronological(log: seq<Event>, clock: int) {
    log == [] ||
    var last := log[|log| - 1];
    last.at <= clock && Chronological(log[..|log| - 1], last.at)
  }

  /** Every admission found fewer than `max` live stamps in the window that ends at it. */
  ghost predicate Obeys(log: seq<Event>, max: int, window: int) {
    log == [] ||
    var front, last := log[..|log| - 1], log[|log| - 1];
    && Obeys(front, max, window)
    && (last.Admit? ==> |After(Live(front, last.key), last.at - window)| < max)
  }

  /** The latest stamp, starting from Go's zero time, as the prune loop computes it. */
  function Latest(stamps: seq<int>): (t: int)
    ensures t >= ZERO_TIME
    ensures forall i :: 0 <= i < |stamps| ==> stamps[i] <= t
    ensures t == ZERO_TIME || t in stamps
  {
    if stamps == [] then ZERO_TIME
    else
      var t := Latest(stamps[..|stamps| - 1]);
      if stamps[|stamps| - 1] > t then stamps[|stamps| - 1] else t
  }

  // ---------- facts about the specification ----------

  lemma {:induction false} AfterTwice(s: seq<int>, c: int, d: int)
    requires c <= d
    ensures After(After(s, c), d) == After(s, d)
  {
    if s != [] {
      var front, last := s[..|s| - 1], s[|s| - 1];
      AfterTwice(front, c, d);
      if last > c {
        var kept := After(front, c) + [last];
        assert kept[..|kept| - 1] == After(front, c);
      }
    }
  }

  lemma {:induction false} AfterNothing(s: seq<int>, c: int)
    requires forall i :: 0 <= i < |s| ==> s[i] <= c
    ensures After(s, c) == []
  {
    if s != [] { AfterNothing(s[..|s| - 1], c); }
  }

  lemma AfterSnoc(s: seq<int>, t: int, c: int)
    ensures After(s + [t], c) == After(s, c) + if t > c then [t] else []
  {}

  lemma LiveSnoc(log: seq<Event>, e: Event, k: Key)
    ensures Live(log + [e], k) ==
            if e.key != k then Live(log, k) else if e.Admit? then Live(log, k) + [e.at] else []
  {}

  lemma {:induction false} NothingEarly(log: seq<Event>, k: Key, lo: int, hi: int)
    requires Chronological(log, lo)
    ensures AdmitsIn(log, k, lo, hi) == 0
  {
    if log != [] {
      ChronologicalLater(log[..|log| - 1], log[|log| - 1].at, lo);
      NothingEarly(log[..|log| - 1], k, lo, hi);
    }
  }

  lemma ChronologicalLater(log: seq<Event>, c: int, d: int)
    requires Chronological(log, c) && c <= d
    ensures Chronological(log, d)
  {}

  /** Widening the cutoff never loses stamps. */
  lemma {:induction false} AfterMonotone(s: seq<int>, c: int, d: int)
    requires c <= d
    ensures |After(s, d)| <= |After(s, c)|
  {
    if s != [] { AfterMonotone(s[..|s| - 1], c, d); }
  }

  /** `max` once for each of `n` evictions. */
  function Quota(max: nat, n: nat): (q: nat)
    ensures q == max * n
  {
    if n == 0 then 0 else Quota(max, n - 1) + max
  }

  /**
   What the counting argument shows of a log: few live stamps, and every admission live or paid for by an
   eviction.
   */
  ghost predicate Accounted(log: seq<Event>, k: Key, max: nat, window: int, lo: int) {
    var live := |After(Live(log, k), lo)|;
    live <= max && AdmitsIn(log, k, lo, lo + window) <= Quota(max, EvictsIn(log, k, lo, lo + window)) + live
  }

  lemma CountsSnoc(front: seq<Event>, e: Event, k: Key, lo: int, hi: int)
    ensures AdmitsIn(front + [e], k, lo, hi)
         == AdmitsIn(front, k, lo, hi) + if e.Admit? && e.key == k && lo < e.at <= hi then 1 else 0
    ensures EvictsIn(front + [e], k, lo, hi)
         == EvictsIn(front, k, lo, hi) + if e.Evict? && e.key == k && lo < e.at <= hi then 1 else 0
  {
    assert (front + [e])[..|front|] == front;
  }

  lemma AdmitAccounted(front: seq<Event>, e: Event, max: nat, window: int, lo: int)
    requires Accounted(front, e.key, max, window, lo) && e.Admit? && e.at <= lo + window
    requires |After(Live(front, e.key), e.at - window)| < max
    ensures Accounted(front + [e], e.key, max, window, lo)
  {
    CountsSnoc(front, e, e.key, lo, lo + window);
    LiveSnoc(front, e, e.key);
    AfterSnoc(Live(front, e.key), e.at, lo);
    AfterMonotone(Live(front, e.key), e.at - window, lo);
  }

  lemma EvictAccounted(front: seq<Event>, e: Event, max: nat, window: int, lo: int)
    requires Accounted(front, e.key, max, window, lo) && e.Evict? && Chronological(front, e.at) && e.at <= lo + window
    ensures Accounted(front + [e], e.key, max, window, lo)
  {
    CountsSnoc(front, e, e.key, lo, lo + window);
    LiveSnoc(front, e, e.key);
    if e.at <= lo {
      ChronologicalLater(front, e.at, lo);
      NothingEarly(front, e.key, lo, lo + window);
    }
  }

  lemma OtherAccounted(front: seq<Event>, e: Event, k: Key, max: nat, window: int, lo: int)
    requires Accounted(front, k, max, window, lo) && e.key != k
    ensures Accounted(front + [e], k, max, window, lo)
  {
    CountsSnoc(front, e, k, lo, lo + window);
    LiveSnoc(front, e, k);
  }

  /**
   The counting argument: while the log stays at or before the window's end, every admission in the
   window is either still live or was paid for by an eviction in the window.
   */
  lemma {:induction false} LiveOrEvicted(log: seq<Event>, k: Key, max: nat, window: int, lo: int)
    requires Chronological(log, lo + window) && Obeys(log, max, window)
    ensures Accounted(log, k, max, window, lo)
  {
    if log != [] {
      var front, e := log[..|log| - 1], log[|log| - 1];
      assert log == front + [e];
      ChronologicalLater(front, e.at, lo + window);
      LiveOrEvicted(front, k, max, window, lo);
      if e.key != k { OtherAccounted(front, e, k, max, window, lo); }
      else if e.Admit? { AdmitAccounted(front, e, max, window, lo); }
      else { EvictAccounted(front, e, max, window, lo); }
    }
  }

  /**
   Under a monotone clock, the admissions of one key in any window of the configured length
   never exceed max * (1 + evictions of that key in that window).
   */
  lemma {:induction false} WindowBound(log: seq<Event>, k: Key, max: nat, window: int, lo: int, clock: int)
    requires Chronological(log, clock) && Obeys(log, max, window)
    ensures AdmitsIn(log, k, lo, lo + window) <= max * (1 + EvictsIn(log, k, lo, lo + window))
    decreases |log|
  {
    if log == [] {
      assert max * 1 == max;
    } else if log[|log| - 1].at > lo + window {
      WindowBound(log[..|log| - 1], k, max, window, lo, log[|log| - 1].at);
    } else {
      LiveOrEvicted(log, k, max, window, lo);
      var n := EvictsIn(log, k, lo, lo + window);
      assert max * (1 + n) == max + Quota(max, n);
    }
  }

  /** The factor is needed: one eviction inside the window lets a second request through a limit of one. */
  lemma EvictionAdmitsMore()
    ensures var log := [Admit(Key("203.0.113.7"), 1), Evict(Key("203.0.113.7"), 1), Admit(Key("203.0.113.7"), 2)];
            Chronological(log, 2) && Obeys(log, 1, 10) && AdmitsIn(log, Key("203.0.113.7"), 0, 10) == 2
  {
    var a := [Admit(Key("203.0.113.7"), 1)];
    var b := a + [Evict(Key("203.0.113.7"), 1)];
    var c := b + [Admit(Key("203.0.113.7"), 2)];
    assert c[..2] == b && b[..1] == a && a[..0] == [];
    assert Live(b, Key("203.0.113.7")) == [];
    assert AdmitsIn(a, Key("203.0.113.7"), 0, 10) == 1 && AdmitsIn(b, Key("203.0.113.7"), 0, 10) == 1;
    assert a[..|a| - 1] == [] && b[..|b| - 1] == a && c[..|c| - 1] == b;
    assert Obeys(a, 1, 10) && Chronological(a, 1);
    assert Obeys(b, 1, 10) && Chronological(b, 2);
  }

  /** Without evictions in the last window, the live stamps in it are exactly the logged admissions. */
  lemma {:induction false} NoEvictionExact(log: seq<Event>, k: Key, lo: int, now: int)
    requires Chronological(log, now) && EvictsIn(log, k, lo, now) == 0
    ensures |After(Live(log, k), lo)| == AdmitsIn(log, k, lo, now)
  {
    if log != [] {
      var front, e := log[..|log| - 1], log[|log| - 1];
      assert log == front + [e];
      ChronologicalLater(front, e.at, now);
      NoEvictionExact(front, k, lo, now);
      LiveSnoc(front, e, k);
      if e.key == k && e.Admit? {
        AfterSnoc(Live(front, k), e.at, lo);
      } else if e.key == k {
        ChronologicalLater(front, e.at, lo);
        NothingEarly(front, k, lo, now);
      }
    }
  }

  /** The plain-log limiter: the verdict when nothing of `k` was evicted in the last window. */
  lemma PlainLogVerdict(log: seq<Event>, k: Key, max: int, window: int, now: int)
    requires Chronological(log, now) && EvictsIn(log, k, now - window, now) == 0
    ensures |After(Live(log, k), now - window)| < max <==> AdmitsIn(log, k, now - window, now) < max
  {
    NoEvictionExact(log, k, now - window, now);
  }

  // ---------- the limiter ----------

  /** Keeps the stamps later than `cutoff`, writing them over the front of the slice being read. */
  method CompactInPlace(stamps: array<int>, cutoff: int) returns (kept: nat)
    modifies stamps
    ensures kept <= stamps.Length
    ensures stamps[..kept] == After(old(stamps[..]), cutoff)
  {
    kept := 0;
    ghost var was := stamps[..];
    for i := 0 to stamps.Length
      invariant kept <= i
      invariant stamps[i..] == was[i..]
      invariant stamps[..kept] == After(was[..i], cutoff)
    {
      assert was[..i + 1] == was[..i] + [was[i]];
      AfterSnoc(was[..i], was[i], cutoff);
      assert stamps[i] == stamps[i..][0] == was[i];
      if stamps[i] > cutoff {
        stamps[kept] := stamps[i];
        kept := kept + 1;
        assert stamps[..kept] == stamps[..kept - 1] + [was[i]];
      }
      assert stamps[i + 1..] == was[i..][1..];
    }
    assert was[..stamps.Length] == was;
  }

  // ---------- the map against the log ----------

  function StampsOf(hits: map<Key, seq<int>>, k: Key): seq<int> {
    if k in hits then hits[k] else []
  }

  /** The map holds, for every key, exactly the live stamps later than `cutoff` (and perhaps older ones). */
  ghost predicate Agrees(hits: map<Key, seq<int>>, log: seq<Event>, cutoff: int) {
    forall k {:trigger StampsOf(hits, k)} :: After(StampsOf(hits, k), cutoff) == After(Live(log, k), cutoff)
  }

  lemma AgreesLater(hits: map<Key, seq<int>>, log: seq<Event>, c: int, d: int)
    requires Agrees(hits, log, c) && c <= d
    ensures Agrees(hits, log, d)
  {
    forall k ensures After(StampsOf(hits, k), d) == After(Live(log, k), d) {
      AfterTwice(StampsOf(hits, k), c, d);
      AfterTwice(Live(log, k), c, d);
    }
  }

  lemma AgreesCompacted(hits: map<Key, seq<int>>, log: seq<Event>, ip: Key, c: int)
    requires Agrees(hits, log, c)
    ensures Agrees(hits[ip := After(StampsOf(hits, ip), c)], log, c)
  {
    var hits' := hits[ip := After(StampsOf(hits, ip), c)];
    AfterTwice(StampsOf(hits, ip), c, c);
    assert forall k :: k != ip ==> StampsOf(hits', k) == StampsOf(hits, k);
  }

  lemma AgreesAdmitted(hits: map<Key, seq<int>>, log: seq<Event>, ip: Key, c: int, now: int)
    requires Agrees(hits, log, c)
    ensures Agrees(hits[ip := After(StampsOf(hits, ip), c) + [now]], log + [Admit(ip, now)], c)
  {
    var hits', log' := hits[ip := After(StampsOf(hits, ip), c) + [now]], log + [Admit(ip, now)];
    forall k ensures After(StampsOf(hits', k), c) == After(Live(log', k), c) {
      LiveSnoc(log, Admit(ip, now), k);
      assert k != ip ==> StampsOf(hits', k) == StampsOf(hits, k);
      if k == ip {
        AfterTwice(StampsOf(hits, ip), c, c);
        AfterSnoc(After(StampsOf(hits, ip), c), now, c);
        AfterSnoc(Live(log, ip), now, c);
      }
    }
  }

  lemma AgreesEvicted(hits: map<Key, seq<int>>, log: seq<Event>, gone: Key, c: int, now: int)
    requires Agrees(hits, log, c)
    ensures Agrees(hits - {gone}, log + [Evict(gone, now)], c)
  {
    forall k ensures After(StampsOf(hits - {gone}, k), c) == After(Live(log + [Evict(gone, now)], k), c) {
      LiveSnoc(log, Evict(gone, now), k);
      assert k != gone ==> StampsOf(hits - {gone}, k) == StampsOf(hits, k);
    }
  }

  lemma AgreesPruned(hits: map<Key, seq<int>>, hits': map<Key, seq<int>>, log: seq<Event>, c: int)
    requires Agrees(hits, log, c)
    requires forall k :: k in hits' ==> k in hits && hits'[k] == hits[k]
    requires forall k :: k in hits && k !in hits' ==> Latest(hits[k]) < c
    ensures Agrees(hits', log, c)
  {
    forall k ensures After(StampsOf(hits', k), c) == After(Live(log, k), c) {
      assert k !in hits || k in hits' ==> StampsOf(hits', k) == StampsOf(hits, k);
      if k in hits && k !in hits' { AfterNothing(StampsOf(hits, k), c); }
    }
  }

  /** Appending a lawful event keeps the log lawful. */
  lemma LawfulSnoc(log: seq<Event>, e: Event, max: int, window: int)
    requires Chronological(log, e.at) && Obeys(log, max, window)
    requires e.Admit? ==> |After(Live(log, e.key), e.at - window)| < max
    ensures Chronological(log + [e], e.at) && Obeys(log + [e], max, window)
  {}

  /** The limiter's invariant: a lawful log, and a map that agrees with it on every stamp that can still matter. */
  ghost predicate Lawful(hits: map<Key, seq<int>>, log: seq<Event>, clock: int, max: int, window: int) {
    && Chronological(log, clock)
    && Obeys(log, max, window)
    && Agrees(hits, log, clock - window)
  }

  lemma LawfulLater(hits: map<Key, seq<int>>, log: seq<Event>, clock: int, max: int, window: int, now: int, k: Key)
    requires Lawful(hits, log, clock, max, window) && clock <= now
    ensures Lawful(hits, log, now, max, window)
    ensures After(StampsOf(hits, k), now - window) == After(Live(log, k), now - window)
  {
    AgreesLater(hits, log, clock - window, now - window);
    ChronologicalLater(log, clock, now);
  }

  lemma LawfulCompacted(hits: map<Key, seq<int>>, log: seq<Event>, max: int, window: int, ip: Key, now: int)
    requires Lawful(hits, log, now, max, window)
    ensures Lawful(hits[ip := After(StampsOf(hits, ip), now - window)], log, now, max, window)
  {
    AgreesCompacted(hits, log, ip, now - window);
  }

  lemma LawfulAdmitted(hits: map<Key, seq<int>>, log: seq<Event>, max: int, window: int, ip: Key, now: int)
    requires Lawful(hits, log, now, max, window)
    requires |After(StampsOf(hits, ip), now - window)| < max
    ensures Lawful(hits[ip := After(StampsOf(hits, ip), now - window) + [now]],
                   log + [Admit(ip, now)], now, max, window)
  {
    AgreesAdmitted(hits, log, ip, now - window, now);
    LawfulSnoc(log, Admit(ip, now), max, window);
  }

  lemma LawfulEvicted(hits: map<Key, seq<int>>, log: seq<Event>, max: int, window: int, gone: Key, now: int)
    requires Lawful(hits, log, now, max, window)
    ensures Lawful(hits - {gone}, log + [Evict(gone, now)], now, max, window)
  {
    AgreesEvicted(hits, log, gone, now - window, now);
    LawfulSnoc(log, Evict(gone, now), max, window);
  }

  class Limiter {
    const max: int
    const window: int
    const maxKeys: int
    var hits: map<Key, seq<int>>
    ghost var log: seq<Event>
    ghost var clock: int

    ghost predicate Valid()
      reads this
    {
      Lawful(hits, log, clock, max, window)
    }

    constructor (max: int, window: int)
      ensures Valid() && log == [] && hits == map[]
      ensures this.max == max && this.window == window && maxKeys == 100_000
    {
      this.max, this.window, this.maxKeys := max, window, 100_000;
      hits, log, clock := map[], [], 0;
    }

    /** How many keys the map has once `ip` is in it. */
    function KeysWith(ip: Key): nat
      reads this
    {
      |hits| + if ip in hits then 0 else 1
    }

    /** One request: compact the key's stamps, refuse when the window is full, else record it. */
    method Allow(ip: Key, now: int) returns (ok: bool, ghost evicted: seq<Key>)
      requires Valid() && clock <= now
      modifies this
      ensures Valid() && clock == now
      ensures ok <==> |After(Live(old(log), ip), now - window)| < max
      ensures !ok ==> log == old(log)
      ensures ok && old(KeysWith(ip)) <= maxKeys ==> log == old(log) + [Admit(ip, now)]
      ensures ok && old(KeysWith(ip)) > maxKeys ==>
                |evicted| == 1 && log == old(log) + [Admit(ip, now), Evict(evicted[0], now)]
    {
      LawfulLater(hits, log, clock, max, window, now, ip);
      clock := now;
      var kept := Compacted(if ip in hits then hits[ip] else [], now - window);
      ok := |kept| < max;
      if ok {
        evicted := Admitted(ip, kept, now);
      } else {
        evicted := [];
        LawfulCompacted(hits, log, max, window, ip, now);
        hits := hits[ip := kept];
      }
    }

    /** The request is let through: record it, then keep the map within its cap. */
    method Admitted(ip: Key, kept: seq<int>, now: int) returns (ghost evicted: seq<Key>)
      requires Valid() && clock == now && kept == After(StampsOf(hits, ip), now - window) && |kept| < max
      modifies this
      ensures Valid() && clock == now
      ensures old(KeysWith(ip)) <= maxKeys ==> log == old(log) + [Admit(ip, now)]
      ensures old(KeysWith(ip)) > maxKeys ==>
                |evicted| == 1 && log == old(log) + [Admit(ip, now), Evict(evicted[0], now)]
    {
      evicted := [];
      Record(ip, kept, now);
      if |hits| > maxKeys {
        ghost var k := DropSomeKey();
        evicted := [k];
      }
    }

    /** Appends the current time to the compacted slice. */
    method Record(ip: Key, kept: seq<int>, now: int)
      requires Valid() && clock == now && kept == After(StampsOf(hits, ip), now - window) && |kept| < max
      modifies this
      ensures Valid() && clock == now && log == old(log) + [Admit(ip, now)]
      ensures hits == old(hits)[ip := kept + [now]] && |hits| == old(KeysWith(ip))
    {
      LawfulAdmitted(hits, log, max, window, ip, now);
      hits, log := hits[ip := kept + [now]], log + [Admit(ip, now)];
    }

    /** The soft cap: throw out whichever key the map yields first. */
    method DropSomeKey() returns (ghost k: Key)
      requires Valid() && hits != map[]
      modifies this
      ensures Valid() && clock == old(clock)
      ensures k in old(hits) && hits == old(hits) - {k} && log == old(log) + [Evict(k, clock)]
    {
      var key :| key in hits;
      LawfulEvicted(hits, log, max, window, key, clock);
      hits, log := hits - {key}, log + [Evict(key, clock)];
      k := key;
    }

    /** The background sweep drops exactly the keys whose latest stamp is before the window, and no log entry. */
    method PruneExpired(now: int)
      requires Valid() && clock <= now
      modifies this
      ensures Valid() && clock == now && log == old(log)
      ensures Swept(old(hits), hits, now - window)
    {
      var left := Sweep(hits, now - window);
      SweptLawful(hits, left, log, clock, max, window, now);
      hits, clock := left, now;
    }
  }

  /** `left` is `hits` without the keys whose latest stamp is before `cutoff`. */
  ghost predicate Swept(hits: map<Key, seq<int>>, left: map<Key, seq<int>>, cutoff: int) {
    && (forall k :: k in left <==> k in hits && Latest(hits[k]) >= cutoff)
    && (forall k :: k in left ==> left[k] == hits[k])
  }

  lemma SweptLawful(hits: map<Key, seq<int>>, left: map<Key, seq<int>>, log: seq<Event>, clock: int,
                    max: int, window: int, now: int)
    requires Lawful(hits, log, clock, max, window) && clock <= now && Swept(hits, left, now - window)
    ensures Lawful(left, log, now, max, window)
  {
    AgreesLater(hits, log, clock - window, now - window);
    ChronologicalLater(log, clock, now);
    AgreesPruned(hits, left, log, now - window);
  }

  method Sweep(hits: map<Key, seq<int>>, cutoff: int) returns (left: map<Key, seq<int>>)
    ensures Swept(hits, left, cutoff)
  {
    left := hits;
    var todo := hits.Keys;
    while todo != {}
      invariant todo <= left.Keys <= hits.Keys
      invariant forall k :: k in left ==> left[k] == hits[k]
      invariant forall k :: k in hits && k !in todo ==> (k in left <==> Latest(hits[k]) >= cutoff)
    {
      var ip :| ip in todo;
      todo := todo - {ip};
      var latest := LatestStamp(left[ip]);
      if latest < cutoff {
        left := left - {ip};
      }
    }
  }

  /** One compaction of a key's slice. */
  method Compacted(stamps: seq<int>, cutoff: int) returns (kept: seq<int>)
    ensures kept == After(stamps, cutoff)
  {
    var slice := new int[|stamps|](i requires 0 <= i < |stamps| => stamps[i]);
    assert slice[..] == stamps;
    var n := CompactInPlace(slice, cutoff);
    kept := slice[..n];
  }

  /** The inner loop of the sweep. */
  method LatestStamp(stamps: seq<int>) returns (latest: int)
    ensures latest == Latest(stamps)
  {
    latest := ZERO_TIME;
    for i := 0 to |stamps|
      invariant latest == Latest(stamps[..i])
    {
      assert stamps[..i + 1][..i] == stamps[..i];
      if stamps[i] > latest { latest := stamps[i]; }
    }
    assert stamps[..|stamps|] == stamps;
  }
}
