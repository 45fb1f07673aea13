/**
 The face guide's frame loop: three counters, updated frame by frame, that decide when the operator has
 blinked. They are proved against a predicate on the history of frames that has no counters in it.
 */
module BlinkDetector {
  import opened Wrappers

  /** What the landmark model reports on one processed frame; `eyes` are the left and right blink scores, if given. */
  datatype Frame = NoFace | Face(height: real, offX: real, offY: real, eyes: Option<(real, real)>)

  predicate Framed(f: Frame) {
    f.Face? && 0.20 <= f.height <= 0.90 && f.offX <= 0.22 && f.offY <= 0.22
  }

  predicate EyesSeen(f: Frame) {
    f.Face? && f.eyes.Some?
  }

  predicate EyesClosed(f: Frame) {
    EyesSeen(f) && (f.eyes.value.0 + f.eyes.value.1) / 2.0 > 0.42
  }

  predicate EyesOpen(f: Frame) {
    EyesSeen(f) && !EyesClosed(f)
  }

  // ---------- the specification: blinks in a history ----------

  /** Frame `j` has closed eyes, and no open-eyed or faceless frame lies between it and frame `k`. */
  predicate ClosedSince(h: seq<Frame>, j: int, k: nat) {
    0 <= j < k <= |h| && EyesClosed(h[j]) && forall m :: j < m < k ==> h[m].Face? && !EyesOpen(h[m])
  }

  function ClosedFrames(h: seq<Frame>, k: nat): set<int> {
    set j | 0 <= j < k && ClosedSince(h, j, k)
  }

  predicate ThreeFramed(h: seq<Frame>, k: nat) {
    2 <= k < |h| && Framed(h[k - 2]) && Framed(h[k - 1]) && Framed(h[k])
  }

  /** At frame `k` a blink completes. */
  predicate BlinkAt(h: seq<Frame>, k: nat) {
    k < |h| && EyesOpen(h[k]) && ThreeFramed(h, k) && 1 <= |ClosedFrames(h, k)| <= 12
  }

  // ---------- how the counters follow the history ----------

  /** The number of framed frames at the end of the history. */
  function FramedRun(h: seq<Frame>): nat {
    if h == [] || !Framed(h[|h| - 1]) then 0 else FramedRun(h[..|h| - 1]) + 1
  }

  lemma FramedRunSnoc(h: seq<Frame>, f: Frame)
    ensures FramedRun(h + [f]) == if Framed(f) then FramedRun(h) + 1 else 0
  {}

  lemma {:induction false} RunBound(h: seq<Frame>)
    ensures FramedRun(h) <= |h|
  {
    if h != [] { RunBound(h[..|h| - 1]); }
  }

  lemma RunOfThree(h: seq<Frame>)
    requires h != []
    ensures FramedRun(h) >= 3 <==> ThreeFramed(h, |h| - 1)
  {
    RunBound(h);
    if |h| >= 3 {
      var g := h[..|h| - 1];
      var e := g[..|g| - 1];
      assert g[|g| - 1] == h[|h| - 2] && e[|e| - 1] == h[|h| - 3];
      assert FramedRun(g) == if Framed(h[|h| - 2]) then FramedRun(e) + 1 else 0;
      assert FramedRun(e) == if Framed(h[|h| - 3]) then FramedRun(e[..|e| - 1]) + 1 else 0;
    }
  }

  lemma EarlierUnchanged(h: seq<Frame>, f: Frame, k: nat)
    requires k <= |h|
    ensures ClosedFrames(h + [f], k) == ClosedFrames(h, k)
    ensures k < |h| ==> (BlinkAt(h + [f], k) <==> BlinkAt(h, k))
  {
    forall j | 0 <= j < k ensures ClosedSince(h + [f], j, k) <==> ClosedSince(h, j, k) {
      assert forall m :: j <= m < k ==> (h + [f])[m] == h[m];
    }
  }

  /** One more frame empties the set, keeps it, or adds itself to it. */
  lemma ClosedFramesSnoc(h: seq<Frame>, f: Frame)
    ensures ClosedFrames(h + [f], |h| + 1)
         == if !f.Face? || EyesOpen(f) then {}
            else if EyesClosed(f) then ClosedFrames(h, |h|) + {|h|}
            else ClosedFrames(h, |h|)
  {
    var g := h + [f];
    forall j | 0 <= j < |h|
      ensures ClosedSince(g, j, |h| + 1) <==> ClosedSince(h, j, |h|) && f.Face? && !EyesOpen(f)
    {
      assert forall m :: 0 <= m < |h| ==> g[m] == h[m];
      assert g[|h|] == f;
    }
    assert ClosedSince(g, |h|, |h| + 1) <==> EyesClosed(f);
  }

  lemma CountSnoc(h: seq<Frame>, f: Frame)
    ensures |ClosedFrames(h + [f], |h| + 1)|
         == if !f.Face? || EyesOpen(f) then 0 else |ClosedFrames(h, |h|)| + if EyesClosed(f) then 1 else 0
  {
    ClosedFramesSnoc(h, f);
    assert |h| !in ClosedFrames(h, |h|);
  }

  predicate NoBlink(h: seq<Frame>) {
    forall k :: 0 <= k < |h| ==> !BlinkAt(h, k)
  }

  lemma NoBlinkSnoc(h: seq<Frame>, f: Frame)
    requires NoBlink(h)
    ensures NoBlink(h + [f]) <==> !BlinkAt(h + [f], |h|)
  {
    forall k | 0 <= k < |h| ensures !BlinkAt(h + [f], k) { EarlierUnchanged(h, f, k); }
  }

  // ---------- the detector ----------

  function Capped(run: nat): nat {
    if run < 20 then run else 20
  }

  /** The counters say of the history what they are meant to. */
  predicate Tracks(h: seq<Frame>, ready: int, armed: bool, closed: int) {
    ready == Capped(FramedRun(h)) && (armed <==> ready >= 3) && closed == |ClosedFrames(h, |h|)|
  }

  /** The firing test, in terms of the counters at that moment. */
  lemma FiresExactly(h: seq<Frame>, f: Frame, ready: int, armed: bool, closed: int)
    requires Tracks(h, ready, armed, closed)
    ensures var ready' := if Framed(f) then Capped(ready + 1) else 0;
            && ready' == Capped(FramedRun(h + [f]))
            && (BlinkAt(h + [f], |h|) <==> EyesOpen(f) && ready' >= 3 && 1 <= closed <= 12)
  {
    FramedRunSnoc(h, f);
    RunOfThree(h + [f]);
    EarlierUnchanged(h, f, |h|);
  }

  class Detector {
    var running: bool
    var ready: int
    var armed: bool
    var closed: int
    /** The frames processed since start. */
    ghost var seen: seq<Frame>

    ghost predicate Valid()
      reads this
    {
      running ==> Tracks(seen, ready, armed, closed) && NoBlink(seen)
    }

    constructor ()
      ensures Valid() && running && seen == []
    {
      running, ready, armed, closed := true, 0, false, 0;
      seen := [];
      new;
      assert ClosedFrames(seen, 0) == {};
    }

    method Stop()
      modifies this
      ensures Valid() && !running && seen == old(seen)
    {
      running := false;
    }

    /** One turn of the loop: it fires exactly when this frame completes a blink, and then stops for good. */
    method Process(f: Frame) returns (fired: bool)
      requires Valid()
      modifies this
      ensures Valid()
      ensures !old(running) ==> !fired && !running && seen == old(seen)
      ensures old(running) ==>
                seen == old(seen) + [f] && (fired <==> BlinkAt(seen, |seen| - 1)) && running == !fired
    {
      if !running { return false; }
      ghost var h := seen;
      seen := seen + [f];
      FiresExactly(h, f, ready, armed, closed);
      CountSnoc(h, f);
      NoBlinkSnoc(h, f);
      if f.NoFace? {
        ready, armed, closed := 0, false, 0;
        return false;
      }
      if 0.20 <= f.height <= 0.90 && f.offX <= 0.22 && f.offY <= 0.22 {
        ready := if ready + 1 < 20 then ready + 1 else 20;
        armed := ready >= 3;
      } else {
        ready, armed := 0, false;
      }
      if f.eyes.Some? {
        if (f.eyes.value.0 + f.eyes.value.1) / 2.0 > 0.42 {
          closed := closed + 1;
        } else {
          if 1 <= closed <= 12 && armed {
            running := false;
            return true;
          }
          closed := 0;
        }
      }
      return false;
    }
  }

  predicate FirstBlink(h: seq<Frame>, k: nat) {
    BlinkAt(h, k) && forall i :: 0 <= i < k ==> !BlinkAt(h, i)
  }

  /**
   A whole start: at most one firing, at the first frame of the stream that completes a blink, and one if
   there is such a frame.
   */
  method Watch(frames: seq<Frame>) returns (fires: nat, at: Option<nat>)
    ensures fires == if at == None then 0 else 1
    ensures at == None ==> forall k :: 0 <= k < |frames| ==> !BlinkAt(frames, k)
    ensures at.Some? ==> FirstBlink(frames, at.value)
  {
    var d := new Detector();
    fires, at := 0, None;
    for i := 0 to |frames|
      invariant fresh(d) && d.Valid()
      invariant d.running <==> at == None
      invariant d.running ==> d.seen == frames[..i]
      invariant fires == if at == None then 0 else 1
      invariant at.Some? ==> FirstBlink(frames, at.value)
    {
      PrefixBlinks(frames, i);
      PrefixBlinks(frames, i + 1);
      assert frames[..i] + [frames[i]] == frames[..i + 1];
      var fired := d.Process(frames[i]);
      if fired { fires, at := fires + 1, Some(i); }
    }
    assert frames[..|frames|] == frames;
  }

  /** What happens at a frame depends on no later frame. */
  lemma PrefixBlinks(h: seq<Frame>, n: nat)
    requires n <= |h|
    ensures forall k :: 0 <= k < n ==> (BlinkAt(h[..n], k) <==> BlinkAt(h, k))
  {
    forall k | 0 <= k < n ensures BlinkAt(h[..n], k) <==> BlinkAt(h, k) {
      forall j | 0 <= j < k ensures ClosedSince(h[..n], j, k) <==> ClosedSince(h, j, k) {
        assert forall m :: j <= m < k ==> h[..n][m] == h[m];
      }
      assert ClosedFrames(h[..n], k) == ClosedFrames(h, k);
    }
  }
}
