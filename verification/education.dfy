/** The education timeline of src/components/Education.tsx: on every scroll
    the handler measures the container, turns the window centre's position in
    it into a progress in [0, 1], and picks the active milestone; milestones up
    to the active one are lit, and even-numbered ones sit on the left. The
    container's bounding box and the window height arrive with the event. */
module Education {
  import opened Options
  import opened Seqs

  /** The timeline has three milestones. */
  const MilestoneCount: nat := 3

  datatype Rect = Rect(top: real, height: real)

  /** `Math.max(0, Math.min(1, x))`. */
  function Clamp01(x: real): (r: real)
    ensures 0.0 <= r <= 1.0
    ensures 0.0 <= x <= 1.0 ==> r == x
    ensures x < 0.0 ==> r == 0.0
    ensures x > 1.0 ==> r == 1.0
  {
    if x < 0.0 then 0.0 else if x > 1.0 then 1.0 else x
  }

  /** How far the window centre has moved through the container. */
  function Progress(innerHeight: real, container: Rect): (r: real)
    requires container.height > 0.0
    ensures 0.0 <= r <= 1.0
  {
    Clamp01((innerHeight / 2.0 - container.top) / container.height)
  }

  /** `Math.min(Math.floor(progress * n), n - 1)`. */
  function IndexFor(progress: real, n: nat): int
  {
    Min((progress * n as real).Floor, n - 1)
  }

  /** With at least one milestone the index lies in [0, n - 1]; a full progress
      gives the last milestone, not one past it. */
  lemma IndexInRange(progress: real, n: nat)
    requires 0.0 <= progress <= 1.0 && n >= 1
    ensures 0 <= IndexFor(progress, n) <= n - 1
    ensures progress == 1.0 ==> IndexFor(progress, n) == n - 1
  {
    MulNonNegative(progress, n as real);
  }

  lemma MulNonNegative(x: real, y: real)
    requires 0.0 <= x && 0.0 <= y
    ensures 0.0 <= x * y
  {
  }

  lemma FloorMonotone(x: real, y: real)
    requires x <= y
    ensures x.Floor <= y.Floor
  {
  }

  /** The index never decreases as progress grows. */
  lemma IndexMonotone(p: real, q: real, n: nat)
    requires p <= q
    ensures IndexFor(p, n) <= IndexFor(q, n)
  {
    assert p * n as real <= q * n as real;
    FloorMonotone(p * n as real, q * n as real);
  }

  /** Milestone i (below n) is reached exactly when progress is at least i / n. */
  lemma ReachedIff(progress: real, n: nat, i: nat)
    requires i < n
    ensures IndexFor(progress, n) >= i <==> progress * n as real >= i as real
  {
  }

  datatype TimelineState = TimelineState(activeIndex: int)

  function Init(): TimelineState
  {
    TimelineState(0)
  }

  /** The scroll handler: without a mounted container nothing changes. */
  function OnScroll(t: TimelineState, container: Option<Rect>, innerHeight: real): (r: TimelineState)
    requires container.Some? ==> container.value.height > 0.0
    ensures container.None? ==> r == t
    ensures container.Some? ==> 0 <= r.activeIndex < MilestoneCount
  {
    match container
    case None => t
    case Some(rect) =>
      var p := Progress(innerHeight, rect);
      IndexInRange(p, MilestoneCount);
      TimelineState(IndexFor(p, MilestoneCount))
  }

  /** What each milestone shows. */
  datatype MilestoneView = MilestoneView(isActive: bool, isLeft: bool)

  function Views(activeIndex: int, n: nat): (r: seq<MilestoneView>)
    ensures |r| == n
    ensures forall i :: 0 <= i < n ==> (r[i].isActive <==> activeIndex >= i) && (r[i].isLeft <==> i % 2 == 0)
  {
    seq(n, i requires 0 <= i < n => MilestoneView(activeIndex >= i, i % 2 == 0))
  }

  /** The lit milestones form a prefix, and with a measured container exactly
      the first activeIndex + 1 are lit; left and right alternate. */
  lemma ActiveIsPrefix(activeIndex: int, n: nat)
    ensures var v := Views(activeIndex, n);
      && (forall i, j :: 0 <= i <= j < n && v[j].isActive ==> v[i].isActive)
      && (forall i :: 0 <= i && i + 1 < n ==> v[i].isLeft != v[i + 1].isLeft)
      && (0 <= activeIndex < n ==> |Filter(v, (m: MilestoneView) => m.isActive)| == activeIndex + 1)
  {
    var v := Views(activeIndex, n);
    if 0 <= activeIndex < n {
      CountLit(v, activeIndex);
    }
  }

  /** Counting the lit views of a list whose lit entries are exactly the
      first k + 1. */
  lemma {:induction false} CountLit(v: seq<MilestoneView>, k: int)
    requires -1 <= k < |v|
    requires forall i :: 0 <= i < |v| ==> (v[i].isActive <==> i <= k)
    ensures |Filter(v, (m: MilestoneView) => m.isActive)| == k + 1
    decreases |v|
  {
    if |v| > 0 {
      var rest := v[1..];
      CountLit(rest, if k >= 0 then k - 1 else -1);
    }
  }
}
