/** The stat counter animation (script.js lines 256-276). Every 16 ms the
    running value grows by target / (2000 / 16) = target / 125; while it is
    below the target its floor is shown, and the first tick that reaches the
    target shows `target + '+'` and stops the interval.

    The running value is kept multiplied by Steps, so that after k ticks it is
    the integer k * target: the arithmetic is exact. */
module Counter {
  import opened Common

  const Duration: int := 2000
  const Interval: int := 16
  /** duration / 16, exactly 125 */
  const Steps: int := Duration / Interval

  /** What the `.stat-value` element shows after a tick. */
  datatype Text = Number(n: int) | Done(target: int)

  /** Value shown at tick k while the target is not yet reached: floor(k * target / 125). */
  function Shown(target: int, k: nat): (r: int)
    ensures r * Steps <= k * target < (r + 1) * Steps
  {
    k * target / Steps
  }

  /** For a positive target, tick k reaches it exactly when k >= 125. */
  lemma ReachedAt(target: int, k: nat)
    requires target > 0
    ensures k * target >= Steps * target <==> k >= Steps
  {
  }

  /** For a target <= 0, the first tick already reaches it. */
  lemma ReachedAtOnce(target: int)
    requires target <= 0
    ensures 1 * target >= Steps * target
  {
  }

  /** Shown values never go down from one tick to a later one. */
  lemma ShownMonotone(target: int, k1: nat, k2: nat)
    requires target >= 0 && k1 <= k2
    ensures Shown(target, k1) <= Shown(target, k2)
  {
    var a, b := k1 * target, k2 * target;
    assert b == a + (k2 - k1) * target;
    assert a <= b;
    FloorMonotone(a, b);
  }

  lemma FloorMonotone(a: int, b: int)
    requires a <= b
    ensures a / Steps <= b / Steps
  {
  }

  /** Before tick 125 the shown value is a floor strictly below a positive target. */
  lemma ShownBelowTarget(target: int, k: nat)
    requires target > 0 && k < Steps
    ensures 0 <= Shown(target, k) < target
  {
  }

  /** `animateCounter`: the texts shown, one per tick, until the interval is
      cleared. No text at all when `data-count` does not parse or there is no
      `.stat-value` element. */
  method AnimateCounter(count: Option<int>, hasValueElement: bool) returns (frames: seq<Text>)
    ensures count.None? || !hasValueElement ==> frames == []
    ensures count.Some? && hasValueElement && count.value <= 0 ==> frames == [Done(count.value)]
    ensures count.Some? && hasValueElement && count.value > 0 ==>
      |frames| == Steps && frames[Steps - 1] == Done(count.value) &&
      (forall k :: 1 <= k < Steps ==> frames[k - 1] == Number(Shown(count.value, k)))
    ensures count.Some? && hasValueElement && count.value > 0 ==>
      forall i, j :: 0 <= i <= j < Steps - 1 ==>
        frames[i].Number? && frames[j].Number? && 0 <= frames[i].n <= frames[j].n < count.value
  {
    frames := [];
    if count.None? {
      return;
    }
    if !hasValueElement {
      return;
    }
    var target := count.value;
    var scaled := 0;  // Steps * current
    var ticks := 0;
    var running := true;
    while running
      invariant scaled == ticks * target
      invariant |frames| == ticks
      invariant running ==> ticks == 0 || (target > 0 && ticks < Steps)
      invariant !running ==> ticks >= 1 && frames[ticks - 1] == Done(target)
      invariant !running && target <= 0 ==> ticks == 1
      invariant !running && target > 0 ==> ticks == Steps
      invariant forall k :: 1 <= k <= ticks && (running || k < ticks) ==> frames[k - 1] == Number(Shown(target, k))
      decreases if running then Steps + 1 - ticks else 0
    {
      scaled := scaled + target;
      ticks := ticks + 1;
      if target > 0 {
        ReachedAt(target, ticks);
      } else {
        ReachedAtOnce(target);
      }
      if scaled >= Steps * target {
        frames := frames + [Done(target)];
        running := false;
      } else {
        frames := frames + [Number(scaled / Steps)];
      }
    }
    if target > 0 {
      forall i, j | 0 <= i <= j < Steps - 1
        ensures frames[i].Number? && frames[j].Number? && 0 <= frames[i].n <= frames[j].n < target
      {
        ShownMonotone(target, i + 1, j + 1);
        ShownBelowTarget(target, i + 1);
        ShownBelowTarget(target, j + 1);
      }
    }
  }
}
