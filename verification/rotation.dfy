/**
  The subtitle rotation cursor (`currentSubtitle` in src/App.tsx): it starts
  at 0, and every tick of the interval moves it one place on, wrapping round
  at the length of the list the interval was set up with. No interval runs
  for an empty list, so the cursor then stays where it is.
 */
module Rotation {

  /** One tick of the interval: `(prev + 1) % length`. */
  function Step(prev: nat, length: nat): (next: nat)
    requires length > 0
    ensures next < length
    ensures prev < length ==> next == if prev == length - 1 then 0 else prev + 1
  {
    (prev + 1) % length
  }

  /** The cursor after `ticks` ticks from 0 on a list of `length` entries. */
  function CursorAfter(length: nat, ticks: nat): (c: nat)
    requires length > 0
  {
    if ticks == 0 then 0 else Step(CursorAfter(length, ticks - 1), length)
  }

  /** After `k` ticks from 0 the cursor is exactly `k mod length`. */
  lemma {:induction false} CursorAfterIsMod(length: nat, ticks: nat)
    requires length > 0
    ensures CursorAfter(length, ticks) == ticks % length
  {
    if ticks > 0 {
      CursorAfterIsMod(length, ticks - 1);
      ModNext(ticks - 1, length);
    }
  }

  /** Counting one further wraps the remainder round at `n`. */
  lemma ModNext(a: nat, n: nat)
    requires n > 0
    ensures (a + 1) % n == if a % n == n - 1 then 0 else a % n + 1
  {
    var q, r := a / n, a % n;
    assert a == q * n + r;
    if r == n - 1 {
      assert a + 1 == (q + 1) * n;
      ModOfMultiple(a + 1, n, q + 1, 0);
    } else {
      ModOfMultiple(a + 1, n, q, r + 1);
    }
  }

  /** `a % n` is the `r` of any decomposition `a == q * n + r` with `0 <= r < n`. */
  lemma ModOfMultiple(a: nat, n: nat, q: nat, r: nat)
    requires n > 0 && r < n && a == q * n + r
    ensures a % n == r
  {
    var q', r' := a / n, a % n;
    assert a == q' * n + r';
    if q > q' {
      assert (q - q') * n == r' - r;
      MulAtLeast(q - q', n);
    } else if q < q' {
      assert (q' - q) * n == r - r';
      MulAtLeast(q' - q, n);
    }
  }

  lemma {:induction false} MulAtLeast(k: nat, n: nat)
    requires k >= 1
    ensures k * n >= n
  {
    if k > 1 {
      MulAtLeast(k - 1, n);
      assert k * n == (k - 1) * n + n;
    }
  }

  /** The rotation state of the page. */
  class Cursor {
    /** The index of the displayed subtitle. */
    var current: nat
    /** The list length the running interval wraps at; 0 when no interval runs. */
    var period: nat

    /** Cursor stays inside the list the running interval rotates over. */
    ghost predicate InRange()
      reads this
    {
      period > 0 ==> current < period
    }

    /** `useState(0)`: cursor at 0, no interval yet. */
    constructor ()
      ensures current == 0 && period == 0
      ensures InRange()
    {
      current := 0;
      period := 0;
    }

    /**
      The effect that runs whenever the shuffled list changes: the old
      interval is cleared and a new one is set up for a non-empty list.
      The cursor itself is left as it was.
     */
    method Subscribe(length: nat)
      modifies this
      ensures period == length
      ensures current == old(current)
      ensures InRange() <==> length == 0 || current < length
    {
      period := length;
    }

    /** One firing of the interval; nothing happens when none is running. */
    method Tick()
      modifies this
      ensures period == old(period)
      ensures old(period) == 0 ==> current == old(current)
      ensures old(period) > 0 ==> current == Step(old(current), old(period))
      ensures old(period) > 0 ==> InRange()
    {
      if period > 0 {
        current := (current + 1) % period;
      }
    }
  }

  /**
    One mount of the page: the list is empty while the data loads, then
    holds `length` subtitles once it arrives, and the interval fires
    `ticks` times. Returns the cursor the page then shows.
   */
  method MountAndRotate(length: nat, ticks: nat) returns (shown: nat)
    ensures length > 0 ==> shown == ticks % length
    ensures length == 0 ==> shown == 0
  {
    var cursor := new Cursor();
    cursor.Subscribe(0);
    cursor.Subscribe(length);
    var t := 0;
    while t < ticks
      invariant t <= ticks
      invariant cursor.period == length
      invariant length > 0 ==> cursor.current == CursorAfter(length, t)
      invariant length == 0 ==> cursor.current == 0
    {
      cursor.Tick();
      t := t + 1;
    }
    if length > 0 {
      CursorAfterIsMod(length, ticks);
    }
    shown := cursor.current;
  }
}
