/** The schedule by which the miner re-fetches recent documents.
  *
  * A notifier thread wakes up once per period and, on the a-th wake-up of a
  * pass of 1024, asks for the last `a & -a` periods to be fetched again.
  */
module RefreshSchedule {
  import opened Arithmetic

  const TIME_PERIOD: nat := 10 * 60
  const MAX_BIT: nat := 1024

  /** Bitwise "and" of two's complement integers of unbounded width. */
  function BitAnd(a: int, b: int): int
    decreases if a < 0 then -a else a
  {
    if a == 0 then 0
    else if a == -1 then b
    else (a % 2) * (b % 2) + 2 * BitAnd(a / 2, b / 2)
  }

  /** The window, in periods, that the a-th wake-up of a pass asks for. */
  function Window(a: int): int {
    BitAnd(a, -a)
  }

  /** The value `a` counts through at wake-up number t, over endless passes of n wake-ups. */
  function Counter(n: nat, t: nat): nat
    requires n > 0
  {
    t % n + 1
  }

  /** On odd numbers the window is one period, and doubling the counter doubles it. */
  lemma {:induction false} WindowStep(a: int)
    requires a > 0
    ensures a % 2 == 1 ==> Window(a) == 1
    ensures Window(2 * a) == 2 * Window(a)
  {
    if a % 2 == 1 {
      assert a / 2 == (a - 1) / 2 && (-a) / 2 == -(a / 2) - 1 && (-a) % 2 == 1;
      AndComplement(a / 2);
    }
    assert (2 * a) / 2 == a && (-(2 * a)) / 2 == -a;
  }

  lemma {:induction false} AndComplement(x: int)
    ensures BitAnd(x, -x - 1) == 0
    decreases if x < 0 then -x else x
  {
    if x != 0 && x != -1 {
      assert (-x - 1) / 2 == -(x / 2) - 1;
      assert (x % 2) * ((-x - 1) % 2) == 0;
      AndComplement(x / 2);
    }
  }

  /** `a & -a` is the largest power of two that divides a. */
  lemma {:induction false} WindowIsLargestPowerDividing(a: nat, k: nat)
    requires a > 0
    ensures 1 <= Window(a) <= a
    ensures Window(a) >= Pow2(k) <==> a % Pow2(k) == 0
    decreases a
  {
    if a % 2 == 1 {
      WindowStep(a);
      if k > 0 {
        OddModEven(a, Pow2(k - 1));
      }
    } else {
      var h := a / 2;
      WindowStep(h);
      assert a == 2 * h;
      if k == 0 {
        WindowIsLargestPowerDividing(h, 0);
      } else {
        WindowIsLargestPowerDividing(h, k - 1);
        DoubleMod(h, Pow2(k - 1));
      }
    }
  }

  lemma OddModEven(a: nat, m: nat)
    requires a % 2 == 1 && m > 0
    ensures a % (2 * m) != 0
  {
    var q := a / (2 * m);
    assert a == (2 * m) * q + a % (2 * m);
    assert (2 * m) * q == 2 * (m * q);
  }

  lemma DoubleMod(h: nat, m: nat)
    requires m > 0
    ensures (2 * h) % (2 * m) == 2 * (h % m)
  {
    var q, r := h / m, h % m;
    assert 2 * h == (2 * m) * q + 2 * r;
    ModUnique(2 * h, 2 * m, q, 2 * r);
  }

  lemma {:induction false} Pow2Divides(k: nat, n: nat)
    requires k <= n
    ensures Pow2(n) == Pow2(k) * Pow2(n - k)
  {
    if k < n {
      Pow2Divides(k, n - 1);
    }
  }

  lemma CounterMod(n: nat, p: nat, w: nat, t: nat)
    requires n > 0 && p > 0 && n == p * w
    ensures Counter(n, t) % p == (t + 1) % p
  {
    var c, a := t / n, t % n + 1;
    assert t + 1 == n * c + a;
    assert n * c == p * (w * c);
    ModOfSum(p, w * c, a);
  }

  /** Wrapping the counter does not disturb which wake-ups have a wide window:
    * those whose number plus one is a multiple of the width. */
  lemma WideWindowExactly(n: nat, k: nat, t: nat)
    requires k <= n
    ensures Window(Counter(Pow2(n), t)) >= Pow2(k) <==> EndsBlock(Pow2(k), t)
  {
    Pow2Divides(k, n);
    CounterMod(Pow2(n), Pow2(k), Pow2(n - k), t);
    WindowIsLargestPowerDividing(Counter(Pow2(n), t), k);
  }

  predicate EndsBlock(p: nat, t: nat)
    requires p > 0
  {
    (t + 1) % p == 0
  }

  /** Exactly one of p consecutive numbers is a multiple of p. */
  lemma OneMultiple(p: nat, start: nat) returns (t: nat)
    requires p > 0
    ensures start <= t < start + p && EndsBlock(p, t)
    ensures forall u: nat :: start <= u < start + p && EndsBlock(p, u) ==> u == t
  {
    var q := start / p;
    assert p * (q + 1) == p * q + p;
    assert p * q <= start < p * q + p;
    t := p * q + p - 1;
    ModUnique(t + 1, p, q + 1, 0);
    forall u: nat | start <= u < start + p && EndsBlock(p, u)
      ensures u == t
    {
      SameMultiple(p, u + 1, t + 1);
    }
  }

  lemma SameMultiple(p: nat, x: nat, y: nat)
    requires p > 0 && x % p == 0 && y % p == 0 && x < y + p && y < x + p
    ensures x == y
  {
    var v, w := x / p, y / p;
    assert x == p * v && y == p * w;
    assert p * (v - w) == p * v - p * w;
    MultipleAtLeast(p, v - w);
  }

  /** Among any 2^k consecutive wake-ups, across the wrap too, exactly one has a
    * window of at least 2^k periods. */
  lemma ExactlyOneWideWindow(n: nat, k: nat, start: nat) returns (t: nat)
    requires k <= n
    ensures start <= t < start + Pow2(k) && Window(Counter(Pow2(n), t)) >= Pow2(k)
    ensures forall u: nat :: start <= u < start + Pow2(k) && Window(Counter(Pow2(n), u)) >= Pow2(k) ==> u == t
  {
    t := OneMultiple(Pow2(k), start);
    WideWindowExactly(n, k, t);
    forall u: nat | start <= u < start + Pow2(k) && Window(Counter(Pow2(n), u)) >= Pow2(k)
      ensures u == t
    {
      WideWindowExactly(n, k, u);
    }
  }

  /** Periods requested by the wake-ups lo, ..., hi - 1 of a pass. */
  function Requested(lo: nat, hi: nat): int
    requires 1 <= lo <= hi
    decreases hi - lo
  {
    if lo == hi then 0 else Window(lo) + Requested(lo + 1, hi)
  }

  lemma {:induction false} RequestedSplit(lo: nat, mid: nat, hi: nat)
    requires 1 <= lo <= mid <= hi
    ensures Requested(lo, hi) == Requested(lo, mid) + Requested(mid, hi)
    decreases mid - lo
  {
    if lo < mid {
      RequestedSplit(lo + 1, mid, hi);
    }
  }

  /** Up to an even counter, half of the requests are for one period and the
    * other half are twice the requests of the first half of the pass. */
  lemma {:induction false} RequestedHalves(m: nat)
    ensures Requested(1, 2 * m + 1) == m + 2 * Requested(1, m + 1)
  {
    if m > 0 {
      RequestedHalves(m - 1);
      RequestedSplit(1, 2 * m - 1, 2 * m + 1);
      RequestedSplit(1, m, m + 1);
      var odd := 2 * m - 1;
      WindowStep(odd);
      WindowStep(m);
      assert Requested(odd, 2 * m + 1) == Window(odd) + Window(2 * m) + Requested(2 * m + 1, 2 * m + 1);
      assert Requested(m, m + 1) == Window(m) + Requested(m + 1, m + 1);
    }
  }

  /** One pass of 2^n wake-ups requests 2^(n-1) * (n + 2) periods. */
  lemma {:induction false} PassCost(n: nat)
    ensures 2 * Requested(1, Pow2(n) + 1) == Pow2(n) * (n + 2)
  {
    if n == 0 {
      WindowStep(1);
      assert Requested(1, 2) == Window(1) + Requested(2, 2);
    } else {
      PassCost(n - 1);
      RequestedHalves(Pow2(n - 1));
    }
  }

  /** A pass of the running program: 1024 wake-ups that ask for 6144 periods in all. */
  lemma PassOfTheNotifier()
    ensures MAX_BIT == Pow2(10)
    ensures Requested(1, MAX_BIT + 1) == 6144
  {
    assert Pow2(10) == 1024 by {
      assert Pow2(2) == 4 && Pow2(4) == 16 && Pow2(6) == 64 && Pow2(8) == 256;
    }
    PassCost(10);
  }

  /** What the callback has been asked for after the first `ticks` wake-ups. */
  function Schedule(ticks: nat): (s: seq<int>)
    ensures |s| == ticks
  {
    seq(ticks, t requires 0 <= t => TIME_PERIOD * Window(Counter(MAX_BIT, t)))
  }

  lemma {:induction false} WindowIsPower(a: nat) returns (e: nat)
    requires a > 0
    ensures Window(a) == Pow2(e)
    decreases a
  {
    if a % 2 == 1 {
      WindowStep(a);
      e := 0;
    } else {
      WindowStep(a / 2);
      var h := WindowIsPower(a / 2);
      assert a == 2 * (a / 2);
      e := h + 1;
    }
  }

  /** That many seconds are a power of two of periods. */
  ghost predicate PowerOfPeriods(seconds: int) {
    exists e: nat :: seconds == TIME_PERIOD * Pow2(e)
  }

  function Total(s: seq<int>): int {
    if s == [] then 0 else s[0] + Total(s[1..])
  }

  /** Sum of 1024 elements in a row. */
  function TotalFrom(s: seq<int>, i: nat): int
    requires i + MAX_BIT <= |s|
  {
    Total(s[i..i + MAX_BIT])
  }

  lemma {:induction false} TotalSnoc(s: seq<int>, x: int)
    ensures Total(s + [x]) == Total(s) + x
    decreases |s|
  {
    if s == [] {
      assert s + [x] == [x] && [x][1..] == [];
    } else {
      assert (s + [x])[1..] == s[1..] + [x];
      TotalSnoc(s[1..], x);
    }
  }

  /** Moving a slice on by one drops its first element and takes in the next one. */
  lemma TotalMoves(s: seq<int>, i: nat, n: nat)
    requires i + n < |s| && n > 0
    ensures Total(s[i + 1..i + 1 + n]) == Total(s[i..i + n]) - s[i] + s[i + n]
  {
    assert s[i..i + n][1..] == s[i + 1..i + n];
    assert s[i + 1..i + 1 + n] == s[i + 1..i + n] + [s[i + n]];
    TotalSnoc(s[i + 1..i + n], s[i + n]);
  }

  lemma RequestedSnoc(n: nat)
    requires n > 0
    ensures Requested(1, n + 1) == Requested(1, n) + Window(n)
  {
    hide Window;
    RequestedSplit(1, n, n + 1);
    assert Requested(n, n + 1) == Window(n) + Requested(n + 1, n + 1);
  }

  lemma AskedInPass(asked: seq<int>, n: nat)
    requires 0 < n <= |asked| && n <= MAX_BIT && asked == Schedule(|asked|)
    ensures asked[n - 1] == TIME_PERIOD * Window(n)
  {
    hide Window;
    assert Counter(MAX_BIT, n - 1) == n;
  }

  lemma NothingAsked(s: seq<int>)
    requires s == []
    ensures Total(s) == 0 && Requested(1, 1) == 0
  {
  }

  /** The first n requests of a pass add up to their windows. */
  lemma {:induction false} TotalOfPass(asked: seq<int>, n: nat)
    requires n <= |asked| && n <= MAX_BIT && asked == Schedule(|asked|)
    ensures Total(asked[..n]) == TIME_PERIOD * Requested(1, n + 1)
    decreases n
  {
    hide Window, Requested, Schedule, Total;
    if n == 0 {
      NothingAsked(asked[..n]);
    } else {
      TotalOfPass(asked, n - 1);
      AskedInPass(asked, n);
      RequestedSnoc(n);
      assert asked[..n] == asked[..n - 1] + [asked[n - 1]];
      TotalSnoc(asked[..n - 1], asked[n - 1]);
    }
  }

  /** Any 1024 requests in a row add up to 6144 periods: the schedule repeats itself. */
  lemma {:induction false} TotalOfAny(asked: seq<int>, i: nat)
    requires asked == Schedule(|asked|) && i + MAX_BIT <= |asked|
    ensures TotalFrom(asked, i) == 6144 * TIME_PERIOD
    decreases i
  {
    hide Total;
    if i == 0 {
      PassOfTheNotifier();
      TotalOfPass(asked, MAX_BIT);
    } else {
      TotalOfAny(asked, i - 1);
      TotalMoves(asked, i - 1, MAX_BIT);
      assert Counter(MAX_BIT, i - 1) == Counter(MAX_BIT, i - 1 + MAX_BIT);
    }
  }

  lemma AsksPower(t: nat)
    ensures PowerOfPeriods(TIME_PERIOD * Window(Counter(MAX_BIT, t)))
  {
    var e := WindowIsPower(Counter(MAX_BIT, t));
  }

  lemma AsksWideIff(t: nat, k: nat)
    requires k <= 10
    ensures TIME_PERIOD * Window(Counter(MAX_BIT, t)) >= TIME_PERIOD * Pow2(k) <==> (t + 1) % Pow2(k) == 0
  {
    hide Window, Counter, Pow2, Requested;
    PassOfTheNotifier();
    WideWindowExactly(10, k, t);
    MorePeriods(Window(Counter(MAX_BIT, t)), Pow2(k));
  }

  lemma MorePeriods(x: int, y: int)
    ensures TIME_PERIOD * x >= TIME_PERIOD * y <==> x >= y
  {
  }

  /** What the requests are, one by one and in all: each is for a power of two periods, that of wake-up t for at
    * least 2^k of them exactly when 2^k divides t + 1, and any 1024 in a row are for 6144 periods. */
  lemma ScheduleAsks(asked: seq<int>)
    requires asked == Schedule(|asked|)
    ensures forall t :: 0 <= t < |asked| ==> PowerOfPeriods(asked[t])
    ensures forall t, k: nat :: 0 <= t < |asked| && k <= 10 ==>
              (asked[t] >= TIME_PERIOD * Pow2(k) <==> (t + 1) % Pow2(k) == 0)
    ensures forall i: nat :: i + MAX_BIT <= |asked| ==> TotalFrom(asked, i) == 6144 * TIME_PERIOD
  {
    hide Window, TotalFrom, PowerOfPeriods, Counter;
    forall t | 0 <= t < |asked| ensures PowerOfPeriods(asked[t]) {
      AsksPower(t);
    }
    forall t, k: nat | 0 <= t < |asked| && k <= 10
      ensures asked[t] >= TIME_PERIOD * Pow2(k) <==> (t + 1) % Pow2(k) == 0
    {
      AsksWideIff(t, k);
    }
    forall i: nat | i + MAX_BIT <= |asked| ensures TotalFrom(asked, i) == 6144 * TIME_PERIOD {
      TotalOfAny(asked, i);
    }
  }

  lemma Appended(before: seq<int>, now: seq<int>, more: seq<int>)
    requires now == before + more
    ensures before <= now && now[|before|..] == more
  {
  }

  class CacheUpdateNotifier {
    /** The arguments the callback has been called with. */
    var callbacks: seq<int>

    constructor ()
      ensures callbacks == []
    {
      callbacks := [];
    }

    /** Runs until the stop flag is raised during the sleep after `awake` wake-ups.  There is one new callback for
      * each of them: for a power of two periods, for wake-up t at least 2^k of them exactly when 2^k divides
      * t + 1, and for 6144 periods in any 1024 wake-ups. */
    method Run(awake: nat)
      modifies this
      ensures callbacks == old(callbacks) + Schedule(awake)
      ensures old(callbacks) <= callbacks && |callbacks| == |old(callbacks)| + awake
      ensures var asked := callbacks[|old(callbacks)|..];
              && (forall t :: 0 <= t < awake ==> PowerOfPeriods(asked[t]))
              && (forall t, k: nat :: 0 <= t < awake && k <= 10 ==>
                    (asked[t] >= TIME_PERIOD * Pow2(k) <==> (t + 1) % Pow2(k) == 0))
              && forall i: nat :: i + MAX_BIT <= awake ==> TotalFrom(asked, i) == 6144 * TIME_PERIOD
    {
      ghost var before := callbacks;
      var woken := 0;
      assert before == before + Schedule(0);
      while true
        invariant woken % MAX_BIT == 0 && woken <= awake
        invariant callbacks == before + Schedule(woken)
        decreases awake - woken
      {
        ghost var passStart := woken;
        for a := 1 to MAX_BIT + 1
          invariant woken == passStart + a - 1 <= awake
          invariant callbacks == before + Schedule(woken)
        {
          if woken == awake {
            ScheduleAsks(Schedule(awake));
            Appended(before, callbacks, Schedule(awake));
            return;
          }
          callbacks := callbacks + [TIME_PERIOD * BitAnd(a, -a)];
          assert Counter(MAX_BIT, woken) == a;
          assert Schedule(woken + 1) == Schedule(woken) + [TIME_PERIOD * Window(a)];
          woken := woken + 1;
        }
      }
    }
  }
}
