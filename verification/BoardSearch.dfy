/** Finding one's way in the board's listing.
  *
  * The listing is a fixed sequence of pages of addresses, oldest first.  Pages
  * may be empty (every article on them has been deleted).  Page indices start
  * at 1, and a page that does not exist counts as empty.
  */
module BoardSearch {
  import opened Wrappers
  import opened Urls
  import opened Arithmetic

  type Pages = seq<seq<Href>>

  function Page(pages: Pages, i: int): seq<Href> {
    if 1 <= i <= |pages| then pages[i - 1] else []
  }

  /** Numbers do not decrease within a page and increase from one page to any later one. */
  ghost predicate SortedPages(pages: Pages)
  {
    && (forall i, k, l :: 0 <= k <= l < |Page(pages, i)| ==> Num(Page(pages, i)[k]) <= Num(Page(pages, i)[l]))
    && (forall i, j, k, l :: i < j && 0 <= k < |Page(pages, i)| && 0 <= l < |Page(pages, j)| ==>
          Num(Page(pages, i)[k]) < Num(Page(pages, j)[l]))
  }

  ghost predicate AllBelow(pages: Pages, i: int, target: int)
  {
    forall k :: 0 <= k < |Page(pages, i)| ==> Num(Page(pages, i)[k]) < target
  }

  ghost predicate AllAbove(pages: Pages, i: int, target: int)
  {
    forall k :: 0 <= k < |Page(pages, i)| ==> Num(Page(pages, i)[k]) > target
  }

  /** The addresses on earlier pages are older than the target, those on later pages newer. */
  ghost predicate Separates(pages: Pages, p: int, target: int)
  {
    && (forall i :: i < p ==> AllBelow(pages, i, target))
    && (forall i :: i > p ==> AllAbove(pages, i, target))
  }

  /** The addresses of the list that are newer than the target. */
  function NewerIn(us: seq<Href>, target: int): (s: seq<Href>)
  {
    if us == [] then []
    else (if Num(us[0]) > target then [us[0]] else []) + NewerIn(us[1..], target)
  }

  lemma {:induction false} NewerInAll(us: seq<Href>, target: int)
    ensures |NewerIn(us, target)| <= |us|
    ensures (forall k :: 0 <= k < |us| ==> Num(us[k]) > target) ==> NewerIn(us, target) == us
    ensures (forall k :: 0 <= k < |us| ==> Num(us[k]) <= target) ==> NewerIn(us, target) == []
    decreases |us|
  {
    if us != [] {
      NewerInAll(us[1..], target);
    }
  }

  /** Number of addresses on pages 1, ..., hi that are newer than the target. */
  function CountNewer(pages: Pages, hi: nat, target: int): nat
  {
    if hi == 0 then 0 else |NewerIn(Page(pages, hi), target)| + CountNewer(pages, hi - 1, target)
  }

  /** Number of addresses on pages lo, ..., hi. */
  function Total(pages: Pages, lo: int, hi: int): nat
    decreases hi - lo
  {
    if lo > hi then 0 else Total(pages, lo, hi - 1) + |Page(pages, hi)|
  }

  lemma {:induction false} CountSeparated(pages: Pages, p: nat, hi: nat, target: int)
    requires Separates(pages, p, target) && 1 <= p
    ensures CountNewer(pages, hi, target) ==
            if hi < p then 0 else |NewerIn(Page(pages, p), target)| + Total(pages, p + 1, hi)
  {
    hide NewerIn, Page;
    if hi > 0 {
      CountSeparated(pages, p, hi - 1, target);
      NewerInAll(Page(pages, hi), target);
      if hi < p {
        assert AllBelow(pages, hi, target);
      } else if hi > p {
        assert AllAbove(pages, hi, target);
      }
    }
  }

  lemma {:induction false} TotalAtMost(pages: Pages, lo: int, hi: int, perPage: nat)
    requires forall i :: |Page(pages, i)| <= perPage
    ensures lo <= hi + 1 ==> Total(pages, lo, hi) <= (hi - lo + 1) * perPage
    decreases hi - lo
  {
    if lo <= hi {
      TotalAtMost(pages, lo, hi - 1, perPage);
      assert (hi - lo + 1) * perPage == (hi - lo) * perPage + perPage;
    }
  }

  /** The estimate of the number of addresses newer than the target, given the separating page:
    * a sum of page lengths near the end of the board, twenty a page further away. */
  function Estimate(pages: Pages, p: int, target: int, maxPage: int): int
  {
    |NewerIn(Page(pages, p), target)| + if maxPage - p > 50 then (maxPage - p) * 20 else Total(pages, p + 1, maxPage)
  }

  /** A page shows at most twenty addresses. */
  ghost predicate SmallPages(pages: Pages) {
    forall i :: |Page(pages, i)| <= 20
  }

  /** Near the end of the board the estimate is exact; further away it is too large by exactly the
    * room left on the pages, so it never falls short when pages hold at most twenty. */
  lemma EstimateIsExactOrSafe(pages: Pages, p: nat, target: int)
    requires 1 <= p <= |pages| + 1 && Separates(pages, p, target)
    ensures var n, newer := Estimate(pages, p, target, |pages|), CountNewer(pages, |pages|, target);
            && (|pages| - p <= 50 ==> n == newer)
            && (|pages| - p > 50 ==> n - newer == (|pages| - p) * 20 - Total(pages, p + 1, |pages|))
            && (SmallPages(pages) ==> n >= newer)
  {
    CountSeparated(pages, p, |pages|, target);
    if SmallPages(pages) {
      TotalAtMost(pages, p + 1, |pages|, 20);
    }
  }

  /** Every page outside the range lies on the right side of the target. */
  ghost predicate Outside(pages: Pages, lower: int, upper: int, target: int) {
    && (forall i :: i < lower ==> AllBelow(pages, i, target))
    && (forall i :: i > upper ==> AllAbove(pages, i, target))
  }

  lemma HoleAtEnd(pages: Pages, lower: int, upper: int, target: int)
    requires Outside(pages, lower, upper, target)
    ensures Page(pages, lower) == [] ==> Outside(pages, lower + 1, upper, target)
    ensures Page(pages, upper) == [] ==> Outside(pages, lower, upper - 1, target)
  {
  }

  /** The number on the first address decides that the target is on an earlier page. */
  lemma FirstAbove(pages: Pages, lower: int, upper: int, mid: int, target: int)
    requires SortedPages(pages) && Page(pages, mid) != [] && Outside(pages, lower, upper, target)
    requires target < Num(Page(pages, mid)[0])
    ensures Outside(pages, lower, mid - 1, target)
  {
    forall i | i >= mid ensures AllAbove(pages, i, target) {
      forall k | 0 <= k < |Page(pages, i)| ensures Num(Page(pages, i)[k]) > target {
        assert Num(Page(pages, i)[k]) >= Num(Page(pages, mid)[0]);
      }
    }
  }

  lemma LastBelow(pages: Pages, lower: int, upper: int, mid: int, target: int)
    requires SortedPages(pages) && Page(pages, mid) != [] && Outside(pages, lower, upper, target)
    requires Num(Page(pages, mid)[|Page(pages, mid)| - 1]) < target
    ensures Outside(pages, mid + 1, upper, target)
  {
    var last := |Page(pages, mid)| - 1;
    forall i | i <= mid ensures AllBelow(pages, i, target) {
      forall k | 0 <= k < |Page(pages, i)| ensures Num(Page(pages, i)[k]) < target {
        assert Num(Page(pages, i)[k]) <= Num(Page(pages, mid)[last]);
      }
    }
  }

  lemma WithinPage(pages: Pages, mid: int, target: int)
    requires SortedPages(pages) && Page(pages, mid) != []
    requires Num(Page(pages, mid)[0]) <= target <= Num(Page(pages, mid)[|Page(pages, mid)| - 1])
    ensures Outside(pages, mid, mid, target)
  {
    var last := |Page(pages, mid)| - 1;
    forall i | i < mid ensures AllBelow(pages, i, target) {
      forall k | 0 <= k < |Page(pages, i)| ensures Num(Page(pages, i)[k]) < target {
        assert Num(Page(pages, i)[k]) < Num(Page(pages, mid)[0]);
      }
    }
    forall i | i > mid ensures AllAbove(pages, i, target) {
      forall k | 0 <= k < |Page(pages, i)| ensures Num(Page(pages, i)[k]) > target {
        assert Num(Page(pages, i)[k]) > Num(Page(pages, mid)[last]);
      }
    }
  }

  lemma NothingOutside(pages: Pages, target: int)
    ensures Outside(pages, 1, |pages|, target)
  {
  }

  lemma SearchEnds(pages: Pages, lower: int, upper: int, target: int)
    requires Outside(pages, lower, upper, target) && upper <= lower
    ensures Separates(pages, lower, target)
  {
  }

  ghost predicate NoHoles(pages: Pages) {
    forall i :: 1 <= i <= |pages| ==> Page(pages, i) != []
  }

  ghost predicate AllZero(draws: seq<nat>) {
    forall i :: 0 <= i < |draws| ==> draws[i] == 0
  }

  /** Choices that always end the search: a choice of 0 probes the lower end of the range, and a hole there
    * narrows the range; without holes no choice is needed. */
  ghost predicate Lucky(pages: Pages, draws: seq<nat>) {
    NoHoles(pages) || (|draws| >= |pages| && AllZero(draws))
  }

  /** The target lies between the first and the last address of the page. */
  ghost predicate Holds(pages: Pages, q: int, target: int) {
    Page(pages, q) != [] && Num(Page(pages, q)[0]) <= target <= Num(Page(pages, q)[|Page(pages, q)| - 1])
  }

  ghost predicate HoldersWithin(pages: Pages, lower: int, upper: int, target: int) {
    forall q :: Holds(pages, q, target) ==> lower <= q <= upper
  }

  lemma OutsideHoldsNothing(pages: Pages, lower: int, upper: int, target: int)
    requires Outside(pages, lower, upper, target)
    ensures HoldersWithin(pages, lower, upper, target)
  {
    forall q | Holds(pages, q, target) ensures lower <= q <= upper {
      assert q < lower ==> AllBelow(pages, q, target);
      assert q > upper ==> AllAbove(pages, q, target);
    }
  }

  /** A probe anywhere in the range. */
  function Probe(lower: nat, upper: nat, draw: nat): (mid: nat)
    requires lower <= upper
    ensures lower <= mid <= upper && (draw == 0 ==> mid == lower)
  {
    lower + draw % (upper - lower + 1)
  }

  /** The search for the page that holds a number.  Each probe of an empty page is followed by a
    * probe anywhere in the range; `draws` supplies those random choices, and the search answers
    * None when they run out.  The page found separates older from newer addresses; it can be one
    * past the end. */
  method GetPageContainUrlNum(pages: Pages, target: int, draws: seq<nat>) returns (found: Option<int>)
    requires SortedPages(pages)
    ensures found.Some? ==> 1 <= found.value <= |pages| + 1 && Separates(pages, found.value, target)
    ensures found.Some? ==> forall q :: Holds(pages, q, target) ==> found.value == q
    ensures Lucky(pages, draws) ==> found.Some?
  {
    hide Outside, Separates, SortedPages, Page, Probe, Holds;
    var lower, upper := 1, |pages|;
    var used := 0;
    NothingOutside(pages, target);
    while lower < upper
      invariant 1 <= lower <= upper + 1 <= |pages| + 1 && used <= |draws|
      invariant NoHoles(pages) ==> used == 0
      invariant AllZero(draws) ==> used == 0 || used + (upper - lower) < |pages|
      invariant Outside(pages, lower, upper, target)
      decreases upper - lower
    {
      HoleAtEnd(pages, lower, upper, target);
      var mid := (lower + upper) / 2;
      var reCalc := false;
      ghost var lower0, upper0 := lower, upper;
      while true
        invariant lower0 == lower <= mid <= upper == upper0 && used <= |draws| && !reCalc
        invariant NoHoles(pages) ==> used == 0
        invariant AllZero(draws) ==> used + (upper - lower) < |pages| || (mid == lower && used + (upper - lower) == |pages|)
        decreases |draws| - used
      {
        if Page(pages, mid) != [] {
          break;
        }
        if mid == lower {
          lower := lower + 1;
          reCalc := true;
          break;
        } else if mid == upper {
          upper := upper - 1;
          reCalc := true;
          break;
        } else {
          if used == |draws| {
            return None;
          }
          mid := Probe(lower, upper, draws[used]);
          used := used + 1;
        }
      }
      if reCalc {
        continue;
      }
      var urls := Page(pages, mid);
      if target < Num(urls[0]) {
        FirstAbove(pages, lower, upper, mid, target);
        upper := mid - 1;
      } else if Num(urls[|urls| - 1]) < target {
        LastBelow(pages, lower, upper, mid, target);
        lower := mid + 1;
      } else {
        WithinPage(pages, mid, target);
        lower, upper := mid, mid;
      }
    }
    SearchEnds(pages, lower, upper, target);
    OutsideHoldsNothing(pages, lower, upper, target);
    return Some(lower);
  }

  /** The estimate that goes with the page the search finds. */
  method EstimateNumUrlsBetween(pages: Pages, target: int, draws: seq<nat>) returns (n: Option<int>, ghost p: int)
    requires SortedPages(pages)
    ensures Lucky(pages, draws) ==> n.Some?
    ensures n.Some? ==> 1 <= p <= |pages| + 1 && Separates(pages, p, target) && n.value == Estimate(pages, p, target, |pages|)
    ensures n.Some? ==> forall q :: Holds(pages, q, target) ==> p == q
    ensures n.Some? && |pages| - p <= 50 ==> n.value == CountNewer(pages, |pages|, target)
    ensures n.Some? && SmallPages(pages) ==> n.value >= CountNewer(pages, |pages|, target)
  {
    hide Separates, SortedPages, Holds, Page, Lucky;
    p := 0;
    var found := GetPageContainUrlNum(pages, target, draws);
    if found.None? {
      return None, p;
    }
    var lower := found.value;
    p := lower;
    var m := 0;
    if |pages| - lower > 50 {
      m := (|pages| - lower) * 20;
    } else {
      var i := lower + 1;
      while i < |pages| + 1
        invariant lower < i && (i <= |pages| + 1 || i == lower + 1)
        invariant m == Total(pages, lower + 1, i - 1)
      {
        m := m + |Page(pages, i)|;
        i := i + 1;
      }
      assert m == Total(pages, lower + 1, |pages|);
    }
    EstimateIsExactOrSafe(pages, lower, target);
    return Some(|NewerIn(Page(pages, lower), target)| + m), p;
  }

  /** The available pages are 1, ..., n. */
  ghost predicate PagesUpTo(available: int -> bool, n: nat) {
    forall i :: available(i) <==> 1 <= i <= n
  }

  /** Doubling, then bisecting, for the last available page.  Whatever pages are available, the page
    * found is available (or 0) and the next one is not; the number of checks is 2 k + 2 when 2^k is
    * the last power of two available, and 1 when page 1 is not. */
  method GetMaxPageIdx(available: int -> bool, ghost bound: nat) returns (last: nat, checks: nat, ghost k: nat)
    requires forall i :: i >= bound ==> !available(i)
    ensures last > 0 ==> available(last)
    ensures !available(last + 1)
    ensures forall n: nat :: PagesUpTo(available, n) ==> last == n
    ensures last == 0 <==> !available(1)
    ensures last == 0 ==> checks == 1
    ensures last > 0 ==> Pow2(k) <= last < Pow2(k + 1) && checks == 2 * k + 2
  {
    var upper := 1;
    checks := 0;
    ghost var e := 0;
    while available(upper)
      invariant upper == Pow2(e) && checks == e
      invariant e > 0 ==> available(Pow2(e - 1)) && available(1)
      decreases bound - upper
    {
      checks := checks + 1;
      upper := upper * 2;
      e := e + 1;
    }
    checks := checks + 1;
    var lower := upper / 2;
    k := if e == 0 then 0 else e - 1;
    ghost var width: int := k;
    while lower + 1 < upper
      invariant 0 <= lower < upper && !available(upper)
      invariant lower > 0 ==> available(lower)
      invariant e == 0 ==> lower == 0 && upper == 1 && checks == 1
      invariant e > 0 ==> lower > 0 && 0 <= width <= k && upper - lower == Pow2(width) && checks == k + 2 + (k - width)
      invariant e > 0 ==> Pow2(k) <= lower && upper <= Pow2(k + 1)
      decreases upper - lower
    {
      var mid := (lower + upper) / 2;
      checks := checks + 1;
      if available(mid) {
        lower := mid;
      } else {
        upper := mid;
      }
      width := width - 1;
    }
    last := lower;
  }
}
