/**
 * The pager of the exam table: the sequence of page buttons and "..." markers
 * shown for a current page `c` out of `t` pages, the previous/next targets,
 * and the rule that no pager is shown for a single page.
 */
module Pagination {
  import opened Wrappers

  /** One entry of the pager: a button for a page number, or the "..." marker. */
  datatype Item = Num(page: int) | Dots

  /** Number of pages shown on each side of the current page. */
  const Delta: int := 2

  function Max(a: int, b: int): int { if a >= b then a else b }
  function Min(a: int, b: int): int { if a <= b then a else b }

  /** First and last page of the window around the current page. */
  function WindowStart(c: int): int { Max(2, c - Delta) }
  function WindowEnd(c: int, t: int): int { Min(t - 1, c + Delta) }

  /** Whether a marker follows page 1, and whether one precedes the last page. */
  predicate LeadingDots(c: int) { c - Delta > 2 }
  predicate TrailingDots(c: int, t: int) { c + Delta < t - 1 }

  /** The pages lo, lo + 1, ..., hi in order (empty when lo > hi). */
  function Interval(lo: int, hi: int): (r: seq<int>)
    ensures |r| == if lo <= hi then hi - lo + 1 else 0
    ensures forall k :: 0 <= k < |r| ==> r[k] == lo + k
    decreases hi - lo
  {
    if lo > hi then [] else Interval(lo, hi - 1) + [hi]
  }

  /** Page numbers as pager buttons. */
  function Buttons(pages: seq<int>): (r: seq<Item>)
    ensures |r| == |pages|
    ensures forall k :: 0 <= k < |r| ==> r[k] == Num(pages[k])
  {
    seq(|pages|, k requires 0 <= k < |pages| => Num(pages[k]))
  }

  /** Reference definition of the pager content for page `c` of `t`. */
  function PageIndicators(c: int, t: int): (r: seq<Item>)
    ensures |r| >= 1 && r[0] == Num(1)
    ensures t > 1 ==> |r| >= 2 && r[|r| - 1] == Num(t)
  {
    [Num(1)]
    + (if LeadingDots(c) then [Dots] else [])
    + Buttons(Interval(WindowStart(c), WindowEnd(c, t)))
    + (if TrailingDots(c, t) then [Dots, Num(t)] else if t > 1 then [Num(t)] else [])
  }

  /** `getPageNumbers`: the window is collected by a loop into `range`, then
      page 1, the optional markers and the last page are put around it. */
  method GetPageNumbers(currentPage: int, totalPages: int) returns (rangeWithDots: seq<Item>)
    ensures rangeWithDots == PageIndicators(currentPage, totalPages)
  {
    var range: seq<int> := [];
    var lo := Max(2, currentPage - Delta);
    var i := lo;
    while i <= Min(totalPages - 1, currentPage + Delta)
      invariant lo <= i
      invariant i == lo || i <= WindowEnd(currentPage, totalPages) + 1
      invariant range == Interval(lo, i - 1)
    {
      range := range + [i];
      i := i + 1;
    }
    assert range == Interval(WindowStart(currentPage), WindowEnd(currentPage, totalPages));
    if currentPage - Delta > 2 {
      rangeWithDots := [Num(1), Dots];
    } else {
      rangeWithDots := [Num(1)];
    }
    ghost var head := rangeWithDots;
    rangeWithDots := rangeWithDots + Buttons(range);
    if currentPage + Delta < totalPages - 1 {
      rangeWithDots := rangeWithDots + [Dots, Num(totalPages)];
    } else if totalPages > 1 {
      rangeWithDots := rangeWithDots + [Num(totalPages)];
    }
    assert head == [Num(1)] + (if LeadingDots(currentPage) then [Dots] else []);
  }

  /** The component: nothing is rendered for one page or fewer, otherwise the
      pager content. */
  method Render(currentPage: int, totalPages: int) returns (shown: Option<seq<Item>>)
    ensures shown.None? <==> totalPages <= 1
    ensures shown.Some? ==> shown.value == PageIndicators(currentPage, totalPages)
  {
    if totalPages <= 1 {
      return None;
    }
    var pageNumbers := GetPageNumbers(currentPage, totalPages);
    shown := Some(pageNumbers);
  }

  /** Target of the "previous" buttons. */
  function PrevTarget(c: int): (r: int)
    ensures r >= 1
    ensures c > 1 ==> r == c - 1
    ensures c <= 1 ==> r == 1
  {
    Max(c - 1, 1)
  }

  /** Target of the "next" buttons. */
  function NextTarget(c: int, t: int): (r: int)
    ensures r <= t
    ensures c < t ==> r == c + 1
    ensures c >= t ==> r == t
  {
    Min(c + 1, t)
  }

  predicate PrevDisabled(c: int) { c == 1 }
  predicate NextDisabled(c: int, t: int) { c == t }

  /** The previous/next targets stay within the pages, and a button is disabled
      exactly when its target would be the current page. */
  lemma PrevNextInRange(c: int, t: int)
    requires 1 <= c <= t
    ensures 1 <= PrevTarget(c) <= t && 1 <= NextTarget(c, t) <= t
    ensures PrevTarget(c) == if PrevDisabled(c) then c else c - 1
    ensures NextTarget(c, t) == if NextDisabled(c, t) then c else c + 1
  {
  }

  // ---------------------------------------------------------------------------
  // Properties of the pager content

  /** Number of entries before the window: page 1 and the optional marker. */
  function Offset(c: int): nat { if LeadingDots(c) then 2 else 1 }

  /** Number of pages in the window. */
  function WindowSize(c: int, t: int): nat { |Interval(WindowStart(c), WindowEnd(c, t))| }

  /** Position-wise description of the pager content. */
  lemma {:induction false} IndicatorAt(c: int, t: int, i: int)
    requires t >= 2
    ensures |PageIndicators(c, t)| == Offset(c) + WindowSize(c, t) + (if TrailingDots(c, t) then 2 else 1)
    ensures 0 <= i < |PageIndicators(c, t)| ==>
      PageIndicators(c, t)[i] ==
        if i == 0 then Num(1)
        else if i < Offset(c) then Dots
        else if i < Offset(c) + WindowSize(c, t) then Num(WindowStart(c) + i - Offset(c))
        else if i == |PageIndicators(c, t)| - 1 then Num(t)
        else Dots
  {
    var head: seq<Item> := [Num(1)] + (if LeadingDots(c) then [Dots] else []);
    var mid := Buttons(Interval(WindowStart(c), WindowEnd(c, t)));
    var tail: seq<Item> := if TrailingDots(c, t) then [Dots, Num(t)] else [Num(t)];
    assert PageIndicators(c, t) == head + mid + tail;
    if 0 <= i < |PageIndicators(c, t)| {
      if i < |head| {
        assert PageIndicators(c, t)[i] == head[i];
      } else if i < |head| + |mid| {
        assert PageIndicators(c, t)[i] == mid[i - |head|];
      } else {
        assert PageIndicators(c, t)[i] == tail[i - |head| - |mid|];
      }
    }
  }

  /** The pager starts with page 1 and ends with the last page. */
  lemma IndicatorsEnds(c: int, t: int)
    requires t >= 2
    ensures |PageIndicators(c, t)| >= 2
    ensures PageIndicators(c, t)[0] == Num(1)
    ensures PageIndicators(c, t)[|PageIndicators(c, t)| - 1] == Num(t)
  {
    IndicatorAt(c, t, 0);
    IndicatorAt(c, t, |PageIndicators(c, t)| - 1);
  }

  /** At most 2 * Delta + 5 entries, whatever the current page. */
  lemma IndicatorsLength(c: int, t: int)
    requires t >= 2
    ensures |PageIndicators(c, t)| <= 2 * Delta + 5
  {
    IndicatorAt(c, t, 0);
  }

  /** Page numbers read left to right are strictly increasing, so no page appears twice. */
  lemma IndicatorsIncreasing(c: int, t: int)
    requires t >= 2
    ensures forall i, j :: 0 <= i < j < |PageIndicators(c, t)|
              && PageIndicators(c, t)[i].Num? && PageIndicators(c, t)[j].Num?
              ==> PageIndicators(c, t)[i].page < PageIndicators(c, t)[j].page
  {
    var p := PageIndicators(c, t);
    forall i, j | 0 <= i < j < |p| && p[i].Num? && p[j].Num?
      ensures p[i].page < p[j].page
    {
      IndicatorAt(c, t, i);
      IndicatorAt(c, t, j);
    }
  }

  /** Exactly page 1, the last page and the pages of the window are shown. */
  lemma IndicatorsCoverage(c: int, t: int, p: int)
    requires t >= 2
    ensures Num(p) in PageIndicators(c, t)
            <==> p == 1 || p == t || WindowStart(c) <= p <= WindowEnd(c, t)
  {
    var s := PageIndicators(c, t);
    if Num(p) in s {
      var i :| 0 <= i < |s| && s[i] == Num(p);
      IndicatorAt(c, t, i);
    }
    if p == 1 {
      IndicatorAt(c, t, 0);
    } else if p == t {
      IndicatorAt(c, t, |s| - 1);
    } else if WindowStart(c) <= p <= WindowEnd(c, t) {
      IndicatorAt(c, t, Offset(c) + p - WindowStart(c));
    }
  }

  /** For a page within range, every page at distance at most Delta is shown,
      the current page among them. */
  lemma IndicatorsShowNeighbourhood(c: int, t: int, p: int)
    requires 1 <= c <= t && t >= 2
    requires 1 <= p <= t && c - Delta <= p <= c + Delta
    ensures Num(p) in PageIndicators(c, t)
  {
    IndicatorsCoverage(c, t, p);
  }

  /** A marker follows page 1 exactly when the window starts after page 3, and
      one precedes the last page exactly when the window ends before page t - 2. */
  lemma DotsPlacement(c: int, t: int)
    requires 1 <= c <= t && t >= 2
    ensures PageIndicators(c, t)[1] == Dots <==> c - Delta > 2
    ensures PageIndicators(c, t)[|PageIndicators(c, t)| - 2] == Dots <==> c + Delta < t - 1
  {
    var s := PageIndicators(c, t);
    IndicatorAt(c, t, 1);
    IndicatorAt(c, t, |s| - 2);
  }

  /** Neighbouring buttons are consecutive pages. */
  lemma NeighboursConsecutive(c: int, t: int)
    requires 1 <= c <= t && t >= 2
    ensures forall i :: 0 <= i < |PageIndicators(c, t)| - 1
              && PageIndicators(c, t)[i].Num? && PageIndicators(c, t)[i + 1].Num?
              ==> PageIndicators(c, t)[i + 1].page == PageIndicators(c, t)[i].page + 1
  {
    var s := PageIndicators(c, t);
    forall i | 0 <= i < |s| - 1 && s[i].Num? && s[i + 1].Num?
      ensures s[i + 1].page == s[i].page + 1
    {
      IndicatorAt(c, t, i);
      IndicatorAt(c, t, i + 1);
    }
  }

  /** A marker always stands between two buttons and hides at least one page. */
  lemma DotsMarkGaps(c: int, t: int)
    requires 1 <= c <= t && t >= 2
    ensures forall i :: 0 <= i < |PageIndicators(c, t)| && PageIndicators(c, t)[i] == Dots
              ==> 0 < i < |PageIndicators(c, t)| - 1
                  && PageIndicators(c, t)[i - 1].Num? && PageIndicators(c, t)[i + 1].Num?
                  && PageIndicators(c, t)[i + 1].page >= PageIndicators(c, t)[i - 1].page + 2
  {
    var s := PageIndicators(c, t);
    forall i | 0 <= i < |s| && s[i] == Dots
      ensures 0 < i < |s| - 1 && s[i - 1].Num? && s[i + 1].Num? && s[i + 1].page >= s[i - 1].page + 2
    {
      IndicatorAt(c, t, i);
      IndicatorAt(c, t, i - 1);
      IndicatorAt(c, t, i + 1);
    }
  }

  /** Every button of the pager leads to a page in 1..t. */
  lemma IndicatorsInRange(c: int, t: int)
    requires t >= 2
    ensures forall i :: 0 <= i < |PageIndicators(c, t)| && PageIndicators(c, t)[i].Num?
              ==> 1 <= PageIndicators(c, t)[i].page <= t
  {
    forall i | 0 <= i < |PageIndicators(c, t)| && PageIndicators(c, t)[i].Num?
      ensures 1 <= PageIndicators(c, t)[i].page <= t
    {
      IndicatorAt(c, t, i);
    }
  }

  /** The worked examples: page 5 of 10, and page 2 of 3. */
  lemma IndicatorsExamples()
    ensures PageIndicators(5, 10) == [Num(1), Dots, Num(3), Num(4), Num(5), Num(6), Num(7), Dots, Num(10)]
    ensures PageIndicators(2, 3) == [Num(1), Num(2), Num(3)]
  {
    assert Interval(3, 7) == [3, 4, 5, 6, 7];
    assert Interval(2, 2) == [2];
  }

  /** A current page past the last one keeps the leading marker although the
      window is empty, so that marker hides no page. */
  lemma PastLastPageExample()
    ensures PageIndicators(5, 2) == [Num(1), Dots, Num(2)]
  {
    assert Interval(WindowStart(5), WindowEnd(5, 2)) == [];
  }
}
