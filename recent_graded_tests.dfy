/**
 * The dashboard card of recently graded tests: sort the caller's tests
 * newest first in place, keep the first `maxToShow` (3 by default), and
 * decide between the empty-state card and the listing with its "View All"
 * link.
 */
module RecentGradedTests {
  import opened Common
  import opened GradedTest

  const DefaultMaxToShow: int := 3

  /** The `maxToShow` prop after its default. */
  function MaxToShow(prop: Option<int>): (m: int)
    ensures prop.None? ==> m == DefaultMaxToShow
    ensures prop.Some? ==> m == prop.value
  {
    if prop.Some? then prop.value else DefaultMaxToShow
  }

  /** Where `slice(0, end)` stops on a list of `len` items: a negative end
      counts back from the length, and the result is clamped to [0, len]. */
  function SliceEnd(len: nat, end: int): (e: nat)
    ensures e <= len
    ensures 0 <= end ==> (e == len <==> end >= len) && (end <= len ==> e == end)
    ensures end < 0 ==> (e == 0 <==> -end >= len) && (-end <= len ==> e == len - (-end))
  {
    if end < 0 then (if len + end > 0 then len + end else 0)
    else if end < len then end
    else len
  }

  /** What the card renders. `Listing` carries the count the "View All" link
      shows (absent when the link is not shown), the tests listed, and
      whether the fallback paragraph at the bottom of the listing renders. */
  datatype RecentView =
    | EmptyCard
    | Listing(viewAll: Option<nat>, shown: seq<StoredGradedTest>, fallback: bool)

  /** The card for an already sorted list. */
  function View(tests: seq<StoredGradedTest>, maxToShow: int): (v: RecentView)
    ensures v.EmptyCard? <==> SliceEnd(|tests|, maxToShow) == 0
    ensures maxToShow == 0 ==> v.EmptyCard?
    ensures v.Listing? ==> v.shown == tests[..SliceEnd(|tests|, maxToShow)] && v.shown != []
    ensures v.Listing? ==> (v.viewAll.Some? <==> |tests| > maxToShow)
    ensures v.Listing? && v.viewAll.Some? ==> v.viewAll.value == |tests|
    ensures v.Listing? ==> !v.fallback
  {
    var recent := tests[..SliceEnd(|tests|, maxToShow)];
    if |recent| == 0 then EmptyCard
    else Listing(if |tests| > maxToShow then Some(|tests|) else None, recent, |tests| == 0 && |recent| == 0)
  }

  /** With a non-negative bound the card lists min(|tests|, maxToShow)
      tests; with the default bound, at most three. */
  lemma ShownCount(tests: seq<StoredGradedTest>, maxToShow: int)
    requires maxToShow >= 0
    ensures var n := if |tests| < maxToShow then |tests| else maxToShow;
            (n == 0 ==> View(tests, maxToShow).EmptyCard?)
            && (n > 0 ==> View(tests, maxToShow).Listing? && |View(tests, maxToShow).shown| == n)
  {
  }

  /** `RecentGradedTests`: sorts the caller's array itself, newest first,
      and renders the card from it. */
  method RecentGradedTests(tests: array<StoredGradedTest>, maxToShow: Option<int>) returns (v: RecentView)
    modifies tests
    ensures NewestFirst(tests[..]) && multiset(tests[..]) == multiset(old(tests[..]))
    ensures v == View(tests[..], MaxToShow(maxToShow))
  {
    SortNewestFirst(tests);
    v := View(tests[..], MaxToShow(maxToShow));
  }

  /** The listed tests are the newest of the caller's tests: the listing is
      newest first, and every test of the input left out of it was graded
      no later than every test in it. */
  lemma {:induction false} ShownAreNewest(original: seq<StoredGradedTest>, sorted: seq<StoredGradedTest>, maxToShow: int)
    requires NewestFirst(sorted) && multiset(sorted) == multiset(original)
    requires View(sorted, maxToShow).Listing?
    ensures var shown := View(sorted, maxToShow).shown;
            && NewestFirst(shown)
            && forall x, y :: x in shown && y in multiset(original) - multiset(shown) ==> y.gradingDate <= x.gradingDate
  {
    var e := SliceEnd(|sorted|, maxToShow);
    CutIsOrdered(sorted, e);
    assert sorted == sorted[..e] + sorted[e..];
    assert multiset(original) - multiset(sorted[..e]) == multiset(sorted[e..]);
    forall x, y | x in sorted[..e] && y in multiset(original) - multiset(sorted[..e])
      ensures y.gradingDate <= x.gradingDate
    {
      assert y in sorted[e..];
    }
  }
}
