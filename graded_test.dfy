/**
 * The stored record of one graded test and the newest-first order both list
 * components put it in, with `Array.prototype.sort` under the comparator
 * `(a, b) => date(b) - date(a)`. The grading date is an integer timestamp.
 */
module GradedTest {
  import opened Common

  datatype StoredGradedTest = StoredGradedTest(
    id: string,
    questionFileName: string,
    studentResponseFileName: string,
    rubricSummary: string,
    aiScore: real,
    aiFeedback: string,
    aiJustification: string,
    finalScore: real,
    instructorComments: Option<string>,
    gradingDate: int)

  /** No test comes before a test graded later than it. */
  predicate NewestFirst(s: seq<StoredGradedTest>)
  {
    forall i, j :: 0 <= i < j < |s| ==> s[i].gradingDate >= s[j].gradingDate
  }

  /** The first `n` tests of `a` are newest first. */
  predicate SortedPrefix(a: array<StoredGradedTest>, n: int)
    reads a
  {
    forall k, l :: 0 <= k < l < n && l < a.Length ==> a[k].gradingDate >= a[l].gradingDate
  }

  /** Exchanges the tests at `j - 1` and `j`. */
  method SwapDown(a: array<StoredGradedTest>, j: int)
    requires 0 < j < a.Length
    modifies a
    ensures a[j - 1] == old(a[j]) && a[j] == old(a[j - 1])
    ensures forall m :: 0 <= m < a.Length && m != j - 1 && m != j ==> a[m] == old(a[m])
    ensures multiset(a[..]) == multiset(old(a[..]))
  {
    a[j - 1], a[j] := a[j], a[j - 1];
  }

  /** Moves the test at `i` towards the front past every test graded
      strictly earlier, so that the first `i + 1` tests are newest first. */
  method InsertAt(a: array<StoredGradedTest>, i: int)
    requires 0 <= i < a.Length && SortedPrefix(a, i)
    modifies a
    ensures SortedPrefix(a, i + 1)
    ensures multiset(a[..]) == multiset(old(a[..]))
  {
    var j := i;
    while j > 0 && a[j - 1].gradingDate < a[j].gradingDate
      invariant 0 <= j <= i
      invariant forall k, l :: 0 <= k < l <= i && k != j && l != j ==> a[k].gradingDate >= a[l].gradingDate
      invariant forall l :: j < l <= i ==> a[j].gradingDate > a[l].gradingDate
      invariant multiset(a[..]) == multiset(old(a[..]))
    {
      SwapDown(a, j);
      j := j - 1;
    }
  }

  /** Sorts `a` in place, newest first, by insertion. */
  method SortNewestFirst(a: array<StoredGradedTest>)
    modifies a
    ensures NewestFirst(a[..])
    ensures multiset(a[..]) == multiset(old(a[..]))
  {
    var i := 0;
    while i < a.Length
      invariant 0 <= i <= a.Length
      invariant SortedPrefix(a, i)
      invariant multiset(a[..]) == multiset(old(a[..]))
    {
      InsertAt(a, i);
      i := i + 1;
    }
  }

  /** In a newest-first sequence, every test after a cut is no newer than
      every test before it. */
  lemma {:induction false} CutIsOrdered(s: seq<StoredGradedTest>, e: nat)
    requires NewestFirst(s) && e <= |s|
    ensures NewestFirst(s[..e])
    ensures forall x, y :: x in s[..e] && y in s[e..] ==> y.gradingDate <= x.gradingDate
  {
    forall x, y | x in s[..e] && y in s[e..] ensures y.gradingDate <= x.gradingDate {
      var i :| 0 <= i < e && s[..e][i] == x;
      var j :| 0 <= j < |s| - e && s[e..][j] == y;
      assert s[i] == x && s[e + j] == y;
    }
  }
}
