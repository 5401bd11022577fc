/**
 * The full list of graded tests: an empty-state card for no tests, and
 * otherwise one card per test, newest first, each with a delete action for
 * its own test and an instructor-comments section when there are comments.
 */
module GradedTestsList {
  import opened Common
  import opened GradedTest

  /** One rendered card: the test it shows, the id its confirmed delete
      passes to `onDeleteTest`, and the comments section, if any. */
  datatype TestCard = TestCard(test: StoredGradedTest, deleteId: string, comments: Option<string>)

  datatype ListView = EmptyState | Cards(cards: seq<TestCard>)

  /** The card of one test. The comments section appears only for a
      non-empty comment. */
  function CardFor(t: StoredGradedTest): (c: TestCard)
    ensures c.test == t && c.deleteId == t.id
    ensures c.comments.Some? <==> Truthy(t.instructorComments)
    ensures c.comments.Some? ==> c.comments == t.instructorComments
  {
    TestCard(t, t.id, if Truthy(t.instructorComments) then t.instructorComments else None)
  }

  /** The cards of an already sorted list, in its order. */
  function CardsFor(tests: seq<StoredGradedTest>): (cards: seq<TestCard>)
    ensures |cards| == |tests|
    ensures forall i :: 0 <= i < |tests| ==> cards[i] == CardFor(tests[i])
  {
    if tests == [] then [] else [CardFor(tests[0])] + CardsFor(tests[1..])
  }

  /** The tests the cards show, in card order. */
  function Shown(cards: seq<TestCard>): (s: seq<StoredGradedTest>)
    ensures |s| == |cards|
    ensures forall i :: 0 <= i < |cards| ==> s[i] == cards[i].test
  {
    if cards == [] then [] else [cards[0].test] + Shown(cards[1..])
  }

  /** The cards show exactly the tests they were made from. */
  lemma ShownCards(tests: seq<StoredGradedTest>)
    ensures Shown(CardsFor(tests)) == tests
  {
  }

  /** `GradedTestsList`: with no tests, the empty state and no sorting; with
      some, the prop array itself is sorted newest first in place and one
      card is rendered per test in that order. */
  method GradedTestsList(tests: array<StoredGradedTest>) returns (v: ListView)
    modifies tests
    ensures tests.Length == 0 <==> v == EmptyState
    ensures multiset(tests[..]) == multiset(old(tests[..]))
    ensures tests.Length > 0 ==> NewestFirst(tests[..]) && v == Cards(CardsFor(tests[..]))
  {
    if tests.Length == 0 {
      return EmptyState;
    }
    SortNewestFirst(tests);
    v := Cards(CardsFor(tests[..]));
  }

  /** A non-empty list renders as cards, newest first, that show every test
      of the input exactly as often as it occurs there. */
  lemma {:induction false} CardsArePermutation(original: seq<StoredGradedTest>, sorted: seq<StoredGradedTest>)
    requires NewestFirst(sorted) && multiset(sorted) == multiset(original)
    ensures NewestFirst(Shown(CardsFor(sorted)))
    ensures multiset(Shown(CardsFor(sorted))) == multiset(original)
  {
    ShownCards(sorted);
  }
}
