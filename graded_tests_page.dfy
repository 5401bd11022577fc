/**
 * The page of stored graded tests: loads the list from its storage key,
 * deletes one test by id, clears them all, and renders the "Clear All
 * Tests" control and the list.
 */
module GradedTestsPage {
  import opened GradedTest
  import opened GradedTestsList

  /** What the tests key holds: nothing, a list that parses, or text that
      does not parse. */
  datatype TestsSlot = Missing | Stored(list: seq<StoredGradedTest>) | Corrupt

  /** `a` is `b` with some elements left out, the rest in the same order. */
  predicate IsSubsequence(a: seq<StoredGradedTest>, b: seq<StoredGradedTest>)
  {
    if a == [] then true
    else if b == [] then false
    else if a[0] == b[0] then IsSubsequence(a[1..], b[1..])
    else IsSubsequence(a, b[1..])
  }

  /** `list.filter(test => test.id !== testId)`: drops every test with that
      id, however many there are, keeps every other test as often as it
      occurs, and keeps their relative order. */
  function RemoveId(list: seq<StoredGradedTest>, testId: string): (r: seq<StoredGradedTest>)
    ensures forall t :: t in r ==> t.id != testId
    ensures forall t: StoredGradedTest :: t.id != testId ==> multiset(r)[t] == multiset(list)[t]
    ensures IsSubsequence(r, list)
    ensures (forall t :: t in list ==> t.id != testId) ==> r == list
  {
    if list == [] then []
    else
      var rest := RemoveId(list[1..], testId);
      assert list == [list[0]] + list[1..];
      if list[0].id == testId then
        assert rest == [] || rest[0] != list[0];
        rest
      else
        assert ([list[0]] + rest)[1..] == rest;
        [list[0]] + rest
  }

  /** What the page body shows. */
  datatype PageBody = LoadingMessage | List(view: ListView)

  /** The page: whether the "Clear All Tests" control is offered, and the body. */
  datatype PageView = PageView(clearAllOffered: bool, body: PageBody)

  /** Deleting through a card's own delete action removes the test the card
      shows, and every other test with that id. */
  lemma {:induction false} DeleteThroughCard(list: seq<StoredGradedTest>, cards: seq<TestCard>, i: nat)
    requires i < |cards| && cards == CardsFor(list)
    ensures cards[i].test == list[i]
    ensures cards[i].test !in RemoveId(list, cards[i].deleteId)
    ensures forall t: StoredGradedTest :: t.id == list[i].id ==> t !in RemoveId(list, cards[i].deleteId)
  {
    assert cards[i] == CardFor(list[i]);
  }

  class GradedTestsPage {
    var stored: TestsSlot
    var gradedList: array<StoredGradedTest>
    var isLoading: bool

    /** The page as first rendered: an empty list, still loading. */
    constructor (stored: TestsSlot)
      ensures this.stored == stored && gradedList.Length == 0 && isLoading
      ensures fresh(gradedList)
    {
      this.stored := stored;
      gradedList := new StoredGradedTest[0];
      isLoading := true;
    }

    /** The mount-time effect: takes the stored list when the key holds
        one, keeps the current (empty) list otherwise, and stops loading on
        every path. */
    method Load()
      modifies this
      ensures stored == old(stored) && !isLoading
      ensures old(stored).Stored? ==> fresh(gradedList) && gradedList[..] == old(stored).list
      ensures !old(stored).Stored? ==> gradedList == old(gradedList)
    {
      match stored {
        case Stored(list) =>
          gradedList := new StoredGradedTest[|list|](k requires 0 <= k < |list| => list[k]);
          assert gradedList[..] == list;
        case Missing =>
        case Corrupt =>
      }
      isLoading := false;
    }

    /** `handleDeleteTest`: the list without the tests carrying `testId`
        becomes both the stored list and the page's list. */
    method DeleteTest(testId: string)
      modifies this
      ensures fresh(gradedList) && isLoading == old(isLoading)
      ensures gradedList[..] == RemoveId(old(gradedList[..]), testId)
      ensures stored == Stored(gradedList[..])
    {
      var updated := RemoveId(gradedList[..], testId);
      stored := Stored(updated);
      gradedList := new StoredGradedTest[|updated|](k requires 0 <= k < |updated| => updated[k]);
      assert gradedList[..] == updated;
    }

    /** `handleClearAllTests`: the key is removed and the list is empty. */
    method ClearAllTests()
      modifies this
      ensures stored == Missing && gradedList.Length == 0 && fresh(gradedList)
      ensures isLoading == old(isLoading)
    {
      stored := Missing;
      gradedList := new StoredGradedTest[0];
    }

    /** Renders the page. The list component sorts the page's own array in
        place, so after rendering the page's list is newest first. */
    method Render() returns (v: PageView)
      modifies gradedList
      ensures v.clearAllOffered <==> gradedList.Length > 0
      ensures multiset(gradedList[..]) == multiset(old(gradedList[..]))
      ensures isLoading ==> v.body == LoadingMessage && gradedList[..] == old(gradedList[..])
      ensures !isLoading ==> v.body.List? && (gradedList.Length == 0 <==> v.body.view == EmptyState)
      ensures !isLoading && gradedList.Length > 0 ==>
                NewestFirst(gradedList[..]) && v.body.view == Cards(CardsFor(gradedList[..]))
    {
      var offered := gradedList.Length > 0;
      if isLoading {
        v := PageView(offered, LoadingMessage);
      } else {
        var view := GradedTestsList.GradedTestsList(gradedList);
        v := PageView(offered, List(view));
      }
    }
  }
}
