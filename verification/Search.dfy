/** `removeDuplicates` of the property search, `src/repositories/properties.repository.ts`. */
module Search {
  import opened Wrappers
  import opened Entities

  /** The columns of the property itself; they repeat in every row of the join. */
  datatype Details = Details(
    id: Id, title: string, price: int, city: string, country: string, street: string, kind: string)

  /** A row of properties left joined with reviews; both review columns are null when there is no review. */
  datatype JoinRow = JoinRow(details: Details, reviewId: Option<string>, rating: Option<int>)

  datatype Review = Review(reviewId: string, rating: Option<int>)

  datatype Listing = Listing(details: Details, rating: Option<int>, reviews: seq<Review>)

  // ---------- The grouping, one row at a time ----------

  function ReviewOf(row: JoinRow): seq<Review> {
    match row.reviewId
    case None => []
    case Some(id) => [Review(id, row.rating)]
  }

  predicate HasListing(listings: seq<Listing>, id: Id) {
    exists k :: 0 <= k < |listings| && listings[k].details.id == id
  }

  function FindListing(listings: seq<Listing>, id: Id): (k: nat)
    requires HasListing(listings, id)
    ensures k < |listings| && listings[k].details.id == id
    ensures forall j :: 0 <= j < k ==> listings[j].details.id != id
  {
    if listings[0].details.id == id then 0
    else
      assert HasListing(listings[1..], id) by {
        var k :| 0 <= k < |listings| && listings[k].details.id == id;
        assert listings[1..][k - 1] == listings[k];
      }
      1 + FindListing(listings[1..], id)
  }

  function AddRow(listings: seq<Listing>, row: JoinRow): seq<Listing> {
    if !HasListing(listings, row.details.id) then
      listings + [Listing(row.details, row.rating, ReviewOf(row))]
    else
      var k := FindListing(listings, row.details.id);
      listings[k := listings[k].(reviews := listings[k].reviews + ReviewOf(row))]
  }

  function GroupRows(rows: seq<JoinRow>): seq<Listing> {
    if rows == [] then [] else AddRow(GroupRows(rows[..|rows| - 1]), rows[|rows| - 1])
  }

  lemma {:induction false} FoundAt(listings: seq<Listing>, id: Id, k: nat)
    requires k <= |listings|
    requires forall j :: 0 <= j < k ==> listings[j].details.id != id
    requires k < |listings| ==> listings[k].details.id == id
    ensures HasListing(listings, id) <==> k < |listings|
    ensures k < |listings| ==> FindListing(listings, id) == k
  {
  }

  method RemoveDuplicates(properties: seq<JoinRow>) returns (result: seq<Listing>)
    ensures result == GroupRows(properties)
  {
    result := [];
    for i := 0 to |properties|
      invariant result == GroupRows(properties[..i])
    {
      var property := properties[i];
      assert properties[..i + 1][..i] == properties[..i];
      var k := 0;
      while k < |result| && result[k].details.id != property.details.id
        invariant k <= |result|
        invariant forall j :: 0 <= j < k ==> result[j].details.id != property.details.id
      {
        k := k + 1;
      }
      FoundAt(result, property.details.id, k);
      if k == |result| {
        var reviews := if property.reviewId.Some? then [Review(property.reviewId.value, property.rating)] else [];
        result := result + [Listing(property.details, property.rating, reviews)];
      } else if property.reviewId.Some? {
        var existing := result[k];
        var pushed := existing.reviews + [Review(property.reviewId.value, property.rating)];
        result := result[k := existing.(reviews := pushed)];
      } else {
        assert result[k].reviews + ReviewOf(property) == result[k].reviews;
        assert result[k := result[k]] == result;
      }
    }
    assert properties[..|properties|] == properties;
  }

  // ---------- What the grouping means ----------

  /** Ids in the order in which they first occur. */
  function FirstOccurrences(rows: seq<JoinRow>): seq<Id> {
    if rows == [] then []
    else
      var seen := FirstOccurrences(rows[..|rows| - 1]);
      var id := rows[|rows| - 1].details.id;
      if id in seen then seen else seen + [id]
  }

  /** The reviews in the rows of one property, in row order. */
  function ReviewsIn(rows: seq<JoinRow>, id: Id): seq<Review> {
    if rows == [] then []
    else
      var last := rows[|rows| - 1];
      ReviewsIn(rows[..|rows| - 1], id) + if last.details.id == id then ReviewOf(last) else []
  }

  function Ids(listings: seq<Listing>): (ids: seq<Id>)
    ensures |ids| == |listings| && forall k :: 0 <= k < |listings| ==> ids[k] == listings[k].details.id
  {
    seq(|listings|, k requires 0 <= k < |listings| => listings[k].details.id)
  }

  predicate IsFirstRow(rows: seq<JoinRow>, i: int, details: Details, rating: Option<int>) {
    && 0 <= i < |rows| && rows[i].details == details && rows[i].rating == rating
    && forall j :: 0 <= j < i ==> rows[j].details.id != details.id
  }

  /** The listing describes the first row of its id and carries exactly the reviews of its rows, in order. */
  ghost predicate Describes(listing: Listing, rows: seq<JoinRow>) {
    && listing.reviews == ReviewsIn(rows, listing.details.id)
    && exists i :: IsFirstRow(rows, i, listing.details, listing.rating)
  }

  lemma {:induction false} FirstOccurrencesAreDistinct(rows: seq<JoinRow>)
    ensures forall k, l :: 0 <= k < l < |FirstOccurrences(rows)| ==>
            FirstOccurrences(rows)[k] != FirstOccurrences(rows)[l]
    ensures forall id :: id in FirstOccurrences(rows) <==> exists i :: 0 <= i < |rows| && rows[i].details.id == id
  {
    if rows != [] {
      var init, last := rows[..|rows| - 1], rows[|rows| - 1];
      FirstOccurrencesAreDistinct(init);
      forall id ensures id in FirstOccurrences(rows) <==> exists i :: 0 <= i < |rows| && rows[i].details.id == id {
        assert id in FirstOccurrences(rows) <==> id in FirstOccurrences(init) || id == last.details.id;
        assert rows[|init|] == last;
        assert forall i :: 0 <= i < |init| ==> init[i] == rows[i];
      }
    }
  }

  lemma {:induction false} GroupingKeepsFirstOccurrences(rows: seq<JoinRow>)
    ensures Ids(GroupRows(rows)) == FirstOccurrences(rows)
  {
    if rows != [] {
      GroupingKeepsFirstOccurrences(rows[..|rows| - 1]);
      var before, id := GroupRows(rows[..|rows| - 1]), rows[|rows| - 1].details.id;
      assert HasListing(before, id) <==> id in Ids(before);
    }
  }

  /** Listings not named by the new row still describe the table. */
  lemma {:induction false} DescribesMore(listing: Listing, init: seq<JoinRow>, last: JoinRow)
    requires Describes(listing, init) && listing.details.id != last.details.id
    ensures Describes(listing, init + [last])
  {
    var rows := init + [last];
    assert rows[..|rows| - 1] == init;
    var i :| IsFirstRow(init, i, listing.details, listing.rating);
    assert IsFirstRow(rows, i, listing.details, listing.rating);
  }

  lemma {:induction false} DescribesExtended(listing: Listing, init: seq<JoinRow>, last: JoinRow)
    requires Describes(listing, init) && listing.details.id == last.details.id
    ensures Describes(listing.(reviews := listing.reviews + ReviewOf(last)), init + [last])
  {
    var rows := init + [last];
    assert rows[..|rows| - 1] == init;
    var i :| IsFirstRow(init, i, listing.details, listing.rating);
    assert IsFirstRow(rows, i, listing.details, listing.rating);
  }

  lemma {:induction false} NoReviewsWithoutRows(rows: seq<JoinRow>, id: Id)
    ensures (forall i :: 0 <= i < |rows| ==> rows[i].details.id != id) ==> ReviewsIn(rows, id) == []
  {
    if rows != [] {
      NoReviewsWithoutRows(rows[..|rows| - 1], id);
    }
  }

  lemma {:induction false} DescribesNew(init: seq<JoinRow>, last: JoinRow)
    requires forall i :: 0 <= i < |init| ==> init[i].details.id != last.details.id
    ensures Describes(Listing(last.details, last.rating, ReviewOf(last)), init + [last])
  {
    var rows := init + [last];
    assert rows[..|rows| - 1] == init;
    NoReviewsWithoutRows(init, last.details.id);
    assert IsFirstRow(rows, |init|, last.details, last.rating);
  }

  lemma {:induction false} EveryListingDescribes(rows: seq<JoinRow>)
    ensures forall k :: 0 <= k < |GroupRows(rows)| ==> Describes(GroupRows(rows)[k], rows)
  {
    if rows != [] {
      var init, last := rows[..|rows| - 1], rows[|rows| - 1];
      var before, after := GroupRows(init), GroupRows(rows);
      assert rows == init + [last];
      EveryListingDescribes(init);
      GroupingKeepsFirstOccurrences(init);
      FirstOccurrencesAreDistinct(init);
      forall k | 0 <= k < |after| ensures Describes(after[k], rows) {
        if k == |before| {
          assert forall i :: 0 <= i < |init| ==> init[i].details.id in Ids(before);
          DescribesNew(init, last);
        } else if before[k].details.id == last.details.id {
          assert Ids(before)[k] == last.details.id;
          assert Ids(before)[FindListing(before, last.details.id)] == last.details.id;
          DescribesExtended(before[k], init, last);
        } else {
          DescribesMore(before[k], init, last);
        }
      }
    }
  }

  /** One listing per id in order of first occurrence, described by its first row, with exactly its reviews in order. */
  lemma {:induction false} GroupingIsExact(rows: seq<JoinRow>)
    ensures Ids(GroupRows(rows)) == FirstOccurrences(rows)
    ensures forall k, l :: 0 <= k < l < |GroupRows(rows)| ==>
            GroupRows(rows)[k].details.id != GroupRows(rows)[l].details.id
    ensures forall i :: 0 <= i < |rows| ==> rows[i].details.id in Ids(GroupRows(rows))
    ensures forall k :: 0 <= k < |GroupRows(rows)| ==> Describes(GroupRows(rows)[k], rows)
  {
    GroupingKeepsFirstOccurrences(rows);
    FirstOccurrencesAreDistinct(rows);
    EveryListingDescribes(rows);
    var listings := GroupRows(rows);
    forall k, l | 0 <= k < l < |listings| ensures listings[k].details.id != listings[l].details.id {
      assert Ids(listings)[k] != Ids(listings)[l];
    }
  }

  // ---------- Undoing the join ----------

  /** Rows that a left join can give: details depend on the id, and a row without a review is alone for its id. */
  predicate IsLeftJoin(rows: seq<JoinRow>) {
    && (forall i, j :: 0 <= i < |rows| && 0 <= j < |rows| && rows[i].details.id == rows[j].details.id ==>
          rows[i].details == rows[j].details)
    && (forall i, j :: 0 <= i < |rows| && 0 <= j < |rows| && i != j && rows[i].details.id == rows[j].details.id ==>
          rows[i].reviewId.Some?)
  }

  function RowsOf(listing: Listing): seq<JoinRow> {
    if listing.reviews == [] then [JoinRow(listing.details, None, listing.rating)]
    else seq(|listing.reviews|, r requires 0 <= r < |listing.reviews| =>
           JoinRow(listing.details, Some(listing.reviews[r].reviewId), listing.reviews[r].rating))
  }

  function Flatten(listings: seq<Listing>): seq<JoinRow> {
    if listings == [] then [] else Flatten(listings[..|listings| - 1]) + RowsOf(listings[|listings| - 1])
  }

  function Pile<T>(bags: seq<multiset<T>>): multiset<T> {
    if bags == [] then multiset{} else Pile(bags[..|bags| - 1]) + bags[|bags| - 1]
  }

  lemma {:induction false} PileReplaced<T>(bags: seq<multiset<T>>, k: nat, bag: multiset<T>, x: T)
    requires k < |bags| && bag == bags[k] + multiset{x}
    ensures Pile(bags[k := bag]) == Pile(bags) + multiset{x}
  {
    var n := |bags| - 1;
    if k == n {
      assert bags[k := bag][..n] == bags[..n];
    } else {
      assert bags[k := bag][..n] == bags[..n][k := bag];
      PileReplaced(bags[..n], k, bag, x);
    }
  }

  function Bags(listings: seq<Listing>): (bags: seq<multiset<JoinRow>>)
    ensures |bags| == |listings| && forall k :: 0 <= k < |listings| ==> bags[k] == multiset(RowsOf(listings[k]))
  {
    seq(|listings|, k requires 0 <= k < |listings| => multiset(RowsOf(listings[k])))
  }

  lemma {:induction false} FlattenIsPile(listings: seq<Listing>)
    ensures multiset(Flatten(listings)) == Pile(Bags(listings))
  {
    if listings != [] {
      var n := |listings| - 1;
      FlattenIsPile(listings[..n]);
      assert Bags(listings)[..n] == Bags(listings[..n]);
    }
  }

  lemma {:induction false} BagsReplaced(listings: seq<Listing>, k: nat, longer: Listing)
    requires k < |listings|
    ensures Bags(listings[k := longer]) == Bags(listings)[k := multiset(RowsOf(longer))]
  {
  }

  lemma {:induction false} FlattenExtended(listings: seq<Listing>, k: nat, longer: Listing, row: JoinRow)
    requires k < |listings|
    requires multiset(RowsOf(longer)) == multiset(RowsOf(listings[k])) + multiset{row}
    ensures multiset(Flatten(listings[k := longer])) == multiset(Flatten(listings)) + multiset{row}
  {
    FlattenIsPile(listings);
    FlattenIsPile(listings[k := longer]);
    BagsReplaced(listings, k, longer);
    PileReplaced(Bags(listings), k, multiset(RowsOf(longer)), row);
  }

  lemma {:induction false} ReviewedRowsLeaveReviews(rows: seq<JoinRow>, i: nat)
    requires i < |rows| && rows[i].reviewId.Some?
    ensures ReviewsIn(rows, rows[i].details.id) != []
  {
    if i < |rows| - 1 {
      ReviewedRowsLeaveReviews(rows[..|rows| - 1], i);
    }
  }

  lemma {:induction false} ReviewedListingGrows(listing: Listing, row: JoinRow)
    requires listing.reviews != [] && row.reviewId.Some? && row.details == listing.details
    ensures RowsOf(listing.(reviews := listing.reviews + ReviewOf(row))) == RowsOf(listing) + [row]
  {
  }

  lemma {:induction false} ExistingListingGrows(init: seq<JoinRow>, last: JoinRow)
    requires IsLeftJoin(init + [last])
    requires HasListing(GroupRows(init), last.details.id)
    ensures multiset(Flatten(AddRow(GroupRows(init), last))) == multiset(Flatten(GroupRows(init))) + multiset{last}
  {
    var before, rows := GroupRows(init), init + [last];
    var k := FindListing(before, last.details.id);
    EveryListingDescribes(init);
    var i :| IsFirstRow(init, i, before[k].details, before[k].rating);
    assert rows[i] == init[i] && rows[|init|] == last;
    ReviewedRowsLeaveReviews(init, i);
    ReviewedListingGrows(before[k], last);
    assert multiset(RowsOf(before[k]) + [last]) == multiset(RowsOf(before[k])) + multiset{last};
    FlattenExtended(before, k, before[k].(reviews := before[k].reviews + ReviewOf(last)), last);
  }

  lemma {:induction false} NewListingIsTheRow(before: seq<Listing>, last: JoinRow)
    requires !HasListing(before, last.details.id)
    ensures Flatten(AddRow(before, last)) == Flatten(before) + [last]
  {
    var added := Listing(last.details, last.rating, ReviewOf(last));
    assert (before + [added])[..|before|] == before;
    assert RowsOf(added) == [last];
  }

  /** Flattening the listings gives back the joined rows, each as often as it occurred. */
  lemma {:induction false} GroupingUndoesTheJoin(rows: seq<JoinRow>)
    requires IsLeftJoin(rows)
    ensures multiset(Flatten(GroupRows(rows))) == multiset(rows)
  {
    if rows != [] {
      var init, last := rows[..|rows| - 1], rows[|rows| - 1];
      assert rows == init + [last];
      assert IsLeftJoin(init);
      GroupingUndoesTheJoin(init);
      if HasListing(GroupRows(init), last.details.id) {
        ExistingListingGrows(init, last);
      } else {
        NewListingIsTheRow(GroupRows(init), last);
      }
    }
  }
}
