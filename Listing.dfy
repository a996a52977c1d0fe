/** Which cards the list shows and in what order: the visibility test of
    `applyFilters` and the comparator of `renderResources`. */
module Listing {

  import opened Text
  import opened Records
  import opened Sorting

  /** No category selected, or the resource's category is the selected one. */
  predicate MatchesCategory(r: Resource, category: string)
  {
    category == "" || r.category == category
  }

  /** The fields the search looks in, in the order it tries them. */
  function SearchFields(r: Resource): seq<string>
  {
    [r.title, r.category, r.notes, r.url, r.email]
  }

  /** One field matches when it is non-empty and its lower-cased text contains the query. */
  predicate FieldMatches(field: string, query: string)
  {
    field != "" && Contains(Lower(field), query)
  }

  /** `fields.some(field => field && field.toLowerCase().includes(query))`. */
  predicate SomeFieldMatches(fields: seq<string>, query: string)
    decreases |fields|
  {
    fields != [] && (FieldMatches(fields[0], query) || SomeFieldMatches(fields[1..], query))
  }

  /** An empty query matches everything, otherwise some field must match. */
  predicate MatchesSearch(r: Resource, query: string)
  {
    query == "" || SomeFieldMatches(SearchFields(r), query)
  }

  /** Whether the card of `r` is shown under search `query` and category filter `category`. */
  predicate Visible(r: Resource, query: string, category: string)
  {
    MatchesCategory(r, category) && MatchesSearch(r, query)
  }

  lemma {:induction false} SomeFieldMatchesIff(fields: seq<string>, query: string)
    ensures SomeFieldMatches(fields, query) <==> exists k :: 0 <= k < |fields| && FieldMatches(fields[k], query)
    decreases |fields|
  {
    if fields != [] {
      SomeFieldMatchesIff(fields[1..], query);
      if exists k :: 0 <= k < |fields| && FieldMatches(fields[k], query) {
        var k :| 0 <= k < |fields| && FieldMatches(fields[k], query);
        if k > 0 {
          assert fields[1..][k - 1] == fields[k];
        }
      }
      if SomeFieldMatches(fields[1..], query) && !FieldMatches(fields[0], query) {
        var k :| 0 <= k < |fields[1..]| && FieldMatches(fields[1..][k], query);
        assert fields[k + 1] == fields[1..][k];
      }
    }
  }

  /** A card is visible exactly when the category filter is off or equal to the
      resource's category, and the query is empty or occurs, ignoring case, in
      the title, category, notes, URL or email. */
  lemma VisibleIff(r: Resource, query: string, category: string)
    ensures Visible(r, query, category)
        <==> && (category == "" || r.category == category)
             && (query == "" || exists k :: 0 <= k < 5 && SearchFields(r)[k] != "" && Contains(Lower(SearchFields(r)[k]), query))
  {
    SomeFieldMatchesIff(SearchFields(r), query);
  }

  /** With no query and no category every card is shown. */
  lemma NoFilterShowsAll(r: Resource)
    ensures Visible(r, "", "")
  {
  }

  /** Typing more characters into the search box can only hide cards, never reveal one. */
  lemma {:induction false} NarrowingQueryOnlyHides(r: Resource, query: string, more: string, category: string)
    requires Visible(r, query + more, category)
    ensures Visible(r, query, category)
  {
    if query != "" {
      assert |query + more| == |query| + |more|;
      SomeFieldMatchesIff(SearchFields(r), query + more);
      var k :| 0 <= k < 5 && FieldMatches(SearchFields(r)[k], query + more);
      ContainsExtended(Lower(SearchFields(r)[k]), query, more);
      SomeFieldMatchesIff(SearchFields(r), query);
    }
  }

  /** The fields are lower-cased before the test and the query is not, so a
      query holding an upper-case letter matches nothing: the search box lower-
      cases what the user types before it becomes the query. */
  lemma UpperCaseQueryMatchesNothing(r: Resource, query: string, i: nat)
    requires i < |query| && 'A' <= query[i] <= 'Z'
    ensures !MatchesSearch(r, query)
  {
    SomeFieldMatchesIff(SearchFields(r), query);
    forall k | 0 <= k < 5 ensures !FieldMatches(SearchFields(r)[k], query) {
      var low := Lower(SearchFields(r)[k]);
      ContainsIffOccurs(low, query);
      forall p: nat | p + |query| <= |low| ensures !OccursAt(low, query, p) {
        assert low[p..p + |query|][i] == low[p + i];
      }
    }
  }

  /** 1 for a pinned resource, 0 otherwise (JavaScript's `true - false`). */
  function PinRank(r: Resource): int
  {
    if r.pinned then 1 else 0
  }

  /** `(b.pinned - a.pinned) || (b.createdAt - a.createdAt)`: negative when `a`
      is shown before `b`. */
  function Compare(a: Resource, b: Resource): int
  {
    var byPin := PinRank(b) - PinRank(a);
    if byPin != 0 then byPin else b.createdAt - a.createdAt
  }

  /** The comparator puts pinned resources first and, among equally pinned
      ones, the newer first; swapping its arguments negates it. */
  lemma CompareMeaning(a: Resource, b: Resource)
    ensures Compare(a, b) < 0 <==> (a.pinned && !b.pinned) || (a.pinned == b.pinned && a.createdAt > b.createdAt)
    ensures Compare(a, b) == 0 <==> a.pinned == b.pinned && a.createdAt == b.createdAt
    ensures Compare(a, b) == -Compare(b, a)
  {
  }

  /** A resource of the list with its position in `this.resources`, as the
      cards carry it in `data-index`. */
  datatype Entry = Entry(resource: Resource, originalIndex: nat)

  /** `a` may be shown before `b`. */
  predicate ShownBefore(a: Entry, b: Entry)
  {
    Compare(a.resource, b.resource) <= 0
  }

  /** The comparator is consistent, so sorting by it is well defined. */
  lemma ShownBeforeIsTotalPreorder()
    ensures TotalPreorder(ShownBefore)
  {
    forall a: Entry, b: Entry, c: Entry | ShownBefore(a, b) && ShownBefore(b, c)
      ensures ShownBefore(a, c)
    {
      CompareMeaning(a.resource, b.resource);
      CompareMeaning(b.resource, c.resource);
      CompareMeaning(a.resource, c.resource);
    }
  }

  /** `resources.map((resource, originalIndex) => ({...resource, originalIndex}))`. */
  function Indexed(rs: seq<Resource>): (es: seq<Entry>)
    ensures |es| == |rs|
    ensures forall i :: 0 <= i < |rs| ==> es[i] == Entry(rs[i], i)
  {
    seq(|rs|, i requires 0 <= i < |rs| => Entry(rs[i], i))
  }

  /** The position a card's resource has in `this.resources`. */
  function OriginalIndex(e: Entry): int
  {
    e.originalIndex
  }

  /** The order in which `renderResources` lays out the cards. The sort is
      stable, as `Array.prototype.sort` is, so resources the comparator
      ties keep their order in the list. */
  function DisplayOrder(rs: seq<Resource>): (order: seq<Entry>)
    ensures multiset(order) == multiset(Indexed(rs))
    ensures forall i, j :: 0 <= i < j < |order| ==> ShownBefore(order[i], order[j])
    ensures forall i, j :: 0 <= i < j < |order| && Compare(order[i].resource, order[j].resource) == 0 ==>
      order[i].originalIndex < order[j].originalIndex
  {
    var indexed := Indexed(rs);
    ShownBeforeIsTotalPreorder();
    SortSorted(indexed, ShownBefore);
    SortStable(indexed, ShownBefore, OriginalIndex);
    var order := Sort(indexed, ShownBefore);
    assert forall i, j :: 0 <= i < j < |order| && Compare(order[i].resource, order[j].resource) == 0 ==>
      ShownBefore(order[i], order[j]) && ShownBefore(order[j], order[i]);
    order
  }

  /** Every resource gets exactly one card, carrying its own index, and the
      cards show every pinned resource before every unpinned one and, within
      each group, newer before older; resources created at the same instant
      keep their order in the list. */
  lemma DisplayOrderCards(rs: seq<Resource>)
    ensures var order := DisplayOrder(rs);
      && |order| == |rs|
      && (forall i :: 0 <= i < |rs| ==> Entry(rs[i], i) in order)
      && (forall e :: e in order ==> e.originalIndex < |rs| && rs[e.originalIndex] == e.resource)
      && (forall i, j :: 0 <= i < j < |order| && order[j].resource.pinned ==> order[i].resource.pinned)
      && (forall i, j :: 0 <= i < j < |order| && order[i].resource.pinned == order[j].resource.pinned
            ==> order[i].resource.createdAt >= order[j].resource.createdAt)
      && (forall i, j :: 0 <= i < j < |order| && order[i].resource.pinned == order[j].resource.pinned
            && order[i].resource.createdAt == order[j].resource.createdAt
            ==> order[i].originalIndex < order[j].originalIndex)
  {
    var order := DisplayOrder(rs);
    var indexed := Indexed(rs);
    assert |order| == |multiset(order)| == |multiset(indexed)| == |rs|;
    forall i | 0 <= i < |rs| ensures Entry(rs[i], i) in order {
      assert indexed[i] in multiset(indexed);
    }
    forall e | e in order ensures e.originalIndex < |rs| && rs[e.originalIndex] == e.resource {
      assert e in multiset(indexed);
    }
    forall i, j | 0 <= i < j < |order| ensures
      && (order[j].resource.pinned ==> order[i].resource.pinned)
      && (order[i].resource.pinned == order[j].resource.pinned ==> order[i].resource.createdAt >= order[j].resource.createdAt)
      && (Compare(order[i].resource, order[j].resource) == 0 <==>
            order[i].resource.pinned == order[j].resource.pinned && order[i].resource.createdAt == order[j].resource.createdAt)
    {
      CompareMeaning(order[i].resource, order[j].resource);
    }
  }
}
