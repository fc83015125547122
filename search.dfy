/** The search screen's state and list logic (app/search.tsx). */
module Search {
  import opened Types
  import opened Seqs
  import opened Text

  /** The recent searches a fresh screen starts with. */
  const InitialRecentSearches: seq<string> := ["Winter Collection", "Shoes", "Accessories"]

  /** A product matches when its lower-cased title, description or type includes the lower-cased
      query. */
  predicate MatchesQuery(product: Product, query: string)
  {
    var q := ToLower(query);
    Contains(ToLower(product.title), q) || Contains(ToLower(product.desc), q) || Contains(ToLower(product.typ), q)
  }

  /** `filteredProducts`. */
  function FilteredProducts(products: seq<Product>, query: string): seq<Product>
  {
    Filter(products, (p: Product) => MatchesQuery(p, query))
  }

  function Min(a: int, b: int): int
  {
    if a <= b then a else b
  }

  /** The recent-search update of `handleSearch`: put the trimmed query in front and keep at most
      four older entries, unless the trimmed query is blank or already listed. */
  function PushRecent(recent: seq<string>, query: string): seq<string>
  {
    var t := Trim(query);
    if t != "" && t !in recent then [t] + recent[..Min(4, |recent|)] else recent
  }

  /** The `removeRecentSearch` update. */
  function RemoveRecent(recent: seq<string>, search: string): seq<string>
  {
    Filter(recent, (s: string) => s != search)
  }

  /** The recent list's invariant: at most five entries, no duplicates, each a trimmed non-blank
      string. */
  ghost predicate RecentWellFormed(recent: seq<string>)
  {
    |recent| <= 5 && NoDuplicates(recent)
    && forall i :: 0 <= i < |recent| ==> recent[i] != "" && Trim(recent[i]) == recent[i]
  }

  lemma InitialRecentWellFormed()
    ensures RecentWellFormed(InitialRecentSearches)
  {
    var r := InitialRecentSearches;
    forall i | 0 <= i < |r| ensures r[i] != "" && Trim(r[i]) == r[i] {
      assert i == 0 || i == 1 || i == 2;
      TrimKeepsTrimmed(r[i]);
    }
  }

  // ---------------------------------------------------------------- product filter

  /** `filteredProducts` keeps exactly the matching products, each with all its occurrences, in
      their original order. */
  lemma FilteredProductsSpec(products: seq<Product>, query: string)
    ensures forall i :: 0 <= i < |FilteredProducts(products, query)| ==>
      MatchesQuery(FilteredProducts(products, query)[i], query)
    ensures forall i :: 0 <= i < |products| && MatchesQuery(products[i], query) ==>
      products[i] in FilteredProducts(products, query)
    ensures forall p :: multiset(FilteredProducts(products, query))[p] == (if MatchesQuery(p, query) then multiset(products)[p] else 0)
    ensures IsSubsequence(FilteredProducts(products, query), products)
  {
    var keep := (p: Product) => MatchesQuery(p, query);
    FilterIsSubsequence(products, keep);
    forall p ensures multiset(FilteredProducts(products, query))[p] == if MatchesQuery(p, query) then multiset(products)[p] else 0 {
      FilterMultiplicity(products, keep, p);
    }
  }

  /** An empty query keeps every product. */
  lemma EmptyQueryKeepsAll(products: seq<Product>)
    ensures FilteredProducts(products, "") == products
  {
    var keep := (p: Product) => MatchesQuery(p, "");
    forall i | 0 <= i < |products| ensures keep(products[i]) {
      ContainsEmpty(ToLower(products[i].title));
    }
    FilterKeepsAll(products, keep);
  }

  /** The filter ignores the case of ASCII letters in the query. */
  lemma QueryCaseInsensitive(products: seq<Product>, query: string)
    ensures FilteredProducts(products, ToLower(query)) == FilteredProducts(products, query)
  {
    ToLowerIdempotent(query);
    FilterCongruence(products, (p: Product) => MatchesQuery(p, ToLower(query)), (p: Product) => MatchesQuery(p, query));
  }

  // ---------------------------------------------------------------- recent searches

  /** `handleSearch` leaves the recent list exactly as it was when, and only when, the trimmed
      query is blank or already listed; otherwise the trimmed query comes first, followed by the
      newest entries of the old list, and the list stays within five entries when it was. */
  lemma PushRecentSpec(recent: seq<string>, query: string)
    ensures PushRecent(recent, query) == recent <==> Trim(query) == "" || Trim(query) in recent
    ensures Trim(query) != "" && Trim(query) !in recent ==>
      PushRecent(recent, query) == [Trim(query)] + recent[..Min(4, |recent|)]
    ensures Trim(query) != "" ==> Trim(query) in PushRecent(recent, query)
    ensures |recent| <= 5 ==> |PushRecent(recent, query)| <= 5
  {
    var t := Trim(query);
    if t != "" && t !in recent {
      var r := PushRecent(recent, query);
      assert r[0] == t;
    }
  }

  /** Repeating a search does not change the recent list again. */
  lemma PushRecentIdempotent(recent: seq<string>, query: string)
    ensures PushRecent(PushRecent(recent, query), query) == PushRecent(recent, query)
  {
    PushRecentSpec(recent, query);
  }

  /** `handleSearch` keeps the recent list's invariant. */
  lemma PushRecentPreservesWellFormed(recent: seq<string>, query: string)
    requires RecentWellFormed(recent)
    ensures RecentWellFormed(PushRecent(recent, query))
  {
    var t := Trim(query);
    if t != "" && t !in recent {
      var kept := recent[..Min(4, |recent|)];
      PrependNoDuplicates(t, kept);
      TrimIdempotent(query);
      assert forall i :: 0 <= i < |kept| ==> kept[i] == recent[i];
    }
  }

  lemma PrependNoDuplicates(t: string, kept: seq<string>)
    requires NoDuplicates(kept) && t !in kept
    ensures NoDuplicates([t] + kept)
  {
    var r := [t] + kept;
    forall i, j | 0 <= i < j < |r| ensures r[i] != r[j] {
      assert r[j] == kept[j - 1];
      if i > 0 {
        assert r[i] == kept[i - 1];
      }
    }
  }

  /** `removeRecentSearch` removes every occurrence of the search and keeps every other entry, with
      all its occurrences and in its original order. */
  lemma RemoveRecentSpec(recent: seq<string>, search: string)
    ensures search !in RemoveRecent(recent, search)
    ensures forall i :: 0 <= i < |recent| && recent[i] != search ==> recent[i] in RemoveRecent(recent, search)
    ensures IsSubsequence(RemoveRecent(recent, search), recent)
    ensures forall s :: multiset(RemoveRecent(recent, search))[s] == (if s != search then multiset(recent)[s] else 0)
    ensures search !in recent ==> RemoveRecent(recent, search) == recent
  {
    var keep := (s: string) => s != search;
    FilterIsSubsequence(recent, keep);
    forall s ensures multiset(RemoveRecent(recent, search))[s] == (if s != search then multiset(recent)[s] else 0) {
      FilterMultiplicity(recent, keep, s);
    }
    if search !in recent {
      FilterKeepsAll(recent, keep);
    }
  }

  /** `removeRecentSearch` keeps the recent list's invariant. */
  lemma RemoveRecentPreservesWellFormed(recent: seq<string>, search: string)
    requires RecentWellFormed(recent)
    ensures RecentWellFormed(RemoveRecent(recent, search))
  {
    FilterPreservesNoDuplicates(recent, (s: string) => s != search);
  }

  class SearchState {
    var searchQuery: string
    var recentSearches: seq<string>

    ghost predicate Valid()
      reads this
    {
      RecentWellFormed(recentSearches)
    }

    constructor ()
      ensures Valid()
      ensures searchQuery == "" && recentSearches == InitialRecentSearches
    {
      searchQuery := "";
      recentSearches := InitialRecentSearches;
      InitialRecentWellFormed();
    }

    /** `handleSearch`: the query is always stored as typed; the recent list takes the update. */
    method HandleSearch(query: string)
      requires Valid()
      modifies this
      ensures Valid()
      ensures searchQuery == query
      ensures recentSearches == PushRecent(old(recentSearches), query)
    {
      PushRecentPreservesWellFormed(recentSearches, query);
      searchQuery := query;
      recentSearches := PushRecent(recentSearches, query);
    }

    /** `clearSearch`: empties the query and leaves the recent list alone. */
    method ClearSearch()
      modifies this`searchQuery
      ensures searchQuery == ""
      ensures forall products :: Results(products) == products
    {
      searchQuery := "";
      forall products: seq<Product> ensures Results(products) == products {
        EmptyQueryKeepsAll(products);
      }
    }

    /** `removeRecentSearch`. */
    method RemoveRecentSearch(search: string)
      requires Valid()
      modifies this`recentSearches
      ensures Valid()
      ensures recentSearches == RemoveRecent(old(recentSearches), search)
    {
      RemoveRecentPreservesWellFormed(recentSearches, search);
      recentSearches := RemoveRecent(recentSearches, search);
    }

    /** The products shown for the current query. */
    function Results(products: seq<Product>): seq<Product>
      reads this
    {
      FilteredProducts(products, searchQuery)
    }
  }
}
