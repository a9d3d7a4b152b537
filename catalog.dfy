/** The fixed product catalog and the two views derived from it: the list
    of products matching the search and category filters, and the list of
    selectable categories. */
module Catalog {
  import opened Text
  import opened Seqs

  /** A catalog record. The price is a whole number of cents; `image` is the
      opaque name of the picture shown on the card. */
  datatype Product = Product(id: int, name: string, price: nat, category: string, image: string)

  /** The catalog, created once and never changed. */
  const Products: seq<Product> := [
    Product(1, "Laptop", 99999, "Electronics", "laptop.jpg"),
    Product(2, "Smartphone", 69999, "Electronics", "smartphone.jpg"),
    Product(3, "Headphones", 14999, "Electronics", "headphone.jpg"),
    Product(4, "T-shirt", 1999, "Clothing", "tshirt.jpg"),
    Product(5, "Jeans", 4999, "Clothing", "jeans.jpg"),
    Product(6, "Sneakers", 7999, "Footwear", "sneakers.jpg")
  ]

  predicate IdsDistinct(ps: seq<Product>) {
    forall i, j :: 0 <= i < j < |ps| ==> ps[i].id != ps[j].id
  }

  /** The ids of the catalog are pairwise distinct, so they can key the
      cards of the product grid. */
  lemma CatalogIdsDistinct()
    ensures IdsDistinct(Products)
  {
  }

  /** The filter predicate: the lower-cased name contains the lower-cased
      search term, and the category equals the filter unless the filter is
      empty. */
  predicate Matches(p: Product, searchTerm: string, categoryFilter: string)
    ensures Matches(p, searchTerm, categoryFilter) <==>
              (exists i :: OccursAt(ToLower(p.name), ToLower(searchTerm), i)) &&
              (categoryFilter == "" || p.category == categoryFilter)
  {
    IncludesIff(ToLower(p.name), ToLower(searchTerm));
    Includes(ToLower(p.name), ToLower(searchTerm)) &&
    (categoryFilter == "" || p.category == categoryFilter)
  }

  /** `products.filter(...)`: the matching products, in catalog order. */
  function FilterProducts(ps: seq<Product>, searchTerm: string, categoryFilter: string): (r: seq<Product>)
    ensures |r| <= |ps|
  {
    if ps == [] then []
    else
      (if Matches(ps[0], searchTerm, categoryFilter) then [ps[0]] else [])
      + FilterProducts(ps[1..], searchTerm, categoryFilter)
  }

  /** The search is case-insensitive: a search term and its lower-cased
      form find the same products. */
  lemma MatchesIgnoresCase(p: Product, searchTerm: string, categoryFilter: string)
    ensures Matches(p, searchTerm, categoryFilter) <==> Matches(p, ToLower(searchTerm), categoryFilter)
  {
    ToLowerIdempotent(searchTerm);
  }

  /** Each product occurs in the filtered list as often as in the catalog
      when it matches, and not at all when it does not. */
  lemma {:induction false} FilterCounts(ps: seq<Product>, searchTerm: string, categoryFilter: string)
    ensures forall p :: multiset(FilterProducts(ps, searchTerm, categoryFilter))[p] ==
              if Matches(p, searchTerm, categoryFilter) then multiset(ps)[p] else 0
  {
    if ps != [] {
      FilterCounts(ps[1..], searchTerm, categoryFilter);
      assert ps == [ps[0]] + ps[1..];
    }
  }

  /** A product is in the filtered list if and only if it is in the catalog
      and matches both filters. */
  lemma {:induction false} FilterMembership(ps: seq<Product>, searchTerm: string, categoryFilter: string)
    ensures forall p :: p in FilterProducts(ps, searchTerm, categoryFilter) <==>
              p in ps && Matches(p, searchTerm, categoryFilter)
  {
    FilterCounts(ps, searchTerm, categoryFilter);
    forall p
      ensures p in FilterProducts(ps, searchTerm, categoryFilter) <==>
              p in ps && Matches(p, searchTerm, categoryFilter)
    {
      assert p in FilterProducts(ps, searchTerm, categoryFilter) <==>
             multiset(FilterProducts(ps, searchTerm, categoryFilter))[p] > 0;
      assert p in ps <==> multiset(ps)[p] > 0;
    }
  }

  /** The filtered list is the catalog with some products left out and the
      rest kept in catalog order. */
  lemma {:induction false} FilterIsSubsequence(ps: seq<Product>, searchTerm: string, categoryFilter: string)
    ensures IsSubsequence(FilterProducts(ps, searchTerm, categoryFilter), ps)
  {
    if ps != [] {
      var rest := FilterProducts(ps[1..], searchTerm, categoryFilter);
      FilterIsSubsequence(ps[1..], searchTerm, categoryFilter);
      if Matches(ps[0], searchTerm, categoryFilter) {
        assert ([ps[0]] + rest)[1..] == rest;
      } else {
        assert FilterProducts(ps, searchTerm, categoryFilter) == rest;
      }
    }
  }

  /** With an empty search term and no category filter the whole catalog is
      shown. */
  lemma {:induction false} FilterNoCriteria(ps: seq<Product>)
    ensures FilterProducts(ps, "", "") == ps
  {
    if ps != [] {
      FilterNoCriteria(ps[1..]);
      assert ToLower("") == "";
      assert Matches(ps[0], "", "");
      assert ps == [ps[0]] + ps[1..];
    }
  }

  /** `categories`: the distinct categories of the catalog, in the order
      they first occur. */
  function CategoriesOf(ps: seq<Product>): (r: seq<string>)
    ensures NoDuplicates(r) && |r| <= |ps|
  {
    var cs := seq(|ps|, i requires 0 <= i < |ps| => ps[i].category);
    DistinctNoLonger(cs);
    Distinct(cs)
  }

  /** The category list has no duplicates, holds exactly the categories of
      the catalog, and lists them in order of first occurrence. */
  lemma CategoriesSpec(ps: seq<Product>)
    ensures NoDuplicates(CategoriesOf(ps))
    ensures forall c :: c in CategoriesOf(ps) <==> exists i :: 0 <= i < |ps| && ps[i].category == c
    ensures forall i, j :: 0 <= i < j < |CategoriesOf(ps)| ==>
              IndexOf(seq(|ps|, k requires 0 <= k < |ps| => ps[k].category), CategoriesOf(ps)[i]) <
              IndexOf(seq(|ps|, k requires 0 <= k < |ps| => ps[k].category), CategoriesOf(ps)[j])
  {
    var cs := seq(|ps|, k requires 0 <= k < |ps| => ps[k].category);
    DistinctFirstOccurrenceOrder(cs);
    forall c ensures c in cs <==> exists i :: 0 <= i < |ps| && ps[i].category == c {
      if c in cs {
        var i :| 0 <= i < |cs| && cs[i] == c;
        assert ps[i].category == c;
      }
      if exists i :: 0 <= i < |ps| && ps[i].category == c {
        var i :| 0 <= i < |ps| && ps[i].category == c;
        assert cs[i] == c;
      }
    }
  }

  /** A category that no product has, chosen as the filter, hides every
      product. */
  lemma FilterUnknownCategory(ps: seq<Product>, searchTerm: string, categoryFilter: string)
    requires categoryFilter != "" && categoryFilter !in CategoriesOf(ps)
    ensures FilterProducts(ps, searchTerm, categoryFilter) == []
  {
    CategoriesSpec(ps);
    FilterMembership(ps, searchTerm, categoryFilter);
    var r := FilterProducts(ps, searchTerm, categoryFilter);
    forall p | p in ps
      ensures p.category in CategoriesOf(ps)
    {
      var i :| 0 <= i < |ps| && ps[i] == p;
    }
    assert forall p :: p !in r;
  }

  /** A category from the list, chosen as the filter, shows only products of
      that category, and with an empty search term it shows at least one. */
  lemma FilterKnownCategory(ps: seq<Product>, searchTerm: string, categoryFilter: string)
    requires categoryFilter in CategoriesOf(ps)
    ensures forall p :: p in FilterProducts(ps, searchTerm, categoryFilter) ==>
              categoryFilter == "" || p.category == categoryFilter
    ensures FilterProducts(ps, "", categoryFilter) != []
  {
    FilterMembership(ps, searchTerm, categoryFilter);
    FilterMembership(ps, "", categoryFilter);
    CategoriesSpec(ps);
    var i :| 0 <= i < |ps| && ps[i].category == categoryFilter;
    assert ToLower("") == "";
    assert Matches(ps[i], "", categoryFilter);
    assert ps[i] in FilterProducts(ps, "", categoryFilter);
  }

  /** The category column of the catalog, in catalog order. */
  lemma CatalogCategoryColumn()
    ensures seq(|Products|, i requires 0 <= i < |Products| => Products[i].category) ==
            ["Electronics", "Electronics", "Electronics", "Clothing", "Clothing", "Footwear"]
  {
  }

  /** The category list of the catalog. */
  lemma CatalogCategories()
    ensures CategoriesOf(Products) == ["Electronics", "Clothing", "Footwear"]
  {
    var e, c, f := "Electronics", "Clothing", "Footwear";
    CatalogCategoryColumn();
    assert Distinct([e]) == [e] by { assert [e][..0] == []; }
    assert Distinct([e, e]) == [e] by { assert [e, e][..1] == [e]; }
    assert Distinct([e, e, e]) == [e] by { assert [e, e, e][..2] == [e, e]; }
    assert Distinct([e, e, e, c]) == [e, c] by { assert [e, e, e, c][..3] == [e, e, e]; }
    assert Distinct([e, e, e, c, c]) == [e, c] by { assert [e, e, e, c, c][..4] == [e, e, e, c]; }
    assert [e, e, e, c, c, f][..5] == [e, e, e, c, c];
  }
}
