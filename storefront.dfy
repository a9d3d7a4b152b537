/** The product listing page's view-model: three state cells (the cart, the
    search term and the category filter), the operations that replace them,
    and the views derived from them on every render. */
module Storefront {
  import opened Seqs
  import opened Catalog
  import opened Cart

  class ProductListingPage {
    var cart: seq<Product>
    var searchTerm: string
    var categoryFilter: string

    /** Every cart entry is a catalog product. It holds while products are
        added from the product grid, which shows catalog products only. */
    ghost predicate Valid()
      reads this
    {
      forall p :: p in cart ==> p in Products
    }

    /** In a valid cart every entry carries one of the catalog's ids, 1 to 6. */
    lemma CartIdsFromCatalog()
      requires Valid()
      ensures forall k :: 0 <= k < |cart| ==> 1 <= cart[k].id <= |Products|
    {
      forall k | 0 <= k < |cart|
        ensures 1 <= cart[k].id <= |Products|
      {
        assert cart[k] in cart;
      }
    }

    /** A fresh page: empty cart, empty search term, all categories. */
    constructor ()
      ensures cart == [] && searchTerm == "" && categoryFilter == ""
      ensures Valid()
      ensures FilteredProducts() == Products
    {
      cart := [];
      searchTerm := "";
      categoryFilter := "";
      new;
      FilterNoCriteria(Products);
    }

    /** Appends `product` as a new line item, duplicates included. */
    method AddToCart(product: Product)
      modifies this
      ensures cart == old(cart) + [product]
      ensures searchTerm == old(searchTerm) && categoryFilter == old(categoryFilter)
      ensures CartTotal() == old(CartTotal()) + product.price
      ensures old(Valid()) && product in Products ==> Valid()
    {
      TotalAfterAdd(cart, product);
      cart := cart + [product];
    }

    /** Drops the line item at position `index`; any other index leaves the
        cart as it is. */
    method RemoveFromCart(index: int)
      modifies this
      ensures cart == WithoutIndex(old(cart), index)
      ensures 0 <= index < |old(cart)| ==> cart == old(cart)[..index] + old(cart)[index + 1..]
      ensures 0 <= index < |old(cart)| ==> CartTotal() == old(CartTotal()) - old(cart)[index].price
      ensures !(0 <= index < |old(cart)|) ==> cart == old(cart)
      ensures searchTerm == old(searchTerm) && categoryFilter == old(categoryFilter)
      ensures old(Valid()) ==> Valid()
    {
      TotalAfterRemove(cart, index);
      cart := WithoutIndex(cart, index);
    }

    /** The search box's change handler. */
    method SetSearchTerm(term: string)
      modifies this
      ensures searchTerm == term
      ensures cart == old(cart) && categoryFilter == old(categoryFilter)
    {
      searchTerm := term;
    }

    /** The category drop-down's change handler. Any string is accepted; one
        that is not a catalog category leaves the product grid empty. */
    method SetCategoryFilter(category: string)
      modifies this
      ensures categoryFilter == category
      ensures cart == old(cart) && searchTerm == old(searchTerm)
      ensures category != "" && category !in Categories() ==> FilteredProducts() == []
    {
      categoryFilter := category;
      if category != "" && category !in Categories() {
        FilterUnknownCategory(Products, searchTerm, category);
      }
    }

    /** `filteredProducts`: the products of the grid. */
    function FilteredProducts(): (r: seq<Product>)
      reads this
      ensures forall p :: p in r <==> p in Products && Matches(p, searchTerm, categoryFilter)
      ensures IsSubsequence(r, Products)
    {
      FilterMembership(Products, searchTerm, categoryFilter);
      FilterIsSubsequence(Products, searchTerm, categoryFilter);
      FilterProducts(Products, searchTerm, categoryFilter)
    }

    /** `categories`: the options of the category drop-down. */
    function Categories(): (r: seq<string>)
      ensures NoDuplicates(r)
      ensures forall c :: c in r <==> exists i :: 0 <= i < |Products| && Products[i].category == c
      ensures r == ["Electronics", "Clothing", "Footwear"]
    {
      CategoriesSpec(Products);
      CatalogCategories();
      CategoriesOf(Products)
    }

    /** The total shown under the cart. */
    function CartTotal(): (r: int)
      reads this
      ensures r == Sum(cart)
    {
      TotalIsSum(cart);
      Total(cart)
    }
  }

  /** A sample session on the real catalog: a laptop and two T-shirts, then
      the second line removed. */
  method ExampleSession() returns (count: nat, total: int)
    ensures count == 2 && total == 101998
  {
    var page := new ProductListingPage();
    page.AddToCart(Products[0]);
    page.AddToCart(Products[3]);
    page.AddToCart(Products[3]);
    assert page.CartTotal() == 103997;
    page.RemoveFromCart(1);
    assert page.cart == [Products[0], Products[3]];
    count := |page.cart|;
    total := page.CartTotal();
  }
}
