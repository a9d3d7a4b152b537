# Shopping store view-model

A model of the product listing page of a small single-page storefront
(`ProductListingPage` in `src/App.js`). The page has a fixed catalog of six
products. It shows the products whose name contains the search term,
ignoring case, optionally narrowed to one category. It offers the catalog's
distinct categories in a drop-down. It keeps a shopping cart: a sequence of
line items that the grid's "Add to Cart" buttons append to and the cart's
"Remove" buttons delete from by position. Under the cart it shows the
total price.

Files and modules:

- `text.dfy`, module `Text`: `toLowerCase` (ASCII only) and `includes`.
- `seqs.dfy`, module `Seqs`: duplicate freedom, first occurrence,
  subsequences, and `Distinct`, the insertion-ordered de-duplication that
  `[...new Set(xs)]` performs.
- `catalog.dfy`, module `Catalog`: the `Product` record, the `Products`
  constant, the search filter and the category list.
- `cart.dfy`, module `Cart`: removal by position (`cart.filter((_, i) => i !== index)`)
  and the total (`cart.reduce(...)`), with the reference sum `Sum`.
- `storefront.dfy`, module `Storefront`: class `ProductListingPage`. Its
  fields `cart`, `searchTerm` and `categoryFilter` are the page's three state
  cells. Its methods are the handlers that replace them. Its functions are
  the views derived on each render. `ExampleSession` is a client that runs
  a sample cart session against these contracts.

Prices are whole numbers of cents (`99999` for 999.99).

`addToCart` receives the product object from the card's button
(src/App.js:40) and appends it without any lookup (src/App.js:80-82);
`AddToCart` likewise takes a `Product`, and `Valid()` records that the cart
holds only catalog products as long as products are added from the grid.

## Model

| member | source | states |
|---|---|---|
| Catalog.CatalogIdsDistinct | src/App.js:9-16 | the ids of the six catalog products are pairwise distinct, so they can serve as the grid's render keys |
| Catalog.CatalogCategoryColumn | src/App.js:10-15 | read in catalog order, the categories of the six products are Electronics three times, Clothing twice, then Footwear |
| Text.ToLower | src/App.js:90 | the lower-cased string has the length of the original and holds no ASCII capital |
| Text.ToLowerSpec | src/App.js:90 | lower-casing keeps the length, leaves no ASCII capital, keeps every non-capital and moves each capital up by 32 |
| Text.ToLowerIdempotent | src/App.js:90 | lower-casing an already lower-cased string changes nothing |
| Text.Includes | src/App.js:90 | the empty term is contained in every string, and a contained term is never longer than the string |
| Text.IncludesIff | src/App.js:90 | `includes` holds exactly when the term occurs at some position of the string; the empty term occurs everywhere |
| Catalog.Matches | src/App.js:89-91 | a product passes the filter exactly when its lower-cased name has the lower-cased term at some position and the category filter is empty or equals its category |
| Catalog.FilterProducts | src/App.js:88-92 | the filtered list is never longer than the catalog; its contents and order are stated by the four `Filter…` lemmas below |
| Catalog.MatchesIgnoresCase | src/App.js:88-92 | a search term and its lower-cased form select the same products |
| Catalog.FilterCounts | src/App.js:88-92 | each product occurs in the filtered list as often as in the catalog when it matches the name and category criteria, and not at all otherwise |
| Catalog.FilterMembership | src/App.js:88-92 | a product is shown if and only if it is in the catalog, its lower-cased name contains the lower-cased term, and the filter is empty or equals its category |
| Catalog.FilterIsSubsequence | src/App.js:88-92 | the filtered list is the catalog with some products left out and the rest in catalog order |
| Catalog.FilterNoCriteria | src/App.js:88-92 | with an empty search term and an empty category filter the whole catalog is shown, in order |
| Catalog.FilterUnknownCategory | src/App.js:88-94 | a non-empty category filter that is not among the categories hides every product |
| Catalog.FilterKnownCategory | src/App.js:88-94 | a category filter taken from the category list shows only products of that category, and with an empty search term it shows at least one product |
| Catalog.CategoriesOf | src/App.js:94 | the category list is duplicate-free and no longer than the catalog |
| Catalog.CategoriesSpec | src/App.js:94 | the category list has no duplicates, contains exactly the categories that occur in the catalog, and lists them in order of first occurrence |
| Catalog.CatalogCategories | src/App.js:94 | the catalog's category list is Electronics, Clothing, Footwear |
| Seqs.Distinct | src/App.js:94 | de-duplication through a `Set` yields a duplicate-free sequence with exactly the input's elements |
| Seqs.DistinctNoLonger | src/App.js:94 | de-duplication through a `Set` never yields more elements than it was given |
| Seqs.DistinctFirstOccurrenceOrder | src/App.js:94 | the de-duplicated elements appear in the order in which each first occurs in the input |
| Cart.WithoutIndex | src/App.js:84-86 | keeping the entries whose position differs from `index` gives `cart[..index] + cart[index+1..]` for an index in range and the unchanged cart for any other index |
| Cart.RemoveShiftsDown | src/App.js:85 | removal at a valid index shortens the cart by one, keeps the entries before the index in place and moves every later entry down by one |
| Cart.FoldPrices | src/App.js:66 | the running sum of the `reduce` never drops below its start value, and a non-empty cart raises it by at least the first price |
| Cart.Total | src/App.js:66 | the `reduce` started from 0 equals the sum of the entry prices |
| Cart.FoldPricesIsSum | src/App.js:66 | the left fold over the prices ends at its start value plus the sum of the prices |
| Cart.TotalIsSum | src/App.js:66 | the cart total equals the sum of the entry prices, is never negative, and is 0 for the empty cart |
| Cart.SumConcat | src/App.js:66 | the sum over two carts laid end to end is the sum of their sums |
| Cart.TotalAfterAdd | src/App.js:80-82 | appending a product raises the total by exactly its price |
| Cart.TotalAfterRemove | src/App.js:84-86 | removing a valid index lowers the total by that entry's price; any other index leaves the total unchanged |
| Cart.SumLeavingOut | src/App.js:85 | leaving out the entry at a valid index takes exactly its price off the sum |
| Storefront.ProductListingPage.constructor | src/App.js:75-77 | the page starts with an empty cart, an empty search term and no category filter, so the grid shows the whole catalog |
| Storefront.ProductListingPage.CartIdsFromCatalog | src/App.js:80-82 | while the cart holds only products added from the grid, every entry carries one of the catalog ids 1 to 6 |
| Storefront.ProductListingPage.AddToCart | src/App.js:80-82 | the cart becomes the old cart followed by the product (duplicates allowed), the filters are untouched, the total rises by the price, and a catalog product keeps the cart within the catalog |
| Storefront.ProductListingPage.RemoveFromCart | src/App.js:84-86 | a valid index drops exactly that entry and lowers the total by its price; an out-of-range index leaves the cart as it was; the filters are untouched |
| Storefront.ProductListingPage.SetSearchTerm | src/App.js:107 | the search term becomes the typed text and nothing else changes |
| Storefront.ProductListingPage.SetCategoryFilter | src/App.js:112 | the filter becomes the selected value and nothing else changes; a value outside the category list empties the grid |
| Storefront.ProductListingPage.FilteredProducts | src/App.js:88-92 | the grid contains a product exactly when it is a catalog product that matches the current criteria, and keeps catalog order |
| Storefront.ProductListingPage.Categories | src/App.js:94 | the drop-down options are duplicate-free, are exactly the catalog's categories, and are Electronics, Clothing, Footwear in that order of first occurrence |
| Storefront.ProductListingPage.CartTotal | src/App.js:66 | the displayed total is the sum of the prices of the current cart entries |
| Storefront.ExampleSession | src/App.js:80-86 | adding the laptop and two T-shirts gives 1039.97; removing the line at position 1 leaves two lines totalling 1019.98 |

## Left out

- JSX rendering, the `<style jsx>` block and React's `useState` machinery: the state cells are plain fields and the handlers plain methods.
- The product card's image-error flag and placeholder, and the cart modal's open/close flag: presentation-only booleans.
- The image assets: `image` is kept as the asset's file name, an opaque string.
- Floating-point prices and `toFixed(2)`: prices are integer cents, so the sum is exact and no rounding is modelled.
- Full Unicode `toLowerCase`: only ASCII capitals are folded; every other character is kept as it is.
- `removeFromCart` receives a JavaScript number; the model takes an `int`, so non-integer indices (which the grid never produces, and which would also remove nothing) are not modelled.
- `Cart (cart.length)` on the cart button is the length of the cart field and needs no operation of its own.
- Repeated reads returning the same value: the derived views are functions of the state, so this holds by construction and needs no lemma.
