/** The cart as a sequence of line items: removal by position and the
    total shown under the cart. */
module Cart {
  import opened Catalog

  /** `cart.filter((_, i) => i !== index)`: keeps every entry whose position
      differs from `index`, reading the positions from the left. */
  function WithoutIndex(cart: seq<Product>, index: int): (r: seq<Product>)
    ensures 0 <= index < |cart| ==> r == cart[..index] + cart[index + 1..]
    ensures !(0 <= index < |cart|) ==> r == cart
  {
    if cart == [] then []
    else
      var last := |cart| - 1;
      var kept := WithoutIndex(cart[..last], index);
      assert cart == cart[..last] + [cart[last]];
      kept + (if last != index then [cart[last]] else [])
  }

  /** The sum of the entry prices, added up from the right. */
  function Sum(cart: seq<Product>): nat {
    if cart == [] then 0 else cart[0].price + Sum(cart[1..])
  }

  /** `cart.reduce((sum, item) => sum + item.price, acc)`, a left fold. */
  function FoldPrices(acc: int, cart: seq<Product>): (r: int)
    ensures r >= acc
    ensures cart != [] ==> r >= acc + cart[0].price
    decreases |cart|
  {
    if cart == [] then acc else FoldPrices(acc + cart[0].price, cart[1..])
  }

  /** The total shown under the cart: the fold started from 0. */
  function Total(cart: seq<Product>): (r: int)
    ensures r == Sum(cart)
  {
    FoldPricesIsSum(0, cart);
    FoldPrices(0, cart)
  }

  /** The left fold adds the sum of the prices to its start value. */
  lemma {:induction false} FoldPricesIsSum(acc: int, cart: seq<Product>)
    ensures FoldPrices(acc, cart) == acc + Sum(cart)
    decreases |cart|
  {
    if cart != [] {
      FoldPricesIsSum(acc + cart[0].price, cart[1..]);
    }
  }

  /** The total is the sum of the entry prices; in particular it is never
      negative and it is 0 for the empty cart. */
  lemma TotalIsSum(cart: seq<Product>)
    ensures Total(cart) == Sum(cart)
    ensures Total(cart) >= 0
    ensures cart == [] ==> Total(cart) == 0
  {
    FoldPricesIsSum(0, cart);
  }

  /** The sum of a concatenation is the sum of its parts. */
  lemma {:induction false} SumConcat(a: seq<Product>, b: seq<Product>)
    ensures Sum(a + b) == Sum(a) + Sum(b)
  {
    if a != [] {
      assert (a + b)[1..] == a[1..] + b;
      SumConcat(a[1..], b);
    } else {
      assert a + b == b;
    }
  }

  /** Adding `p` to the cart raises the total by the price of `p`. */
  lemma TotalAfterAdd(cart: seq<Product>, p: Product)
    ensures Total(cart + [p]) == Total(cart) + p.price
  {
    TotalIsSum(cart);
    TotalIsSum(cart + [p]);
    SumConcat(cart, [p]);
  }

  /** Removing the entry at a valid position lowers the total by its price;
      an invalid position leaves the total as it was. */
  lemma TotalAfterRemove(cart: seq<Product>, index: int)
    ensures 0 <= index < |cart| ==> Total(WithoutIndex(cart, index)) == Total(cart) - cart[index].price
    ensures !(0 <= index < |cart|) ==> Total(WithoutIndex(cart, index)) == Total(cart)
  {
    TotalIsSum(cart);
    TotalIsSum(WithoutIndex(cart, index));
    if 0 <= index < |cart| {
      SumLeavingOut(cart, index);
    }
  }

  /** Leaving out the entry at `index` takes its price off the sum. */
  lemma SumLeavingOut(cart: seq<Product>, index: int)
    requires 0 <= index < |cart|
    ensures Sum(cart) == Sum(cart[..index] + cart[index + 1..]) + cart[index].price
  {
    SplitAt(cart, index);
    SumSplit(cart[..index], cart[index], cart[index + 1..]);
  }

  /** A cart is its entries before `index`, the entry at `index` and the
      entries after it. */
  lemma SplitAt(cart: seq<Product>, index: int)
    requires 0 <= index < |cart|
    ensures cart == cart[..index] + [cart[index]] + cart[index + 1..]
  {
  }

  /** Taking one entry out of the middle takes its price off the sum. */
  lemma SumSplit(before: seq<Product>, p: Product, after: seq<Product>)
    ensures Sum(before + [p] + after) == Sum(before + after) + p.price
  {
    SumConcat(before + [p], after);
    SumConcat(before, [p]);
    SumConcat(before, after);
    assert [p][1..] == [];
  }

  /** Removal keeps the relative order of the remaining entries: the
      entries before `index` stay where they were and the ones after it
      move down by one position. */
  lemma RemoveShiftsDown(cart: seq<Product>, index: int)
    requires 0 <= index < |cart|
    ensures |WithoutIndex(cart, index)| == |cart| - 1
    ensures forall k :: 0 <= k < index ==> WithoutIndex(cart, index)[k] == cart[k]
    ensures forall k :: index <= k < |cart| - 1 ==> WithoutIndex(cart, index)[k] == cart[k + 1]
  {
  }
}
