/** The shopping cart of app/context/CartContext.tsx: a list of items kept
    free of duplicate ids, with the operations the context exposes. Each
    operation is a function from the current list to the next list (or to
    the value it reports); React state and localStorage persistence are not
    modelled. Prices are integers (for instance cents). */
module Cart {
  import opened Wrappers

  datatype CartItem = CartItem(id: string, title: string, price: int, imageUrl: Option<string>)

  /** The cart's invariant: no two items share an id. */
  predicate UniqueIds(items: seq<CartItem>)
  {
    forall i, j :: 0 <= i < j < |items| ==> items[i].id != items[j].id
  }

  /** `isInCart(id)`: `items.some(item => item.id === id)`. */
  function IsInCart(items: seq<CartItem>, id: string): (r: bool)
    ensures r <==> exists i :: 0 <= i < |items| && items[i].id == id
  {
    if |items| == 0 then false
    else if items[0].id == id then true
    else
      assert forall i :: 1 <= i < |items| ==> items[i] == items[1..][i - 1];
      IsInCart(items[1..], id)
  }

  /** `addToCart(item)`: append unless an item with the same id is present. */
  function AddToCart(items: seq<CartItem>, item: CartItem): (r: seq<CartItem>)
    ensures IsInCart(r, item.id)
    ensures forall id :: IsInCart(r, id) <==> IsInCart(items, id) || id == item.id
    ensures UniqueIds(items) ==> UniqueIds(r)
    ensures |r| == if IsInCart(items, item.id) then |items| else |items| + 1
    ensures r[..|items|] == items
    ensures !IsInCart(items, item.id) ==> r[|items|] == item
  {
    if IsInCart(items, item.id) then items
    else
      var r := items + [item];
      assert forall i :: 0 <= i < |items| ==> r[i] == items[i];
      assert r[|items|] == item;
      r
  }

  /** `addToCart` as the provider writes it: the duplicate check reads the
      list of the last render (`items`), while the update appends to the
      latest state (`prev`). The two differ when `addToCart` is called again
      before the component re-renders. */
  function AddToCartAsWritten(rendered: seq<CartItem>, prev: seq<CartItem>, item: CartItem): (r: seq<CartItem>)
    ensures r == prev || r == prev + [item]
    ensures r == prev + [item] <==> !IsInCart(rendered, item.id)
  {
    if IsInCart(rendered, item.id) then prev
    else
      assert |prev + [item]| != |prev|;
      prev + [item]
  }

  /** The items whose id differs from `id`, in order. */
  function KeepOthers(items: seq<CartItem>, id: string): seq<CartItem>
  {
    if |items| == 0 then []
    else if items[0].id != id then [items[0]] + KeepOthers(items[1..], id)
    else KeepOthers(items[1..], id)
  }

  lemma {:induction false} KeepOthersMembers(items: seq<CartItem>, id: string)
    ensures forall x :: x in KeepOthers(items, id) <==> x in items && x.id != id
    ensures |KeepOthers(items, id)| <= |items|
    decreases |items|
  {
    if |items| > 0 {
      KeepOthersMembers(items[1..], id);
      assert forall x :: x in items <==> x == items[0] || x in items[1..];
    }
  }

  /** `removeFromCart(id)`: `items.filter(item => item.id !== id)`. */
  function RemoveFromCart(items: seq<CartItem>, id: string): (r: seq<CartItem>)
    ensures forall x :: x in r <==> x in items && x.id != id
    ensures !IsInCart(r, id)
    ensures |r| <= |items|
  {
    KeepOthersMembers(items, id);
    var r := KeepOthers(items, id);
    assert forall i :: 0 <= i < |r| ==> r[i] in r;
    r
  }

  /** `clearCart()`. */
  function ClearCart(items: seq<CartItem>): (r: seq<CartItem>)
    ensures UniqueIds(r)
    ensures GetItemCount(r) == 0 && GetCartTotal(r) == 0
    ensures forall id :: !IsInCart(r, id)
  {
    []
  }

  /** `getItemCount()`: the length of the list. */
  function GetItemCount(items: seq<CartItem>): (n: nat)
    ensures n == 0 <==> forall id :: !IsInCart(items, id)
  {
    assert |items| > 0 ==> IsInCart(items, items[0].id);
    |items|
  }

  /** `items.reduce((total, item) => total + item.price, acc)`. */
  function ReduceTotal(acc: int, items: seq<CartItem>): int
    decreases |items|
  {
    if |items| == 0 then acc else ReduceTotal(acc + items[0].price, items[1..])
  }

  /** `getCartTotal()`: the left-to-right reduction starting from 0. */
  function GetCartTotal(items: seq<CartItem>): (t: int)
    ensures (forall i :: 0 <= i < |items| ==> items[i].price >= 0) ==> t >= 0
    ensures |items| == 1 ==> t == items[0].price
  {
    assert |items| == 1 ==> ReduceTotal(0, items) == ReduceTotal(items[0].price, items[1..]);
    if forall i :: 0 <= i < |items| ==> items[i].price >= 0 then
      ReduceGrows(0, items);
      ReduceTotal(0, items)
    else ReduceTotal(0, items)
  }

  /** With no negative price the reduction never falls below its start. */
  lemma {:induction false} ReduceGrows(acc: int, items: seq<CartItem>)
    requires forall i :: 0 <= i < |items| ==> items[i].price >= 0
    ensures ReduceTotal(acc, items) >= acc
    decreases |items|
  {
    if |items| > 0 {
      ReduceGrows(acc + items[0].price, items[1..]);
    }
  }

  /** The sum of the prices, written independently of the reduction. */
  function SumPrices(items: seq<CartItem>): int
  {
    if |items| == 0 then 0 else SumPrices(items[..|items| - 1]) + items[|items| - 1].price
  }

  // ---------------------------------------------------------------------
  // Properties

  lemma {:induction false} ReduceShift(acc: int, items: seq<CartItem>)
    ensures ReduceTotal(acc, items) == acc + ReduceTotal(0, items)
    decreases |items|
  {
    if |items| > 0 {
      ReduceShift(acc + items[0].price, items[1..]);
      ReduceShift(items[0].price, items[1..]);
    }
  }

  /** The reduction appends: the total of `a + b` adds the totals. */
  lemma {:induction false} TotalOfAppend(a: seq<CartItem>, b: seq<CartItem>)
    ensures GetCartTotal(a + b) == GetCartTotal(a) + GetCartTotal(b)
    decreases |a|
  {
    if |a| == 0 {
      assert a + b == b;
    } else {
      TotalOfAppend(a[1..], b);
      assert (a + b)[1..] == a[1..] + b;
      ReduceShift(a[0].price, a[1..] + b);
      ReduceShift(a[0].price, a[1..]);
    }
  }

  lemma TotalOfSingleton(item: CartItem)
    ensures GetCartTotal([item]) == item.price
  {
    assert [item][1..] == [];
    assert ReduceTotal(item.price, []) == item.price;
  }

  /** `getCartTotal` is the sum of the item prices (0 for an empty cart). */
  lemma {:induction false} TotalIsSum(items: seq<CartItem>)
    ensures GetCartTotal(items) == SumPrices(items)
    decreases |items|
  {
    if |items| > 0 {
      var init := items[..|items| - 1];
      TotalIsSum(init);
      TotalOfAppend(init, [items[|items| - 1]]);
      TotalOfSingleton(items[|items| - 1]);
      assert init + [items[|items| - 1]] == items;
    }
  }

  /** Adding changes the total by the new item's price, or not at all when
      its id is already in the cart. */
  lemma TotalAfterAdd(items: seq<CartItem>, item: CartItem)
    ensures GetCartTotal(AddToCart(items, item)) ==
              GetCartTotal(items) + if IsInCart(items, item.id) then 0 else item.price
  {
    if !IsInCart(items, item.id) {
      TotalOfAppend(items, [item]);
      TotalOfSingleton(item);
    }
  }

  /** With a fresh render the handler as written is `AddToCart`. */
  lemma AsWrittenAgreesWhenFresh(items: seq<CartItem>, item: CartItem)
    ensures AddToCartAsWritten(items, items, item) == AddToCart(items, item)
  {
  }

  /** Two `addToCart` calls for the same item before a re-render (for
      instance from one event handler) put the item in the cart twice. */
  lemma StaleCheckDuplicates(item: CartItem)
    ensures var once := AddToCartAsWritten([], [], item);
            var twice := AddToCartAsWritten([], once, item);
            twice == [item, item] && !UniqueIds(twice)
  {
    assert !IsInCart([], item.id);
    var once := AddToCartAsWritten([], [], item);
    assert once == [item];
    var twice := AddToCartAsWritten([], once, item);
    assert twice == [item] + [item] == [item, item];
    assert twice[0].id == twice[1].id;
  }

  /** Checking against the latest state instead, a repeated add changes
      nothing: the cart stays duplicate-free. */
  lemma AddTwiceIsAddOnce(items: seq<CartItem>, item: CartItem)
    ensures AddToCart(AddToCart(items, item), item) == AddToCart(items, item)
  {
  }

  /** Removing keeps the relative order: removal distributes over `+`. */
  lemma {:induction false} RemoveOfAppend(a: seq<CartItem>, b: seq<CartItem>, id: string)
    ensures RemoveFromCart(a + b, id) == RemoveFromCart(a, id) + RemoveFromCart(b, id)
    decreases |a|
  {
    KeepOthersOfAppend(a, b, id);
  }

  lemma {:induction false} KeepOthersOfAppend(a: seq<CartItem>, b: seq<CartItem>, id: string)
    ensures KeepOthers(a + b, id) == KeepOthers(a, id) + KeepOthers(b, id)
    decreases |a|
  {
    if |a| == 0 {
      assert a + b == b;
    } else {
      var ab := a + b;
      assert ab[0] == a[0];
      assert ab[1..] == a[1..] + b;
      KeepOthersOfAppend(a[1..], b, id);
    }
  }

  /** Removing an id that is not in the cart changes nothing. */
  lemma RemoveAbsent(items: seq<CartItem>, id: string)
    requires !IsInCart(items, id)
    ensures RemoveFromCart(items, id) == items
  {
    KeepOthersAbsent(items, id);
  }

  lemma {:induction false} KeepOthersAbsent(items: seq<CartItem>, id: string)
    requires forall i :: 0 <= i < |items| ==> items[i].id != id
    ensures KeepOthers(items, id) == items
    decreases |items|
  {
    if |items| > 0 {
      KeepOthersAbsent(items[1..], id);
    }
  }

  /** Removing what was just added restores the cart. */
  lemma AddThenRemove(items: seq<CartItem>, item: CartItem)
    requires !IsInCart(items, item.id)
    ensures RemoveFromCart(AddToCart(items, item), item.id) == items
  {
    RemoveOfAppend(items, [item], item.id);
    RemoveAbsent(items, item.id);
  }

  /** Removing an item of a duplicate-free cart drops exactly that item:
      the items before it and the items after it, in order. */
  lemma RemovePresent(items: seq<CartItem>, k: int)
    requires UniqueIds(items) && 0 <= k < |items|
    ensures RemoveFromCart(items, items[k].id) == items[..k] + items[k + 1..]
  {
    var id := items[k].id;
    var pre, post := items[..k], items[k + 1..];
    assert items == pre + ([items[k]] + post);
    KeepOthersOfAppend(pre, [items[k]] + post, id);
    KeepOthersOfAppend([items[k]], post, id);
    assert KeepOthers([items[k]], id) == [];
    forall i | 0 <= i < |pre|
      ensures pre[i].id != id
    {
      assert pre[i] == items[i];
    }
    forall i | 0 <= i < |post|
      ensures post[i].id != id
    {
      assert post[i] == items[k + 1 + i];
    }
    KeepOthersAbsent(pre, id);
    KeepOthersAbsent(post, id);
  }

  /** Removing an item of a duplicate-free cart lowers the total by its price. */
  lemma TotalAfterRemove(items: seq<CartItem>, k: int)
    requires UniqueIds(items) && 0 <= k < |items|
    ensures GetCartTotal(RemoveFromCart(items, items[k].id)) == GetCartTotal(items) - items[k].price
  {
    RemovePresent(items, k);
    var pre, post := items[..k], items[k + 1..];
    assert items == pre + ([items[k]] + post);
    TotalOfAppend(pre, [items[k]] + post);
    TotalOfAppend([items[k]], post);
    TotalOfAppend(pre, post);
    TotalOfSingleton(items[k]);
  }

  /** Removal keeps the ids distinct. */
  lemma {:induction false} RemoveKeepsUnique(items: seq<CartItem>, id: string)
    requires UniqueIds(items)
    ensures UniqueIds(RemoveFromCart(items, id))
    decreases |items|
  {
    if |items| > 0 {
      RemoveKeepsUnique(items[1..], id);
      var rest := RemoveFromCart(items[1..], id);
      if items[0].id != id {
        assert forall x :: x in rest ==> x in items[1..];
        assert forall x :: x in items[1..] ==> x.id != items[0].id;
        assert forall j :: 0 <= j < |rest| ==> rest[j] in rest;
      }
    }
  }

  /** The item count after removal: one less exactly when the id was present. */
  lemma CountAfterRemove(items: seq<CartItem>, id: string)
    requires UniqueIds(items)
    ensures GetItemCount(RemoveFromCart(items, id)) ==
              if IsInCart(items, id) then GetItemCount(items) - 1 else GetItemCount(items)
  {
    if IsInCart(items, id) {
      var k :| 0 <= k < |items| && items[k].id == id;
      RemovePresent(items, k);
    } else {
      RemoveAbsent(items, id);
    }
  }
}
