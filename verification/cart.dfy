/** The shopping-cart engine: the cart is an ordered sequence of line items and every
    user action (add, remove, increase, decrease, clean up) is a pure function from the
    old sequence to the new one. Persisting the result and refreshing the badge are
    left to the caller; the badge shows `ItemCount`. */
module Cart {
  import opened Options
  import opened JsValues
  import opened Seqs

  /** A price as `parseFloat` produces it: a number or `NaN`. Its value is never
      inspected by the logic modelled here. */
  datatype Price = NaN | Amount(value: real)

  /** One cart row `{id, name, price, image, quantity, size}`. `size` is `None` for
      `null`/absent; `image` is `None` for `null`/absent. */
  datatype LineItem = LineItem(
    id: Id,
    name: string,
    price: Price,
    image: Option<string>,
    quantity: int,
    size: Option<string>)

  /** The identity of a line for the "no two lines share (id, size)" invariant. */
  function LineKey(item: LineItem): (Id, Option<string>)
  {
    (item.id, item.size)
  }

  /** No two lines share an (id, size) pair. */
  predicate UniqueKeys(cart: seq<LineItem>)
  {
    DistinctKeys(cart, LineKey)
  }

  /** The asymmetric matching rule shared by add, increase, decrease and the first
      pass of remove: with a truthy size a line must agree on id and size; with a
      falsy size any line with that id matches, whatever its size. */
  predicate Matches(item: LineItem, id: Id, size: Option<string>)
  {
    item.id == id && (TruthyText(size) ==> item.size == size)
  }

  /** The matching rule of remove's fallback pass, comparing `String(item.id)` with `String(id)`. */
  predicate LooselyMatches(item: LineItem, id: Id, size: Option<string>)
  {
    ToJsString(item.id) == ToJsString(id) && (TruthyText(size) ==> item.size == size)
  }

  /** `Matches` as a callback, for `find`/`findIndex`. */
  function MatchOf(id: Id, size: Option<string>): LineItem -> bool
  {
    item => Matches(item, id, size)
  }

  /** The survivors of remove's first pass. */
  function UnmatchedOf(id: Id, size: Option<string>): LineItem -> bool
  {
    item => !Matches(item, id, size)
  }

  /** The survivors of remove's fallback pass. */
  function LooselyUnmatchedOf(id: Id, size: Option<string>): LineItem -> bool
  {
    item => !LooselyMatches(item, id, size)
  }

  predicate HasMatch(cart: seq<LineItem>, id: Id, size: Option<string>)
  {
    exists i | 0 <= i < |cart| :: Matches(cart[i], id, size)
  }

  predicate HasLooseMatch(cart: seq<LineItem>, id: Id, size: Option<string>)
  {
    exists i | 0 <= i < |cart| :: LooselyMatches(cart[i], id, size)
  }

  /** Line `i` is the first line matching (id, size). */
  predicate IsFirstMatch(cart: seq<LineItem>, i: int, id: Id, size: Option<string>)
  {
    && 0 <= i < |cart|
    && Matches(cart[i], id, size)
    && forall j | 0 <= j < i :: !Matches(cart[j], id, size)
  }

  /** `r` is `cart` with `delta` added to the quantity of the first line matching
      (id, size), and nothing else changed. */
  ghost predicate BumpedFirstMatch(r: seq<LineItem>, cart: seq<LineItem>, id: Id, size: Option<string>, delta: int)
  {
    && |r| == |cart|
    && forall j | 0 <= j < |cart| ::
         r[j] == if IsFirstMatch(cart, j, id, size) then cart[j].(quantity := cart[j].quantity + delta) else cart[j]
  }

  /** The index of the first matching line, or -1. */
  function FirstMatch(cart: seq<LineItem>, id: Id, size: Option<string>): (i: int)
    ensures i == -1 <==> !HasMatch(cart, id, size)
    ensures i != -1 ==> IsFirstMatch(cart, i, id, size)
  {
    FindIndex(cart, MatchOf(id, size))
  }

  /** Adds `delta` to the quantity of the first matching line, if there is one. */
  function BumpFirstMatch(cart: seq<LineItem>, id: Id, size: Option<string>, delta: int): (r: seq<LineItem>)
    ensures BumpedFirstMatch(r, cart, id, size, delta)
  {
    var i := FirstMatch(cart, id, size);
    if i == -1 then cart
    else
      var r := cart[i := cart[i].(quantity := cart[i].quantity + delta)];
      assert forall j | 0 <= j < |cart| && j != i :: !IsFirstMatch(cart, j, id, size);
      r
  }

  /** Every line holds at least `n` items. */
  predicate QuantitiesAtLeast(cart: seq<LineItem>, n: int)
  {
    forall x | x in cart :: x.quantity >= n
  }

  /** The badge count: the sum of the quantities of all lines. It is never negative
      when no quantity is, and at least one per line when every line holds an item. */
  function ItemCount(cart: seq<LineItem>): (r: int)
    ensures QuantitiesAtLeast(cart, 0) ==> r >= 0
    ensures QuantitiesAtLeast(cart, 1) ==> r >= |cart|
  {
    if cart == [] then 0
    else
      assert forall x | x in cart[1..] :: x in cart;
      cart[0].quantity + ItemCount(cart[1..])
  }

  /** The guard of addToCart: a truthy id, a non-empty name and a price that is a number. */
  predicate ValidRequest(id: Id, name: string, price: Price)
  {
    Truthy(id) && name != "" && !price.NaN?
  }

  /** addToCart: merge into the first matching line, or append a new one. */
  function Add(cart: seq<LineItem>, id: Id, name: string, price: Price, image: Option<string>,
               quantity: int, size: Option<string>): (r: seq<LineItem>)
    ensures !ValidRequest(id, name, price) ==> r == cart
    ensures ValidRequest(id, name, price) && HasMatch(cart, id, size) ==>
      BumpedFirstMatch(r, cart, id, size, quantity)
    ensures ValidRequest(id, name, price) && !HasMatch(cart, id, size) ==>
      |r| == |cart| + 1 && r[..|cart|] == cart && r[|cart|] == LineItem(id, name, price, image, quantity, size)
  {
    if !ValidRequest(id, name, price) then cart
    else if FirstMatch(cart, id, size) > -1 then BumpFirstMatch(cart, id, size, quantity)
    else
      var r := cart + [LineItem(id, name, price, image, quantity, size)];
      assert r[..|cart|] == cart;
      r
  }

  /** removeFromCart: drop every line matching (id, size); if that drops nothing,
      retry comparing string-coerced ids. A falsy id changes nothing. */
  function Remove(cart: seq<LineItem>, id: Id, size: Option<string>): (r: seq<LineItem>)
    ensures !Truthy(id) ==> r == cart
    ensures Truthy(id) && HasMatch(cart, id, size) ==> KeepsExactly(r, cart, UnmatchedOf(id, size))
    ensures Truthy(id) && !HasMatch(cart, id, size) ==> KeepsExactly(r, cart, LooselyUnmatchedOf(id, size))
    ensures !HasLooseMatch(cart, id, size) ==> r == cart
  {
    if !Truthy(id) then cart
    else
      var strict := Filter(cart, UnmatchedOf(id, size));
      assert |strict| == |cart| <==> !HasMatch(cart, id, size);
      if |strict| == |cart| then Filter(strict, LooselyUnmatchedOf(id, size)) else strict
  }

  /** increaseQuantity: one more of the first matching line. */
  function Increase(cart: seq<LineItem>, id: Id, size: Option<string>): (r: seq<LineItem>)
    ensures BumpedFirstMatch(r, cart, id, size, 1)
  {
    BumpFirstMatch(cart, id, size, 1)
  }

  /** decreaseQuantity: one fewer of the first matching line while it holds more
      than one; otherwise the line goes through removeFromCart(id, size). */
  function Decrease(cart: seq<LineItem>, id: Id, size: Option<string>): (r: seq<LineItem>)
    ensures !HasMatch(cart, id, size) ==> r == cart
    ensures HasMatch(cart, id, size) && cart[FirstMatch(cart, id, size)].quantity > 1 ==>
      BumpedFirstMatch(r, cart, id, size, -1)
    ensures HasMatch(cart, id, size) && cart[FirstMatch(cart, id, size)].quantity <= 1 && Truthy(id) ==>
      KeepsExactly(r, cart, UnmatchedOf(id, size))
    ensures HasMatch(cart, id, size) && cart[FirstMatch(cart, id, size)].quantity <= 1 && !Truthy(id) ==>
      r == cart
  {
    var i := FirstMatch(cart, id, size);
    if i == -1 then cart
    else if cart[i].quantity > 1 then BumpFirstMatch(cart, id, size, -1)
    else Remove(cart, id, size)
  }

  /** cleanupCart: keep exactly the lines with a truthy id. */
  function Cleanup(cart: seq<LineItem>): (r: seq<LineItem>)
    ensures KeepsExactly(r, cart, HasTruthyId)
    ensures forall x | x in r :: Truthy(x.id)
  {
    Filter(cart, HasTruthyId)
  }

  predicate HasTruthyId(item: LineItem)
  {
    Truthy(item.id)
  }

  // ---------------------------------------------------------------------------
  // Lemmas

  lemma {:induction false} ItemCountAppend(a: seq<LineItem>, b: seq<LineItem>)
    ensures ItemCount(a + b) == ItemCount(a) + ItemCount(b)
    decreases |a|
  {
    if a == [] {
      assert a + b == b;
    } else {
      assert (a + b)[1..] == a[1..] + b;
      ItemCountAppend(a[1..], b);
    }
  }

  /** Changing one line's quantity by `delta` changes the count by `delta`. */
  lemma ItemCountUpdate(cart: seq<LineItem>, i: int, delta: int)
    requires 0 <= i < |cart|
    ensures ItemCount(cart[i := cart[i].(quantity := cart[i].quantity + delta)]) == ItemCount(cart) + delta
  {
    var line := cart[i].(quantity := cart[i].quantity + delta);
    var before, after := cart[..i], cart[i + 1..];
    assert cart == before + ([cart[i]] + after);
    assert cart[i := line] == before + ([line] + after);
    ItemCountAppend(before, [cart[i]] + after);
    ItemCountAppend(before, [line] + after);
    ItemCountAppend([cart[i]], after);
    ItemCountAppend([line], after);
    assert ItemCount([line]) == line.quantity + ItemCount([]);
    assert ItemCount([cart[i]]) == cart[i].quantity + ItemCount([]);
  }


  /** Bumping the first match moves the count by `delta`. */
  lemma {:induction false} ItemCountBump(cart: seq<LineItem>, id: Id, size: Option<string>, delta: int)
    requires HasMatch(cart, id, size)
    ensures ItemCount(BumpFirstMatch(cart, id, size, delta)) == ItemCount(cart) + delta
  {
    var i := FirstMatch(cart, id, size);
    assert IsFirstMatch(cart, i, id, size);
    var updated := cart[i := cart[i].(quantity := cart[i].quantity + delta)];
    var bumped := BumpFirstMatch(cart, id, size, delta);
    forall j | 0 <= j < |cart| ensures bumped[j] == updated[j] {
      if j != i {
        assert !IsFirstMatch(cart, j, id, size);
      }
    }
    assert bumped == updated;
    ItemCountUpdate(cart, i, delta);
  }

  /** Adding a valid request raises the badge count by exactly `quantity`,
      whether the request merges or appends. */
  lemma AddItemCount(cart: seq<LineItem>, id: Id, name: string, price: Price, image: Option<string>,
                     quantity: int, size: Option<string>)
    requires ValidRequest(id, name, price)
    ensures ItemCount(Add(cart, id, name, price, image, quantity, size)) == ItemCount(cart) + quantity
  {
    if !HasMatch(cart, id, size) {
      var item := LineItem(id, name, price, image, quantity, size);
      ItemCountAppend(cart, [item]);
      assert ItemCount([item]) == quantity;
    } else {
      ItemCountBump(cart, id, size, quantity);
    }
  }

  /** Adding never creates a second line with an existing (id, size) pair. */
  lemma AddPreservesUniqueKeys(cart: seq<LineItem>, id: Id, name: string, price: Price, image: Option<string>,
                               quantity: int, size: Option<string>)
    requires UniqueKeys(cart)
    ensures UniqueKeys(Add(cart, id, name, price, image, quantity, size))
  {
    var r := Add(cart, id, name, price, image, quantity, size);
    if ValidRequest(id, name, price) {
      if HasMatch(cart, id, size) {
        assert forall j | 0 <= j < |r| :: LineKey(r[j]) == LineKey(cart[j]);
      } else {
        forall j | 0 <= j < |cart|
          ensures LineKey(cart[j]) != LineKey(r[|cart|])
        {
          assert !Matches(cart[j], id, size);
        }
        forall i, j | 0 <= i < j < |r|
          ensures LineKey(r[i]) != LineKey(r[j])
        {
          assert r[i] == r[..|cart|][i] == cart[i];
          if j < |cart| {
            assert r[j] == r[..|cart|][j] == cart[j];
          }
        }
      }
    }
  }

  /** A bump leaves every line's (id, size) pair where it was. */
  lemma BumpKeepsKeys(cart: seq<LineItem>, id: Id, size: Option<string>, delta: int)
    ensures var r := BumpFirstMatch(cart, id, size, delta);
      |r| == |cart| && forall j | 0 <= j < |r| :: LineKey(r[j]) == LineKey(cart[j])
  {
  }

  /** A matching line keeps matching loosely: string coercion only widens the match. */
  lemma MatchesIsLoose(item: LineItem, id: Id, size: Option<string>)
    requires Matches(item, id, size)
    ensures LooselyMatches(item, id, size)
  {
  }

  /** The retry widens the match only across kinds of value: a line it catches that
      the strict pass missed has an id of another kind than the one asked for (a
      number against a string, or `null`/`undefined` against their spelling). */
  lemma LooseMatchCrossesKinds(item: LineItem, id: Id, size: Option<string>)
    requires LooselyMatches(item, id, size) && !Matches(item, id, size)
    ensures !SameKind(item.id, id)
  {
    CoercionIsCoarser();
  }

  /** Removing a key that was just added as a new line restores the cart. */
  lemma RemoveUndoesAdd(cart: seq<LineItem>, id: Id, name: string, price: Price, image: Option<string>,
                        quantity: int, size: Option<string>)
    requires ValidRequest(id, name, price)
    requires !HasMatch(cart, id, size)
    ensures Remove(Add(cart, id, name, price, image, quantity, size), id, size) == cart
  {
    var item := LineItem(id, name, price, image, quantity, size);
    var added := Add(cart, id, name, price, image, quantity, size);
    assert added == cart + [item];
    FilterAppend(cart, [item], UnmatchedOf(id, size));
    assert Filter([item], UnmatchedOf(id, size)) == [];
    assert Filter(cart, UnmatchedOf(id, size)) == cart;
    assert HasMatch(added, id, size) by {
      assert Matches(added[|cart|], id, size);
    }
    assert Remove(added, id, size) == Filter(added, UnmatchedOf(id, size));
  }

  /** Increasing and then decreasing the same key restores the cart when the
      first matching line held at least one item. */
  lemma DecreaseUndoesIncrease(cart: seq<LineItem>, id: Id, size: Option<string>)
    requires HasMatch(cart, id, size)
    requires cart[FirstMatch(cart, id, size)].quantity >= 1
    ensures Decrease(Increase(cart, id, size), id, size) == cart
  {
    var i := FirstMatch(cart, id, size);
    var up := Increase(cart, id, size);
    assert IsFirstMatch(up, i, id, size);
    assert FirstMatch(up, id, size) == i;
    assert up[i].quantity > 1;
    var down := Decrease(up, id, size);
    assert BumpedFirstMatch(down, up, id, size, -1);
    assert forall j | 0 <= j < |cart| :: down[j] == cart[j];
  }

  /** Increasing by one raises the count by one when some line matches. */
  lemma IncreaseItemCount(cart: seq<LineItem>, id: Id, size: Option<string>)
    requires HasMatch(cart, id, size)
    ensures ItemCount(Increase(cart, id, size)) == ItemCount(cart) + 1
  {
    ItemCountBump(cart, id, size, 1);
  }

  /** Decreasing a line holding more than one lowers the count by one and keeps the line. */
  lemma DecreaseItemCount(cart: seq<LineItem>, id: Id, size: Option<string>)
    requires HasMatch(cart, id, size)
    requires cart[FirstMatch(cart, id, size)].quantity > 1
    ensures ItemCount(Decrease(cart, id, size)) == ItemCount(cart) - 1
    ensures |Decrease(cart, id, size)| == |cart|
  {
    ItemCountBump(cart, id, size, -1);
  }

  /** Lines with positive quantities: the badge is shown exactly when the cart has a line. */
  lemma ItemCountPositive(cart: seq<LineItem>)
    requires QuantitiesAtLeast(cart, 1)
    ensures ItemCount(cart) > 0 <==> |cart| > 0
  {
  }

  /** Cleaning up a clean cart changes nothing. */
  lemma CleanupIdempotent(cart: seq<LineItem>)
    ensures Cleanup(Cleanup(cart)) == Cleanup(cart)
  {
    FilterIdempotent(cart, HasTruthyId);
  }
}
