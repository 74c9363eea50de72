/** A browsing session as a series of cart actions, each one applied to the cart the
    previous one left. Every action of the engine appears here, including the cart
    panel's "Clear Cart" button, which replaces the cart with `[]`. */
module CartSession {
  import opened Options
  import opened JsValues
  import opened Seqs
  import opened Cart

  datatype Action =
    | AddItem(id: Id, name: string, price: Price, image: Option<string>, quantity: int, size: Option<string>)
    | RemoveItem(id: Id, size: Option<string>)
    | IncreaseItem(id: Id, size: Option<string>)
    | DecreaseItem(id: Id, size: Option<string>)
    | ClearCart
    | CleanupCart

  /** The invariants every action keeps, whatever quantity it asks for: no two lines
      share (id, size), and every line has a truthy id. */
  ghost predicate Consistent(cart: seq<LineItem>)
  {
    && UniqueKeys(cart)
    && forall x | x in cart :: Truthy(x.id)
  }

  /** A consistent cart whose every line holds at least one item. */
  ghost predicate WellFormed(cart: seq<LineItem>)
  {
    Consistent(cart) && QuantitiesAtLeast(cart, 1)
  }

  /** One action of the session. */
  function Apply(cart: seq<LineItem>, a: Action): (r: seq<LineItem>)
    ensures Consistent(cart) ==> Consistent(r)
  {
    match a
    case AddItem(id, name, price, image, quantity, size) =>
      AddConsistent(cart, id, name, price, image, quantity, size);
      Add(cart, id, name, price, image, quantity, size)
    case RemoveItem(id, size) =>
      RemoveConsistent(cart, id, size);
      Remove(cart, id, size)
    case IncreaseItem(id, size) =>
      BumpConsistent(cart, id, size, 1);
      Increase(cart, id, size)
    case DecreaseItem(id, size) =>
      DecreaseConsistent(cart, id, size);
      Decrease(cart, id, size)
    case ClearCart => []
    case CleanupCart =>
      SubseqConsistent(Cleanup(cart), cart);
      Cleanup(cart)
  }

  /** A whole session, each action applied to the cart the previous one left. */
  function Replay(cart: seq<LineItem>, actions: seq<Action>): (r: seq<LineItem>)
    ensures Consistent(cart) ==> Consistent(r)
    decreases |actions|
  {
    if actions == [] then cart else Replay(Apply(cart, actions[0]), actions[1..])
  }

  /** Additions that ask for at least one item. */
  predicate Admissible(a: Action)
  {
    a.AddItem? ==> a.quantity >= 1
  }

  // ---------------------------------------------------------------------------
  // Lemmas

  /** Removing lines keeps the key and id invariants. */
  lemma SubseqConsistent(r: seq<LineItem>, cart: seq<LineItem>)
    requires IsSubseq(r, cart)
    ensures Consistent(cart) ==> Consistent(r)
  {
    if Consistent(cart) {
      SubseqElements(r, cart);
      SubseqDistinctKeys(r, cart, LineKey);
    }
  }

  lemma RemoveConsistent(cart: seq<LineItem>, id: Id, size: Option<string>)
    ensures Consistent(cart) ==> Consistent(Remove(cart, id, size))
  {
    if Truthy(id) {
      SubseqConsistent(Remove(cart, id, size), cart);
    }
  }

  /** A bump keeps every line's key and id in place. */
  lemma BumpConsistent(cart: seq<LineItem>, id: Id, size: Option<string>, delta: int)
    ensures Consistent(cart) ==> Consistent(BumpFirstMatch(cart, id, size, delta))
  {
    var r := BumpFirstMatch(cart, id, size, delta);
    BumpKeepsKeys(cart, id, size, delta);
    if Consistent(cart) {
      forall x | x in r
        ensures Truthy(x.id)
      {
        var j :| 0 <= j < |r| && r[j] == x;
        assert cart[j] in cart;
      }
      assert forall i, j | 0 <= i < j < |r| :: LineKey(r[i]) == LineKey(cart[i]) && LineKey(r[j]) == LineKey(cart[j]);
    }
  }

  /** An addition keeps the invariants whatever quantity it asks for: a valid request
      carries a truthy id, and an invalid one changes nothing. */
  lemma AddConsistent(cart: seq<LineItem>, id: Id, name: string, price: Price, image: Option<string>,
                      quantity: int, size: Option<string>)
    ensures Consistent(cart) ==> Consistent(Add(cart, id, name, price, image, quantity, size))
  {
    var r := Add(cart, id, name, price, image, quantity, size);
    if Consistent(cart) {
      AddPreservesUniqueKeys(cart, id, name, price, image, quantity, size);
      if ValidRequest(id, name, price) {
        if HasMatch(cart, id, size) {
          BumpConsistent(cart, id, size, quantity);
        } else {
          forall x | x in r ensures Truthy(x.id) {
            var j :| 0 <= j < |r| && r[j] == x;
            if j < |cart| {
              assert r[..|cart|][j] == x;
              assert cart[j] in cart;
            }
          }
        }
      }
    }
  }

  lemma DecreaseConsistent(cart: seq<LineItem>, id: Id, size: Option<string>)
    ensures Consistent(cart) ==> Consistent(Decrease(cart, id, size))
  {
    if HasMatch(cart, id, size) {
      if cart[FirstMatch(cart, id, size)].quantity > 1 {
        BumpConsistent(cart, id, size, -1);
      } else {
        RemoveConsistent(cart, id, size);
      }
    }
  }

  /** Removing lines keeps every remaining line's quantity. */
  lemma SubseqQuantities(r: seq<LineItem>, cart: seq<LineItem>)
    requires IsSubseq(r, cart) && QuantitiesAtLeast(cart, 1)
    ensures QuantitiesAtLeast(r, 1)
  {
    SubseqElements(r, cart);
  }

  lemma RemoveQuantities(cart: seq<LineItem>, id: Id, size: Option<string>)
    requires QuantitiesAtLeast(cart, 1)
    ensures QuantitiesAtLeast(Remove(cart, id, size), 1)
  {
    if Truthy(id) {
      SubseqQuantities(Remove(cart, id, size), cart);
    }
  }

  lemma BumpQuantities(cart: seq<LineItem>, id: Id, size: Option<string>, delta: int)
    requires QuantitiesAtLeast(cart, 1)
    requires HasMatch(cart, id, size) ==> cart[FirstMatch(cart, id, size)].quantity + delta >= 1
    ensures QuantitiesAtLeast(BumpFirstMatch(cart, id, size, delta), 1)
  {
    var r := BumpFirstMatch(cart, id, size, delta);
    forall x | x in r
      ensures x.quantity >= 1
    {
      var j :| 0 <= j < |r| && r[j] == x;
      assert cart[j] in cart;
    }
  }

  /** Every admissible action keeps the invariants, the quantities included. */
  lemma ApplyPreservesWellFormed(cart: seq<LineItem>, a: Action)
    requires WellFormed(cart) && Admissible(a)
    ensures WellFormed(Apply(cart, a))
  {
    match a
    case AddItem(id, name, price, image, quantity, size) =>
      if ValidRequest(id, name, price) {
        if HasMatch(cart, id, size) {
          BumpQuantities(cart, id, size, quantity);
        } else {
          var r := Add(cart, id, name, price, image, quantity, size);
          forall x | x in r ensures x.quantity >= 1 {
            var j :| 0 <= j < |r| && r[j] == x;
            if j < |cart| {
              assert r[..|cart|][j] == x;
              assert cart[j] in cart;
            }
          }
        }
      }
    case RemoveItem(id, size) =>
      RemoveQuantities(cart, id, size);
    case IncreaseItem(id, size) =>
      BumpQuantities(cart, id, size, 1);
    case DecreaseItem(id, size) =>
      if HasMatch(cart, id, size) {
        if cart[FirstMatch(cart, id, size)].quantity > 1 {
          BumpQuantities(cart, id, size, -1);
        } else {
          RemoveQuantities(cart, id, size);
        }
      }
    case ClearCart =>
    case CleanupCart =>
      SubseqQuantities(Cleanup(cart), cart);
  }

  /** Any session of admissible actions starting from a well-formed cart (the empty
      cart included) ends in a well-formed cart. */
  lemma {:induction false} ReplayPreservesWellFormed(cart: seq<LineItem>, actions: seq<Action>)
    requires WellFormed(cart)
    requires forall i | 0 <= i < |actions| :: Admissible(actions[i])
    ensures WellFormed(Replay(cart, actions))
    decreases |actions|
  {
    if actions != [] {
      ApplyPreservesWellFormed(cart, actions[0]);
      ReplayPreservesWellFormed(Apply(cart, actions[0]), actions[1..]);
    }
  }

  /** `addToCart` never checks the quantity: an addition of zero items, which the
      quick-view field passes on when 0 is typed into it, stores a line holding no
      item. The keys and ids stay consistent; the quantities do not. */
  lemma AddOfZeroBreaksQuantities()
    ensures var img := Some("https://example.com/a.png");
      var r := Apply([], AddItem(Str("A"), "Shirt", Amount(10.0), img, 0, Some("M")));
      && r == [LineItem(Str("A"), "Shirt", Amount(10.0), img, 0, Some("M"))]
      && Consistent(r)
      && !WellFormed(r)
  {
    var img := Some("https://example.com/a.png");
    var r := Apply([], AddItem(Str("A"), "Shirt", Amount(10.0), img, 0, Some("M")));
    assert r[0] in r;
  }

  /** Clearing leaves no line and a zero count. */
  lemma ClearEmpties(cart: seq<LineItem>)
    ensures Apply(cart, ClearCart) == [] && ItemCount(Apply(cart, ClearCart)) == 0
  {
  }

  /** Sized and sizeless additions of one product: two sizes make two lines, and a
      sizeless addition merges into the first line of that id whatever its size. */
  lemma AddScenarios()
    ensures var a := Str("A");
      var price := Amount(10.0);
      var img := Some("https://example.com/a.png");
      var sized := Add(Add([], a, "Shirt", price, img, 1, Some("M")), a, "Shirt", price, img, 1, Some("L"));
      var merged := Add(Add([], a, "Shirt", price, img, 1, None), a, "Shirt", price, img, 2, None);
      var crossed := Add(Add([], a, "Shirt", price, img, 1, Some("M")), a, "Shirt", price, img, 1, None);
      && |sized| == 2 && sized[0].size == Some("M") && sized[1].size == Some("L")
      && |merged| == 1 && merged[0].quantity == 3
      && |crossed| == 1 && crossed[0].size == Some("M") && crossed[0].quantity == 2
  {
    var a := Str("A");
    var price := Amount(10.0);
    var img := Some("https://example.com/a.png");
    var m := Add([], a, "Shirt", price, img, 1, Some("M"));
    assert m == [LineItem(a, "Shirt", price, img, 1, Some("M"))];
    assert !Matches(m[0], a, Some("L"));
    assert Matches(m[0], a, None);
    var n := Add([], a, "Shirt", price, img, 1, None);
    assert Matches(n[0], a, None);
  }

  /** The sizeless rule of removal reaches every size: the "−" or trash button of a
      sizeless line holding one item also takes away the sized lines of that product. */
  lemma SizelessRemovalTakesAllSizes()
    ensures var a := Str("A");
      var price := Amount(10.0);
      var img := Some("https://example.com/a.png");
      var cart := [LineItem(a, "Shirt", price, img, 1, None), LineItem(a, "Shirt", price, img, 2, Some("M"))];
      && Remove(cart, a, None) == []
      && Decrease(cart, a, None) == []
      && Remove(cart, a, Some("M")) == [cart[0]]
  {
    var a := Str("A");
    var price := Amount(10.0);
    var img := Some("https://example.com/a.png");
    var cart := [LineItem(a, "Shirt", price, img, 1, None), LineItem(a, "Shirt", price, img, 2, Some("M"))];
    assert cart[1..][1..] == [];
    assert Filter(cart, UnmatchedOf(a, None)) == [];
    assert FirstMatch(cart, a, None) == 0;
    assert Matches(cart[1], a, Some("M")) && !Matches(cart[0], a, Some("M"));
    assert Filter(cart, UnmatchedOf(a, Some("M"))) == [cart[0]];
  }

  /** The cart panel passes ids read from `data-id` attributes, which are strings. On a
      line whose id is the number 7, "+" and "−" find nothing and do nothing, while the
      trash button still removes the line through its string-coerced retry. */
  lemma PanelOnNumericLine()
    ensures var line := LineItem(Num(7), "Dress", Amount(40.0), Some("https://example.com/7.png"), 2, None);
      && Increase([line], Str("7"), None) == [line]
      && Decrease([line], Str("7"), None) == [line]
      && Remove([line], Str("7"), None) == []
  {
    var line := LineItem(Num(7), "Dress", Amount(40.0), Some("https://example.com/7.png"), 2, None);
    assert !Matches(line, Str("7"), None);
    assert NatDigits(7) == "7";
    assert LooselyMatches(line, Str("7"), None);
    assert Filter([line], LooselyUnmatchedOf(Str("7"), None)) == [];
  }
}
