/** The persisted cart: what page load does with the `eleganceCart` slot. The slot's
    JSON text is abstracted to its parse result; the rendered product elements the
    loader consults to repair images are a lookup parameter. */
module CartStore {
  import opened Options
  import opened JsValues
  import opened Seqs
  import opened Cart

  /** One element of the parsed array: an object with cart-item fields (missing
      fields read as `undefined`), or a value that is not an object (`null`, a number,
      a string...), whose `id` is never truthy. */
  datatype StoredEntry = NotAnObject | Object(item: LineItem)

  /** The slot as read at page load. `Empty` is a missing slot or the empty string
      (both falsy, so the loader does nothing); `Corrupt` is text that `JSON.parse`
      rejects or whose value has no `filter` method (not an array). */
  datatype Slot = Empty | Corrupt | Entries(entries: seq<StoredEntry>)

  /** What `document.querySelector('[data-id="<id>"]')` yields: no element, or an
      element whose `data-image` attribute may be absent. */
  datatype Element = NoElement | Element(dataImage: Option<string>)

  /** The result of page load: the in-memory cart and what was written back to the
      slot, if anything. */
  datatype Loaded = Loaded(cart: seq<LineItem>, written: Option<seq<LineItem>>)

  /** The sanitiser's filter condition: an object with a truthy `id` and `image`. */
  predicate Kept(e: StoredEntry)
  {
    e.Object? && Truthy(e.item.id) && TruthyText(e.item.image)
  }

  /** A kept line whose image does not start with `http` takes the `data-image` of
      the rendered element carrying its id, when there is such an element. */
  function Repair(item: LineItem, lookup: string -> Element): (r: LineItem)
    requires TruthyText(item.image)
    ensures r.(image := item.image) == item
    ensures r.image != item.image ==> !StartsWith(item.image.value, "http")
    ensures StartsWith(item.image.value, "http") || lookup(ToJsString(item.id)).NoElement? ==> r == item
    ensures !StartsWith(item.image.value, "http") && lookup(ToJsString(item.id)).Element? ==>
      r.image == lookup(ToJsString(item.id)).dataImage
  {
    if StartsWith(item.image.value, "http") then item
    else
      match lookup(ToJsString(item.id))
      case NoElement => item
      case Element(image) => item.(image := image)
  }

  /** The load-time `cart.filter(...)` pass: drop entries without a truthy id or image,
      repair the images of the rest, keep the order. */
  function Sanitize(entries: seq<StoredEntry>, lookup: string -> Element): (r: seq<LineItem>)
    ensures |r| <= |entries|
    ensures forall x | x in r :: Truthy(x.id)
    ensures forall e | e in entries && Kept(e) :: Repair(e.item, lookup) in r
    ensures forall x | x in r :: exists e | e in entries :: Kept(e) && x == Repair(e.item, lookup)
    decreases |entries|
  {
    if entries == [] then []
    else
      var rest := Sanitize(entries[1..], lookup);
      assert entries == [entries[0]] + entries[1..];
      assert forall e | e in entries[1..] :: e in entries;
      if Kept(entries[0]) then [Repair(entries[0].item, lookup)] + rest else rest
  }

  /** `JSON.stringify` followed by `JSON.parse`: every line comes back as an object. */
  function Save(cart: seq<LineItem>): (r: seq<StoredEntry>)
    ensures |r| == |cart|
    ensures forall i | 0 <= i < |cart| :: r[i] == Object(cart[i])
  {
    Map(cart, (x: LineItem) => Object(x))
  }

  /** Page load (script.js, DOMContentLoaded handler): sanitise a readable slot and
      write the result back; reset a corrupt slot to `[]`; leave an empty one alone. */
  function Load(slot: Slot, lookup: string -> Element): (r: Loaded)
    ensures slot.Empty? ==> r.cart == [] && r.written.None?
    ensures slot.Corrupt? ==> r.cart == [] && r.written == Some([])
    ensures slot.Entries? ==> r.written == Some(r.cart) && |r.cart| <= |slot.entries|
    ensures slot.Entries? ==> r.cart == Sanitize(slot.entries, lookup)
    ensures forall x | x in r.cart :: Truthy(x.id)
  {
    match slot
    case Empty => Loaded([], None)
    case Corrupt => Loaded([], Some([]))
    case Entries(entries) =>
      var cart := Sanitize(entries, lookup);
      Loaded(cart, Some(cart))
  }

  // ---------------------------------------------------------------------------
  // Lemmas

  /** Sanitising works entry by entry: it distributes over concatenation. */
  lemma {:induction false} SanitizeAppend(a: seq<StoredEntry>, b: seq<StoredEntry>, lookup: string -> Element)
    ensures Sanitize(a + b, lookup) == Sanitize(a, lookup) + Sanitize(b, lookup)
    decreases |a|
  {
    if a == [] {
      assert a + b == b;
    } else {
      assert (a + b)[1..] == a[1..] + b;
      assert (a + b)[0] == a[0];
      SanitizeAppend(a[1..], b, lookup);
    }
  }

  /** A single entry survives exactly when it is kept, and then only its image may change. */
  lemma SanitizeSingle(e: StoredEntry, lookup: string -> Element)
    ensures Sanitize([e], lookup) == if Kept(e) then [Repair(e.item, lookup)] else []
  {
    assert [e][1..] == [];
  }

  /** A cart whose lines all pass the filter and need no repair loads back unchanged. */
  lemma {:induction false} SanitizeFixedPoint(cart: seq<LineItem>, lookup: string -> Element)
    requires forall i | 0 <= i < |cart| :: Kept(Object(cart[i])) && Repair(cart[i], lookup) == cart[i]
    ensures Sanitize(Save(cart), lookup) == cart
    decreases |cart|
  {
    if cart != [] {
      var rest := cart[1..];
      assert forall i | 0 <= i < |rest| :: rest[i] == cart[i + 1];
      SanitizeFixedPoint(rest, lookup);
      var saved := Save(cart);
      assert saved[1..] == Save(rest);
      assert Kept(saved[0]) && Repair(saved[0].item, lookup) == cart[0];
      assert Sanitize(saved, lookup) == [cart[0]] + Sanitize(saved[1..], lookup);
      assert cart == [cart[0]] + rest;
    }
  }

  /** A line the sanitiser accepts without touching: truthy id, and an image that starts with `http`. */
  predicate WellStored(x: LineItem)
  {
    Truthy(x.id) && TruthyText(x.image) && StartsWith(x.image.value, "http")
  }

  /** Saving a cart of well-stored lines and loading it again gives the same cart,
      whatever the page renders, and the slot is rewritten with that same cart. */
  lemma SaveLoadRoundTrip(cart: seq<LineItem>, lookup: string -> Element)
    requires forall x | x in cart :: WellStored(x)
    ensures Load(Entries(Save(cart)), lookup) == Loaded(cart, Some(cart))
  {
    assert forall i | 0 <= i < |cart| :: cart[i] in cart;
    SanitizeFixedPoint(cart, lookup);
  }

  /** Every rendered element the lookup can find carries a non-empty `data-image`. */
  ghost predicate LookupYieldsImages(lookup: string -> Element)
  {
    forall k :: lookup(k).Element? ==> TruthyText(lookup(k).dataImage)
  }

  /** When every element found carries an image, loading what the loader itself
      wrote gives the same cart back: the sanitiser is idempotent. */
  lemma SanitizeIdempotent(entries: seq<StoredEntry>, lookup: string -> Element)
    requires LookupYieldsImages(lookup)
    ensures Sanitize(Save(Sanitize(entries, lookup)), lookup) == Sanitize(entries, lookup)
  {
    var r := Sanitize(entries, lookup);
    forall i | 0 <= i < |r|
      ensures Kept(Object(r[i])) && Repair(r[i], lookup) == r[i]
    {
      var x := r[i];
      assert x in r;
      var e :| e in entries && Kept(e) && x == Repair(e.item, lookup);
      var k := ToJsString(e.item.id);
      assert ToJsString(x.id) == k;
    }
    SanitizeFixedPoint(r, lookup);
  }

  /** Without that assumption the sanitiser is not idempotent: an entry whose image
      is repaired from an element lacking `data-image` survives the first load with
      a `null` image and is dropped by the next one. */
  lemma SanitizeNotIdempotentWithoutImages()
    ensures var lookup := (k: string) => Element(None);
      var entries := [Object(LineItem(Str("7"), "Dress", Amount(40.0), Some("dress.png"), 1, None))];
      && Sanitize(entries, lookup) == [LineItem(Str("7"), "Dress", Amount(40.0), None, 1, None)]
      && Sanitize(Save(Sanitize(entries, lookup)), lookup) == []
  {
    var lookup := (k: string) => Element(None);
    var item := LineItem(Str("7"), "Dress", Amount(40.0), Some("dress.png"), 1, None);
    assert item.image.value[..4][0] == 'd';
    assert !StartsWith(item.image.value, "http");
    SanitizeSingle(Object(item), lookup);
    SanitizeSingle(Object(item.(image := None)), lookup);
  }
}
