/** The cart across page views: every cart action ends by saving the cart to the
    `eleganceCart` slot, and the next page load reads it back through the sanitiser.
    The session invariant survives that trip for carts the engine saved; a slot
    holding duplicate keys is loaded as it is. */
module CartReload {
  import opened Options
  import opened JsValues
  import opened Seqs
  import opened Cart
  import opened CartStore
  import opened CartSession

  /** Every loaded line carries the (id, size) pair of one of the stored entries. */
  lemma SanitizedKey(entries: seq<StoredEntry>, lookup: string -> Element, x: LineItem)
    requires x in Sanitize(entries, lookup)
    ensures exists k | 0 <= k < |entries| :: entries[k].Object? && LineKey(x) == LineKey(entries[k].item)
  {
    var e :| e in entries && Kept(e) && x == Repair(e.item, lookup);
    var k :| 0 <= k < |entries| && entries[k] == e;
    assert LineKey(x) == LineKey(e.item);
  }

  /** A line whose key differs from every key of a cart with unique keys can be put
      in front of it. */
  lemma PrependKeepsUniqueKeys(head: LineItem, rest: seq<LineItem>)
    requires UniqueKeys(rest)
    requires forall x | x in rest :: LineKey(x) != LineKey(head)
    ensures UniqueKeys([head] + rest)
  {
    var r := [head] + rest;
    forall i, j | 0 <= i < j < |r| ensures LineKey(r[i]) != LineKey(r[j]) {
      assert r[j] == rest[j - 1] && rest[j - 1] in rest;
      if i > 0 {
        assert r[i] == rest[i - 1];
      }
    }
  }

  /** Entries that are all objects with distinct (id, size) pairs. */
  predicate DistinctObjects(entries: seq<StoredEntry>)
  {
    && (forall e | e in entries :: e.Object?)
    && forall i, j | 0 <= i < j < |entries| :: LineKey(entries[i].item) != LineKey(entries[j].item)
  }

  lemma DistinctObjectsTail(entries: seq<StoredEntry>)
    requires entries != [] && DistinctObjects(entries)
    ensures DistinctObjects(entries[1..])
    ensures forall k | 0 <= k < |entries[1..]| :: LineKey(entries[1..][k].item) != LineKey(entries[0].item)
  {
    var tail := entries[1..];
    forall e | e in tail ensures e.Object? {
      var k :| 0 <= k < |tail| && tail[k] == e;
      assert entries[k + 1] == e;
    }
    forall i, j | 0 <= i < j < |tail| ensures LineKey(tail[i].item) != LineKey(tail[j].item) {
      assert tail[i] == entries[i + 1] && tail[j] == entries[j + 1];
    }
    forall k | 0 <= k < |tail| ensures LineKey(tail[k].item) != LineKey(entries[0].item) {
      assert tail[k] == entries[k + 1];
    }
  }

  /** The sanitiser only drops entries and repairs images, so entries with distinct
      (id, size) pairs load as lines with distinct (id, size) pairs. */
  lemma {:induction false} SanitizeKeepsUniqueKeys(entries: seq<StoredEntry>, lookup: string -> Element)
    requires DistinctObjects(entries)
    ensures UniqueKeys(Sanitize(entries, lookup))
    decreases |entries|
  {
    if entries != [] {
      var tail := entries[1..];
      DistinctObjectsTail(entries);
      SanitizeKeepsUniqueKeys(tail, lookup);
      var rest := Sanitize(tail, lookup);
      if Kept(entries[0]) {
        var head := Repair(entries[0].item, lookup);
        assert LineKey(head) == LineKey(entries[0].item);
        forall x | x in rest ensures LineKey(x) != LineKey(head) {
          SanitizedKey(tail, lookup, x);
        }
        PrependKeepsUniqueKeys(head, rest);
        assert Sanitize(entries, lookup) == [head] + rest;
      } else {
        assert Sanitize(entries, lookup) == rest;
      }
    }
  }

  /** A cart the engine saved reloads as a cart with unique keys and truthy ids,
      whatever the image repair does. */
  lemma ReloadKeepsConsistent(cart: seq<LineItem>, lookup: string -> Element)
    requires Consistent(cart)
    ensures Consistent(Load(Entries(Save(cart)), lookup).cart)
  {
    var entries := Save(cart);
    forall e | e in entries ensures e.Object? {
      var k :| 0 <= k < |entries| && entries[k] == e;
    }
    forall i, j | 0 <= i < j < |entries| ensures LineKey(entries[i].item) != LineKey(entries[j].item) {
      assert entries[i].item == cart[i] && entries[j].item == cart[j];
    }
    SanitizeKeepsUniqueKeys(entries, lookup);
  }

  /** The loader does not de-duplicate: a slot holding the same kept entry twice loads
      two lines with the same (id, size) pair. */
  lemma DuplicatesSurviveLoad(x: LineItem, lookup: string -> Element)
    requires Kept(Object(x))
    ensures var r := Load(Entries([Object(x), Object(x)]), lookup).cart;
      r == [Repair(x, lookup), Repair(x, lookup)] && !UniqueKeys(r)
  {
    SanitizeAppend([Object(x)], [Object(x)], lookup);
    SanitizeSingle(Object(x), lookup);
    assert [Object(x)] + [Object(x)] == [Object(x), Object(x)];
    var r := [Repair(x, lookup), Repair(x, lookup)];
    assert LineKey(r[0]) == LineKey(r[1]);
  }
}
