/** The catalog transforms applied to the fetched product list: de-duplication by id
    (the product grid), and the category list, per-category groups and three-item
    previews (the category pages). The fetch itself is not modelled; the product
    list is an input. */
module Catalog {
  import opened JsValues
  import opened Seqs

  /** A catalog entry `{id, name, price, image, category, description}`. */
  datatype Product = Product(
    id: Id,
    name: string,
    price: real,
    image: string,
    category: string,
    description: string)

  function ProductId(p: Product): Id
  {
    p.id
  }

  function CategoryOf(p: Product): string
  {
    p.category
  }

  function Self(c: string): string
  {
    c
  }

  /** `p => p.category === c` */
  function InCategory(c: string): Product -> bool
  {
    (p: Product) => p.category == c
  }

  /** The index of the first product of category `c`, or -1. */
  function FirstOfCategory(products: seq<Product>, c: string): int
  {
    IndexOfKey(products, CategoryOf, c)
  }

  /** The product grid's duplicate filter: keep a product only if it is the first
      one carrying its id. */
  function DedupProducts(products: seq<Product>): (r: seq<Product>)
    ensures IsSubseq(r, products)
    ensures DistinctKeys(r, ProductId)
    ensures KeySet(r, ProductId) == KeySet(products, ProductId)
    ensures FirstOccurrences(r, products, ProductId)
    ensures FirstAppearanceOrder(r, products, ProductId)
  {
    DedupBy(products, ProductId)
  }

  /** `[...new Set(products.map(p => p.category))]`: each category once, in order of
      first appearance. */
  function Categories(products: seq<Product>): (r: seq<string>)
    ensures forall i, j | 0 <= i < j < |r| :: r[i] != r[j]
    ensures forall c :: c in r <==> exists p | p in products :: p.category == c
    ensures forall i, j | 0 <= i < j < |r| :: FirstOfCategory(products, r[i]) < FirstOfCategory(products, r[j])
  {
    var r := DedupBy(Map(products, CategoryOf), Self);
    DistinctNames(r);
    NamesCoverCategories(products, r);
    NamesInCatalogOrder(products, r);
    r
  }

  lemma DistinctNames(r: seq<string>)
    requires DistinctKeys(r, Self)
    ensures forall i, j | 0 <= i < j < |r| :: r[i] != r[j]
  {
    forall i, j | 0 <= i < j < |r| ensures r[i] != r[j] {
      assert Self(r[i]) != Self(r[j]);
    }
  }

  /** Names with the same key set as the mapped catalog are exactly the categories
      some product has. */
  lemma NamesCoverCategories(products: seq<Product>, r: seq<string>)
    requires KeySet(r, Self) == KeySet(Map(products, CategoryOf), Self)
    ensures forall c :: c in r <==> exists p | p in products :: p.category == c
  {
    var names := Map(products, CategoryOf);
    forall c
      ensures c in r <==> exists p | p in products :: p.category == c
    {
      assert c in r <==> Self(c) in KeySet(r, Self);
      assert c in names <==> Self(c) in KeySet(names, Self);
      if c in names {
        var i :| 0 <= i < |names| && names[i] == c;
        assert products[i] in products;
      }
    }
  }

  /** Names in first-appearance order of the mapped catalog are in the order of their
      categories' first products. */
  lemma NamesInCatalogOrder(products: seq<Product>, r: seq<string>)
    requires FirstAppearanceOrder(r, Map(products, CategoryOf), Self)
    ensures forall i, j | 0 <= i < j < |r| :: FirstOfCategory(products, r[i]) < FirstOfCategory(products, r[j])
  {
    forall i, j | 0 <= i < j < |r|
      ensures FirstOfCategory(products, r[i]) < FirstOfCategory(products, r[j])
    {
      IndexOfMapped(products, r[i]);
      IndexOfMapped(products, r[j]);
    }
  }

  /** Looking a category up in the mapped list finds the same index as looking it up
      among the products. */
  lemma {:induction false} IndexOfMapped(products: seq<Product>, c: string)
    ensures IndexOfKey(Map(products, CategoryOf), Self, c) == IndexOfKey(products, CategoryOf, c)
    decreases |products|
  {
    if products != [] {
      assert Map(products, CategoryOf)[1..] == Map(products[1..], CategoryOf);
      IndexOfMapped(products[1..], c);
    }
  }

  /** `products.filter(p => p.category === category)`: the products of one category,
      in catalog order. */
  function Group(products: seq<Product>, c: string): (r: seq<Product>)
    ensures KeepsExactly(r, products, InCategory(c))
    ensures forall p | p in r :: p in products && p.category == c
  {
    Filter(products, InCategory(c))
  }

  /** `categories.map(category => ...)` over the groups, for the given category list. */
  function GroupsFor(products: seq<Product>, categories: seq<string>): (r: seq<seq<Product>>)
    ensures |r| == |categories|
    ensures forall i | 0 <= i < |r| :: r[i] == Group(products, categories[i])
  {
    if categories == [] then []
    else [Group(products, categories[0])] + GroupsFor(products, categories[1..])
  }

  /** The category sections of the products page: one section per category, in the
      order of the category list, each holding that category's group; read one after
      another, the sections list every product exactly as often as the catalog does. */
  function Groups(products: seq<Product>): (r: seq<seq<Product>>)
    ensures |r| == |Categories(products)|
    ensures forall i | 0 <= i < |r| :: r[i] == Group(products, Categories(products)[i])
    ensures multiset(Flatten(r)) == multiset(products)
  {
    SectionsArePermutation(products);
    GroupsFor(products, Categories(products))
  }

  /** `.slice(0, 3)`: the first three items, or all of them when there are fewer. */
  function Preview(group: seq<Product>): (r: seq<Product>)
    ensures |r| <= 3
    ensures |group| <= 3 ==> r == group
    ensures |group| > 3 ==> |r| == 3
    ensures r == group[..|r|]
  {
    if |group| <= 3 then group else group[..3]
  }

  /** The category previews of the home page: one per category, each the first
      three products of its group, or the whole group when it is shorter, and never
      empty, since every listed category has a product. */
  function Previews(products: seq<Product>): (r: seq<seq<Product>>)
    ensures |r| == |Categories(products)|
    ensures forall i | 0 <= i < |r| ::
      var g := Group(products, Categories(products)[i]);
      && 1 <= |r[i]| <= 3
      && |r[i]| == (if |g| < 3 then |g| else 3)
      && r[i] == g[..|r[i]|]
  {
    GroupsAreNonEmpty(products);
    var cats := Categories(products);
    seq(|cats|, i requires 0 <= i < |cats| => Preview(Group(products, cats[i])))
  }

  // ---------------------------------------------------------------------------
  // Lemmas

  /** De-duplicating an already de-duplicated list changes nothing. */
  lemma DedupProductsIdempotent(products: seq<Product>)
    ensures DedupProducts(DedupProducts(products)) == DedupProducts(products)
  {
    DedupByIdempotent(products, ProductId);
  }

  /** The first section contributes its own copies of `x` ahead of the rest. */
  lemma FlattenGroupsForCons(products: seq<Product>, categories: seq<string>, x: Product)
    requires categories != []
    ensures multiset(Flatten(GroupsFor(products, categories)))[x]
         == multiset(Group(products, categories[0]))[x] + multiset(Flatten(GroupsFor(products, categories[1..])))[x]
  {
    var g := Group(products, categories[0]);
    var gs, tail := GroupsFor(products, categories), GroupsFor(products, categories[1..]);
    assert gs[1..] == tail;
    assert Flatten(gs) == g + Flatten(tail);
  }

  /** A category's section holds every copy of the products of that category and no other. */
  lemma GroupCount(products: seq<Product>, c: string, x: Product)
    ensures multiset(Group(products, c))[x] == if x.category == c then multiset(products)[x] else 0
  {
    assert InCategory(c)(x) == (x.category == c);
  }

  /** A product is counted by the groups of a list of distinct categories exactly as
      often as in the catalog when its category is listed, and not at all otherwise. */
  lemma {:induction false} GroupsForCount(products: seq<Product>, categories: seq<string>, x: Product)
    requires forall i, j | 0 <= i < j < |categories| :: categories[i] != categories[j]
    ensures multiset(Flatten(GroupsFor(products, categories)))[x]
         == if x.category in categories then multiset(products)[x] else 0
    decreases |categories|
  {
    if categories != [] {
      var rest := categories[1..];
      forall i, j | 0 <= i < j < |rest| ensures rest[i] != rest[j] {
        assert rest[i] == categories[i + 1] && rest[j] == categories[j + 1];
      }
      forall k | 0 <= k < |rest| ensures rest[k] != categories[0] {
        assert rest[k] == categories[k + 1];
      }
      GroupsForCount(products, rest, x);
      FlattenGroupsForCons(products, categories, x);
      GroupCount(products, categories[0], x);
      assert categories == [categories[0]] + rest;
      assert x.category in categories <==> x.category == categories[0] || x.category in rest;
    }
  }

  /** Reading the category sections one after another lists every product exactly
      as often as the catalog does: the sections are a permutation of the catalog. */
  lemma SectionsArePermutation(products: seq<Product>)
    ensures multiset(Flatten(GroupsFor(products, Categories(products)))) == multiset(products)
  {
    var cats := Categories(products);
    forall x
      ensures multiset(Flatten(GroupsFor(products, cats)))[x] == multiset(products)[x]
    {
      GroupsForCount(products, cats, x);
      if x in products {
        assert x.category in cats;
      }
    }
  }

  /** Every product sits in the section of its own category and in no other one. */
  lemma EachProductInOneGroup(products: seq<Product>, p: Product)
    requires p in products
    ensures p.category in Categories(products)
    ensures forall i | 0 <= i < |Groups(products)| ::
      p in Groups(products)[i] <==> Categories(products)[i] == p.category
  {
    var cats := Categories(products);
    forall i | 0 <= i < |cats|
      ensures p in Groups(products)[i] <==> cats[i] == p.category
    {
      var g := Group(products, cats[i]);
      if cats[i] == p.category {
        assert multiset(g)[p] == multiset(products)[p];
      }
    }
  }

  /** Every listed category has at least one product in its group. */
  lemma GroupsAreNonEmpty(products: seq<Product>)
    ensures forall i | 0 <= i < |Categories(products)| :: |Group(products, Categories(products)[i])| >= 1
  {
    var cats := Categories(products);
    forall i | 0 <= i < |cats|
      ensures |Group(products, cats[i])| >= 1
    {
      assert cats[i] in cats;
      var p :| p in products && p.category == cats[i];
      assert multiset(Group(products, cats[i]))[p] == multiset(products)[p];
    }
  }


  /** Two products of category X around one of category Y: the categories come out
      as X then Y, and X's section holds the first and third products in that order. */
  lemma GroupingExample()
    ensures var p1 := Product(Num(1), "Dress", 40.0, "https://example.com/1.png", "X", "");
      var p2 := Product(Num(2), "Bag", 25.0, "https://example.com/2.png", "Y", "");
      var p3 := Product(Num(3), "Skirt", 30.0, "https://example.com/3.png", "X", "");
      && Categories([p1, p2, p3]) == ["X", "Y"]
      && Groups([p1, p2, p3]) == [[p1, p3], [p2]]
  {
    var p1 := Product(Num(1), "Dress", 40.0, "https://example.com/1.png", "X", "");
    var p2 := Product(Num(2), "Bag", 25.0, "https://example.com/2.png", "Y", "");
    var p3 := Product(Num(3), "Skirt", 30.0, "https://example.com/3.png", "X", "");
    var ps := [p1, p2, p3];
    CategoriesOfXYX(ps);
    SectionsOfXYX(ps);
  }

  lemma GroupsOfXYX(ps: seq<Product>)
    requires |ps| == 3 && ps[0].category == "X" && ps[1].category == "Y" && ps[2].category == "X"
    ensures Group(ps, "X") == [ps[0], ps[2]]
    ensures Group(ps, "Y") == [ps[1]]
  {
    var x, y := InCategory("X"), InCategory("Y");
    var t1, t2 := ps[1..], ps[1..][1..];
    assert t1[0] == ps[1] && t2 == [ps[2]] && t2[1..] == [];
    assert x(ps[0]) && !x(ps[1]) && x(ps[2]);
    assert !y(ps[0]) && y(ps[1]) && !y(ps[2]);
    assert Filter(t2, x) == [ps[2]];
    assert Filter(t1, x) == [ps[2]];
    assert Filter(ps, x) == [ps[0], ps[2]];
    assert Filter(t2, y) == [];
    assert Filter(t1, y) == [ps[1]];
    assert Filter(ps, y) == [ps[1]];
  }

  /** The page's sections for categories X, Y, X: the two X products, then the Y product. */
  lemma SectionsOfXYX(ps: seq<Product>)
    requires |ps| == 3 && ps[0].category == "X" && ps[1].category == "Y" && ps[2].category == "X"
    ensures Groups(ps) == [[ps[0], ps[2]], [ps[1]]]
  {
    CategoriesOfXYX(ps);
    GroupsOfXYX(ps);
    var g := Groups(ps);
    assert |g| == 2;
    assert g[0] == [ps[0], ps[2]];
    assert g[1] == [ps[1]];
  }

  lemma CategoriesOfXYX(ps: seq<Product>)
    requires |ps| == 3 && ps[0].category == "X" && ps[1].category == "Y" && ps[2].category == "X"
    ensures Categories(ps) == ["X", "Y"]
  {
    var names := Map(ps, CategoryOf);
    assert names == ["X", "Y", "X"];
    DedupXYX();
  }

  lemma DedupXYX()
    ensures DedupBy(["X", "Y", "X"], Self) == ["X", "Y"]
  {
    var names := ["X", "Y", "X"];
    assert names[1..] == ["Y", "X"] && names[1..][1..] == ["X"] && names[1..][1..][1..] == [];
    assert DedupFrom(["X"], Self, {"X", "Y"}) == [];
    assert DedupFrom(["Y", "X"], Self, {"X"}) == ["Y"];
    assert DedupFrom(names, Self, {}) == ["X", "Y"];
  }

  /** A product list with a repeated id in third place: the grid keeps the first two
      products, in their catalog order. */
  lemma DedupExample()
    ensures var a := Product(Num(1), "A", 10.0, "https://example.com/a.png", "X", "");
      var b := Product(Num(2), "B", 12.0, "https://example.com/b.png", "X", "");
      var c := Product(Num(1), "C", 14.0, "https://example.com/c.png", "Y", "");
      DedupProducts([a, b, c]) == [a, b]
  {
    var a := Product(Num(1), "A", 10.0, "https://example.com/a.png", "X", "");
    var b := Product(Num(2), "B", 12.0, "https://example.com/b.png", "X", "");
    var c := Product(Num(1), "C", 14.0, "https://example.com/c.png", "Y", "");
    var ps := [a, b, c];
    assert ps[1..] == [b, c] && ps[1..][1..] == [c] && ps[1..][1..][1..] == [];
    assert DedupFrom([c], ProductId, {Num(1), Num(2)}) == [];
    assert DedupFrom([b, c], ProductId, {Num(1)}) == [b];
    assert DedupFrom(ps, ProductId, {}) == [a, b];
  }

}
