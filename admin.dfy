/**
 * The moderation side of `AdminDashboard`: the list of user-submitted
 * products awaiting approval, which approving or rejecting shortens in place
 * (find the index, then splice), the sidebar badge that shows its length,
 * the section shown, and the per-category product counts of the categories
 * page. Rendering, charts and notifications are not modelled.
 */
module Admin {
  import opened Wrappers
  import opened Seqs
  import opened Catalog
  import opened ProductManager

  /** A product a user submitted for review. */
  datatype PendingProduct = PendingProduct(
    id: string,
    name: string,
    brand: string,
    category: string,
    price: int,
    sourceUrl: string,
    submittedBy: string,
    status: string)

  /** What `generateSamplePendingProducts` loads. */
  const SamplePending: seq<PendingProduct> := [
    PendingProduct("pending_1", "Tatcha The Water Cream", "Tatcha", "skincare", 68,
      "https://www.sephora.com/product/tatcha-water-cream", "user123@email.com", "pending"),
    PendingProduct("pending_2", "Glow Recipe Watermelon Glow Niacinamide Dew Drops", "Glow Recipe", "skincare", 34,
      "https://www.ulta.com/p/watermelon-glow-niacinamide-dew-drops", "beautylov3r@email.com", "pending")]

  /** The values `approveProductWithEdits` reads from the review form. */
  datatype ProductEdits = ProductEdits(
    name: string, brand: string, category: string, price: string, description: string, tags: string)

  // --------------------------------------------------- removal by id

  /** `findIndex(p => p.id === id)`: the first position holding `id`, or -1. */
  function FindIndex(s: seq<PendingProduct>, id: string): (i: int)
    ensures -1 <= i < |s|
    ensures i >= 0 ==> s[i].id == id && forall j :: 0 <= j < i ==> s[j].id != id
    ensures i == -1 ==> forall j :: 0 <= j < |s| ==> s[j].id != id
  {
    if s == [] then -1
    else if s[0].id == id then 0
    else
      var j := FindIndex(s[1..], id);
      if j < 0 then -1 else j + 1
  }

  /** The list after `findIndex` and, when something was found, `splice(index, 1)`. */
  function RemoveFirst(s: seq<PendingProduct>, id: string): seq<PendingProduct> {
    var i := FindIndex(s, id);
    if i < 0 then s else s[..i] + s[i + 1..]
  }

  /** The callback matching products with the given id. */
  function HasId(id: string): PendingProduct -> bool {
    (p: PendingProduct) => p.id == id
  }

  /** How many entries of `s` carry `id`. */
  function IdCount(s: seq<PendingProduct>, id: string): nat {
    |Filter(s, HasId(id))|
  }

  lemma {:induction false} SubsequenceOfItself<T>(s: seq<T>)
    ensures IsSubsequence(s, s)
  {
    if s != [] {
      SubsequenceOfItself(s[1..]);
    }
  }

  /** Leaving out one element keeps the others in order. */
  lemma {:induction false} DropOneIsSubsequence<T>(s: seq<T>, i: int)
    requires 0 <= i < |s|
    ensures IsSubsequence(s[..i] + s[i + 1..], s)
    decreases i
  {
    var r := s[..i] + s[i + 1..];
    if i == 0 {
      assert r == s[1..];
      SubsequenceOfItself(s[1..]);
    } else {
      DropOneIsSubsequence(s[1..], i - 1);
      assert r[0] == s[0];
      assert r[1..] == s[1..][..i - 1] + s[1..][i..];
    }
  }

  /**
   * Removing an id that is not pending changes nothing. Removing one that is
   * takes out exactly its first occurrence: one element shorter, the entries
   * before it untouched, every other entry kept in its original order.
   */
  lemma RemoveFirstEffect(s: seq<PendingProduct>, id: string)
    ensures FindIndex(s, id) < 0 ==> RemoveFirst(s, id) == s
    ensures FindIndex(s, id) >= 0 ==>
              var i := FindIndex(s, id);
              && |RemoveFirst(s, id)| == |s| - 1
              && RemoveFirst(s, id)[..i] == s[..i]
              && multiset(RemoveFirst(s, id)) + multiset{s[i]} == multiset(s)
              && IsSubsequence(RemoveFirst(s, id), s)
  {
    var i := FindIndex(s, id);
    if i >= 0 {
      DropOneEffect(s, i);
    }
  }

  /** Leaving out the element at `i`: one shorter, same prefix, one copy of `s[i]` fewer, others in order. */
  lemma DropOneEffect<T>(s: seq<T>, i: int)
    requires 0 <= i < |s|
    ensures var r := s[..i] + s[i + 1..];
      && |r| == |s| - 1 && r[..i] == s[..i]
      && multiset(r) + multiset{s[i]} == multiset(s)
      && IsSubsequence(r, s)
  {
    var r := s[..i] + s[i + 1..];
    assert r[..i] == s[..i];
    assert s == s[..i] + [s[i]] + s[i + 1..];
    assert multiset(s) == multiset(s[..i]) + multiset{s[i]} + multiset(s[i + 1..]);
    DropOneIsSubsequence(s, i);
  }

  /** Removing a pending id leaves one fewer entry with that id. */
  lemma RemoveFirstIdCount(s: seq<PendingProduct>, id: string)
    requires FindIndex(s, id) >= 0
    ensures IdCount(RemoveFirst(s, id), id) == IdCount(s, id) - 1
  {
    var i := FindIndex(s, id);
    var a, b := s[..i], s[i + 1..];
    assert s == (a + [s[i]]) + b;
    FilterAppend(a, b, HasId(id));
    FilterAppend(a + [s[i]], b, HasId(id));
    FilterAppend(a, [s[i]], HasId(id));
  }

  /** Ids that are not pending are never found; otherwise the list only shrinks. */
  lemma RemoveFirstOfAbsent(s: seq<PendingProduct>, id: string)
    requires forall p :: p in s ==> p.id != id
    ensures RemoveFirst(s, id) == s
  {
  }

  /** Removal walks the list: drop the head if it matches, otherwise keep it and go on. */
  lemma RemoveFirstCons(s: seq<PendingProduct>, id: string)
    requires s != []
    ensures s[0].id == id ==> RemoveFirst(s, id) == s[1..]
    ensures s[0].id != id ==> RemoveFirst(s, id) == [s[0]] + RemoveFirst(s[1..], id)
  {
    if s[0].id != id {
      var t := s[1..];
      var j := FindIndex(t, id);
      if j < 0 {
        assert FindIndex(s, id) == -1;
        assert s == [s[0]] + t;
      } else {
        assert FindIndex(s, id) == j + 1;
        assert RemoveFirst(t, id) == t[..j] + t[j + 1..];
        assert s[..j + 1] == [s[0]] + t[..j];
        assert s[j + 2..] == t[j + 1..];
      }
    }
  }

  /** Moderating two submissions gives the same list in either order. */
  lemma {:induction false} RemovalsCommute(s: seq<PendingProduct>, a: string, b: string)
    ensures RemoveFirst(RemoveFirst(s, a), b) == RemoveFirst(RemoveFirst(s, b), a)
  {
    if s != [] && a != b {
      var h, t := s[0], s[1..];
      RemoveFirstCons(s, a);
      RemoveFirstCons(s, b);
      if h.id == a {
        RemoveFirstCons([h] + RemoveFirst(t, b), a);
        assert ([h] + RemoveFirst(t, b))[1..] == RemoveFirst(t, b);
      } else if h.id == b {
        RemoveFirstCons([h] + RemoveFirst(t, a), b);
        assert ([h] + RemoveFirst(t, a))[1..] == RemoveFirst(t, a);
      } else {
        RemoveFirstCons([h] + RemoveFirst(t, a), b);
        RemoveFirstCons([h] + RemoveFirst(t, b), a);
        assert ([h] + RemoveFirst(t, a))[1..] == RemoveFirst(t, a);
        assert ([h] + RemoveFirst(t, b))[1..] == RemoveFirst(t, b);
        RemovalsCommute(t, a, b);
      }
    }
  }

  // --------------------------------------------------- category counts

  /** `allProducts.filter(p => p.category === category).length`. */
  function CategoryCount(products: seq<Product>, category: string): nat {
    |Filter(products, CategoryIs(category))|
  }

  /** The counts shown on the cards of `cats`, added up. */
  function CountsTotal(products: seq<Product>, cats: seq<string>): nat {
    if cats == [] then 0 else CategoryCount(products, cats[0]) + CountsTotal(products, cats[1..])
  }

  /** How many entries of `cats` equal `c`. */
  function Occurrences(cats: seq<string>, c: string): nat {
    if cats == [] then 0 else (if cats[0] == c then 1 else 0) + Occurrences(cats[1..], c)
  }

  predicate Distinct(cats: seq<string>) {
    forall i, j :: 0 <= i < j < |cats| ==> cats[i] != cats[j]
  }

  lemma {:induction false} CountsOfNothing(cats: seq<string>)
    ensures CountsTotal([], cats) == 0
  {
    if cats != [] {
      CountsOfNothing(cats[1..]);
    }
  }

  /** One more product adds one to the card of each entry equal to its category. */
  lemma {:induction false} CountsOfCons(p: Product, rest: seq<Product>, cats: seq<string>)
    ensures CountsTotal([p] + rest, cats) == Occurrences(cats, p.category) + CountsTotal(rest, cats)
  {
    if cats != [] {
      CountsOfCons(p, rest, cats[1..]);
      FilterAppend([p], rest, CategoryIs(cats[0]));
    }
  }

  lemma {:induction false} OccursOnce(cats: seq<string>, c: string)
    requires Distinct(cats) && c in cats
    ensures Occurrences(cats, c) == 1
  {
    if cats[0] == c {
      assert c !in cats[1..] by {
        forall k | 0 <= k < |cats| - 1 ensures cats[1..][k] != c {
          assert cats[1..][k] == cats[k + 1];
        }
      }
      OccursNot(cats[1..], c);
    } else {
      assert c in cats[1..];
      OccursOnce(cats[1..], c);
    }
  }

  lemma {:induction false} OccursNot(cats: seq<string>, c: string)
    requires c !in cats
    ensures Occurrences(cats, c) == 0
  {
    if cats != [] {
      OccursNot(cats[1..], c);
    }
  }

  /**
   * When every product's category is one of the distinct card values, the
   * cards' counts add up to the number of products: each product is counted
   * on exactly one card.
   */
  lemma {:induction false} CategoryCountsPartition(products: seq<Product>, cats: seq<string>)
    requires Distinct(cats)
    requires forall p :: p in products ==> p.category in cats
    ensures CountsTotal(products, cats) == |products|
  {
    if products == [] {
      CountsOfNothing(cats);
    } else {
      var p, rest := products[0], products[1..];
      assert products == [p] + rest;
      CountsOfCons(p, rest, cats);
      OccursOnce(cats, p.category);
      CategoryCountsPartition(rest, cats);
    }
  }

  lemma CategoriesDistinct()
    ensures Distinct(Categories)
  {
    var firsts := ['s', 'm', 'h', 'f', 't'];
    assert forall i :: 0 <= i < 5 ==> Categories[i][0] == firsts[i];
  }

  /** With no filters every product matches. */
  lemma NoFiltersMatchAll(p: Product)
    ensures Matches(NoFilters, p)
  {
  }

  /**
   * The product list the dashboard loads (`getFilteredProducts({}, 'popular', 1, 50)`)
   * holds every product of a catalog of at most 50, so each category card
   * shows the catalog's own count for that category.
   */
  lemma LoadedProductsAreCatalog(catalog: seq<Product>, category: string)
    requires |catalog| <= 50
    ensures multiset(Page(Query(catalog, NoFilters, "popular"), 1, 50)) == multiset(catalog)
    ensures CategoryCount(Page(Query(catalog, NoFilters, "popular"), 1, 50), category) == CategoryCount(catalog, category)
  {
    var q := Query(catalog, NoFilters, "popular");
    QueryContents(catalog, NoFilters, "popular");
    forall p ensures multiset(q)[p] == multiset(catalog)[p] {
      NoFiltersMatchAll(p);
    }
    assert multiset(q) == multiset(catalog);
    assert |q| == |catalog|;
    PageIsSlice(q, 1, 50);
    assert Page(q, 1, 50) == q;
    FilterCountPermutation(q, catalog, CategoryIs(category));
  }

  // --------------------------------------------------- the dashboard

  class AdminDashboard {
    var currentSection: string
    var pendingProducts: seq<PendingProduct>
    var allProducts: seq<Product>
    /** What the sidebar's `#pendingCount` badge shows; `None` until the data has loaded. */
    var pendingBadge: Option<int>

    /** The badge shows the current length of the pending list. */
    predicate BadgeCurrent()
      reads this
    {
      pendingBadge == Some(|pendingProducts|)
    }

    /** `new AdminDashboard()`, including the initial data load. */
    constructor(catalog: seq<Product>)
      ensures currentSection == "dashboard"
      ensures pendingProducts == SamplePending
      ensures allProducts == Page(Query(catalog, NoFilters, "popular"), 1, 50)
      ensures BadgeCurrent() && pendingBadge == Some(2)
    {
      currentSection := "dashboard";
      pendingProducts := [];
      allProducts := [];
      pendingBadge := None;
      new;
      LoadInitialData(catalog);
    }

    /** `loadInitialData`: sample submissions, the first 50 products by popularity, then the badge. */
    method LoadInitialData(catalog: seq<Product>)
      modifies this
      ensures pendingProducts == SamplePending
      ensures allProducts == Page(Query(catalog, NoFilters, "popular"), 1, 50)
      ensures BadgeCurrent()
      ensures currentSection == old(currentSection)
    {
      pendingProducts := SamplePending;
      allProducts := GetFilteredProducts(catalog, NoFilters, "popular", 1, 50);
      pendingBadge := Some(|pendingProducts|);
    }

    /** `switchSection`: only the section changes. */
    method SwitchSection(section: string)
      modifies this
      ensures currentSection == section
      ensures pendingProducts == old(pendingProducts) && allProducts == old(allProducts)
      ensures pendingBadge == old(pendingBadge)
    {
      currentSection := section;
    }

    /** `updatePendingCount`. */
    method UpdatePendingCount()
      modifies this
      ensures BadgeCurrent()
      ensures pendingProducts == old(pendingProducts) && allProducts == old(allProducts)
      ensures currentSection == old(currentSection)
    {
      pendingBadge := Some(|pendingProducts|);
    }

    /** `approveProduct`: remove the first entry with the id, then refresh the badge. */
    method ApproveProduct(productId: string)
      modifies this
      ensures pendingProducts == RemoveFirst(old(pendingProducts), productId)
      ensures FindIndex(old(pendingProducts), productId) >= 0 ==> BadgeCurrent()
      ensures FindIndex(old(pendingProducts), productId) < 0 ==> pendingBadge == old(pendingBadge)
      ensures old(BadgeCurrent()) ==> BadgeCurrent()
      ensures allProducts == old(allProducts) && currentSection == old(currentSection)
    {
      var productIndex := FindIndex(pendingProducts, productId);
      if productIndex == -1 {
        return;
      }
      pendingProducts := pendingProducts[..productIndex] + pendingProducts[productIndex + 1..];
      UpdatePendingCount();
    }

    /** `rejectProduct`: the same change to the list as approving. */
    method RejectProduct(productId: string)
      modifies this
      ensures pendingProducts == RemoveFirst(old(pendingProducts), productId)
      ensures FindIndex(old(pendingProducts), productId) >= 0 ==> BadgeCurrent()
      ensures FindIndex(old(pendingProducts), productId) < 0 ==> pendingBadge == old(pendingBadge)
      ensures old(BadgeCurrent()) ==> BadgeCurrent()
      ensures allProducts == old(allProducts) && currentSection == old(currentSection)
    {
      var productIndex := FindIndex(pendingProducts, productId);
      if productIndex == -1 {
        return;
      }
      pendingProducts := pendingProducts[..productIndex] + pendingProducts[productIndex + 1..];
      UpdatePendingCount();
    }

    /** `approveProductWithEdits`: the form's values are read and dropped; the product is approved as submitted. */
    method ApproveProductWithEdits(productId: string, edits: ProductEdits)
      modifies this
      ensures pendingProducts == RemoveFirst(old(pendingProducts), productId)
      ensures FindIndex(old(pendingProducts), productId) >= 0 ==> BadgeCurrent()
      ensures FindIndex(old(pendingProducts), productId) < 0 ==> pendingBadge == old(pendingBadge)
      ensures old(BadgeCurrent()) ==> BadgeCurrent()
      ensures allProducts == old(allProducts) && currentSection == old(currentSection)
    {
      ApproveProduct(productId);
    }

    /** The number on the card of one category on the categories page. */
    method CategoryCard(category: string) returns (count: nat)
      ensures count == CategoryCount(allProducts, category)
      ensures count <= |allProducts|
    {
      count := |Filter(allProducts, CategoryIs(category))|;
    }
  }
}
