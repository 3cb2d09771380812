/**
 * The product records of the catalog and the twelve products the catalog is
 * seeded with (every query builds a fresh manager, so it always sees exactly
 * these, in this order).
 *
 * Prices are whole US dollars, as in the seed data; a rating is stored in
 * tenths of a star (4.5 is 45); `dateAdded` is the date written as the number
 * yyyymmdd, which orders dates the way the source's `Date` subtraction does.
 */
module Catalog {
  import opened Wrappers

  /** One retailer's offer for a product. */
  datatype Offer = Offer(name: string, url: string, price: int)

  datatype Product = Product(
    id: string,
    name: string,
    brand: string,
    category: string,
    price: int,
    originalPrice: Option<int>,
    description: string,
    onSale: bool,
    trending: bool,
    rating: int,
    reviewCount: int,
    dateAdded: int,
    tags: seq<string>,
    retailers: seq<Offer>)

  /** The values behind the manager's fixed `categories` list. */
  const Categories: seq<string> := ["skincare", "makeup", "haircare", "fragrance", "tools"]

  /** The values behind the manager's fixed `brands` list. */
  const Brands: seq<string> := ["fenty", "rare", "glossier", "drunk-elephant", "charlotte-tilbury"]

  /** The retailer domains a submitted URL must mention. */
  const SupportedRetailers: seq<string> := ["sephora.com", "ulta.com", "amazon.com", "target.com", "cvs.com"]

  const P1 := Product(
    id := "1", name := "Fenty Beauty Pro Filt'r Soft Matte Longwear Foundation",
    brand := "Fenty Beauty", category := "makeup",
    price := 40, originalPrice := None,
    description := "Soft matte, longwear foundation with medium to full buildable coverage.",
    onSale := false, trending := true, rating := 45, reviewCount := 2847, dateAdded := 20240115,
    tags := ["full-coverage", "long-lasting", "matte"],
    retailers := [
      Offer("Sephora", "https://example.com/sephora-fenty", 40),
      Offer("Ulta", "https://example.com/ulta-fenty", 42),
      Offer("Amazon", "https://example.com/amazon-fenty", 39)])

  const P2 := Product(
    id := "2", name := "Rare Beauty Soft Pinch Liquid Blush",
    brand := "Rare Beauty", category := "makeup",
    price := 20, originalPrice := Some(25),
    description := "Weightless, long-lasting liquid blush that blends effortlessly.",
    onSale := true, trending := false, rating := 47, reviewCount := 1923, dateAdded := 20240201,
    tags := ["liquid-blush", "buildable", "natural-finish"],
    retailers := [
      Offer("Sephora", "https://example.com/sephora-rare", 20),
      Offer("Ulta", "https://example.com/ulta-rare", 22),
      Offer("Amazon", "https://example.com/amazon-rare", 19)])

  const P3 := Product(
    id := "3", name := "Glossier Cloud Paint Gel Cream Blush",
    brand := "Glossier", category := "makeup",
    price := 22, originalPrice := None,
    description := "Gel-cream blush that gives you a natural, dewy flush.",
    onSale := false, trending := true, rating := 43, reviewCount := 1456, dateAdded := 20240120,
    tags := ["gel-cream", "dewy", "natural"],
    retailers := [
      Offer("Glossier", "https://example.com/glossier-direct", 22),
      Offer("Sephora", "https://example.com/sephora-glossier", 24),
      Offer("Amazon", "https://example.com/amazon-glossier", 21)])

  const P4 := Product(
    id := "4", name := "Drunk Elephant C-Firma Day Serum",
    brand := "Drunk Elephant", category := "skincare",
    price := 80, originalPrice := None,
    description := "Potent vitamin C day serum that firms, brightens, and improves signs of photoaging.",
    onSale := false, trending := false, rating := 42, reviewCount := 3421, dateAdded := 20240110,
    tags := ["vitamin-c", "brightening", "anti-aging"],
    retailers := [
      Offer("Sephora", "https://example.com/sephora-de", 80),
      Offer("Ulta", "https://example.com/ulta-de", 82),
      Offer("Amazon", "https://example.com/amazon-de", 79)])

  const P5 := Product(
    id := "5", name := "Charlotte Tilbury Pillow Talk Lipstick",
    brand := "Charlotte Tilbury", category := "makeup",
    price := 37, originalPrice := None,
    description := "Matte Revolution lipstick in the universally flattering Pillow Talk shade.",
    onSale := false, trending := true, rating := 48, reviewCount := 5632, dateAdded := 20240210,
    tags := ["matte", "nude", "long-lasting"],
    retailers := [
      Offer("Ulta", "https://example.com/ulta-ct", 37),
      Offer("Sephora", "https://example.com/sephora-ct", 39),
      Offer("Amazon", "https://example.com/amazon-ct", 36)])

  const P6 := Product(
    id := "6", name := "The Ordinary Niacinamide 10% + Zinc 1%",
    brand := "The Ordinary", category := "skincare",
    price := 7, originalPrice := None,
    description := "High-strength vitamin and mineral blemish formula.",
    onSale := false, trending := false, rating := 41, reviewCount := 8945, dateAdded := 20240105,
    tags := ["niacinamide", "blemish-control", "budget-friendly"],
    retailers := [
      Offer("Ulta", "https://example.com/ulta-ordinary", 7),
      Offer("Sephora", "https://example.com/sephora-ordinary", 8),
      Offer("Amazon", "https://example.com/amazon-ordinary", 6)])

  const P7 := Product(
    id := "7", name := "Olaplex No.3 Hair Perfector",
    brand := "Olaplex", category := "haircare",
    price := 30, originalPrice := Some(35),
    description := "At-home treatment that reduces breakage and strengthens all hair types.",
    onSale := true, trending := false, rating := 46, reviewCount := 12743, dateAdded := 20240215,
    tags := ["hair-treatment", "strengthening", "bond-repair"],
    retailers := [
      Offer("Sephora", "https://example.com/sephora-olaplex", 30),
      Offer("Ulta", "https://example.com/ulta-olaplex", 32),
      Offer("Amazon", "https://example.com/amazon-olaplex", 29)])

  const P8 := Product(
    id := "8", name := "Dyson Supersonic Hair Dryer",
    brand := "Dyson", category := "tools",
    price := 430, originalPrice := None,
    description := "Fast drying with no extreme heat to help protect hair from damage.",
    onSale := false, trending := false, rating := 44, reviewCount := 2156, dateAdded := 20240130,
    tags := ["hair-dryer", "professional", "heat-protection"],
    retailers := [
      Offer("Ulta", "https://example.com/ulta-dyson", 430),
      Offer("Sephora", "https://example.com/sephora-dyson", 430),
      Offer("Amazon", "https://example.com/amazon-dyson", 425)])

  const P9 := Product(
    id := "9", name := "Tatcha The Water Cream",
    brand := "Tatcha", category := "skincare",
    price := 68, originalPrice := None,
    description := "Oil-free pore-refining water cream that delivers pure hydration.",
    onSale := false, trending := true, rating := 43, reviewCount := 2847, dateAdded := 20240205,
    tags := ["moisturizer", "oil-free", "hydrating"],
    retailers := [
      Offer("Sephora", "https://example.com/sephora-tatcha", 68),
      Offer("Ulta", "https://example.com/ulta-tatcha", 70),
      Offer("Amazon", "https://example.com/amazon-tatcha", 67)])

  const P10 := Product(
    id := "10", name := "Urban Decay All Nighter Setting Spray",
    brand := "Urban Decay", category := "makeup",
    price := 33, originalPrice := Some(37),
    description := "Makeup setting spray that keeps makeup fresh for up to 16 hours.",
    onSale := true, trending := false, rating := 45, reviewCount := 7892, dateAdded := 20240125,
    tags := ["setting-spray", "long-lasting", "makeup-finisher"],
    retailers := [
      Offer("Ulta", "https://example.com/ulta-ud", 33),
      Offer("Sephora", "https://example.com/sephora-ud", 35),
      Offer("Amazon", "https://example.com/amazon-ud", 32)])

  const P11 := Product(
    id := "11", name := "Glow Recipe Watermelon Glow Niacinamide Dew Drops",
    brand := "Glow Recipe", category := "skincare",
    price := 34, originalPrice := None,
    description := "Serum-highlighter hybrid with niacinamide for a dewy glow.",
    onSale := false, trending := false, rating := 44, reviewCount := 1563, dateAdded := 20240208,
    tags := ["serum", "highlighter", "niacinamide", "glow"],
    retailers := [
      Offer("Sephora", "https://example.com/sephora-glow", 34),
      Offer("Ulta", "https://example.com/ulta-glow", 36),
      Offer("Amazon", "https://example.com/amazon-glow", 33)])

  const P12 := Product(
    id := "12", name := "Beautyblender Original Makeup Sponge",
    brand := "Beautyblender", category := "tools",
    price := 20, originalPrice := None,
    description := "The original award-winning makeup sponge for flawless application.",
    onSale := false, trending := false, rating := 46, reviewCount := 15420, dateAdded := 20240112,
    tags := ["makeup-sponge", "blending", "application-tool"],
    retailers := [
      Offer("Ulta", "https://example.com/ulta-bb", 20),
      Offer("Sephora", "https://example.com/sephora-bb", 20),
      Offer("Amazon", "https://example.com/amazon-bb", 18)])

  /** The seeded products, in seed order. */
  const Products: seq<Product> := [P1, P2, P3, P4, P5, P6, P7, P8, P9, P10, P11, P12]

  /** No two products share an identifier. */
  ghost predicate UniqueIds(s: seq<Product>) {
    forall i, j :: 0 <= i < j < |s| ==> s[i].id != s[j].id
  }

  /** The data invariants of a product record. */
  predicate WellFormed(p: Product) {
    && p.price >= 0
    && p.category in Categories
    && 0 <= p.rating <= 50
    && p.reviewCount >= 0
    && (p.onSale ==> p.originalPrice.Some? && p.originalPrice.value > p.price)
    && |p.retailers| > 0
  }

  /** Every seeded product keeps the data invariants. */
  lemma SeedIsWellFormed()
    ensures |Products| == 12
    ensures forall p :: p in Products ==> WellFormed(p)
  {
    assert WellFormed(P1) && WellFormed(P2) && WellFormed(P3) && WellFormed(P4);
    assert WellFormed(P5) && WellFormed(P6) && WellFormed(P7) && WellFormed(P8);
    assert WellFormed(P9) && WellFormed(P10) && WellFormed(P11) && WellFormed(P12);
  }

  /** The identifiers of the seeded products, in order. */
  const SeedIds: seq<string> := ["1", "2", "3", "4", "5", "6", "7", "8", "9", "10", "11", "12"]

  lemma SeedIdsListed()
    ensures |Products| == |SeedIds|
    ensures forall i :: 0 <= i < |Products| ==> Products[i].id == SeedIds[i]
  {
  }

  lemma SeedIdsDistinct()
    ensures forall i, j :: 0 <= i < j < |SeedIds| ==> SeedIds[i] != SeedIds[j]
  {
    forall i, j | 0 <= i < j < |SeedIds| ensures SeedIds[i] != SeedIds[j] {
      if j < 9 {
        assert SeedIds[i][0] != SeedIds[j][0];
      } else if i < 9 {
        assert |SeedIds[i]| != |SeedIds[j]|;
      } else {
        assert SeedIds[i][1] != SeedIds[j][1];
      }
    }
  }

  /** No two seeded products share an identifier. */
  lemma SeedHasUniqueIds()
    ensures UniqueIds(Products)
  {
    SeedIdsListed();
    SeedIdsDistinct();
  }
}
