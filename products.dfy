/**
 * The static queries of `ProductManager`. Each of them builds a fresh manager
 * and reads its product list, which is always the seeded catalog
 * (`Catalog.Products`); here that list is the `catalog` parameter, so every
 * property below holds for any catalog and the seed-specific facts name
 * `Products`. `getFilteredProducts`, which narrows its working list step by
 * step, is a method; the others are functions.
 */
module ProductManager {
  import opened Wrappers
  import opened Text
  import opened Seqs
  import opened Catalog

  // ---------------------------------------------------------------- labels

  /** `formatPrice(price, currency = 'USD')`: `$<price> <currency>`. */
  function FormatPrice(price: int, currency: string := "USD"): string {
    "$" + IntToString(price) + " " + currency
  }

  /** The formatted price starts with `$`, `parseInt` reads the amount back from the rest, and it ends with the currency. */
  lemma FormatPriceRoundTrip(price: int, currency: string)
    ensures FormatPrice(price, currency)[0] == '$'
    ensures ParseInt(FormatPrice(price, currency)[1..]) == Finite(price)
    ensures FormatPrice(price, currency)[|FormatPrice(price, currency)| - |currency|..] == currency
  {
    var t := IntToString(price);
    ConcatAssoc("$", t, " ");
    ConcatAssoc(t, " ", currency);
    HeadMiddleEnd("$", t + " ", currency);
    ParseIntOfIntString(price, " " + currency);
  }

  /** A choice offered in a drop-down: the value filtered on and the label shown. */
  datatype Choice = Choice(value: string, caption: string)

  /** `s.replace(/([A-Z])/g, ' $1')`: a space before every capital letter. */
  function SpaceBeforeCapitals(s: string): string {
    if s == [] then []
    else (if IsUpper(s[0]) then [' ', s[0]] else [s[0]]) + SpaceBeforeCapitals(s[1..])
  }

  /** `cat.charAt(0).toUpperCase() + cat.slice(1).replace(/([A-Z])/g, ' $1')`. */
  function CategoryLabel(cat: string): string {
    if cat == [] then [] else [UpperChar(cat[0])] + SpaceBeforeCapitals(cat[1..])
  }

  predicate NoCapitals(s: string) {
    forall k :: 0 <= k < |s| ==> !IsUpper(s[k])
  }

  lemma {:induction false} NoCapitalsUnspaced(s: string)
    requires NoCapitals(s)
    ensures SpaceBeforeCapitals(s) == s
  {
    if s != [] {
      NoCapitalsUnspaced(s[1..]);
    }
  }

  /** A category value without capitals is its label lower-cased again. */
  lemma CategoryLabelRoundTrip(cat: string)
    requires NoCapitals(cat)
    ensures Lower(CategoryLabel(cat)) == cat
  {
    if cat != [] {
      NoCapitalsUnspaced(cat[1..]);
      LowerAppend([UpperChar(cat[0])], cat[1..]);
      assert Lower(cat[1..]) == cat[1..];
    }
  }

  lemma CategoryValuesLowercase()
    ensures forall i :: 0 <= i < |Categories| ==> NoCapitals(Categories[i])
  {
    assert NoCapitals("skincare");
    assert NoCapitals("makeup");
    assert NoCapitals("haircare");
    assert NoCapitals("fragrance");
    assert NoCapitals("tools");
  }

  /** Without capitals to space out, the label only upper-cases the first letter. */
  lemma CategoryLabelCapitalizes(cat: string)
    requires cat != [] && NoCapitals(cat)
    ensures CategoryLabel(cat) == [UpperChar(cat[0])] + cat[1..]
  {
    assert NoCapitals(cat[1..]) by {
      forall k | 0 <= k < |cat[1..]| ensures !IsUpper(cat[1..][k]) {
        assert cat[1..][k] == cat[k + 1];
      }
    }
    NoCapitalsUnspaced(cat[1..]);
  }

  /** `getCategories()`: one choice per category, in order. */
  function GetCategories(): (r: seq<Choice>)
    ensures |r| == |Categories|
    ensures forall i :: 0 <= i < |r| ==> r[i].value == Categories[i] && Lower(r[i].caption) == Categories[i]
    ensures forall i :: 0 <= i < |r| ==>
      Categories[i] != [] && r[i].caption == [UpperChar(Categories[i][0])] + Categories[i][1..]
  {
    var r := seq(|Categories|, i requires 0 <= i < |Categories| => Choice(Categories[i], CategoryLabel(Categories[i])));
    CategoryValuesLowercase();
    forall i | 0 <= i < |r|
      ensures Lower(r[i].caption) == Categories[i]
      ensures Categories[i] != [] && r[i].caption == [UpperChar(Categories[i][0])] + Categories[i][1..]
    {
      CategoryLabelRoundTrip(Categories[i]);
      CategoryLabelCapitalizes(Categories[i]);
    }
    r
  }

  /** `words.map(w => capitalized w)`. */
  function CapitalizeAll(words: seq<string>): (r: seq<string>)
    ensures |r| == |words|
    ensures forall i :: 0 <= i < |r| ==> r[i] == Capitalize(words[i])
  {
    if words == [] then [] else [Capitalize(words[0])] + CapitalizeAll(words[1..])
  }

  /** `brand.split('-').map(capitalize).join(' ')`. */
  function BrandLabel(value: string): string {
    Join(CapitalizeAll(Split(value, '-')), " ")
  }

  /**
   * `caption` reads as `v` with every hyphen a space and the first letter of
   * each hyphen-separated word upper-cased.
   */
  predicate WordsCapitalized(v: string, caption: string) {
    |caption| == |v| && forall k :: 0 <= k < |v| ==> caption[k] == CaptionChar(v, k)
  }

  /** A space for a hyphen, the upper-cased letter at the start of a word, else the letter itself. */
  function CaptionChar(v: string, k: int): char
    requires 0 <= k < |v|
  {
    if v[k] == '-' then ' ' else if k == 0 || v[k - 1] == '-' then UpperChar(v[k]) else v[k]
  }

  lemma WordCapitalized(w: string)
    requires '-' !in w
    ensures WordsCapitalized(w, Capitalize(w))
  {
    forall j | 0 <= j < |w| ensures w[j] != '-' {
      assert w[j] in w;
    }
  }

  /** Capitalized words glued at a hyphen, written with a space. */
  lemma GlueCapitalized(v: string, i: int, cw: string, cr: string)
    requires 0 <= i < |v| && v[i] == '-' && '-' !in v[..i]
    requires WordsCapitalized(v[..i], cw) && WordsCapitalized(v[i + 1..], cr)
    ensures WordsCapitalized(v, cw + " " + cr)
  {
    var w, rest, c := v[..i], v[i + 1..], cw + " " + cr;
    forall k | 0 <= k < |v| ensures c[k] == CaptionChar(v, k) {
      if k < i {
        assert v[k] == w[k] && c[k] == cw[k];
        assert w[k] in w;
        assert cw[k] == CaptionChar(w, k);
        if k > 0 { assert v[k - 1] == w[k - 1]; }
      } else if k > i {
        var j := k - i - 1;
        assert v[k] == rest[j] && c[k] == cr[j];
        assert cr[j] == CaptionChar(rest, j);
        if j > 0 { assert v[k - 1] == rest[j - 1]; }
      } else {
        assert c[k] == ' ';
      }
    }
  }

  lemma BrandLabelOfWord(w: string)
    requires '-' !in w
    ensures BrandLabel(w) == Capitalize(w)
  {
    assert Split(w, '-') == [w];
    assert CapitalizeAll([w]) == [Capitalize(w)];
  }

  lemma CapitalizeAllCons(w: string, words: seq<string>)
    ensures CapitalizeAll([w] + words) == [Capitalize(w)] + CapitalizeAll(words)
  {
    assert ([w] + words)[1..] == words;
  }

  /** The label of a value with a hyphen: its first word capitalized, a space, the label of the rest. */
  lemma BrandLabelAtHyphen(v: string, i: int)
    requires i == IndexOf(v, '-') && 0 <= i
    ensures BrandLabel(v) == Capitalize(v[..i]) + " " + BrandLabel(v[i + 1..])
  {
    var words := Split(v[i + 1..], '-');
    SplitAt(v, '-', i);
    CapitalizeAllCons(v[..i], words);
    JoinCons(Capitalize(v[..i]), CapitalizeAll(words), " ");
  }

  /** The brand label of any value, word by word: hyphens become spaces and each word starts upper-cased. */
  lemma {:induction false} BrandLabelCapitalized(v: string)
    ensures WordsCapitalized(v, BrandLabel(v))
    decreases |v|
  {
    var i := IndexOf(v, '-');
    if i < 0 {
      BrandLabelOfWord(v);
      WordCapitalized(v);
    } else {
      BrandLabelAtHyphen(v, i);
      BrandLabelCapitalized(v[i + 1..]);
      WordCapitalized(v[..i]);
      GlueCapitalized(v, i, Capitalize(v[..i]), BrandLabel(v[i + 1..]));
    }
  }

  /** A brand value as the drop-down holds it: lower case, no whitespace, words joined by single hyphens. */
  predicate SlugShaped(v: string) {
    && |v| > 0 && v[0] != '-' && v[|v| - 1] != '-'
    && (forall k :: 0 <= k < |v| - 1 ==> !(v[k] == '-' && v[k + 1] == '-'))
    && forall k :: 0 <= k < |v| ==> LowerOrDash(v[k])
  }

  predicate LowerOrDash(c: char) {
    'a' <= c <= 'z' || c == '-'
  }

  lemma LowerOrDashPlain(s: string)
    requires forall k :: 0 <= k < |s| ==> LowerOrDash(s[k])
    ensures NoCapitals(s) && NoSpace(s)
  {
  }

  /** Only the letters `a` to `z`. */
  predicate LowerWord(w: string) {
    forall k :: 0 <= k < |w| ==> 'a' <= w[k] <= 'z'
  }

  lemma LowerWordPlain(w: string)
    requires LowerWord(w)
    ensures NoCapitals(w) && NoSpace(w)
  {
  }

  /** The text before the first hyphen of a brand value is a word of letters. */
  lemma SlugHead(v: string, i: int)
    requires SlugShaped(v) && 0 <= i < |v| && v[i] == '-' && '-' !in v[..i]
    ensures 0 < i < |v| - 1
    ensures LowerWord(v[..i])
  {
    var head := v[..i];
    forall k | 0 <= k < |head| ensures 'a' <= head[k] <= 'z' {
      assert head[k] == v[k] && head[k] in head;
      assert LowerOrDash(v[k]);
    }
  }

  /** The text after the first hyphen of a brand value is a brand value again. */
  lemma SlugRest(v: string, i: int)
    requires SlugShaped(v) && 0 < i < |v| - 1 && v[i] == '-'
    ensures SlugShaped(v[i + 1..])
  {
    var rest := v[i + 1..];
    assert rest[0] != '-' by {
      assert rest[0] == v[i + 1];
      assert !(v[i] == '-' && v[i + 1] == '-');
    }
    assert rest[|rest| - 1] == v[|v| - 1];
    forall k | 0 <= k < |rest| - 1 ensures !(rest[k] == '-' && rest[k + 1] == '-') {
      assert rest[k] == v[i + 1 + k] && rest[k + 1] == v[i + 1 + k + 1];
    }
    forall k | 0 <= k < |rest| ensures LowerOrDash(rest[k]) {
      assert rest[k] == v[i + 1 + k];
    }
  }

  lemma {:induction false} SlugShapedWords(v: string)
    requires SlugShaped(v)
    ensures forall w :: w in Split(v, '-') ==> w != [] && LowerWord(w)
    decreases |v|
  {
    var i := IndexOf(v, '-');
    if i < 0 {
      assert Split(v, '-') == [v];
      assert LowerWord(v) by {
        forall k | 0 <= k < |v| ensures 'a' <= v[k] <= 'z' {
          assert LowerOrDash(v[k]) && v[k] in v;
        }
      }
    } else {
      SlugHead(v, i);
      SlugRest(v, i);
      SlugShapedWords(v[i + 1..]);
      assert Split(v, '-') == [v[..i]] + Split(v[i + 1..], '-');
    }
  }

  lemma {:induction false} LowerCapitalizeAll(words: seq<string>)
    requires forall w :: w in words ==> NoCapitals(w)
    ensures Lower(Join(CapitalizeAll(words), " ")) == Join(words, " ")
  {
    if |words| == 1 {
      LowerCapitalized(words[0]);
    } else if |words| > 1 {
      LowerCapitalizeAll(words[1..]);
      LowerCapitalized(words[0]);
      assert CapitalizeAll(words)[1..] == CapitalizeAll(words[1..]);
      var c := CapitalizeAll(words);
      LowerAppend(c[0] + " ", Join(c[1..], " "));
      LowerAppend(c[0], " ");
    }
  }

  lemma LowerCapitalized(w: string)
    requires NoCapitals(w)
    ensures Lower(Capitalize(w)) == w
  {
    if w != [] {
      LowerAppend([UpperChar(w[0])], w[1..]);
      assert Lower(w[1..]) == w[1..];
    }
  }

  lemma {:induction false} JoinHead(parts: seq<string>, sep: string)
    requires |parts| >= 1 && parts[0] != []
    ensures Join(parts, sep) != [] && Join(parts, sep)[0] == parts[0][0]
  {
    if |parts| > 1 {
      assert Join(parts, sep) == parts[0] + (sep + Join(parts[1..], sep));
    }
  }

  lemma HyphenateOneSpace(rest: string)
    requires rest != [] && !IsSpace(rest[0])
    ensures Hyphenate(" " + rest) == "-" + Hyphenate(rest)
  {
    assert (" " + rest)[1..] == rest;
    assert DropSpaces(rest) == rest;
  }

  /** Non-empty words without whitespace. */
  predicate PlainWords(words: seq<string>) {
    forall i :: 0 <= i < |words| ==> words[i] != [] && NoSpace(words[i])
  }

  lemma {:induction false} HyphenateSpacedWords(words: seq<string>)
    requires PlainWords(words)
    ensures Hyphenate(Join(words, " ")) == Join(words, "-")
  {
    if |words| == 1 {
      HyphenateKeepsSpaceFree(words[0], []);
      assert words[0] + [] == words[0];
    } else if |words| > 1 {
      var tail := words[1..];
      assert PlainWords(tail) by {
        forall i | 0 <= i < |tail| ensures tail[i] != [] && NoSpace(tail[i]) {
          assert tail[i] == words[i + 1];
        }
      }
      HyphenateSpacedWords(tail);
      JoinHead(tail, " ");
      HyphenateWordThenRest(words[0], Join(tail, " "));
    }
  }

  /** A word, one space and a text that starts with no space: the space becomes the only hyphen added. */
  lemma HyphenateWordThenRest(w: string, rest: string)
    requires NoSpace(w) && rest != [] && !IsSpace(rest[0])
    ensures Hyphenate(w + " " + rest) == w + "-" + Hyphenate(rest)
  {
    HyphenateKeepsSpaceFree(w, " " + rest);
    HyphenateOneSpace(rest);
    ConcatAssoc(w, " ", rest);
    ConcatAssoc(w, "-", Hyphenate(rest));
  }


  /** The label of a brand value, normalised the way the brand filter normalises brands, is the value again. */
  lemma BrandLabelSlugRoundTrip(v: string)
    requires SlugShaped(v)
    ensures Slug(BrandLabel(v)) == v
  {
    var words := Split(v, '-');
    SlugShapedWords(v);
    forall w | w in words ensures NoCapitals(w) {
      LowerWordPlain(w);
    }
    assert PlainWords(words) by {
      forall i | 0 <= i < |words| ensures words[i] != [] && NoSpace(words[i]) {
        assert words[i] in words;
        LowerWordPlain(words[i]);
      }
    }
    LowerCapitalizeAll(words);
    HyphenateSpacedWords(words);
    SplitJoin(v, '-');
  }

  lemma BrandValuesAreSlugs()
    ensures forall i :: 0 <= i < |Brands| ==> SlugShaped(Brands[i])
  {
    SingleWordBrandsAreSlugs();
    DrunkElephantIsSlug();
    CharlotteTilburyIsSlug();
  }

  lemma SingleWordBrandsAreSlugs()
    ensures SlugShaped("fenty") && SlugShaped("rare") && SlugShaped("glossier")
  {
  }

  lemma DrunkElephantIsSlug()
    ensures SlugShaped("drunk-elephant")
  {
  }

  lemma CharlotteTilburyIsSlug()
    ensures SlugShaped("charlotte-tilbury")
  {
  }

  /** `getBrands()`: one choice per brand value, in order; each label normalises back to its value. */
  function GetBrands(): (r: seq<Choice>)
    ensures |r| == |Brands|
    ensures forall i :: 0 <= i < |r| ==> r[i].value == Brands[i] && Slug(r[i].caption) == Brands[i]
    ensures forall i :: 0 <= i < |r| ==> WordsCapitalized(Brands[i], r[i].caption)
  {
    var r := seq(|Brands|, i requires 0 <= i < |Brands| => Choice(Brands[i], BrandLabel(Brands[i])));
    BrandValuesAreSlugs();
    forall i | 0 <= i < |r| ensures Slug(r[i].caption) == Brands[i] && WordsCapitalized(Brands[i], r[i].caption) {
      BrandLabelSlugRoundTrip(Brands[i]);
      BrandLabelCapitalized(Brands[i]);
    }
    r
  }

  // --------------------------------------------------------------- filters

  /** The optional filters of `getFilteredProducts`; `None` is an absent property. */
  datatype Filters = Filters(category: Option<string>, brand: Option<string>, price: Option<string>, search: Option<string>)

  const NoFilters := Filters(None, None, None, None)

  /** `if (filters.x)`: the filter is present and not the empty string. */
  predicate Given(f: Option<string>) {
    f.Some? && f.value != ""
  }

  /** The brand rule: the exact brand, or the brand lower-cased with whitespace runs made `-`. */
  predicate BrandMatches(brand: string, p: Product) {
    Slug(p.brand) == brand || p.brand == brand
  }

  lemma LowerCharNotSpace(c: char)
    ensures IsSpace(LowerChar(c)) ==> IsSpace(c)
  {
  }

  /** Past a first word without whitespace, a brand's slug goes on with `-`, so it is longer than that word. */
  lemma SlugPastFirstWord(a: string, b: string)
    requires NoSpace(a) && b != [] && IsSpace(b[0])
    ensures |Slug(a + b)| > |a|
  {
    LowerAppend(a, b);
    var la, lb := Lower(a), Lower(b);
    forall k | 0 <= k < |la| ensures !IsSpace(la[k]) {
      LowerCharNotSpace(a[k]);
    }
    HyphenateKeepsSpaceFree(la, lb);
    assert lb[0] == b[0];
  }

  /**
   * A brand of several words never matches the brand value made of its first
   * word alone ("Fenty Beauty" and `fenty`, "Rare Beauty" and `rare`): its
   * slug goes on past that word, and so does the brand itself.
   */
  lemma FirstWordMissesBrand(first: string, rest: string, p: Product)
    requires p.brand == first + rest
    requires NoSpace(first) && rest != [] && IsSpace(rest[0])
    ensures !BrandMatches(Lower(first), p)
  {
    SlugPastFirstWord(first, rest);
  }

  /** The bounds a price filter denotes: `"N+"` is `[parseInt, Infinity]`, otherwise `split('-').map(Number)`. */
  function PriceBounds(spec: string): (Num, Num) {
    if '+' in spec then (ParseInt(spec), PosInf)
    else
      var parts := Split(spec, '-');
      (ToNumber(parts[0]), if |parts| >= 2 then ToNumber(parts[1]) else NaN)
  }

  /** `x >= n` for a JavaScript number `n` (false against `NaN`). */
  predicate AtLeast(x: int, n: Num) {
    match n
    case Finite(v) => x >= v
    case NaN => false
    case PosInf => false
  }

  /** `x <= n` for a JavaScript number `n` (false against `NaN`). */
  predicate AtMost(x: int, n: Num) {
    match n
    case Finite(v) => x <= v
    case NaN => false
    case PosInf => true
  }

  /** `price >= min && price <= max`. */
  predicate InBounds(bounds: (Num, Num), price: int) {
    AtLeast(price, bounds.0) && AtMost(price, bounds.1)
  }

  predicate PriceMatches(spec: string, p: Product) {
    InBounds(PriceBounds(spec), p.price)
  }

  lemma DigitsLackChar(s: string, c: char)
    requires AllDigits(s) && !IsDigit(c)
    ensures c !in s
  {
  }

  lemma PlusEnds(n: nat)
    ensures '+' in NatToString(n) + "+"
  {
    var spec := NatToString(n) + "+";
    assert spec[|spec| - 1] == '+';
  }

  lemma SplitInTwo(a: string, b: string, c: char)
    requires c !in a && c !in b
    ensures Split(a + [c] + b, c) == [a, b]
  {
    var s := a + [c] + b;
    assert s[..|a|] == a && s[|a|] == c;
    assert IndexOf(s, c) == |a|;
    assert s[|a| + 1..] == b;
  }

  /** `"N+"` denotes `[N, Infinity]`. */
  lemma OpenEndedBounds(n: nat)
    ensures PriceBounds(NatToString(n) + "+") == (Finite(n), PosInf)
  {
    PlusEnds(n);
    ParseIntOfString(n, "+");
  }

  /** `"a-b"` denotes `[a, b]`. */
  lemma RangeBounds(a: nat, b: nat)
    ensures PriceBounds(NatToString(a) + "-" + NatToString(b)) == (Finite(a), Finite(b))
  {
    var sa, sb := NatToString(a), NatToString(b);
    DigitsLackChar(sa, '-');
    DigitsLackChar(sb, '-');
    DigitsLackChar(sa, '+');
    DigitsLackChar(sb, '+');
    var spec := sa + "-" + sb;
    assert '+' !in spec by {
      assert spec == sa + (['-'] + sb);
    }
    SplitInTwo(sa, sb, '-');
    ToNumberOfString(a);
    ToNumberOfString(b);
  }

  /** `"N+"` keeps exactly the products priced at least N. */
  lemma PriceFilterOpenEnded(n: nat, p: Product)
    ensures PriceMatches(NatToString(n) + "+", p) <==> p.price >= n
  {
    OpenEndedBounds(n);
    MatchesAbove(NatToString(n) + "+", p, n);
  }

  /** `"a-b"` keeps exactly the products priced from a to b, both ends included. */
  lemma PriceFilterRange(a: nat, b: nat, p: Product)
    ensures PriceMatches(NatToString(a) + "-" + NatToString(b), p) <==> a <= p.price <= b
  {
    RangeBounds(a, b);
    MatchesWithin(NatToString(a) + "-" + NatToString(b), p, a, b);
  }

  /** A price filter whose bounds are two integers keeps a product exactly when its price lies between them. */
  lemma MatchesWithin(spec: string, p: Product, a: int, b: int)
    requires PriceBounds(spec) == (Finite(a), Finite(b))
    ensures PriceMatches(spec, p) <==> a <= p.price <= b
  {
  }

  /** A price filter whose bounds are an integer and infinity keeps a product exactly when its price reaches the integer. */
  lemma MatchesAbove(spec: string, p: Product, n: int)
    requires PriceBounds(spec) == (Finite(n), PosInf)
    ensures PriceMatches(spec, p) <==> p.price >= n
  {
  }

  /** A price filter with neither `+` nor `-` has no upper bound and keeps nothing. */
  lemma PriceFilterWithoutDash(spec: string, p: Product)
    requires '+' !in spec && '-' !in spec
    ensures !PriceMatches(spec, p)
  {
  }

  /** `tags.some(tag => tag.includes(term))`; the tags are not lower-cased. */
  predicate SomeTagContains(tags: seq<string>, term: string) {
    tags != [] && (Contains(tags[0], term) || SomeTagContains(tags[1..], term))
  }

  lemma {:induction false} SomeTagContainsIff(tags: seq<string>, term: string)
    ensures SomeTagContains(tags, term) <==> exists i :: 0 <= i < |tags| && Contains(tags[i], term)
  {
    if tags != [] {
      SomeTagContainsIff(tags[1..], term);
      if Contains(tags[0], term) {
      } else if SomeTagContains(tags[1..], term) {
        var i :| 0 <= i < |tags[1..]| && Contains(tags[1..][i], term);
        assert Contains(tags[i + 1], term);
      } else {
        forall i | 0 <= i < |tags| ensures !Contains(tags[i], term) {
          if i > 0 {
            assert tags[i] == tags[1..][i - 1];
          }
        }
      }
    }
  }

  /** The search filter of `getFilteredProducts`: name, brand, description or a tag. */
  predicate SearchFilterMatches(term: string, p: Product) {
    || Contains(Lower(p.name), term)
    || Contains(Lower(p.brand), term)
    || Contains(Lower(p.description), term)
    || SomeTagContains(p.tags, term)
  }

  /** What `searchProducts` looks at: name, brand or a tag, but not the description. */
  predicate SearchMatches(term: string, p: Product) {
    || Contains(Lower(p.name), term)
    || Contains(Lower(p.brand), term)
    || SomeTagContains(p.tags, term)
  }

  /** A product passes every given filter (an absent filter passes everything). */
  predicate Matches(f: Filters, p: Product) {
    && (Given(f.category) ==> p.category == f.category.value)
    && (Given(f.brand) ==> BrandMatches(f.brand.value, p))
    && (Given(f.price) ==> PriceMatches(f.price.value, p))
    && (Given(f.search) ==> SearchFilterMatches(Lower(f.search.value), p))
  }

  // ------------------------------------------------------------- sort keys

  /**
   * The sort key of each `sortBy` value; the comparator is the difference of
   * keys, so a smaller key comes first.
   */
  function SortKey(sortBy: string): Product -> real {
    if sortBy == "price-low" then (p: Product) => p.price as real
    else if sortBy == "price-high" then (p: Product) => -(p.price as real)
    else if sortBy == "newest" then (p: Product) => -(p.dateAdded as real)
    else if sortBy == "rating" then RatingKey
    else PopularityKey
  }

  /** `(a, b) => b.rating - a.rating`. */
  function RatingKey(p: Product): real { -(p.rating as real) }

  /** `(a, b) => b.reviewCount - a.reviewCount`. */
  function PopularityKey(p: Product): real { -(p.reviewCount as real) }

  /** How far two products are apart in the order each option asks for; `popular` and unknown options order by reviews. */
  lemma SortKeyOrder(sortBy: string, a: Product, b: Product)
    ensures SortKey(sortBy)(a) <= SortKey(sortBy)(b) <==>
      if sortBy == "price-low" then a.price <= b.price
      else if sortBy == "price-high" then a.price >= b.price
      else if sortBy == "newest" then a.dateAdded >= b.dateAdded
      else if sortBy == "rating" then a.rating >= b.rating
      else a.reviewCount >= b.reviewCount
  {
  }

  // ---------------------------------------------------- getFilteredProducts

  /** The catalog narrowed by every given filter, then in the order `sortBy` asks for. */
  function Query(catalog: seq<Product>, f: Filters, sortBy: string): seq<Product> {
    SortBy(Filter(catalog, p => Matches(f, p)), SortKey(sortBy))
  }

  /** The query holds exactly the catalog's products that pass every given filter, each as often as in the catalog. */
  lemma QueryContents(catalog: seq<Product>, f: Filters, sortBy: string)
    ensures forall p :: p in Query(catalog, f, sortBy) <==> p in catalog && Matches(f, p)
    ensures forall p :: multiset(Query(catalog, f, sortBy))[p] == if Matches(f, p) then multiset(catalog)[p] else 0
  {
    FilterMultiset(catalog, p => Matches(f, p));
    var q := Query(catalog, f, sortBy);
    forall p ensures p in q <==> p in catalog && Matches(f, p) {
      assert p in q <==> p in multiset(q);
    }
  }

  /** The query is in sort order, and products that tie on the key keep their catalog order. */
  lemma QueryOrder(catalog: seq<Product>, f: Filters, sortBy: string, g: Product -> bool)
    requires SingleKey(g, SortKey(sortBy))
    ensures SortedBy(Query(catalog, f, sortBy), SortKey(sortBy))
    ensures Filter(Query(catalog, f, sortBy), g) == Filter(Filter(catalog, p => Matches(f, p)), g)
  {
    SortBySorted(Filter(catalog, p => Matches(f, p)), SortKey(sortBy));
    SortByStable(Filter(catalog, p => Matches(f, p)), SortKey(sortBy), g);
  }

  /** Consecutive pages, from the first, spell out the whole query. */
  lemma PagesOfQuery(catalog: seq<Product>, f: Filters, sortBy: string, k: nat, perPage: nat)
    requires k * perPage >= |catalog|
    ensures Pages(Query(catalog, f, sortBy), k, perPage) == Query(catalog, f, sortBy)
  {
    PagesCoverAll(Query(catalog, f, sortBy), k, perPage);
  }

  /** The first `k` filters, in the order `getFilteredProducts` applies them. */
  predicate MatchesUpTo(f: Filters, k: nat, p: Product) {
    && (k >= 1 && Given(f.category) ==> p.category == f.category.value)
    && (k >= 2 && Given(f.brand) ==> BrandMatches(f.brand.value, p))
    && (k >= 3 && Given(f.price) ==> PriceMatches(f.price.value, p))
    && (k >= 4 && Given(f.search) ==> SearchFilterMatches(Lower(f.search.value), p))
  }

  function Stage(f: Filters, k: nat): Product -> bool {
    p => MatchesUpTo(f, k, p)
  }

  /** `p => p.category === category`. */
  function CategoryIs(category: string): Product -> bool {
    (p: Product) => p.category == category
  }

  /** The brand rule as a filter callback. */
  function BrandIs(brand: string): Product -> bool {
    p => BrandMatches(brand, p)
  }

  /** `p => p.price >= min && p.price <= max`. */
  function PriceWithin(bounds: (Num, Num)): Product -> bool {
    (p: Product) => InBounds(bounds, p.price)
  }

  /** The search rule of `getFilteredProducts` as a filter callback. */
  function SearchHits(term: string): Product -> bool {
    p => SearchFilterMatches(term, p)
  }

  /** Whether filter `k` (1 to 4) is given. */
  predicate StageGiven(f: Filters, k: nat) {
    if k == 1 then Given(f.category)
    else if k == 2 then Given(f.brand)
    else if k == 3 then Given(f.price)
    else Given(f.search)
  }

  /** The callback filter `k` (1 to 4) narrows the list with. */
  function StageStep(f: Filters, k: nat): Product -> bool
    requires 1 <= k <= 4 && StageGiven(f, k)
  {
    if k == 1 then CategoryIs(f.category.value)
    else if k == 2 then BrandIs(f.brand.value)
    else if k == 3 then PriceWithin(PriceBounds(f.price.value))
    else SearchHits(Lower(f.search.value))
  }

  lemma StagePointwise(f: Filters, k: nat, p: Product)
    requires 1 <= k <= 4
    ensures StageGiven(f, k) ==> MatchesUpTo(f, k, p) == (MatchesUpTo(f, k - 1, p) && StageStep(f, k)(p))
    ensures !StageGiven(f, k) ==> MatchesUpTo(f, k, p) == MatchesUpTo(f, k - 1, p)
  {
  }

  /** Filter `k` narrows what the first `k - 1` filters kept, or keeps all of it when absent. */
  lemma StageFilters(catalog: seq<Product>, f: Filters, k: nat)
    requires 1 <= k <= 4
    ensures StageGiven(f, k) ==> Filter(Filter(catalog, Stage(f, k - 1)), StageStep(f, k)) == Filter(catalog, Stage(f, k))
    ensures !StageGiven(f, k) ==> Filter(catalog, Stage(f, k - 1)) == Filter(catalog, Stage(f, k))
  {
    forall p ensures StageGiven(f, k) ==> MatchesUpTo(f, k, p) == (MatchesUpTo(f, k - 1, p) && StageStep(f, k)(p))
      ensures !StageGiven(f, k) ==> MatchesUpTo(f, k, p) == MatchesUpTo(f, k - 1, p)
    {
      StagePointwise(f, k, p);
    }
    if StageGiven(f, k) {
      FilterTwice(catalog, Stage(f, k - 1), StageStep(f, k), Stage(f, k));
    } else {
      FilterTwice(catalog, Stage(f, k - 1), p => true, Stage(f, k));
      FilterAll(Filter(catalog, Stage(f, k - 1)), p => true);
    }
  }

  /** The filters of `getFilteredProducts`, applied one after another to the working list. */
  method ApplyFilters(catalog: seq<Product>, filters: Filters) returns (filtered: seq<Product>)
    ensures filtered == Filter(catalog, Stage(filters, 4))
  {
    filtered := catalog;
    FilterAll(catalog, Stage(filters, 0));
    StageFilters(catalog, filters, 1);
    if Given(filters.category) {
      filtered := Filter(filtered, CategoryIs(filters.category.value));
    }
    StageFilters(catalog, filters, 2);
    if Given(filters.brand) {
      filtered := Filter(filtered, BrandIs(filters.brand.value));
    }
    StageFilters(catalog, filters, 3);
    if Given(filters.price) {
      var bounds := PriceBounds(filters.price.value);
      filtered := Filter(filtered, PriceWithin(bounds));
    }
    StageFilters(catalog, filters, 4);
    if Given(filters.search) {
      var searchTerm := Lower(filters.search.value);
      filtered := Filter(filtered, SearchHits(searchTerm));
    }
  }

  /** All four filters together are `Matches`. */
  lemma AllStages(catalog: seq<Product>, f: Filters)
    ensures Filter(catalog, Stage(f, 4)) == Filter(catalog, p => Matches(f, p))
  {
    FilterTwice(catalog, Stage(f, 4), p => true, p => Matches(f, p));
    FilterAll(Filter(catalog, Stage(f, 4)), p => true);
  }

  /** `getFilteredProducts(filters, sortBy, page = 1, perPage = 12)` over `catalog`. */
  method GetFilteredProducts(catalog: seq<Product>, filters: Filters, sortBy: string, page: int := 1, perPage: int := 12)
    returns (r: seq<Product>)
    ensures r == Page(Query(catalog, filters, sortBy), page, perPage)
    ensures forall p :: p in r ==> p in catalog && Matches(filters, p)
    ensures SortedBy(r, SortKey(sortBy))
    ensures 1 <= page && 0 <= perPage ==> |r| <= perPage
  {
    var filtered := ApplyFilters(catalog, filters);
    AllStages(catalog, filters);
    filtered := SortBy(filtered, SortKey(sortBy));
    assert filtered == Query(catalog, filters, sortBy);
    QueryContents(catalog, filters, sortBy);
    SortBySorted(Filter(catalog, p => Matches(filters, p)), SortKey(sortBy));

    var startIndex := (page - 1) * perPage;
    var endIndex := startIndex + perPage;
    r := Slice(filtered, startIndex, endIndex);
    SliceSorted(filtered, startIndex, endIndex, SortKey(sortBy));
    if 1 <= page && 0 <= perPage {
      PageIsSlice(filtered, page, perPage);
    }
  }

  // ------------------------------------------------------ lookups by id

  /** `products.find(p => p.id === productId)`: the first product with that id. */
  function GetProductById(catalog: seq<Product>, productId: string): (r: Option<Product>)
    ensures r.None? <==> forall p :: p in catalog ==> p.id != productId
    ensures r.Some? ==> r.value in catalog && r.value.id == productId
  {
    if catalog == [] then None
    else if catalog[0].id == productId then Some(catalog[0])
    else
      assert forall p :: p in catalog ==> p == catalog[0] || p in catalog[1..];
      GetProductById(catalog[1..], productId)
  }

  /** Position `i` holds the first product with that id. */
  ghost predicate FirstWithId(catalog: seq<Product>, productId: string, i: int) {
    0 <= i < |catalog| && catalog[i].id == productId && forall j :: 0 <= j < i ==> catalog[j].id != productId
  }

  /** The product found is the first one with that id. */
  lemma {:induction false} GetProductByIdIsFirst(catalog: seq<Product>, productId: string)
    requires GetProductById(catalog, productId).Some?
    ensures exists i :: FirstWithId(catalog, productId, i) && catalog[i] == GetProductById(catalog, productId).value
  {
    if catalog[0].id != productId {
      var r := GetProductById(catalog[1..], productId);
      GetProductByIdIsFirst(catalog[1..], productId);
      var i :| FirstWithId(catalog[1..], productId, i) && catalog[1..][i] == r.value;
      assert catalog[i + 1] == r.value;
      forall j | 0 <= j < i + 1 ensures catalog[j].id != productId {
        if j > 0 {
          assert catalog[j] == catalog[1..][j - 1];
        }
      }
      assert FirstWithId(catalog, productId, i + 1);
    } else {
      assert FirstWithId(catalog, productId, 0);
    }
  }

  /** With unique ids, looking up a listed product's id finds that product. */
  lemma {:induction false} GetProductByIdFindsListed(catalog: seq<Product>, p: Product)
    requires UniqueIds(catalog) && p in catalog
    ensures GetProductById(catalog, p.id) == Some(p)
  {
    var r := GetProductById(catalog, p.id);
    GetProductByIdIsFirst(catalog, p.id);
    var i :| FirstWithId(catalog, p.id, i) && catalog[i] == r.value;
    var k :| 0 <= k < |catalog| && catalog[k] == p;
    assert !(k < i);
    assert !(i < k);
  }

  /** Every seeded product is found by its own id. */
  lemma SeedLookups()
    ensures forall i :: 0 <= i < |Products| ==> GetProductById(Products, Products[i].id) == Some(Products[i])
  {
    SeedHasUniqueIds();
    forall i | 0 <= i < |Products| ensures GetProductById(Products, Products[i].id) == Some(Products[i]) {
      GetProductByIdFindsListed(Products, Products[i]);
    }
  }

  /** `getRetailerInfo(productId)`: the offers of the product with that id, or none. */
  function GetRetailerInfo(catalog: seq<Product>, productId: string): (r: seq<Offer>)
    ensures (forall p :: p in catalog ==> p.id != productId) ==> r == []
    ensures forall p :: UniqueIds(catalog) && p in catalog && p.id == productId ==> r == p.retailers
  {
    match GetProductById(catalog, productId)
    case None => []
    case Some(p) =>
      assert forall q :: UniqueIds(catalog) && q in catalog && q.id == productId ==> q == p by {
        forall q | UniqueIds(catalog) && q in catalog && q.id == productId ensures q == p {
          GetProductByIdFindsListed(catalog, q);
        }
      }
      p.retailers
  }

  /** `productIds.includes(p.id)`. */
  function IdIn(productIds: seq<string>): Product -> bool {
    (p: Product) => p.id in productIds
  }

  /** `getProductsByIds(productIds)`: the listed products, in catalog order (not in the order of the ids). */
  function GetProductsByIds(catalog: seq<Product>, productIds: seq<string>): (r: seq<Product>)
    ensures forall p :: p in r <==> p in catalog && p.id in productIds
    ensures IsSubsequence(r, catalog)
  {
    FilterIsSubsequence(catalog, IdIn(productIds));
    Filter(catalog, IdIn(productIds))
  }

  /** Looking up the ids of any products in a catalog with unique ids gives back those products, in catalog order. */
  lemma GetProductsByIdsOfProducts(catalog: seq<Product>, chosen: seq<Product>)
    requires UniqueIds(catalog) && IsSubsequence(chosen, catalog)
    ensures GetProductsByIds(catalog, IdsOf(chosen)) == chosen
  {
    GetProductsByIdsOfSubsequence(catalog, chosen);
  }

  /** The ids of a list of products, in order. */
  function IdsOf(ps: seq<Product>): (ids: seq<string>)
    ensures |ids| == |ps|
    ensures forall i :: 0 <= i < |ps| ==> ids[i] == ps[i].id
  {
    if ps == [] then [] else [ps[0].id] + IdsOf(ps[1..])
  }

  lemma UniqueIdsTail(catalog: seq<Product>)
    requires UniqueIds(catalog) && catalog != []
    ensures UniqueIds(catalog[1..])
    ensures forall x :: x in catalog[1..] ==> x.id != catalog[0].id
  {
    forall x | x in catalog[1..] ensures x.id != catalog[0].id {
      var k :| 0 <= k < |catalog[1..]| && catalog[1..][k] == x;
      assert catalog[k + 1] == x;
    }
    forall i, j | 0 <= i < j < |catalog[1..]| ensures catalog[1..][i].id != catalog[1..][j].id {
      assert catalog[1..][i] == catalog[i + 1] && catalog[1..][j] == catalog[j + 1];
    }
  }

  lemma {:induction false} GetProductsByIdsOfSubsequence(catalog: seq<Product>, chosen: seq<Product>)
    requires UniqueIds(catalog) && IsSubsequence(chosen, catalog)
    ensures Filter(catalog, IdIn(IdsOf(chosen))) == chosen
    decreases |catalog|
  {
    if catalog != [] {
      var rest := catalog[1..];
      UniqueIdsTail(catalog);
      if chosen != [] && chosen[0] == catalog[0] && IsSubsequence(chosen[1..], rest) {
        GetProductsByIdsOfSubsequence(rest, chosen[1..]);
        ChosenHeadKept(catalog, chosen);
      } else {
        if chosen != [] {
          assert IsSubsequence(chosen, rest);
        }
        GetProductsByIdsOfSubsequence(rest, chosen);
        UnchosenHeadDropped(catalog, chosen);
      }
    }
  }

  /** The step where the first product of the catalog is the first one chosen. */
  lemma ChosenHeadKept(catalog: seq<Product>, chosen: seq<Product>)
    requires catalog != [] && chosen != [] && chosen[0] == catalog[0] && UniqueIds(catalog)
    requires Filter(catalog[1..], IdIn(IdsOf(chosen[1..]))) == chosen[1..]
    ensures Filter(catalog, IdIn(IdsOf(chosen))) == chosen
  {
    var c, rest, tail := catalog[0], catalog[1..], chosen[1..];
    var f, g := IdIn(IdsOf(chosen)), IdIn(IdsOf(tail));
    UniqueIdsTail(catalog);
    assert IdsOf(chosen) == [c.id] + IdsOf(tail);
    forall x | x in rest ensures f(x) == g(x) {
      assert x.id != c.id;
    }
    FilterAgree(rest, f, g);
    assert f(c) by {
      assert IdsOf(chosen)[0] == c.id;
    }
    assert Filter(catalog, f) == [c] + Filter(rest, f);
    HeadTail(chosen);
  }

  /** The step where the first product of the catalog is not among those chosen. */
  lemma UnchosenHeadDropped(catalog: seq<Product>, chosen: seq<Product>)
    requires catalog != [] && UniqueIds(catalog) && IsSubsequence(chosen, catalog[1..])
    requires Filter(catalog[1..], IdIn(IdsOf(chosen))) == chosen
    ensures Filter(catalog, IdIn(IdsOf(chosen))) == chosen
  {
    var c, rest := catalog[0], catalog[1..];
    UniqueIdsTail(catalog);
    SubsequenceMembers(chosen, rest);
    assert c.id !in IdsOf(chosen) by {
      forall i | 0 <= i < |chosen| ensures IdsOf(chosen)[i] != c.id {
        assert chosen[i] in rest;
      }
    }
  }

  // --------------------------------------------------------------- search

  /** `p.name/brand.toLowerCase().includes(term) || p.tags.some(...)`. */
  function SearchHitsByName(term: string): Product -> bool {
    p => SearchMatches(term, p)
  }

  /** `searchProducts(query)`: the products whose name, brand or a tag mention the lower-cased query, in catalog order. */
  function SearchProducts(catalog: seq<Product>, query: string): (r: seq<Product>)
    ensures forall p :: p in r <==> p in catalog && SearchMatches(Lower(query), p)
    ensures IsSubsequence(r, catalog)
  {
    FilterIsSubsequence(catalog, SearchHitsByName(Lower(query)));
    Filter(catalog, SearchHitsByName(Lower(query)))
  }

  /** What `searchProducts` finds, the search filter of `getFilteredProducts` finds as well. */
  lemma SearchWithinSearchFilter(catalog: seq<Product>, query: string, sortBy: string)
    requires query != ""
    ensures forall p :: p in SearchProducts(catalog, query) ==> p in Query(catalog, Filters(None, None, None, Some(query)), sortBy)
  {
    QueryContents(catalog, Filters(None, None, None, Some(query)), sortBy);
  }

  /** The empty query is contained in every name, so it finds the whole catalog. */
  lemma SearchEmptyQuery(catalog: seq<Product>)
    ensures SearchProducts(catalog, "") == catalog
  {
    forall p ensures SearchHitsByName([])(p) {
      assert Lower(p.name)[..0] == [];
    }
    FilterAll(catalog, SearchHitsByName([]));
  }

  // ------------------------------------------------------- ranked queries

  /**
   * `r` is `pool` sorted by `key` and cut to `limit`: drawn from the pool, in
   * key order, as long as `limit` allows, and nothing left out of the pool
   * comes earlier in key order than anything kept. Products that tie on the
   * key keep their pool order, and those kept are the first of the tie.
   */
  ghost predicate Ranked(r: seq<Product>, pool: seq<Product>, key: Product -> real, limit: int) {
    && multiset(r) <= multiset(pool)
    && SortedBy(r, key)
    && (0 <= limit ==> |r| == Min(limit, |pool|))
    && (forall x, y :: x in r && y in pool && y !in r ==> key(x) <= key(y))
    && forall v: real :: Filter(r, KeyIs(key, v)) <= Filter(pool, KeyIs(key, v))
  }

  /** `pool.sort(by key).slice(0, limit)`, with what it promises. */
  function TopOf(pool: seq<Product>, key: Product -> real, limit: int): (r: seq<Product>)
    ensures Ranked(r, pool, key, limit)
    ensures forall p :: p in r ==> p in pool
  {
    TopProperties(pool, key, limit);
    TopStable(pool, key, limit);
    var r := Top(pool, key, limit);
    assert forall p :: p in r ==> p in multiset(pool);
    r
  }

  /** Sorted by the rating key means ratings never go up. */
  lemma RatingOrder(r: seq<Product>)
    requires SortedBy(r, RatingKey)
    ensures forall i, j :: 0 <= i < j < |r| ==> r[i].rating >= r[j].rating
  {
  }

  /** The products sharing a category or a brand with `target`, other than the looked-up id. */
  function SimilarTo(target: Product, productId: string): Product -> bool {
    (p: Product) => p.id != productId && (p.category == target.category || p.brand == target.brand)
  }

  /** `getSimilarProducts(productId, limit = 4)`: best-rated products sharing the target's category or brand; none for an unknown id. */
  function GetSimilarProducts(catalog: seq<Product>, productId: string, limit: int := 4): (r: seq<Product>)
    ensures GetProductById(catalog, productId).None? ==> r == []
    ensures GetProductById(catalog, productId).Some? ==>
      var target := GetProductById(catalog, productId).value;
      && Ranked(r, Filter(catalog, SimilarTo(target, productId)), RatingKey, limit)
      && forall p :: p in r ==> p in catalog && p.id != productId && (p.category == target.category || p.brand == target.brand)
  {
    match GetProductById(catalog, productId)
    case None => []
    case Some(target) => TopOf(Filter(catalog, SimilarTo(target, productId)), RatingKey, limit)
  }

  /** `getTrendingProducts(limit = 8)`: the most reviewed trending products. */
  function GetTrendingProducts(catalog: seq<Product>, limit: int := 8): (r: seq<Product>)
    ensures Ranked(r, Filter(catalog, (p: Product) => p.trending), PopularityKey, limit)
    ensures forall p :: p in r ==> p in catalog && p.trending
  {
    TopOf(Filter(catalog, (p: Product) => p.trending), PopularityKey, limit)
  }

  /**
   * `((originalPrice - price) / originalPrice) * 100`, negated so that the
   * largest discount comes first. A product without a positive original price
   * gets 0 (the source divides by `null` there).
   */
  function DiscountKey(p: Product): real {
    match p.originalPrice
    case Some(o) => if o > 0 then -(((o - p.price) as real / o as real) * 100.0) else 0.0
    case None => 0.0
  }

  /** Between two discounted products the larger fraction off comes first, by cross-multiplication. */
  lemma DiscountOrder(a: Product, b: Product)
    requires a.originalPrice.Some? && a.originalPrice.value > 0
    requires b.originalPrice.Some? && b.originalPrice.value > 0
    ensures DiscountKey(a) <= DiscountKey(b) <==>
      (b.originalPrice.value - b.price) * a.originalPrice.value <= (a.originalPrice.value - a.price) * b.originalPrice.value
  {
    var oa, ob := a.originalPrice.value as real, b.originalPrice.value as real;
    var da, db := (a.originalPrice.value - a.price) as real, (b.originalPrice.value - b.price) as real;
    assert DiscountKey(a) == -((da / oa) * 100.0);
    assert DiscountKey(b) == -((db / ob) * 100.0);
    assert da / oa * (oa * ob) == da * ob;
    assert db / ob * (oa * ob) == db * oa;
    assert oa * ob > 0.0;
  }

  /** `getSaleProducts(limit = 12)`: the products on sale, largest discount first. */
  function GetSaleProducts(catalog: seq<Product>, limit: int := 12): (r: seq<Product>)
    ensures Ranked(r, Filter(catalog, (p: Product) => p.onSale), DiscountKey, limit)
    ensures forall p :: p in r ==> p in catalog && p.onSale
  {
    TopOf(Filter(catalog, (p: Product) => p.onSale), DiscountKey, limit)
  }

  /** `getProductsByCategory(category, limit = 12)`: the best-rated products of the category. */
  function GetProductsByCategory(catalog: seq<Product>, category: string, limit: int := 12): (r: seq<Product>)
    ensures Ranked(r, Filter(catalog, CategoryIs(category)), RatingKey, limit)
    ensures forall p :: p in r ==> p in catalog && p.category == category
  {
    TopOf(Filter(catalog, CategoryIs(category)), RatingKey, limit)
  }

  /** `getProductsByBrand(brand, limit = 12)`: the best-rated products of the brand, under the brand rule of the filters. */
  function GetProductsByBrand(catalog: seq<Product>, brand: string, limit: int := 12): (r: seq<Product>)
    ensures Ranked(r, Filter(catalog, BrandIs(brand)), RatingKey, limit)
    ensures forall p :: p in r ==> p in catalog && BrandMatches(brand, p)
  {
    TopOf(Filter(catalog, BrandIs(brand)), RatingKey, limit)
  }

  // ------------------------------------------------------- comparePrices

  datatype PriceComparison = PriceComparison(
    productId: string,
    productName: string,
    lowestPrice: Offer,
    highestPrice: Offer,
    allRetailers: seq<Offer>,
    savings: int)

  /** `null` for an unknown id; a `TypeError` when the product has no offers (reading `.price` of `undefined`). */
  datatype Comparison = NoProduct | NoOffersTypeError | Compared(comparison: PriceComparison)

  /** `(a, b) => a.price - b.price`. */
  function OfferPriceKey(o: Offer): real { o.price as real }

  /** `comparePrices(productId)`. */
  function ComparePrices(catalog: seq<Product>, productId: string): (r: Comparison)
    ensures r.NoProduct? <==> forall p :: p in catalog ==> p.id != productId
    ensures r.NoOffersTypeError? <==> GetProductById(catalog, productId).Some? && GetProductById(catalog, productId).value.retailers == []
    ensures r.Compared? ==>
      var p := GetProductById(catalog, productId).value;
      var c := r.comparison;
      && c.productId == productId && c.productName == p.name
      && multiset(c.allRetailers) == multiset(p.retailers)
      && SortedBy(c.allRetailers, OfferPriceKey)
      && (forall v: int :: Filter(c.allRetailers, OfferPriced(v)) == Filter(p.retailers, OfferPriced(v)))
      && c.allRetailers != []
      && c.lowestPrice == c.allRetailers[0] && c.highestPrice == c.allRetailers[|c.allRetailers| - 1]
      && c.lowestPrice in p.retailers && c.highestPrice in p.retailers
      && (forall o :: o in p.retailers ==> c.lowestPrice.price <= o.price <= c.highestPrice.price)
      && c.savings == c.highestPrice.price - c.lowestPrice.price >= 0
  {
    match GetProductById(catalog, productId)
    case None => NoProduct
    case Some(p) =>
      var sorted := SortBy(p.retailers, OfferPriceKey);
      if sorted == [] then NoOffersTypeError
      else
        SortedOffersBounds(p.retailers);
        OffersKeepTies(p.retailers);
        var lowest, highest := sorted[0], sorted[|sorted| - 1];
        Compared(PriceComparison(productId, p.name, lowest, highest, sorted, highest.price - lowest.price))
  }

  /** The first and last offers after sorting by price are offers of the list, with the least and greatest price. */
  lemma SortedOffersBounds(offers: seq<Offer>)
    requires offers != []
    ensures var t := SortBy(offers, OfferPriceKey);
      && multiset(t) == multiset(offers) && SortedBy(t, OfferPriceKey)
      && t[0] in offers && t[|t| - 1] in offers
      && forall o :: o in offers ==> t[0].price <= o.price <= t[|t| - 1].price
  {
    SortBySorted(offers, OfferPriceKey);
    SortedEnds(offers, OfferPriceKey);
  }

  /** The offers at one price. */
  function OfferPriced(v: int): Offer -> bool {
    (o: Offer) => o.price == v
  }

  /** `Array.prototype.sort` is stable: offers at the same price keep the order they are listed in. */
  lemma OffersKeepTies(offers: seq<Offer>)
    ensures forall v: int :: Filter(SortBy(offers, OfferPriceKey), OfferPriced(v)) == Filter(offers, OfferPriced(v))
  {
    forall v: int ensures Filter(SortBy(offers, OfferPriceKey), OfferPriced(v)) == Filter(offers, OfferPriced(v)) {
      assert SingleKey(OfferPriced(v), OfferPriceKey);
      SortByStable(offers, OfferPriceKey, OfferPriced(v));
    }
  }

  /** Three offers where the last is cheapest and the first no dearer than the second sort as last, first, second. */
  lemma SortThree(x: Offer, y: Offer, z: Offer)
    requires z.price < x.price <= y.price
    ensures SortBy([x, y, z], OfferPriceKey) == [z, x, y]
  {
    assert [x, y, z][1..] == [y, z];
    assert [y, z][1..] == [z];
    assert SortBy([z], OfferPriceKey) == [z];
    assert Insert(y, [z], OfferPriceKey) == [z, y];
    assert Insert(x, [y], OfferPriceKey) == [x, y];
    assert Insert(x, [z, y], OfferPriceKey) == [z, x, y];
  }

  lemma FoundationLookup()
    ensures GetProductById(Products, "1") == Some(P1)
  {
    SeedHasUniqueIds();
    assert Products[0] == P1;
    GetProductByIdFindsListed(Products, P1);
  }

  lemma HairDryerLookup()
    ensures GetProductById(Products, "8") == Some(P8)
  {
    SeedHasUniqueIds();
    assert Products[7] == P8;
    GetProductByIdFindsListed(Products, P8);
  }

  /** Product 1 is cheapest at Amazon (39) and dearest at Ulta (42), three apart. */
  lemma ComparePricesOfFoundation()
    ensures ComparePrices(Products, "1") == Compared(PriceComparison("1", P1.name,
      Offer("Amazon", "https://example.com/amazon-fenty", 39),
      Offer("Ulta", "https://example.com/ulta-fenty", 42),
      [Offer("Amazon", "https://example.com/amazon-fenty", 39),
       Offer("Sephora", "https://example.com/sephora-fenty", 40),
       Offer("Ulta", "https://example.com/ulta-fenty", 42)],
      3))
  {
    FoundationLookup();
    SortThree(P1.retailers[0], P1.retailers[1], P1.retailers[2]);
  }

  /**
   * Product 8 is listed at Ulta and Sephora for 430 and at Amazon for 425:
   * Amazon comes first and the two tied offers keep their listed order, so
   * Sephora is the highest.
   */
  lemma ComparePricesOfHairDryer()
    ensures ComparePrices(Products, "8") == Compared(PriceComparison("8", P8.name,
      Offer("Amazon", "https://example.com/amazon-dyson", 425),
      Offer("Sephora", "https://example.com/sephora-dyson", 430),
      [Offer("Amazon", "https://example.com/amazon-dyson", 425),
       Offer("Ulta", "https://example.com/ulta-dyson", 430),
       Offer("Sephora", "https://example.com/sephora-dyson", 430)],
      5))
  {
    HairDryerLookup();
    SortThree(P8.retailers[0], P8.retailers[1], P8.retailers[2]);
  }

  // ------------------------------------------------------ addProductByUrl

  /** The outcome of `addProductByUrl`: the thrown error, or the pending submission it returns. */
  datatype Submission = Rejected(error: string) | Submitted(status: string, message: string, estimatedReviewTime: string)

  /** `retailers.some(retailer => url.includes(retailer))`. */
  predicate SomeIncluded(url: string, retailers: seq<string>) {
    retailers != [] && (Contains(url, retailers[0]) || SomeIncluded(url, retailers[1..]))
  }

  lemma {:induction false} SomeIncludedIff(url: string, retailers: seq<string>)
    ensures SomeIncluded(url, retailers) <==> exists i :: 0 <= i < |retailers| && Contains(url, retailers[i])
  {
    if retailers != [] {
      SomeIncludedIff(url, retailers[1..]);
      if Contains(url, retailers[0]) {
      } else if SomeIncluded(url, retailers[1..]) {
        var i :| 0 <= i < |retailers[1..]| && Contains(url, retailers[1..][i]);
        assert Contains(url, retailers[i + 1]);
      } else {
        forall i | 0 <= i < |retailers| ensures !Contains(url, retailers[i]) {
          if i > 0 {
            assert retailers[i] == retailers[1..][i - 1];
          }
        }
      }
    }
  }

  const RejectionPrefix := "Retailer not supported. Supported retailers: "

  /** `addProductByUrl(url)`: rejected unless the URL mentions a supported retailer domain. */
  function AddProductByUrl(url: string): (r: Submission)
    ensures r.Rejected? <==> forall i :: 0 <= i < |SupportedRetailers| ==> !Contains(url, SupportedRetailers[i])
    ensures r.Rejected? ==> |RejectionPrefix| <= |r.error| && r.error[..|RejectionPrefix|] == RejectionPrefix
    ensures r.Rejected? ==> forall i :: 0 <= i < |SupportedRetailers| ==> Contains(r.error, SupportedRetailers[i])
    ensures r.Submitted? ==> r.status == "pending" && r.estimatedReviewTime == "24-48 hours"
  {
    SomeIncludedIff(url, SupportedRetailers);
    if !SomeIncluded(url, SupportedRetailers) then
      var listed := Join(SupportedRetailers, ", ");
      JoinContainsParts(SupportedRetailers, ", ");
      assert forall i :: 0 <= i < |SupportedRetailers| ==> Contains(RejectionPrefix + listed, SupportedRetailers[i]) by {
        forall i | 0 <= i < |SupportedRetailers| ensures Contains(RejectionPrefix + listed, SupportedRetailers[i]) {
          ContainsInConcat(RejectionPrefix, listed, SupportedRetailers[i]);
        }
      }
      Rejected(RejectionPrefix + listed)
    else
      Submitted("pending", "Product submitted for review. It will appear in the catalog once approved.", "24-48 hours")
  }

  /** `getSupportedRetailers()`: exactly the domains that make a submitted URL acceptable. */
  function GetSupportedRetailers(): (r: seq<string>)
    ensures forall url :: AddProductByUrl(url).Submitted? <==> exists i :: 0 <= i < |r| && Contains(url, r[i])
  {
    SupportedRetailers
  }
}
