/** The normalisation of the two remote catalog answers into catalog fonts
    (js/fontCatalog.js): Google Fonts' variant lists and Bunny Fonts' style
    maps become a weight list and an italic flag; weights default to [400],
    are sorted and de-duplicated; ids, categories and popularity are filled in. */
module CatalogTransform {
  import opened Wrappers
  import opened JsText
  import opened JsNumber
  import opened Ordering
  import opened Fonts

  /** One item of the Google Fonts API answer; an empty category stands for
      a missing one. */
  datatype GoogleItem = GoogleItem(family: string, category: string, variants: seq<string>)

  /** One value of the Bunny Fonts list, keyed by font id; `styles` holds the
      keys of the `styles` object, None when it is missing. */
  datatype BunnyItem = BunnyItem(familyName: string, category: string, styles: Option<seq<string>>)

  /** What the per-font loop accumulates. */
  datatype Parsed = Parsed(weights: seq<int>, hasItalic: bool)

  /** `item.category || 'sans-serif'`. */
  function CategoryOrDefault(category: string): (c: string)
    ensures c != ""
    ensures category != "" ==> c == category
    ensures category == "" ==> c == "sans-serif"
  {
    if category == "" then "sans-serif" else category
  }

  // ---------------------------------------------------------------- Google

  /** The weight a single Google variant contributes, if any. */
  function VariantWeight(v: string): Option<int> {
    if v == "regular" then Some(400)
    else if v == "italic" then None
    else if EndsWith(v, "italic") then ParseInt(ReplaceFirst(v, "italic", ""))
    else ParseInt(v)
  }

  /** One turn of the `forEach` over `item.variants`. */
  function GoogleVariantStep(acc: Parsed, v: string): Parsed {
    if v == "regular" then acc.(weights := acc.weights + [400])
    else if v == "italic" then acc.(hasItalic := true)
    else if EndsWith(v, "italic") then
      var w := ParseInt(ReplaceFirst(v, "italic", ""));
      if w.Some? && w.value !in acc.weights then Parsed(acc.weights + [w.value], true)
      else acc.(hasItalic := true)
    else
      var w := ParseInt(v);
      if w.Some? then acc.(weights := acc.weights + [w.value]) else acc
  }

  /** The state after the whole `forEach`. */
  function GoogleVariants(vs: seq<string>): Parsed {
    if vs == [] then Parsed([], false)
    else GoogleVariantStep(GoogleVariants(vs[..|vs| - 1]), vs[|vs| - 1])
  }

  /** Some variant of `vs` names weight `w`. */
  ghost predicate NamesWeight(vs: seq<string>, w: int) {
    exists i :: 0 <= i < |vs| && VariantWeight(vs[i]) == Some(w)
  }

  /** Some variant of `vs` ends in "italic" (the bare "italic" included). */
  ghost predicate HasItalicVariant(vs: seq<string>) {
    exists i :: 0 <= i < |vs| && EndsWith(vs[i], "italic")
  }

  /** The loop keeps exactly the weights the variants name, and sets the
      italic flag exactly when some variant ends in "italic". */
  lemma {:induction false} GoogleVariantsMeaning(vs: seq<string>)
    ensures forall w :: w in GoogleVariants(vs).weights <==> NamesWeight(vs, w)
    ensures GoogleVariants(vs).hasItalic <==> HasItalicVariant(vs)
  {
    if vs != [] {
      var init := vs[..|vs| - 1];
      var v := vs[|vs| - 1];
      GoogleVariantsMeaning(init);
      forall w ensures w in GoogleVariants(vs).weights <==> NamesWeight(vs, w) {
        if NamesWeight(vs, w) {
          var i :| 0 <= i < |vs| && VariantWeight(vs[i]) == Some(w);
          if i < |vs| - 1 {
            assert init[i] == vs[i];
          }
        }
        if w in GoogleVariants(init).weights {
          var i :| 0 <= i < |init| && VariantWeight(init[i]) == Some(w);
          assert vs[i] == init[i];
        }
        if w in GoogleVariants(vs).weights && w !in GoogleVariants(init).weights {
          assert VariantWeight(v) == Some(w);
        }
      }
      if GoogleVariants(init).hasItalic {
        var i :| 0 <= i < |init| && EndsWith(init[i], "italic");
        assert vs[i] == init[i];
      }
      if HasItalicVariant(vs) {
        var i :| 0 <= i < |vs| && EndsWith(vs[i], "italic");
        if i < |vs| - 1 {
          assert init[i] == vs[i];
        }
      }
    }
  }

  /** The four variant forms: "regular" is weight 400, "<n>" is weight n,
      "<n>italic" is weight n and italic, "italic" is italic with no weight. */
  lemma {:induction false} VariantForms(n: nat)
    ensures VariantWeight("regular") == Some(400) && !EndsWith("regular", "italic")
    ensures VariantWeight("italic") == None && EndsWith("italic", "italic")
    ensures VariantWeight(NatToString(n, 10)) == Some(n) && !EndsWith(NatToString(n, 10), "italic")
    ensures VariantWeight(NatToString(n, 10) + "italic") == Some(n)
    ensures EndsWith(NatToString(n, 10) + "italic", "italic")
  {
    var d := NatToString(n, 10);
    NatToStringRoundTrip(n, 10);
    assert d[0] != 'r' && d[0] != 'i';
    assert d != "regular" && d != "italic";
    assert IsDigitIn(d[|d| - 1], 10);
    var v := d + "italic";
    assert v[0] == d[0];
    assert v != "regular" && v != "italic";
    assert v[|v| - 6..] == "italic";
    assert 'i' !in d;
    ReplaceFirstAfter(d, "italic");
  }

  /** `if (weights.length === 0) weights.push(400)`, then the numeric sort and
      `[...new Set(weights)]`. */
  function FinalWeights(ws: seq<int>): seq<int> {
    SortedSet(if ws == [] then [400] else ws, IntLess)
  }

  /** The final weights are never empty, strictly ascending, and hold the
      parsed weights and nothing else (400 alone when none were parsed). */
  lemma {:induction false} FinalWeightsSpec(ws: seq<int>)
    ensures |FinalWeights(ws)| >= 1
    ensures StrictlyIncreasing(FinalWeights(ws), IntLess)
    ensures forall w :: w in FinalWeights(ws) <==> w in ws || (ws == [] && w == 400)
  {
    IntLessIsStrictTotalOrder();
    var base := if ws == [] then [400] else ws;
    SortedSetSpec(base, IntLess);
    assert base[0] in FinalWeights(ws);
  }

  /** The catalog font the `map` callback builds for the item at `index`. */
  function GoogleFont(item: GoogleItem, index: nat): CatalogFont {
    var p := GoogleVariants(item.variants);
    CatalogFont(
      Slug(item.family), item.family, item.family, CategoryOrDefault(item.category),
      FinalWeights(p.weights), p.hasItalic, index + 1)
  }

  function GoogleCatalog(items: seq<GoogleItem>): Catalog {
    Catalog(
      Some("1.0.0"), GOOGLE, "Google Fonts", Some("https://fonts.google.com"),
      seq(|items|, i requires 0 <= i < |items| => GoogleFont(items[i], i)))
  }

  /** Each Google font: the slug id, the family as name, the default
      category, popularity one past its index, and weights as the variants
      name them, sorted and distinct. */
  lemma {:induction false} GoogleFontSpec(item: GoogleItem, index: nat)
    ensures var f := GoogleFont(item, index);
      && f.id == Slug(item.family) && f.name == item.family && f.family == item.family
      && f.category == CategoryOrDefault(item.category)
      && f.popularity == index + 1
      && |f.weights| >= 1 && StrictlyIncreasing(f.weights, IntLess)
      && (f.hasItalic <==> HasItalicVariant(item.variants))
    ensures forall w :: w in GoogleFont(item, index).weights <==>
      NamesWeight(item.variants, w) || (w == 400 && forall v :: !NamesWeight(item.variants, v))
  {
    var p := GoogleVariants(item.variants);
    GoogleVariantsMeaning(item.variants);
    FinalWeightsSpec(p.weights);
    if p.weights != [] {
      assert NamesWeight(item.variants, p.weights[0]);
    }
  }

  /** `item.variants.forEach(...)` over the variant list. */
  method ParseGoogleVariants(variants: seq<string>) returns (weights: seq<int>, hasItalic: bool)
    ensures Parsed(weights, hasItalic) == GoogleVariants(variants)
  {
    weights, hasItalic := [], false;
    for i := 0 to |variants|
      invariant Parsed(weights, hasItalic) == GoogleVariants(variants[..i])
    {
      var variant := variants[i];
      if variant == "regular" {
        weights := weights + [400];
      } else if variant == "italic" {
        hasItalic := true;
      } else if EndsWith(variant, "italic") {
        hasItalic := true;
        var weight := ParseInt(ReplaceFirst(variant, "italic", ""));
        if weight.Some? && weight.value !in weights {
          weights := weights + [weight.value];
        }
      } else {
        var weight := ParseInt(variant);
        if weight.Some? {
          weights := weights + [weight.value];
        }
      }
      assert variants[..i + 1][..i] == variants[..i];
    }
    assert variants[..|variants|] == variants;
  }

  /** `transformGoogleApiResponse`: the items mapped in order. */
  method TransformGoogleApiResponse(items: seq<GoogleItem>) returns (catalog: Catalog)
    ensures catalog == GoogleCatalog(items)
  {
    var fonts: seq<CatalogFont> := [];
    for index := 0 to |items|
      invariant |fonts| == index
      invariant forall i :: 0 <= i < index ==> fonts[i] == GoogleFont(items[i], i)
    {
      var item := items[index];
      var weights, hasItalic := ParseGoogleVariants(item.variants);
      ghost var parsed := weights;
      if |weights| == 0 {
        weights := weights + [400];
      }
      assert weights == if parsed == [] then [400] else parsed;
      var font := CatalogFont(
        Slug(item.family), item.family, item.family, CategoryOrDefault(item.category),
        SortedSet(weights, IntLess), hasItalic, index + 1);
      assert font == GoogleFont(item, index);
      fonts := fonts + [font];
    }
    catalog := Catalog(Some("1.0.0"), GOOGLE, "Google Fonts", Some("https://fonts.google.com"), fonts);
  }

  // ----------------------------------------------------------------- Bunny

  /** One turn of the `forEach` over the style keys. */
  function BunnyStyleStep(acc: Parsed, style: string): Parsed {
    var italic := acc.hasItalic || Includes(style, "italic");
    var w := ParseInt(ReplaceFirst(style, "italic", ""));
    if w.Some? && w.value !in acc.weights then Parsed(acc.weights + [w.value], italic)
    else Parsed(acc.weights, italic)
  }

  function BunnyStyles(styles: seq<string>): Parsed {
    if styles == [] then Parsed([], false)
    else BunnyStyleStep(BunnyStyles(styles[..|styles| - 1]), styles[|styles| - 1])
  }

  /** The weight a style key contributes, if any. */
  function StyleWeight(style: string): Option<int> {
    ParseInt(ReplaceFirst(style, "italic", ""))
  }

  /** Some style key of `styles` names weight `w`. */
  ghost predicate StyleNamesWeight(styles: seq<string>, w: int) {
    exists i :: 0 <= i < |styles| && StyleWeight(styles[i]) == Some(w)
  }

  /** Some style key of `styles` contains "italic". */
  ghost predicate HasItalicStyle(styles: seq<string>) {
    exists i :: 0 <= i < |styles| && Includes(styles[i], "italic")
  }

  /** The style loop keeps each weight once. */
  lemma {:induction false} BunnyStylesDistinct(styles: seq<string>)
    ensures forall i, j :: 0 <= i < j < |BunnyStyles(styles).weights| ==>
      BunnyStyles(styles).weights[i] != BunnyStyles(styles).weights[j]
  {
    if styles != [] {
      BunnyStylesDistinct(styles[..|styles| - 1]);
    }
  }

  /** The style loop keeps exactly the weights the keys name. */
  lemma {:induction false} BunnyStylesWeights(styles: seq<string>)
    ensures forall w :: w in BunnyStyles(styles).weights <==> StyleNamesWeight(styles, w)
  {
    if styles != [] {
      var init := styles[..|styles| - 1];
      BunnyStylesWeights(init);
      forall w ensures w in BunnyStyles(styles).weights <==> StyleNamesWeight(styles, w) {
        assert w in BunnyStyles(styles).weights <==>
          w in BunnyStyles(init).weights || StyleWeight(styles[|styles| - 1]) == Some(w);
        if StyleNamesWeight(styles, w) {
          var i :| 0 <= i < |styles| && StyleWeight(styles[i]) == Some(w);
          if i < |styles| - 1 {
            assert init[i] == styles[i];
          }
        }
        if w in BunnyStyles(init).weights {
          var i :| 0 <= i < |init| && StyleWeight(init[i]) == Some(w);
          assert styles[i] == init[i];
        }
      }
    }
  }

  /** The style loop sets the italic flag exactly when a key contains "italic". */
  lemma {:induction false} BunnyStylesItalic(styles: seq<string>)
    ensures BunnyStyles(styles).hasItalic <==> HasItalicStyle(styles)
  {
    if styles != [] {
      var init := styles[..|styles| - 1];
      BunnyStylesItalic(init);
      if BunnyStyles(init).hasItalic {
        var i :| 0 <= i < |init| && Includes(init[i], "italic");
        assert styles[i] == init[i];
      }
      if HasItalicStyle(styles) {
        var i :| 0 <= i < |styles| && Includes(styles[i], "italic");
        if i < |styles| - 1 {
          assert init[i] == styles[i];
        }
      }
    }
  }

  /** The catalog font the `map` callback builds for the entry at `index`. */
  function BunnyFont(id: string, item: BunnyItem, index: nat): CatalogFont {
    var p := match item.styles
      case None => Parsed([], false)
      case Some(styles) => BunnyStyles(styles);
    CatalogFont(
      id, item.familyName, item.familyName, CategoryOrDefault(item.category),
      FinalWeights(p.weights), p.hasItalic, index + 1)
  }

  /** The fonts in entry order, before the sort by name. */
  function BunnyFonts(entries: seq<(string, BunnyItem)>): (fonts: seq<CatalogFont>)
    ensures |fonts| == |entries|
    ensures forall i :: 0 <= i < |entries| ==> fonts[i] == BunnyFont(entries[i].0, entries[i].1, i)
  {
    seq(|entries|, i requires 0 <= i < |entries| => BunnyFont(entries[i].0, entries[i].1, i))
  }

  function FontName(f: CatalogFont): string { f.name }

  function BunnyCatalog(entries: seq<(string, BunnyItem)>): Catalog {
    Catalog(
      Some("1.0.0"), BUNNY, "Bunny Fonts", Some("https://fonts.bunny.net"),
      SortBy(BunnyFonts(entries), FontName))
  }

  /** The Bunny catalog lists the transformed entries sorted by name, each
      once, and a font's popularity is its entry's position before the sort. */
  lemma {:induction false} BunnyCatalogSpec(entries: seq<(string, BunnyItem)>)
    ensures SortedBy(BunnyCatalog(entries).fonts, FontName)
    ensures multiset(BunnyCatalog(entries).fonts) == multiset(BunnyFonts(entries))
    ensures forall f :: f in BunnyCatalog(entries).fonts ==>
      exists i :: 0 <= i < |entries| && f == BunnyFont(entries[i].0, entries[i].1, i) && f.popularity == i + 1
  {
    var fonts := BunnyFonts(entries);
    SortBySpec(fonts, FontName);
    forall f | f in BunnyCatalog(entries).fonts
      ensures exists i :: 0 <= i < |entries| && f == BunnyFont(entries[i].0, entries[i].1, i) && f.popularity == i + 1
    {
      assert f in multiset(fonts);
      var i :| 0 <= i < |fonts| && fonts[i] == f;
      assert f == BunnyFont(entries[i].0, entries[i].1, i);
    }
  }

  /** Some style key of the item parses to weight `w`. */
  ghost predicate ItemNamesWeight(item: BunnyItem, w: int) {
    item.styles.Some? && StyleNamesWeight(item.styles.value, w)
  }

  /** Each Bunny font keeps the family name and the 1-based index, has a
      non-empty, strictly ascending weight list holding exactly the weights
      its style keys name (or 400 when none does), and is italic exactly
      when one of its style keys contains "italic". */
  lemma {:induction false} BunnyFontSpec(id: string, item: BunnyItem, index: nat)
    ensures var f := BunnyFont(id, item, index);
      && f.id == id && f.name == item.familyName && f.family == item.familyName
      && f.category == CategoryOrDefault(item.category)
      && f.popularity == index + 1
      && |f.weights| >= 1 && StrictlyIncreasing(f.weights, IntLess)
      && (f.hasItalic <==> (item.styles.Some? && HasItalicStyle(item.styles.value)))
    ensures forall w :: w in BunnyFont(id, item, index).weights <==>
      ItemNamesWeight(item, w) || (w == 400 && forall v :: !ItemNamesWeight(item, v))
  {
    match item.styles {
      case None =>
        FinalWeightsSpec([]);
      case Some(styles) =>
        var ws := BunnyStyles(styles).weights;
        BunnyStylesItalic(styles);
        BunnyStylesWeights(styles);
        FinalWeightsSpec(ws);
        if ws != [] {
          assert ItemNamesWeight(item, ws[0]);
        }
    }
  }

  /** The `forEach` over `Object.keys(item.styles)`. */
  method ParseBunnyStyles(styles: seq<string>) returns (weights: seq<int>, hasItalic: bool)
    ensures Parsed(weights, hasItalic) == BunnyStyles(styles)
  {
    weights, hasItalic := [], false;
    for i := 0 to |styles|
      invariant Parsed(weights, hasItalic) == BunnyStyles(styles[..i])
    {
      var style := styles[i];
      if Includes(style, "italic") {
        hasItalic := true;
      }
      var weight := ParseInt(ReplaceFirst(style, "italic", ""));
      if weight.Some? && weight.value !in weights {
        weights := weights + [weight.value];
      }
      assert styles[..i + 1][..i] == styles[..i];
    }
    assert styles[..|styles|] == styles;
  }

  /** `transformBunnyApiResponse`: the entries mapped in order, then sorted
      by name. */
  method TransformBunnyApiResponse(entries: seq<(string, BunnyItem)>) returns (catalog: Catalog)
    ensures catalog == BunnyCatalog(entries)
  {
    var fonts: seq<CatalogFont> := [];
    for index := 0 to |entries|
      invariant |fonts| == index
      invariant forall i :: 0 <= i < index ==> fonts[i] == BunnyFont(entries[i].0, entries[i].1, i)
    {
      var (id, item) := entries[index];
      var weights: seq<int>, hasItalic := [], false;
      if item.styles.Some? {
        weights, hasItalic := ParseBunnyStyles(item.styles.value);
      }
      ghost var parsed := weights;
      if |weights| == 0 {
        weights := weights + [400];
      }
      assert weights == if parsed == [] then [400] else parsed;
      var font := CatalogFont(
        id, item.familyName, item.familyName, CategoryOrDefault(item.category),
        SortedSet(weights, IntLess), hasItalic, index + 1);
      assert font == BunnyFont(id, item, index);
      fonts := fonts + [font];
    }
    assert fonts == BunnyFonts(entries);
    fonts := SortBy(fonts, FontName);
    catalog := Catalog(Some("1.0.0"), BUNNY, "Bunny Fonts", Some("https://fonts.bunny.net"), fonts);
  }
}
