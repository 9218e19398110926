/** The catalog side of the app: stylesheet URLs for catalog fonts, catalog
    search, the conversion of a catalog font into a collection font, the
    category list, and the in-memory catalog cache with the curated and full
    catalog loaders and the starter-font resolution built on it. Network
    answers are parameters of the loaders. */
module FontCatalog {
  import opened Wrappers
  import opened JsText
  import opened JsNumber
  import opened UriEncoding
  import opened Ordering
  import opened Seqs
  import opened Fonts
  import opened CatalogTransform

  const GOOGLE_CSS := "https://fonts.googleapis.com/css2?family="
  const BUNNY_CSS := "https://fonts.bunny.net/css2?family="
  const FONTSHARE_CSS := "https://api.fontshare.com/v2/css?f[]="
  const DISPLAY_SWAP := "&display=swap"

  predicate KnownSource(source: string) {
    source == GOOGLE || source == BUNNY || source == FONTSHARE
  }

  /** The css2 form shared by Google Fonts and Bunny Fonts. */
  function Css2Url(prefix: string, family: string, weights: seq<int>): string {
    prefix + EncodeURIComponent(family) + ":wght@" + WeightList(weights, ';') + DISPLAY_SWAP
  }

  function FontshareUrl(family: string, weights: seq<int>): string {
    FONTSHARE_CSS + Slug(family) + "@" + WeightList(weights, ',') + DISPLAY_SWAP
  }

  /** `buildStylesheetUrl`: the stylesheet URL of a catalog font, or the
      error an unknown source throws. */
  function BuildStylesheetUrl(font: CatalogFont, source: string): (r: Result<string, string>)
    ensures r.Success? <==> KnownSource(source)
    ensures r.Failure? ==> r.error == "Unknown source: " + source
  {
    if source == GOOGLE then Success(Css2Url(GOOGLE_CSS, font.family, font.weights))
    else if source == BUNNY then Success(Css2Url(BUNNY_CSS, font.family, font.weights))
    else if source == FONTSHARE then Success(FontshareUrl(font.family, font.weights))
    else Failure("Unknown source: " + source)
  }

  /** The part of `url` between `prefix` and the closing `&display=swap`. */
  function Between(url: string, prefix: string): Option<string> {
    if |url| < |prefix| + |DISPLAY_SWAP| || url[..|prefix|] != prefix
       || url[|url| - |DISPLAY_SWAP|..] != DISPLAY_SWAP
    then None
    else Some(url[|prefix|..|url| - |DISPLAY_SWAP|])
  }

  /** Reads the family and the weights back out of a css2 URL. */
  function ParseCss2Url(url: string, prefix: string): Option<(string, seq<int>)> {
    match Between(url, prefix)
    case None => None
    case Some(middle) =>
      var parts := Split(middle, ':');
      if |parts| != 2 || |parts[1]| < 5 || parts[1][..5] != "wght@" then None
      else match (DecodeURIComponent(parts[0]), ParseWeightList(parts[1][5..], ';'))
        case (Some(family), Some(weights)) => Some((family, weights))
        case _ => None
  }

  /** Reads the slug and the weights back out of a Fontshare URL. */
  function ParseFontshareUrl(url: string): Option<(string, seq<int>)> {
    match Between(url, FONTSHARE_CSS)
    case None => None
    case Some(middle) =>
      var parts := Split(middle, '@');
      if |parts| < 2 then None
      else match ParseWeightList(parts[|parts| - 1], ',')
        case None => None
        case Some(weights) => Some((Join(parts[..|parts| - 1], "@"), weights))
  }

  lemma {:induction false} BetweenOf(prefix: string, middle: string)
    ensures Between(prefix + middle + DISPLAY_SWAP, prefix) == Some(middle)
  {
    var url := prefix + middle + DISPLAY_SWAP;
    assert url[..|prefix|] == prefix;
    assert url[|url| - |DISPLAY_SWAP|..] == DISPLAY_SWAP;
    assert url[|prefix|..|url| - |DISPLAY_SWAP|] == middle;
  }

  /** A css2 URL gives back the family and the weights it was built from. */
  lemma {:induction false} Css2UrlRoundTrip(prefix: string, family: string, weights: seq<int>)
    requires |weights| >= 1
    ensures ParseCss2Url(Css2Url(prefix, family, weights), prefix) == Some((family, weights))
  {
    var enc := EncodeURIComponent(family);
    var wl := WeightList(weights, ';');
    var tail := "wght@" + wl;
    var middle := enc + [':'] + tail;
    Css2UrlShape(prefix, enc, wl);
    Css2Pieces(family, weights);
    WghtTail(wl);
    EncodeDecodeRoundTrip(family);
    WeightListRoundTrip(weights, ';');
    ParseCss2UrlOf(prefix, middle, enc, tail, family, weights);
  }

  /** With no weights the css2 URL ends in "wght@&display=swap", and the
      empty weight part is not read back as a list. */
  lemma {:induction false} Css2UrlNoWeights(prefix: string, family: string)
    ensures Css2Url(prefix, family, []) == prefix + EncodeURIComponent(family) + ":wght@" + DISPLAY_SWAP
    ensures ParseCss2Url(Css2Url(prefix, family, []), prefix) == None
  {
    var enc := EncodeURIComponent(family);
    var tail := "wght@";
    NoWeightsUrl(prefix, family);
    Css2Pieces(family, []);
    NoWeightsPieces(enc);
    EmptyWeightPart();
    ParseCss2UrlNone(prefix, enc + [':'] + tail, enc, tail);
  }

  lemma NoWeightsUrl(prefix: string, family: string)
    ensures Css2Url(prefix, family, []) == prefix + EncodeURIComponent(family) + ":wght@" + DISPLAY_SWAP
    ensures Css2Url(prefix, family, []) == prefix + (EncodeURIComponent(family) + [':'] + "wght@") + DISPLAY_SWAP
  {
    assert WeightList([], ';') == "";
    assert ":wght@" == [':'] + "wght@";
  }

  lemma NoWeightsPieces(enc: string)
    ensures "wght@" + WeightList([], ';') == "wght@"
    ensures enc + [':'] + ("wght@" + WeightList([], ';')) == enc + [':'] + "wght@"
    ensures |"wght@"| == 5 && "wght@"[..5] == "wght@" && "wght@"[5..] == ""
  {
    assert WeightList([], ';') == "";
  }

  lemma EmptyWeightPart()
    ensures ParseWeightList("", ';') == None
  {
    assert Split("", ';') == [""];
  }

  lemma {:induction false} ParseCss2UrlNone(prefix: string, middle: string, enc: string, tail: string)
    requires Split(middle, ':') == [enc, tail]
    requires |tail| >= 5 && tail[..5] == "wght@"
    requires ParseWeightList(tail[5..], ';') == None
    ensures ParseCss2Url(prefix + middle + DISPLAY_SWAP, prefix) == None
  {
    BetweenOf(prefix, middle);
  }

  lemma Css2UrlShape(prefix: string, enc: string, wl: string)
    ensures prefix + enc + ":wght@" + wl + DISPLAY_SWAP == prefix + (enc + [':'] + ("wght@" + wl)) + DISPLAY_SWAP
  {
    assert ":wght@" == [':'] + "wght@";
  }

  lemma WghtTail(wl: string)
    ensures |"wght@" + wl| >= 5 && ("wght@" + wl)[..5] == "wght@" && ("wght@" + wl)[5..] == wl
  {
  }

  lemma {:induction false} ParseCss2UrlOf(prefix: string, middle: string, enc: string, tail: string,
                                          family: string, weights: seq<int>)
    requires Split(middle, ':') == [enc, tail]
    requires |tail| >= 5 && tail[..5] == "wght@"
    requires DecodeURIComponent(enc) == Some(family)
    requires ParseWeightList(tail[5..], ';') == Some(weights)
    ensures ParseCss2Url(prefix + middle + DISPLAY_SWAP, prefix) == Some((family, weights))
  {
    BetweenOf(prefix, middle);
  }

  /** The encoded family and the weight part of a css2 URL hold no colon. */
  lemma {:induction false} Css2Pieces(family: string, weights: seq<int>)
    ensures var enc, tail := EncodeURIComponent(family), "wght@" + WeightList(weights, ';');
      Split(enc + [':'] + tail, ':') == [enc, tail]
  {
    var enc := EncodeURIComponent(family);
    var wl := WeightList(weights, ';');
    var tail := "wght@" + wl;
    SplitAround(enc, tail, ':');
    assert ':' !in enc;
    SplitWithoutSeparator(enc, ':');
    WeightListChars(weights, ';');
    assert ':' !in tail by {
      forall k | 0 <= k < |tail| ensures tail[k] != ':' {
        if k >= 5 {
          assert tail[k] == wl[k - 5];
        }
      }
    }
    SplitWithoutSeparator(tail, ':');
  }

  /** A Fontshare URL gives back the slug of the family and the weights. */
  lemma {:induction false} FontshareUrlRoundTrip(family: string, weights: seq<int>)
    requires |weights| >= 1
    ensures ParseFontshareUrl(FontshareUrl(family, weights)) == Some((Slug(family), weights))
  {
    var slug := Slug(family);
    var wl := WeightList(weights, ',');
    assert FontshareUrl(family, weights) == FONTSHARE_CSS + (slug + ['@'] + wl) + DISPLAY_SWAP;
    BetweenOf(FONTSHARE_CSS, slug + ['@'] + wl);
    SplitAround(slug, wl, '@');
    WeightListChars(weights, ',');
    assert '@' !in wl;
    SplitWithoutSeparator(wl, '@');
    var parts := Split(slug, '@') + [wl];
    assert parts[..|parts| - 1] == Split(slug, '@');
    JoinSplit(slug, '@');
    WeightListRoundTrip(weights, ',');
  }

  /** Every URL `BuildStylesheetUrl` makes names the font's family (or its
      slug, for Fontshare) and exactly its weights. */
  lemma {:induction false} StylesheetUrlRoundTrip(font: CatalogFont, source: string)
    requires |font.weights| >= 1
    ensures source == GOOGLE ==>
      ParseCss2Url(BuildStylesheetUrl(font, source).value, GOOGLE_CSS) == Some((font.family, font.weights))
    ensures source == BUNNY ==>
      ParseCss2Url(BuildStylesheetUrl(font, source).value, BUNNY_CSS) == Some((font.family, font.weights))
    ensures source == FONTSHARE ==>
      ParseFontshareUrl(BuildStylesheetUrl(font, source).value) == Some((Slug(font.family), font.weights))
  {
    Css2UrlRoundTrip(GOOGLE_CSS, font.family, font.weights);
    Css2UrlRoundTrip(BUNNY_CSS, font.family, font.weights);
    FontshareUrlRoundTrip(font.family, font.weights);
  }

  /** The category filter is off for a missing or empty category and for
      `all`. */
  predicate CategoryFilterOff(category: Option<string>) {
    category.None? || category.value == "" || category.value == "all"
  }

  /** `searchCatalog`: the query filter, then the category filter. */
  function SearchCatalog(catalog: Catalog, query: string, category: Option<string>): seq<CatalogFont> {
    var byQuery := if query != "" then Filter(catalog.fonts, QueryFilter(query)) else catalog.fonts;
    if CategoryFilterOff(category) then byQuery else Filter(byQuery, CategoryFilter(category.value))
  }

  function QueryFilter(query: string): CatalogFont -> bool {
    (f: CatalogFont) => MatchesQuery(f.name, f.family, query)
  }

  function CategoryFilter(category: string): CatalogFont -> bool {
    (f: CatalogFont) => f.category == category
  }

  /** What a font must satisfy to be found. */
  predicate SearchHit(f: CatalogFont, query: string, category: Option<string>) {
    && (query == "" || MatchesQuery(f.name, f.family, query))
    && (CategoryFilterOff(category) || f.category == category.value)
  }

  /** The search keeps, in catalog order and as often as they occur, exactly
      the fonts that match both the query and the category; with neither it
      returns the whole catalog. */
  lemma {:induction false} SearchCatalogSpec(catalog: Catalog, query: string, category: Option<string>)
    ensures IsSubsequence(SearchCatalog(catalog, query, category), catalog.fonts)
    ensures forall x :: (multiset(SearchCatalog(catalog, query, category))[x] ==
                         if SearchHit(x, query, category) then multiset(catalog.fonts)[x] else 0)
    ensures query == "" && CategoryFilterOff(category) ==> SearchCatalog(catalog, query, category) == catalog.fonts
  {
    var fonts := catalog.fonts;
    var hit := (f: CatalogFont) => SearchHit(f, query, category);
    SearchCatalogFilter(catalog, query, category);
    if query == "" && CategoryFilterOff(category) {
      FilterAll(fonts, hit);
    }
    FilterIsSubsequence(fonts, hit);
    forall x ensures multiset(Filter(fonts, hit))[x] == if hit(x) then multiset(fonts)[x] else 0 {
      FilterCount(fonts, hit, x);
    }
  }

  /** The two filters of the search are one filter by `SearchHit`. */
  lemma {:induction false} SearchCatalogFilter(catalog: Catalog, query: string, category: Option<string>)
    ensures SearchCatalog(catalog, query, category) == Filter(catalog.fonts, (f: CatalogFont) => SearchHit(f, query, category))
  {
    var fonts := catalog.fonts;
    var hit := (f: CatalogFont) => SearchHit(f, query, category);
    if query != "" && !CategoryFilterOff(category) {
      SearchBoth(fonts, query, category.value);
    } else if query != "" {
      FilterSame(fonts, QueryFilter(query), hit);
    } else if !CategoryFilterOff(category) {
      FilterSame(fonts, CategoryFilter(category.value), hit);
    } else {
      FilterAll(fonts, hit);
    }
  }

  lemma {:induction false} SearchBoth(fonts: seq<CatalogFont>, query: string, category: string)
    requires query != "" && category != "" && category != "all"
    ensures Filter(Filter(fonts, QueryFilter(query)), CategoryFilter(category))
         == Filter(fonts, (f: CatalogFont) => SearchHit(f, query, Some(category)))
  {
    FilterFilter(fonts, QueryFilter(query), CategoryFilter(category), (f: CatalogFont) => SearchHit(f, query, Some(category)));
  }

  /** `catalogFontToAppFont`: a collection font built from a catalog font, or
      the error `buildStylesheetUrl` throws. */
  function CatalogFontToAppFont(cf: CatalogFont, source: string, now: string): Result<AppFont, string> {
    match BuildStylesheetUrl(cf, source)
    case Failure(e) => Failure(e)
    case Success(url) =>
      Success(AppFont(source + "-" + cf.id, cf.name, cf.family, source, Some(url), None,
                      cf.weights, cf.hasItalic, cf.category, Some(false), now))
  }

  /** The collection font's id splits back into its source and the catalog
      id, its URL names the catalog font's family and weights, and it starts
      out not a favourite; only an unknown source fails. */
  lemma {:induction false} CatalogFontToAppFontSpec(cf: CatalogFont, source: string, now: string)
    ensures CatalogFontToAppFont(cf, source, now).Success? <==> KnownSource(source)
    ensures !KnownSource(source) ==> CatalogFontToAppFont(cf, source, now) == Failure("Unknown source: " + source)
    ensures KnownSource(source) ==>
      var a := CatalogFontToAppFont(cf, source, now).value;
      && a.id[..|source| + 1] == source + "-" && a.id[|source| + 1..] == cf.id
      && a.source == source && a.favorite == Some(false) && a.dateAdded == now
      && a.name == cf.name && a.family == cf.family && a.weights == cf.weights
      && a.hasItalic == cf.hasItalic && a.category == cf.category
      && a.url == Some(BuildStylesheetUrl(cf, source).value)
    ensures (source == GOOGLE || source == BUNNY) && |cf.weights| >= 1 ==>
      ParseCss2Url(CatalogFontToAppFont(cf, source, now).value.url.value, if source == GOOGLE then GOOGLE_CSS else BUNNY_CSS)
        == Some((cf.family, cf.weights))
  {
    if KnownSource(source) {
      var id := source + "-" + cf.id;
      assert id[..|source| + 1] == source + "-";
      assert id[|source| + 1..] == cf.id;
    }
    if |cf.weights| >= 1 {
      StylesheetUrlRoundTrip(cf, source);
    }
  }

  /** `getCatalogCategories`: the distinct categories in sorted order, none
      without a catalog. */
  function GetCatalogCategories(catalog: Option<Catalog>): seq<string> {
    match catalog
    case None => []
    case Some(c) => SortedSet(Categories(c.fonts), LexLess)
  }

  /** `fonts.map(f => f.category)`. */
  function Categories(fonts: seq<CatalogFont>): (cs: seq<string>)
    ensures |cs| == |fonts| && forall i :: 0 <= i < |fonts| ==> cs[i] == fonts[i].category
  {
    seq(|fonts|, i requires 0 <= i < |fonts| => fonts[i].category)
  }

  lemma {:induction false} GetCatalogCategoriesSpec(catalog: Option<Catalog>)
    ensures StrictlyIncreasing(GetCatalogCategories(catalog), LexLess)
    ensures forall y :: y in GetCatalogCategories(catalog) <==>
      catalog.Some? && exists i :: 0 <= i < |catalog.value.fonts| && catalog.value.fonts[i].category == y
  {
    if catalog.Some? {
      var fs := catalog.value.fonts;
      var cs := Categories(fs);
      LexLessIsStrictTotalOrder();
      SortedSetSpec(cs, LexLess);
      forall y ensures y in cs <==> exists i :: 0 <= i < |fs| && fs[i].category == y {
        if y in cs {
          var i :| 0 <= i < |cs| && cs[i] == y;
          assert fs[i].category == y;
        }
        if exists i :: 0 <= i < |fs| && fs[i].category == y {
          var i :| 0 <= i < |fs| && fs[i].category == y;
          assert cs[i] == y;
        }
      }
    }
  }

  /** An entry of the starter configuration; `favorite` is None where unset. */
  datatype StarterEntry = StarterEntry(id: string, source: string, favorite: Option<bool>)

  /** The test `f.id === id` the catalog lookups search with. */
  function IdIs(id: string): CatalogFont -> bool {
    (f: CatalogFont) => f.id == id
  }

  predicate Resolves(e: StarterEntry, catalogs: map<string, Catalog>) {
    e.source in catalogs && Find(catalogs[e.source].fonts, IdIs(e.id)).Some?
  }

  /** The collection font one starter entry yields, if its catalog lists it. */
  function StarterFont(e: StarterEntry, catalogs: map<string, Catalog>, now: string): Option<AppFont> {
    if e.source !in catalogs then None
    else match Find(catalogs[e.source].fonts, IdIs(e.id))
      case None => None
      case Some(cf) =>
        match CatalogFontToAppFont(cf, e.source, now)
        case Failure(_) => None
        case Success(a) => Some(a.(favorite := Some(e.favorite.GetOr(false))))
  }

  /** The loop of `getStarterFonts` over the configuration entries. */
  function StarterFonts(entries: seq<StarterEntry>, catalogs: map<string, Catalog>, now: string): seq<AppFont>
    decreases |entries|
  {
    if entries == [] then []
    else
      var prev := StarterFonts(entries[..|entries| - 1], catalogs, now);
      match StarterFont(entries[|entries| - 1], catalogs, now)
      case None => prev
      case Some(a) => prev + [a]
  }

  /** One more entry adds the font it yields, if any. */
  lemma StarterFontsStep(entries: seq<StarterEntry>, i: nat, catalogs: map<string, Catalog>, now: string)
    requires i < |entries|
    ensures var prev := StarterFonts(entries[..i], catalogs, now);
      StarterFonts(entries[..i + 1], catalogs, now) ==
        match StarterFont(entries[i], catalogs, now)
        case None => prev
        case Some(a) => prev + [a]
  {
    assert entries[..i + 1][..i] == entries[..i];
  }

  /** A starter entry yields a font exactly when its catalog lists its id;
      the font carries the entry's source, id and favourite flag and the
      listed font's family and weights. */
  lemma {:induction false} StarterFontSpec(e: StarterEntry, catalogs: map<string, Catalog>, now: string)
    requires forall s :: s in catalogs ==> KnownSource(s)
    ensures StarterFont(e, catalogs, now).Some? <==> Resolves(e, catalogs)
    ensures StarterFont(e, catalogs, now).Some? ==>
      var a := StarterFont(e, catalogs, now).value;
      && a.id == e.source + "-" + e.id && a.source == e.source
      && a.favorite == Some(e.favorite.GetOr(false))
      && exists cf :: cf in catalogs[e.source].fonts && cf.id == e.id && a.family == cf.family && a.weights == cf.weights
  {
    if Resolves(e, catalogs) {
      var cf := Find(catalogs[e.source].fonts, IdIs(e.id)).value;
      CatalogFontToAppFontSpec(cf, e.source, now);
    }
  }

  /** The entries whose catalog lists their id. */
  function ResolvesIn(catalogs: map<string, Catalog>): StarterEntry -> bool {
    (e: StarterEntry) => Resolves(e, catalogs)
  }

  /** One font per entry that resolves, in configuration order: the k-th
      font is the one the k-th resolving entry yields. */
  lemma StarterFontsSpec(entries: seq<StarterEntry>, catalogs: map<string, Catalog>, now: string)
    requires forall s :: s in catalogs ==> KnownSource(s)
    ensures |StarterFonts(entries, catalogs, now)| == |Filter(entries, ResolvesIn(catalogs))|
    ensures forall k :: 0 <= k < |StarterFonts(entries, catalogs, now)| ==>
      StarterFont(Filter(entries, ResolvesIn(catalogs))[k], catalogs, now) == Some(StarterFonts(entries, catalogs, now)[k])
    ensures forall i :: 0 <= i < |StarterFonts(entries, catalogs, now)| ==>
      exists j :: 0 <= j < |entries| && StarterFont(entries[j], catalogs, now) == Some(StarterFonts(entries, catalogs, now)[i])
  {
    StarterFontsCount(entries, catalogs, now);
    StarterFontsOrder(entries, catalogs, now);
    StarterFontsFrom(entries, catalogs, now);
  }

  lemma {:induction false} StarterFontsOrder(entries: seq<StarterEntry>, catalogs: map<string, Catalog>, now: string)
    requires forall s :: s in catalogs ==> KnownSource(s)
    ensures |StarterFonts(entries, catalogs, now)| == |Filter(entries, ResolvesIn(catalogs))|
    ensures forall k :: 0 <= k < |StarterFonts(entries, catalogs, now)| ==>
      StarterFont(Filter(entries, ResolvesIn(catalogs))[k], catalogs, now) == Some(StarterFonts(entries, catalogs, now)[k])
    decreases |entries|
  {
    if entries == [] {
      assert StarterFonts(entries, catalogs, now) == [];
    } else {
      var init, last := entries[..|entries| - 1], entries[|entries| - 1];
      var r := StarterFonts(entries, catalogs, now);
      var prev := StarterFonts(init, catalogs, now);
      StarterFontsOrder(init, catalogs, now);
      StarterFontSpec(last, catalogs, now);
      assert init + [last] == entries;
      FilterAppend(init, last, ResolvesIn(catalogs));
      var fs := Filter(entries, ResolvesIn(catalogs));
      var fp := Filter(init, ResolvesIn(catalogs));
      var y := StarterFont(last, catalogs, now);
      assert r == if y.Some? then prev + [y.value] else prev;
      assert fs == if ResolvesIn(catalogs)(last) then fp + [last] else fp;
      forall k | 0 <= k < |r|
        ensures StarterFont(fs[k], catalogs, now) == Some(r[k])
      {
        if k < |prev| {
          assert r[k] == prev[k] && fs[k] == fp[k];
        }
      }
    }
  }

  lemma {:induction false} StarterFontsCount(entries: seq<StarterEntry>, catalogs: map<string, Catalog>, now: string)
    requires forall s :: s in catalogs ==> KnownSource(s)
    ensures |StarterFonts(entries, catalogs, now)| == |Filter(entries, ResolvesIn(catalogs))|
    decreases |entries|
  {
    if entries != [] {
      var init, last := entries[..|entries| - 1], entries[|entries| - 1];
      StarterFontsCount(init, catalogs, now);
      StarterFontSpec(last, catalogs, now);
      assert init + [last] == entries;
      FilterAppend(init, last, ResolvesIn(catalogs));
    }
  }

  lemma {:induction false} StarterFontsFrom(entries: seq<StarterEntry>, catalogs: map<string, Catalog>, now: string)
    ensures forall i :: 0 <= i < |StarterFonts(entries, catalogs, now)| ==>
      exists j :: 0 <= j < |entries| && StarterFont(entries[j], catalogs, now) == Some(StarterFonts(entries, catalogs, now)[i])
    decreases |entries|
  {
    if entries != [] {
      var init, last := entries[..|entries| - 1], entries[|entries| - 1];
      var r := StarterFonts(entries, catalogs, now);
      var prev := StarterFonts(init, catalogs, now);
      StarterFontsFrom(init, catalogs, now);
      var y := StarterFont(last, catalogs, now);
      assert r == if y.Some? then prev + [y.value] else prev;
      forall i | 0 <= i < |r|
        ensures exists j :: 0 <= j < |entries| && StarterFont(entries[j], catalogs, now) == Some(r[i])
      {
        if i < |prev| {
          assert r[i] == prev[i];
          var j :| 0 <= j < |init| && StarterFont(init[j], catalogs, now) == Some(prev[i]);
          assert entries[j] == init[j];
        } else {
          assert StarterFont(entries[|entries| - 1], catalogs, now) == Some(r[i]);
        }
      }
    } else {
      assert StarterFonts(entries, catalogs, now) == [];
    }
  }

  /** An answer from the network: a body, an HTTP error status, or a thrown
      error (a failed request or a body that does not parse) with its
      message. */
  datatype Response<T> = Ok(body: T) | HttpError(status: int) | Thrown(message: string)

  const KEY_REQUIRED := "Google Fonts API key required. Get one at https://console.cloud.google.com/apis/credentials"
  const INVALID_KEY := "Invalid API key. Check your Google Cloud Console settings."
  const GOOGLE_FAILED := "Failed to fetch Google Fonts catalog"
  const BUNNY_FAILED := "Failed to fetch Bunny Fonts catalog"
  const BUNNY_LIST := "https://fonts.bunny.net/list"
  const FULL_GOOGLE := "fullGoogle"
  const FULL_BUNNY := "fullBunny"

  function GoogleApiUrl(apiKey: string): string {
    "https://www.googleapis.com/webfonts/v1/webfonts?key=" + apiKey + "&sort=popularity"
  }

  function CuratedPath(source: string): string {
    "data/catalogs/" + source + "-curated.json"
  }

  /** The cache key of a full catalog: `full` and the source with its first
      letter upper-cased. */
  function FullKey(source: string): string {
    "full" + (if source == [] then [] else [UpperChar(source[0])] + source[1..])
  }

  /** The placeholder `loadCuratedCatalog` returns when loading fails. */
  function EmptyCatalog(source: string): Catalog {
    Catalog(None, source, source, None, [])
  }

  /** What a loader returns, the URL or path it requests (None when it
      requests nothing) and the cache afterwards. */
  datatype Load<T> = Load(result: T, request: Option<string>, cache: map<string, Catalog>)

  /** `loadCuratedCatalog`, where `fetched` is the parsed file or None when
      the request or the parse fails. */
  function CuratedLoad(cache: map<string, Catalog>, source: string, fetched: Option<Catalog>): Load<Catalog> {
    if source in cache then Load(cache[source], None, cache)
    else match fetched
      case Some(c) => Load(c, Some(CuratedPath(source)), cache[source := c])
      case None => Load(EmptyCatalog(source), Some(CuratedPath(source)), cache)
  }

  /** `fetchGoogleFullCatalog`, where `google` is what the endpoint answers. */
  function GoogleFullLoad(cache: map<string, Catalog>, apiKey: string, google: Response<seq<GoogleItem>>)
    : Load<Result<Catalog, string>>
  {
    if apiKey == "" then Load(Failure(KEY_REQUIRED), None, cache)
    else
      var request := Some(GoogleApiUrl(apiKey));
      match google
      case Ok(items) =>
        var c := GoogleCatalog(items);
        Load(Success(c), request, cache[FULL_GOOGLE := c])
      case HttpError(status) =>
        Load(Failure(if status == 403 then INVALID_KEY else GOOGLE_FAILED), request, cache)
      case Thrown(message) => Load(Failure(message), request, cache)
  }

  /** `fetchBunnyFullCatalog`, where `bunny` is what the endpoint answers. */
  function BunnyFullLoad(cache: map<string, Catalog>, bunny: Response<seq<(string, BunnyItem)>>)
    : Load<Result<Catalog, string>>
  {
    var request := Some(BUNNY_LIST);
    match bunny
    case Ok(entries) =>
      var c := BunnyCatalog(entries);
      Load(Success(c), request, cache[FULL_BUNNY := c])
    case HttpError(_) => Load(Failure(BUNNY_FAILED), request, cache)
    case Thrown(message) => Load(Failure(message), request, cache)
  }

  /** `fetchFullCatalog`: the cached catalog, else the Google or Bunny
      helper, else the error for any other source. */
  function FullLoad(cache: map<string, Catalog>, source: string, apiKey: string,
                    google: Response<seq<GoogleItem>>, bunny: Response<seq<(string, BunnyItem)>>)
    : Load<Result<Catalog, string>>
  {
    var key := FullKey(source);
    if key in cache then Load(Success(cache[key]), None, cache)
    else if source == GOOGLE then GoogleFullLoad(cache, apiKey, google)
    else if source == BUNNY then BunnyFullLoad(cache, bunny)
    else Load(Failure("Full catalog not available for source: " + source), None, cache)
  }

  /** A curated catalog, once loaded, is served from the cache without a
      request whatever the network would answer; a failed load caches
      nothing and returns the empty placeholder. */
  lemma {:induction false} CuratedLoadSpec(cache: map<string, Catalog>, source: string,
                                           fetched: Option<Catalog>, again: Option<Catalog>)
    ensures var first := CuratedLoad(cache, source, fetched);
      source in first.cache ==>
        CuratedLoad(first.cache, source, again) == Load(first.result, None, first.cache)
    ensures source !in cache && fetched.None? ==>
      CuratedLoad(cache, source, fetched) == Load(EmptyCatalog(source), Some(CuratedPath(source)), cache)
    ensures CuratedLoad(cache, source, fetched).request.Some? <==> source !in cache
  {
  }

  /** A cached full catalog is returned with no request; a failure leaves the
      cache alone; a success is stored under the key `isFullCatalogLoaded`
      consults, so the next call is served from the cache. */
  lemma {:induction false} FullLoadSpec(cache: map<string, Catalog>, source: string, apiKey: string,
                                        google: Response<seq<GoogleItem>>, bunny: Response<seq<(string, BunnyItem)>>)
    ensures var o := FullLoad(cache, source, apiKey, google, bunny);
      FullKey(source) in cache ==> o == Load(Success(cache[FullKey(source)]), None, cache)
    ensures var o := FullLoad(cache, source, apiKey, google, bunny);
      o.result.Failure? ==> o.cache == cache
    ensures var o := FullLoad(cache, source, apiKey, google, bunny);
      o.result.Success? ==> o.cache == cache[FullKey(source) := o.result.value]
    ensures var o := FullLoad(cache, source, apiKey, google, bunny);
      o.request.Some? <==> FullKey(source) !in cache && ((source == GOOGLE && apiKey != "") || source == BUNNY)
    ensures FullKey(source) !in cache && !(source == GOOGLE || source == BUNNY) ==>
      FullLoad(cache, source, apiKey, google, bunny).result == Failure("Full catalog not available for source: " + source)
  {
    FullKeys();
    if FullKey(source) !in cache {
      if source == GOOGLE {
        GoogleFullLoadSpec(cache, apiKey, google);
      } else if source == BUNNY {
        BunnyFullLoadSpec(cache, bunny);
      }
    }
  }

  /** The Google helper requests exactly when given a key, and caches what it
      returns under `fullGoogle` and nothing when it fails. */
  lemma GoogleFullLoadSpec(cache: map<string, Catalog>, apiKey: string, google: Response<seq<GoogleItem>>)
    ensures var o := GoogleFullLoad(cache, apiKey, google);
      && (o.result.Failure? ==> o.cache == cache)
      && (o.result.Success? ==> o.cache == cache[FULL_GOOGLE := o.result.value])
      && (o.request.Some? <==> apiKey != "")
  {
  }

  /** The Google helper's answers: the key error before any request, the
      catalog on success, a distinct error for a refused key (HTTP 403),
      the generic one for any other status, and a thrown error's message. */
  lemma GoogleFullLoadResults(cache: map<string, Catalog>, apiKey: string, google: Response<seq<GoogleItem>>)
    ensures apiKey == "" ==> GoogleFullLoad(cache, apiKey, google).result == Failure(KEY_REQUIRED)
    ensures apiKey != "" && google.Ok? ==>
      GoogleFullLoad(cache, apiKey, google).result == Success(GoogleCatalog(google.body))
    ensures apiKey != "" && google == HttpError(403) ==>
      GoogleFullLoad(cache, apiKey, google).result == Failure(INVALID_KEY)
    ensures apiKey != "" && google.HttpError? && google.status != 403 ==>
      GoogleFullLoad(cache, apiKey, google).result == Failure(GOOGLE_FAILED)
    ensures apiKey != "" && google.Thrown? ==>
      GoogleFullLoad(cache, apiKey, google).result == Failure(google.message)
  {
    GoogleErrorsDistinct();
  }

  /** The three Google errors are told apart by their messages. */
  lemma GoogleErrorsDistinct()
    ensures INVALID_KEY != GOOGLE_FAILED && KEY_REQUIRED != INVALID_KEY && KEY_REQUIRED != GOOGLE_FAILED
  {
  }

  /** The Bunny helper always requests, and caches what it returns under
      `fullBunny` and nothing when it fails. */
  lemma BunnyFullLoadSpec(cache: map<string, Catalog>, bunny: Response<seq<(string, BunnyItem)>>)
    ensures var o := BunnyFullLoad(cache, bunny);
      && (o.result.Failure? ==> o.cache == cache)
      && (o.result.Success? ==> o.cache == cache[FULL_BUNNY := o.result.value])
      && o.request.Some?
    ensures bunny.Ok? ==> BunnyFullLoad(cache, bunny).result == Success(BunnyCatalog(bunny.body))
    ensures bunny.HttpError? ==> BunnyFullLoad(cache, bunny).result == Failure(BUNNY_FAILED)
    ensures bunny.Thrown? ==> BunnyFullLoad(cache, bunny).result == Failure(bunny.message)
  {
  }

  /** An uncached Google or Bunny load is that source's helper, so a missing
      key, a refused key and any other failed status give their own errors. */
  lemma FullLoadErrors(cache: map<string, Catalog>, source: string, apiKey: string,
                       google: Response<seq<GoogleItem>>, bunny: Response<seq<(string, BunnyItem)>>)
    ensures FullKey(source) !in cache && source == GOOGLE ==>
      FullLoad(cache, source, apiKey, google, bunny) == GoogleFullLoad(cache, apiKey, google)
    ensures FullKey(source) !in cache && source == BUNNY ==>
      FullLoad(cache, source, apiKey, google, bunny) == BunnyFullLoad(cache, bunny)
    ensures FullKey(source) !in cache && source == GOOGLE && apiKey == "" ==>
      FullLoad(cache, source, apiKey, google, bunny).result == Failure(KEY_REQUIRED)
    ensures FullKey(source) !in cache && source == GOOGLE && apiKey != "" && google == HttpError(403) ==>
      FullLoad(cache, source, apiKey, google, bunny).result == Failure(INVALID_KEY)
    ensures FullKey(source) !in cache && source == GOOGLE && apiKey != "" && google.HttpError? && google.status != 403 ==>
      FullLoad(cache, source, apiKey, google, bunny).result == Failure(GOOGLE_FAILED)
  {
    if FullKey(source) !in cache && source == GOOGLE {
      GoogleFullLoadResults(cache, apiKey, google);
    }
  }

  /** The keys the Google and Bunny helpers store under are the keys
      `fetchFullCatalog` and `isFullCatalogLoaded` compute. */
  lemma FullKeys()
    ensures FullKey(GOOGLE) == FULL_GOOGLE && FullKey(BUNNY) == FULL_BUNNY
  {
    assert FullKey(GOOGLE) == "full" + "Google";
    assert FullKey(BUNNY) == "full" + "Bunny";
  }

  /** After a successful full load the next call is served from the cache,
      whatever the network would answer. */
  lemma {:induction false} FullLoadCached(cache: map<string, Catalog>, source: string, apiKey: string,
                                          google: Response<seq<GoogleItem>>, bunny: Response<seq<(string, BunnyItem)>>,
                                          google2: Response<seq<GoogleItem>>, bunny2: Response<seq<(string, BunnyItem)>>)
    ensures var o := FullLoad(cache, source, apiKey, google, bunny);
      o.result.Success? ==>
        FullLoad(o.cache, source, apiKey, google2, bunny2) == Load(o.result, None, o.cache)
  {
    FullLoadSpec(cache, source, apiKey, google, bunny);
  }

  /** The module-level catalog cache, keyed as the JavaScript object is
      (`google`, `bunny`, `fontshare`, `fullGoogle`, `fullBunny`); an absent
      key stands for a null entry. */
  class CatalogStore {
    var cache: map<string, Catalog>

    constructor()
      ensures cache == map[]
    {
      cache := map[];
    }

    method LoadCuratedCatalog(source: string, fetched: Option<Catalog>) returns (catalog: Catalog, request: Option<string>)
      modifies this
      ensures Load(catalog, request, cache) == CuratedLoad(old(cache), source, fetched)
    {
      if source in cache {
        return cache[source], None;
      }
      request := Some(CuratedPath(source));
      match fetched {
        case Some(c) =>
          cache := cache[source := c];
          catalog := c;
        case None =>
          catalog := EmptyCatalog(source);
      }
    }

    method FetchFullCatalog(source: string, apiKey: string,
                            google: Response<seq<GoogleItem>>, bunny: Response<seq<(string, BunnyItem)>>)
      returns (result: Result<Catalog, string>, request: Option<string>)
      modifies this
      ensures Load(result, request, cache) == FullLoad(old(cache), source, apiKey, google, bunny)
    {
      var key := FullKey(source);
      if key in cache {
        return Success(cache[key]), None;
      }
      if source == GOOGLE {
        result, request := FetchGoogleFullCatalog(apiKey, google);
      } else if source == BUNNY {
        result, request := FetchBunnyFullCatalog(bunny);
      } else {
        result, request := Failure("Full catalog not available for source: " + source), None;
      }
    }

    method FetchGoogleFullCatalog(apiKey: string, google: Response<seq<GoogleItem>>)
      returns (result: Result<Catalog, string>, request: Option<string>)
      modifies this
      ensures Load(result, request, cache) == GoogleFullLoad(old(cache), apiKey, google)
    {
      if apiKey == "" {
        return Failure(KEY_REQUIRED), None;
      }
      request := Some(GoogleApiUrl(apiKey));
      match google {
        case Ok(items) =>
          var c := TransformGoogleApiResponse(items);
          cache := cache[FULL_GOOGLE := c];
          result := Success(c);
        case HttpError(status) =>
          result := Failure(if status == 403 then INVALID_KEY else GOOGLE_FAILED);
        case Thrown(message) =>
          result := Failure(message);
      }
    }

    method FetchBunnyFullCatalog(bunny: Response<seq<(string, BunnyItem)>>)
      returns (result: Result<Catalog, string>, request: Option<string>)
      modifies this
      ensures Load(result, request, cache) == BunnyFullLoad(old(cache), bunny)
    {
      request := Some(BUNNY_LIST);
      match bunny {
        case Ok(entries) =>
          var c := TransformBunnyApiResponse(entries);
          cache := cache[FULL_BUNNY := c];
          result := Success(c);
        case HttpError(_) =>
          result := Failure(BUNNY_FAILED);
        case Thrown(message) =>
          result := Failure(message);
      }
    }

    /** `getStarterFonts`: `config` is the parsed starter configuration (None
        when loading it fails), the three `fetched` values are the curated
        catalog files. */
    method GetStarterFonts(config: Option<seq<StarterEntry>>, googleFetched: Option<Catalog>,
                           bunnyFetched: Option<Catalog>, fontshareFetched: Option<Catalog>, now: string)
      returns (fonts: seq<AppFont>)
      modifies this
      ensures var g := CuratedLoad(old(cache), GOOGLE, googleFetched);
        var b := CuratedLoad(g.cache, BUNNY, bunnyFetched);
        var f := CuratedLoad(b.cache, FONTSHARE, fontshareFetched);
        && cache == f.cache
        && fonts == StarterFonts(config.GetOr([]), map[GOOGLE := g.result, BUNNY := b.result, FONTSHARE := f.result], now)
    {
      var entries := config.GetOr([]);
      ghost var g := CuratedLoad(cache, GOOGLE, googleFetched);
      var google, _ := LoadCuratedCatalog(GOOGLE, googleFetched);
      assert google == g.result && cache == g.cache;
      ghost var b := CuratedLoad(cache, BUNNY, bunnyFetched);
      var bunny, _ := LoadCuratedCatalog(BUNNY, bunnyFetched);
      assert bunny == b.result && cache == b.cache;
      ghost var f := CuratedLoad(cache, FONTSHARE, fontshareFetched);
      var fontshare, _ := LoadCuratedCatalog(FONTSHARE, fontshareFetched);
      assert fontshare == f.result && cache == f.cache;
      var catalogs := map[GOOGLE := google, BUNNY := bunny, FONTSHARE := fontshare];
      fonts := [];
      var i := 0;
      while i < |entries|
        invariant 0 <= i <= |entries|
        invariant fonts == StarterFonts(entries[..i], catalogs, now)
        invariant cache == f.cache
      {
        var e := entries[i];
        StarterFontsStep(entries, i, catalogs, now);
        if e.source in catalogs {
          var found := Find(catalogs[e.source].fonts, IdIs(e.id));
          if found.Some? {
            var converted := CatalogFontToAppFont(found.value, e.source, now);
            if converted.Success? {
              fonts := fonts + [converted.value.(favorite := Some(e.favorite.GetOr(false)))];
            }
          }
        }
        i := i + 1;
      }
      assert entries[..|entries|] == entries;
    }

    /** `findFontInCatalog`: the first font with the id in the cached catalog. */
    function FindFontInCatalog(fontId: string, source: string): (r: Option<CatalogFont>)
      reads this
      ensures r.Some? ==> source in cache && r.value in cache[source].fonts && r.value.id == fontId
      ensures r.Some? ==> exists i :: (0 <= i < |cache[source].fonts| && cache[source].fonts[i] == r.value
                                       && forall j :: 0 <= j < i ==> cache[source].fonts[j].id != fontId)
      ensures r.None? <==> source !in cache || forall i :: 0 <= i < |cache[source].fonts| ==> cache[source].fonts[i].id != fontId
    {
      if source !in cache then None
      else Find(cache[source].fonts, IdIs(fontId))
    }

    function GetCachedCatalog(source: string): Option<Catalog>
      reads this
    {
      if source in cache then Some(cache[source]) else None
    }

    /** `isFullCatalogLoaded`: never for Fontshare, otherwise whether the
        full catalog is cached. */
    function IsFullCatalogLoaded(source: string): (r: bool)
      reads this
      ensures source == FONTSHARE ==> !r
      ensures source != FONTSHARE ==> (r <==> GetCachedCatalog(FullKey(source)).Some?)
    {
      source != FONTSHARE && FullKey(source) in cache
    }
  }
}
