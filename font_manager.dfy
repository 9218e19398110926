/** The user's font collection as the browser's storage keeps it: one
    document with the font list and the settings. Reading operations are
    functions of the stored document; the operations that write it are
    methods of `FontStore`, whose `stored` field is the document (None when
    nothing is stored) and whose `writable` field says whether storing
    succeeds. Also the id generator and the per-source font constructors. */
module FontManager {
  import opened Wrappers
  import opened JsText
  import opened JsNumber
  import opened UriEncoding
  import opened Seqs
  import opened Fonts
  import opened FontCatalog

  /** The setting values the app stores. */
  datatype Json = JNull | JBool(b: bool) | JNumber(n: int) | JString(s: string)

  type Settings = map<string, Json>

  const SELECTED_FONT_ID := "selectedFontId"
  const FALLBACK_FONT_ID := "google-inter"

  const DEFAULT_SETTINGS: Settings := map[
    "theme" := JString("dark"),
    SELECTED_FONT_ID := JString(FALLBACK_FONT_ID),
    "sidebarCollapsed" := JBool(false),
    "googleApiKey" := JNull]

  /** The stored document. Every write of this module stores a font list, so
      `fonts` is always present; `settings` may be missing after an import. */
  datatype Doc = Doc(fonts: seq<AppFont>, settings: Option<Settings>)

  predicate UniqueIds(fonts: seq<AppFont>) {
    forall i, j :: 0 <= i < j < |fonts| ==> fonts[i].id != fonts[j].id
  }

  function HasId(id: string): AppFont -> bool {
    (f: AppFont) => f.id == id
  }

  /** Truthiness of the `favorite` flag. */
  predicate IsFavorite(f: AppFont) {
    f.favorite == Some(true)
  }

  // ----- reading the collection -----

  /** `getAllFonts`. */
  function AllFonts(data: Option<Doc>): seq<AppFont> {
    if data.Some? then data.value.fonts else []
  }

  /** `getFont`: the first font with the id. */
  function GetFont(data: Option<Doc>, id: string): (r: Option<AppFont>)
    ensures r.Some? ==> r.value in AllFonts(data) && r.value.id == id
    ensures r.Some? ==> exists i :: (0 <= i < |AllFonts(data)| && AllFonts(data)[i] == r.value
                                     && forall j :: 0 <= j < i ==> AllFonts(data)[j].id != id)
    ensures r.None? <==> forall i :: 0 <= i < |AllFonts(data)| ==> AllFonts(data)[i].id != id
  {
    Find(AllFonts(data), HasId(id))
  }

  /** `hasFontInCollection`. */
  function HasFontInCollection(data: Option<Doc>, id: string): (r: bool)
    ensures r <==> GetFont(data, id).Some?
    ensures r <==> exists i :: 0 <= i < |AllFonts(data)| && AllFonts(data)[i].id == id
  {
    FindIndex(AllFonts(data), HasId(id)).Some?
  }

  datatype Groups = Groups(
    favorites: seq<AppFont>,
    google: seq<AppFont>,
    bunny: seq<AppFont>,
    fontshare: seq<AppFont>,
    cdn: seq<AppFont>,
    system: seq<AppFont>,
    upload: seq<AppFont>)

  function FromSource(source: string): AppFont -> bool {
    (f: AppFont) => f.source == source
  }

  function FromSystemOrLocal(): AppFont -> bool {
    (f: AppFont) => f.source == SYSTEM || f.source == LOCAL
  }

  function Favorite(): AppFont -> bool {
    (f: AppFont) => IsFavorite(f)
  }

  function GroupsOf(fonts: seq<AppFont>): Groups {
    Groups(
      Filter(fonts, Favorite()),
      Filter(fonts, FromSource(GOOGLE)),
      Filter(fonts, FromSource(BUNNY)),
      Filter(fonts, FromSource(FONTSHARE)),
      Filter(fonts, FromSource(CDN)),
      Filter(fonts, FromSystemOrLocal()),
      Filter(fonts, FromSource(UPLOAD)))
  }

  /** `getFontsGrouped`. */
  function GetFontsGrouped(data: Option<Doc>): Groups {
    GroupsOf(AllFonts(data))
  }

  predicate IsCollectionSource(source: string) {
    source in {GOOGLE, BUNNY, FONTSHARE, CDN, SYSTEM, LOCAL, UPLOAD}
  }

  function SourceGroupsSize(g: Groups): nat {
    |g.google| + |g.bunny| + |g.fontshare| + |g.cdn| + |g.system| + |g.upload|
  }

  /** When every font has one of the seven sources, the six source groups
      split the collection: each font is in exactly one of them. */
  lemma {:induction false} SourceGroupsPartition(fonts: seq<AppFont>)
    requires forall i :: 0 <= i < |fonts| ==> IsCollectionSource(fonts[i].source)
    ensures SourceGroupsSize(GroupsOf(fonts)) == |fonts|
  {
    if fonts != [] {
      SourceGroupsPartition(fonts[1..]);
      assert IsCollectionSource(fonts[0].source);
    }
  }

  /** A font is in its source's group and in the favourites exactly when it
      is a favourite. */
  lemma {:induction false} GroupMembership(data: Option<Doc>, f: AppFont)
    requires f in AllFonts(data)
    ensures f in GetFontsGrouped(data).favorites <==> IsFavorite(f)
    ensures f in GetFontsGrouped(data).google <==> f.source == GOOGLE
    ensures f in GetFontsGrouped(data).bunny <==> f.source == BUNNY
    ensures f in GetFontsGrouped(data).fontshare <==> f.source == FONTSHARE
    ensures f in GetFontsGrouped(data).cdn <==> f.source == CDN
    ensures f in GetFontsGrouped(data).system <==> f.source == SYSTEM || f.source == LOCAL
    ensures f in GetFontsGrouped(data).upload <==> f.source == UPLOAD
  {
    var fonts := AllFonts(data);
    var i :| 0 <= i < |fonts| && fonts[i] == f;
    assert Favorite()(fonts[i]) == IsFavorite(f);
    assert FromSource(GOOGLE)(fonts[i]) == (f.source == GOOGLE);
    assert FromSource(BUNNY)(fonts[i]) == (f.source == BUNNY);
    assert FromSource(FONTSHARE)(fonts[i]) == (f.source == FONTSHARE);
    assert FromSource(CDN)(fonts[i]) == (f.source == CDN);
    assert FromSystemOrLocal()(fonts[i]) == (f.source == SYSTEM || f.source == LOCAL);
    assert FromSource(UPLOAD)(fonts[i]) == (f.source == UPLOAD);
  }

  /** `getSettings`: the stored settings, the defaults when there are none. */
  function GetSettings(data: Option<Doc>): Settings {
    if data.Some? && data.value.settings.Some? then data.value.settings.value else DEFAULT_SETTINGS
  }

  /** `getSetting`, None for undefined. */
  function GetSetting(data: Option<Doc>, key: string): Option<Json> {
    var settings := GetSettings(data);
    if key in settings then Some(settings[key]) else None
  }

  /** The selected id when the setting holds a string. */
  function SelectedId(data: Option<Doc>): Option<string> {
    match GetSetting(data, SELECTED_FONT_ID)
    case Some(JString(id)) => Some(id)
    case _ => None
  }

  /** `getSelectedFont`: the selected font, else the fallback font, else the
      first font of the collection. */
  function GetSelectedFont(data: Option<Doc>): Option<AppFont> {
    var bySetting := if SelectedId(data).Some? then GetFont(data, SelectedId(data).value) else None;
    if bySetting.Some? then bySetting
    else if GetFont(data, FALLBACK_FONT_ID).Some? then GetFont(data, FALLBACK_FONT_ID)
    else if AllFonts(data) != [] then Some(AllFonts(data)[0])
    else None
  }

  /** A font is selected exactly when the collection is not empty, it is one
      of the collection's fonts, and the selected id wins when a font has it. */
  lemma {:induction false} GetSelectedFontSpec(data: Option<Doc>)
    ensures GetSelectedFont(data).Some? <==> AllFonts(data) != []
    ensures GetSelectedFont(data).Some? ==> GetSelectedFont(data).value in AllFonts(data)
    ensures SelectedId(data).Some? && HasFontInCollection(data, SelectedId(data).value) ==>
      GetSelectedFont(data) == GetFont(data, SelectedId(data).value)
    ensures ((SelectedId(data).None? || !HasFontInCollection(data, SelectedId(data).value))
             && HasFontInCollection(data, FALLBACK_FONT_ID)) ==>
      GetSelectedFont(data) == GetFont(data, FALLBACK_FONT_ID)
    ensures ((SelectedId(data).None? || !HasFontInCollection(data, SelectedId(data).value))
             && !HasFontInCollection(data, FALLBACK_FONT_ID) && AllFonts(data) != []) ==>
      GetSelectedFont(data) == Some(AllFonts(data)[0])
  {
    if AllFonts(data) != [] {
      assert AllFonts(data)[0] in AllFonts(data);
    }
  }

  /** `searchFonts`: the collection fonts whose name or family contains the
      query, ignoring case; everything for an empty query. */
  function SearchFonts(data: Option<Doc>, query: string): seq<AppFont> {
    if query == "" then AllFonts(data) else Filter(AllFonts(data), FontQuery(query))
  }

  function FontQuery(query: string): AppFont -> bool {
    (f: AppFont) => MatchesQuery(f.name, f.family, query)
  }

  /** The search keeps the collection order and each matching font as often
      as it occurs, and nothing else. */
  lemma {:induction false} SearchFontsSpec(data: Option<Doc>, query: string)
    ensures IsSubsequence(SearchFonts(data, query), AllFonts(data))
    ensures forall f :: (multiset(SearchFonts(data, query))[f] ==
                         if query == "" || MatchesQuery(f.name, f.family, query) then multiset(AllFonts(data))[f] else 0)
  {
    var fonts := AllFonts(data);
    if query == "" {
      FilterAll(fonts, (f: AppFont) => true);
      FilterIsSubsequence(fonts, (f: AppFont) => true);
    } else {
      FilterIsSubsequence(fonts, FontQuery(query));
      forall f ensures multiset(Filter(fonts, FontQuery(query)))[f] ==
                       if MatchesQuery(f.name, f.family, query) then multiset(fonts)[f] else 0 {
        FilterCount(fonts, FontQuery(query), f);
      }
    }
  }

  /** What `importCollection` reads from its JSON text: None when the text
      does not parse to an object; `fonts` None when it has no font list. */
  datatype ImportPayload = ImportPayload(fonts: Option<seq<AppFont>>, settings: Option<Settings>)

  /** `exportCollection`: the stored document as the value its JSON text
      carries. */
  function ExportCollection(data: Option<Doc>): Option<ImportPayload> {
    match data
    case None => None
    case Some(d) => Some(ImportPayload(Some(d.fonts), d.settings))
  }

  /** The document an import stores, if the payload is acceptable. */
  function ImportedDoc(parsed: Option<ImportPayload>): Option<Doc> {
    if parsed.Some? && parsed.value.fonts.Some? then Some(Doc(parsed.value.fonts.value, parsed.value.settings))
    else None
  }

  /** Importing an export restores the exported document; exporting nothing
      gives something an import refuses. */
  lemma {:induction false} ExportImportRoundTrip(data: Option<Doc>)
    ensures ImportedDoc(ExportCollection(data)) == data
  {
  }

  // ----- ids and the font constructors -----

  predicate IsIdChar(c: char) {
    IsAsciiLower(c) || IsAsciiDigit(c)
  }

  predicate NotIdChar(c: char) {
    !IsIdChar(c)
  }

  /** `s.replace(/^-|-$/g, '')`. */
  function StripEdgeHyphens(s: string): (r: string)
    ensures var lead := if s != [] && s[0] == '-' then 1 else 0;
      var trail := if |s| > lead && s[|s| - 1] == '-' then 1 else 0;
      lead + trail <= |s| && r == s[lead..|s| - trail]
  {
    var a := if s != [] && s[0] == '-' then s[1..] else s;
    if a != [] && a[|a| - 1] == '-' then a[..|a| - 1] else a
  }

  /** The name part of a generated id. */
  function IdBase(name: string): string {
    StripEdgeHyphens(ReplaceRuns(ToLower(name), NotIdChar, '-'))
  }

  /** `generateFontId`: the name part, a hyphen and the time in base 36. */
  function GenerateFontId(name: string, nowMs: nat): string {
    IdBase(name) + "-" + NatToString(nowMs, 36)
  }

  /** The name part holds only lower-case letters, digits and single
      hyphens, and neither starts nor ends with a hyphen. */
  lemma {:induction false} IdBaseShape(name: string)
    ensures forall i :: 0 <= i < |IdBase(name)| ==> IsIdChar(IdBase(name)[i]) || IdBase(name)[i] == '-'
    ensures forall i :: 0 <= i < |IdBase(name)| - 1 ==> !(IdBase(name)[i] == '-' && IdBase(name)[i + 1] == '-')
    ensures IdBase(name) != [] ==> IdBase(name)[0] != '-' && IdBase(name)[|IdBase(name)| - 1] != '-'
  {
    var r := ReplaceRuns(ToLower(name), NotIdChar, '-');
    ReplaceRunsShape(ToLower(name), NotIdChar, '-');
    assert forall i :: 0 <= i < |r| ==> IsIdChar(r[i]) || r[i] == '-';
    StripEdgeHyphensShape(r);
  }

  lemma {:induction false} StripEdgeHyphensShape(r: string)
    requires forall i :: 0 <= i < |r| ==> IsIdChar(r[i]) || r[i] == '-'
    requires forall i :: 0 <= i < |r| - 1 && r[i] == '-' ==> r[i + 1] != '-'
    ensures var t := StripEdgeHyphens(r);
      && (forall i :: 0 <= i < |t| ==> IsIdChar(t[i]) || t[i] == '-')
      && (forall i :: 0 <= i < |t| - 1 ==> !(t[i] == '-' && t[i + 1] == '-'))
      && (t != [] ==> t[0] != '-' && t[|t| - 1] != '-')
  {
    var a := if r != [] && r[0] == '-' then r[1..] else r;
    assert forall i :: 0 <= i < |a| ==> IsIdChar(a[i]) || a[i] == '-';
    assert forall i :: 0 <= i < |a| - 1 && a[i] == '-' ==> a[i + 1] != '-';
    assert a != [] ==> a[0] != '-';
    var t := StripEdgeHyphens(r);
    assert t == if a != [] && a[|a| - 1] == '-' then a[..|a| - 1] else a;
    assert forall i :: 0 <= i < |t| ==> t[i] == a[i];
  }

  /** A generated id ends in the time, which reads back in base 36 after
      the last hyphen. */
  lemma {:induction false} GeneratedIdTime(name: string, nowMs: nat)
    ensures LastPiece(GenerateFontId(name, nowMs), '-') == NatToString(nowMs, 36)
    ensures ParseIntRadix(LastPiece(GenerateFontId(name, nowMs), '-'), 36) == Some(nowMs)
  {
    var t := NatToString(nowMs, 36);
    assert '-' !in t;
    assert GenerateFontId(name, nowMs) == IdBase(name) + ['-'] + t;
    LastPieceAfterSeparator(IdBase(name), t, '-');
    NatToStringRoundTrip(nowMs, 36);
  }

  const DEFAULT_WEIGHTS: seq<int> := [400, 700]

  /** The `wght@…` part of the URLs `createGoogleFont` and
      `createBunnyFont` build: the joined list, or the single weight
      (`undefined` for an empty list). */
  function WeightParam(weights: seq<int>): string {
    if |weights| > 1 then "wght@" + WeightList(weights, ';')
    else "wght@" + (if |weights| == 1 then IntToString(weights[0]) else "undefined")
  }

  function CssFont(source: string, prefix: string, fontName: string, weights: seq<int>): AppFont {
    AppFont(source + "-" + Slug(fontName), fontName, fontName, source,
            Some(prefix + EncodeURIComponent(fontName) + ":" + WeightParam(weights) + DISPLAY_SWAP),
            None, weights, false, "sans-serif", None, "")
  }

  /** `createGoogleFont`; None for weights takes the default. */
  function CreateGoogleFont(fontName: string, weights: Option<seq<int>>): AppFont {
    CssFont(GOOGLE, GOOGLE_CSS, fontName, weights.GetOr(DEFAULT_WEIGHTS))
  }

  /** `createBunnyFont`. */
  function CreateBunnyFont(fontName: string, weights: Option<seq<int>>): AppFont {
    CssFont(BUNNY, BUNNY_CSS, fontName, weights.GetOr(DEFAULT_WEIGHTS))
  }

  /** `createFontshareFont`. */
  function CreateFontshareFont(fontName: string, weights: Option<seq<int>>): AppFont {
    var ws := weights.GetOr(DEFAULT_WEIGHTS);
    AppFont(FONTSHARE + "-" + Slug(fontName), fontName, fontName, FONTSHARE,
            Some(FontshareUrl(fontName, ws)), None, ws, false, "sans-serif", None, "")
  }

  /** `createCdnFont`. */
  function CreateCdnFont(fontName: string, family: string, url: string, nowMs: nat): AppFont {
    AppFont(GenerateFontId(fontName, nowMs), fontName, family, CDN, Some(url), None, [400], false, "sans-serif", None, "")
  }

  /** `createLocalFont`: named by the full name, else by the family. */
  function CreateLocalFont(fontData: LocalFont, nowMs: nat): AppFont {
    AppFont(GenerateFontId(fontData.family, nowMs),
            if fontData.fullName != "" then fontData.fullName else fontData.family,
            fontData.family, LOCAL, None, None, [400], true, "sans-serif", None, "")
  }

  /** `createUploadedFont`. */
  function CreateUploadedFont(fontName: string, family: string, dataUrl: string, format: string, nowMs: nat): AppFont {
    AppFont(GenerateFontId(fontName, nowMs), fontName, family, UPLOAD, Some(dataUrl), Some(format), [400], false, "sans-serif", None, "")
  }

  /** The catalog font a constructor's arguments describe. */
  function AsCatalogFont(fontName: string, weights: seq<int>): CatalogFont {
    CatalogFont(Slug(fontName), fontName, fontName, "sans-serif", weights, false, 0)
  }

  /** With at least one weight the Google, Bunny and Fontshare constructors
      build the same URL as `buildStylesheetUrl`, so the URL names the font
      and its weights; the id is the source and the slug of the name. */
  lemma {:induction false} CreatedUrlsMatchCatalog(fontName: string, weights: seq<int>)
    requires |weights| >= 1
    ensures CreateGoogleFont(fontName, Some(weights)).url == Some(BuildStylesheetUrl(AsCatalogFont(fontName, weights), GOOGLE).value)
    ensures CreateBunnyFont(fontName, Some(weights)).url == Some(BuildStylesheetUrl(AsCatalogFont(fontName, weights), BUNNY).value)
    ensures CreateFontshareFont(fontName, Some(weights)).url == Some(BuildStylesheetUrl(AsCatalogFont(fontName, weights), FONTSHARE).value)
    ensures ParseCss2Url(CreateGoogleFont(fontName, Some(weights)).url.value, GOOGLE_CSS) == Some((fontName, weights))
    ensures CreateGoogleFont(fontName, Some(weights)).id == CatalogFontToAppFont(AsCatalogFont(fontName, weights), GOOGLE, "").value.id
    ensures CreateBunnyFont(fontName, Some(weights)).id == CatalogFontToAppFont(AsCatalogFont(fontName, weights), BUNNY, "").value.id
    ensures CreateFontshareFont(fontName, Some(weights)).id == CatalogFontToAppFont(AsCatalogFont(fontName, weights), FONTSHARE, "").value.id
  {
    CssFontUrl(GOOGLE, GOOGLE_CSS, fontName, weights);
    CssFontUrl(BUNNY, BUNNY_CSS, fontName, weights);
    Css2UrlRoundTrip(GOOGLE_CSS, fontName, weights);
  }

  lemma {:induction false} CssFontUrl(source: string, prefix: string, fontName: string, weights: seq<int>)
    requires |weights| >= 1
    ensures CssFont(source, prefix, fontName, weights).url == Some(Css2Url(prefix, fontName, weights))
  {
    var wl := WeightList(weights, ';');
    if |weights| == 1 {
      assert Decimals(weights) == [IntToString(weights[0])];
      assert wl == IntToString(weights[0]);
    }
    assert WeightParam(weights) == "wght@" + wl;
    var enc := EncodeURIComponent(fontName);
    assert prefix + enc + ":" + ("wght@" + wl) + DISPLAY_SWAP == prefix + enc + ":wght@" + wl + DISPLAY_SWAP;
  }

  /** The constructors that generate an id give it the generated shape and
      the single weight 400; the local font has no URL, is marked italic and
      falls back to the family for its name. */
  lemma {:induction false} CreatedIds(fontName: string, family: string, url: string, format: string,
                                      fontData: LocalFont, nowMs: nat)
    ensures var c := CreateCdnFont(fontName, family, url, nowMs);
      c.id == IdBase(fontName) + "-" + NatToString(nowMs, 36) && c.weights == [400] && c.url == Some(url)
    ensures var l := CreateLocalFont(fontData, nowMs);
      && l.id == IdBase(fontData.family) + "-" + NatToString(nowMs, 36)
      && LastPiece(l.id, '-') == NatToString(nowMs, 36)
      && l.name == (if fontData.fullName != "" then fontData.fullName else fontData.family)
      && (l.name != "" <==> fontData.fullName != "" || fontData.family != "")
    ensures var l := CreateLocalFont(fontData, nowMs);
      l.url == None && l.hasItalic && l.weights == [400] && l.family == fontData.family
    ensures var u := CreateUploadedFont(fontName, family, url, format, nowMs);
      && u.id == IdBase(fontName) + "-" + NatToString(nowMs, 36)
      && LastPiece(u.id, '-') == NatToString(nowMs, 36)
      && u.weights == [400] && u.url == Some(url) && u.format == Some(format)
  {
    GeneratedIdTime(fontData.family, nowMs);
    GeneratedIdTime(fontName, nowMs);
  }

  // ----- writing the collection -----

  /** The fields an `updateFont` call sets; None leaves a field as it is. */
  datatype FontPatch = FontPatch(
    id: Option<string>,
    name: Option<string>,
    family: Option<string>,
    source: Option<string>,
    url: Option<Option<string>>,
    format: Option<Option<string>>,
    weights: Option<seq<int>>,
    hasItalic: Option<bool>,
    category: Option<string>,
    favorite: Option<Option<bool>>,
    dateAdded: Option<string>)

  const NO_CHANGES := FontPatch(None, None, None, None, None, None, None, None, None, None, None)

  function FavoritePatch(favorite: bool): FontPatch {
    NO_CHANGES.(favorite := Some(Some(favorite)))
  }

  /** `{ ...f, ...patch }`. */
  function Merge(f: AppFont, p: FontPatch): AppFont {
    AppFont(
      p.id.GetOr(f.id), p.name.GetOr(f.name), p.family.GetOr(f.family), p.source.GetOr(f.source),
      p.url.GetOr(f.url), p.format.GetOr(f.format), p.weights.GetOr(f.weights),
      p.hasItalic.GetOr(f.hasItalic), p.category.GetOr(f.category), p.favorite.GetOr(f.favorite),
      p.dateAdded.GetOr(f.dateAdded))
  }

  /** The spread of one patch after another. */
  function Then(p: FontPatch, q: FontPatch): FontPatch {
    FontPatch(
      if q.id.Some? then q.id else p.id, if q.name.Some? then q.name else p.name,
      if q.family.Some? then q.family else p.family, if q.source.Some? then q.source else p.source,
      if q.url.Some? then q.url else p.url, if q.format.Some? then q.format else p.format,
      if q.weights.Some? then q.weights else p.weights, if q.hasItalic.Some? then q.hasItalic else p.hasItalic,
      if q.category.Some? then q.category else p.category, if q.favorite.Some? then q.favorite else p.favorite,
      if q.dateAdded.Some? then q.dateAdded else p.dateAdded)
  }

  /** An empty patch changes nothing, a patch applied twice acts once, and
      two patches in a row act as their combination. */
  lemma {:induction false} MergeLaws(f: AppFont, p: FontPatch, q: FontPatch)
    ensures Merge(f, NO_CHANGES) == f
    ensures Merge(Merge(f, p), p) == Merge(f, p)
    ensures Merge(Merge(f, p), q) == Merge(f, Then(p, q))
  {
  }

  /** The list `updateFont` stores: the first font with the id merged with
      the patch; None when no font has the id. */
  function UpdateAt(fonts: seq<AppFont>, id: string, p: FontPatch): Option<seq<AppFont>> {
    match FindIndex(fonts, HasId(id))
    case None => None
    case Some(i) => Some(fonts[i := Merge(fonts[i], p)])
  }

  /** Only the first font with the id changes, and it changes by the patch. */
  lemma {:induction false} UpdateAtSpec(fonts: seq<AppFont>, id: string, p: FontPatch)
    ensures UpdateAt(fonts, id, p).Some? <==> exists i :: 0 <= i < |fonts| && fonts[i].id == id
    ensures UpdateAt(fonts, id, p).Some? ==>
      var i := FindIndex(fonts, HasId(id)).value;
      var r := UpdateAt(fonts, id, p).value;
      && |r| == |fonts| && fonts[i].id == id && r[i] == Merge(fonts[i], p)
      && (forall j :: 0 <= j < i ==> fonts[j].id != id)
      && (forall j :: 0 <= j < |fonts| && j != i ==> r[j] == fonts[j])
    ensures UpdateAt(fonts, id, p).Some? && p.id.None? && UniqueIds(fonts) ==> UniqueIds(UpdateAt(fonts, id, p).value)
  {
    if exists i :: 0 <= i < |fonts| && fonts[i].id == id {
      var k :| 0 <= k < |fonts| && fonts[k].id == id;
      assert HasId(id)(fonts[k]);
    }
  }

  /** The list `toggleFavorite` stores: the first font with the id with its
      favourite flag negated. */
  function ToggleAt(fonts: seq<AppFont>, id: string): Option<seq<AppFont>> {
    match Find(fonts, HasId(id))
    case None => None
    case Some(f) => UpdateAt(fonts, id, FavoritePatch(!IsFavorite(f)))
  }

  /** Toggling flips the flag of the first font with the id and nothing else;
      toggling twice restores the flag (as a plain boolean). */
  lemma {:induction false} ToggleTwice(fonts: seq<AppFont>, id: string)
    requires exists i :: 0 <= i < |fonts| && fonts[i].id == id
    ensures ToggleAt(fonts, id).Some?
    ensures var i := FindIndex(fonts, HasId(id)).value;
      && IsFavorite(ToggleAt(fonts, id).value[i]) == !IsFavorite(fonts[i])
      && ToggleAt(fonts, id).value == fonts[i := fonts[i].(favorite := Some(!IsFavorite(fonts[i])))]
      && ToggleAt(ToggleAt(fonts, id).value, id) == Some(fonts[i := fonts[i].(favorite := Some(IsFavorite(fonts[i])))])
  {
    var i := FindIndex(fonts, HasId(id)).value;
    var once := fonts[i := Merge(fonts[i], FavoritePatch(!IsFavorite(fonts[i])))];
    assert ToggleAt(fonts, id) == Some(once);
    assert once == fonts[i := fonts[i].(favorite := Some(!IsFavorite(fonts[i])))];
    assert FindIndex(once, HasId(id)) == Some(i) by {
      FindIndexSame(fonts, once, id, i);
    }
    assert Find(once, HasId(id)) == Some(once[i]);
    assert once[i := Merge(once[i], FavoritePatch(!IsFavorite(once[i])))]
        == fonts[i := fonts[i].(favorite := Some(IsFavorite(fonts[i])))];
  }

  /** Changing a font other than by its id keeps where the id is first found. */
  lemma {:induction false} FindIndexSame(a: seq<AppFont>, b: seq<AppFont>, id: string, i: nat)
    requires FindIndex(a, HasId(id)) == Some(i)
    requires |a| == |b| && b[i].id == id && forall j :: 0 <= j < |a| && j != i ==> b[j] == a[j]
    ensures FindIndex(b, HasId(id)) == Some(i)
  {
    if i > 0 {
      assert !HasId(id)(b[0]) by { assert !HasId(id)(a[0]); }
      FindIndexSame(a[1..], b[1..], id, i - 1);
    }
  }

  /** Deleting the first font with the id leaves the rest in order; with
      unique ids no font with that id is left. */
  lemma {:induction false} DeleteSpec(fonts: seq<AppFont>, id: string, i: nat)
    requires FindIndex(fonts, HasId(id)) == Some(i)
    ensures multiset(RemoveAt(fonts, i)) + multiset{fonts[i]} == multiset(fonts)
    ensures UniqueIds(fonts) ==> forall j :: 0 <= j < |RemoveAt(fonts, i)| ==> RemoveAt(fonts, i)[j].id != id
    ensures UniqueIds(fonts) ==> UniqueIds(RemoveAt(fonts, i))
  {
    assert fonts == fonts[..i] + [fonts[i]] + fonts[i + 1..];
  }

  /** A font added under a fresh id is what `getFont` then finds. */
  lemma {:induction false} AddThenGet(d: Doc, f: AppFont)
    requires forall i :: 0 <= i < |d.fonts| ==> d.fonts[i].id != f.id
    ensures GetFont(Some(d.(fonts := d.fonts + [f])), f.id) == Some(f)
    ensures UniqueIds(d.fonts) ==> UniqueIds(d.fonts + [f])
  {
    var fs := d.fonts + [f];
    assert fs[|d.fonts|] == f;
    assert HasId(f.id)(fs[|d.fonts|]);
    assert forall j :: 0 <= j < |d.fonts| ==> !HasId(f.id)(fs[j]);
  }

  /** The settings an `updateSettings` call stores: the old ones (none when
      absent) overridden by the updates. */
  function MergedSettings(d: Doc, updates: Settings): Settings {
    (if d.settings.Some? then d.settings.value else map[]) + updates
  }

  /** After `setSetting` the setting reads back, other settings are kept,
      and after `setSelectedFont` with an id in the collection that font is
      the selected one. */
  lemma {:induction false} SettingsReadBack(d: Doc, key: string, value: Json, id: string, other: string)
    ensures GetSetting(Some(d.(settings := Some(MergedSettings(d, map[key := value])))), key) == Some(value)
    ensures other != key && d.settings.Some? ==>
      GetSetting(Some(d.(settings := Some(MergedSettings(d, map[key := value])))), other) == GetSetting(Some(d), other)
    ensures HasFontInCollection(Some(d), id) ==>
      GetSelectedFont(Some(d.(settings := Some(MergedSettings(d, map[SELECTED_FONT_ID := JString(id)])))))
        == GetFont(Some(d), id)
  {
    SelectedAfterSet(d, id);
  }

  lemma SelectedAfterSet(d: Doc, id: string)
    ensures var sel := Some(d.(settings := Some(MergedSettings(d, map[SELECTED_FONT_ID := JString(id)]))));
      SelectedId(sel) == Some(id) && GetFont(sel, id) == GetFont(Some(d), id)
  {
    var sel := Some(d.(settings := Some(MergedSettings(d, map[SELECTED_FONT_ID := JString(id)]))));
    assert GetSetting(sel, SELECTED_FONT_ID) == Some(JString(id));
    assert AllFonts(sel) == AllFonts(Some(d));
  }

  /** The browser storage of the collection. */
  class FontStore {
    var stored: Option<Doc>
    var writable: bool

    constructor(stored: Option<Doc>, writable: bool)
      ensures this.stored == stored && this.writable == writable
    {
      this.stored := stored;
      this.writable := writable;
    }

    /** `saveData`. */
    method SaveData(d: Doc) returns (ok: bool)
      modifies this
      ensures ok == writable && writable == old(writable)
      ensures stored == if ok then Some(d) else old(stored)
    {
      ok := writable;
      if ok {
        stored := Some(d);
      }
    }

    /** `initialize`: on a first run or with an empty collection, stores the
        starter fonts (`starters` None when loading them fails: an empty
        list) with the default settings. */
    method Initialize(starters: Option<seq<AppFont>>) returns (data: Doc)
      modifies this
      ensures writable == old(writable)
      ensures old(stored).None? || old(stored).value.fonts == [] ==>
        && data == Doc(starters.GetOr([]), Some(DEFAULT_SETTINGS))
        && stored == if writable then Some(data) else old(stored)
      ensures old(stored).Some? && old(stored).value.fonts != [] ==> data == old(stored).value && stored == old(stored)
    {
      if stored.None? || stored.value.fonts == [] {
        data := Doc(starters.GetOr([]), Some(DEFAULT_SETTINGS));
        var _ := SaveData(data);
      } else {
        data := stored.value;
      }
    }

    /** `initializeSync`: stores an empty collection when nothing is stored. */
    method InitializeSync() returns (data: Doc)
      modifies this
      ensures writable == old(writable)
      ensures old(stored).None? ==>
        data == Doc([], Some(DEFAULT_SETTINGS)) && stored == if writable then Some(data) else old(stored)
      ensures old(stored).Some? ==> data == old(stored).value && stored == old(stored)
    {
      if stored.None? {
        data := Doc([], Some(DEFAULT_SETTINGS));
        var _ := SaveData(data);
      } else {
        data := stored.value;
      }
    }

    /** `addFont`: `added` is the caller's font object afterwards. An id is
        generated first when the font has none; a duplicate id is refused;
        otherwise the font gets a date and a boolean favourite flag and is
        appended. */
    method AddFont(font: AppFont, nowIso: string, nowMs: nat) returns (ok: bool, added: AppFont)
      modifies this
      ensures writable == old(writable)
      ensures old(stored).None? ==> !ok && added == font && stored == old(stored)
      ensures old(stored).Some? ==>
        var id := if font.id == "" then GenerateFontId(font.name, nowMs) else font.id;
        if HasFontInCollection(old(stored), id) then
          !ok && added == font.(id := id) && stored == old(stored)
        else
          && added == font.(id := id, dateAdded := if font.dateAdded == "" then nowIso else font.dateAdded,
                            favorite := Some(IsFavorite(font)))
          && ok == writable
          && stored == if ok then Some(old(stored).value.(fonts := old(stored).value.fonts + [added])) else old(stored)
      ensures ok ==> GetFont(stored, added.id) == Some(added)
      ensures UniqueIds(AllFonts(old(stored))) ==> UniqueIds(AllFonts(stored))
    {
      added := font;
      if stored.None? {
        return false, added;
      }
      var d := stored.value;
      if added.id == "" {
        added := added.(id := GenerateFontId(font.name, nowMs));
      }
      if FindIndex(d.fonts, HasId(added.id)).Some? {
        return false, added;
      }
      added := added.(dateAdded := if added.dateAdded == "" then nowIso else added.dateAdded,
                      favorite := Some(IsFavorite(added)));
      AddThenGet(d, added);
      ok := SaveData(d.(fonts := d.fonts + [added]));
    }

    /** `updateFont`. */
    method UpdateFont(id: string, updates: FontPatch) returns (ok: bool)
      modifies this
      ensures writable == old(writable)
      ensures ok <==> old(stored).Some? && UpdateAt(old(stored).value.fonts, id, updates).Some? && writable
      ensures stored == if ok then Some(old(stored).value.(fonts := UpdateAt(old(stored).value.fonts, id, updates).value))
                        else old(stored)
    {
      if stored.None? {
        return false;
      }
      var d := stored.value;
      var index := FindIndex(d.fonts, HasId(id));
      if index.None? {
        return false;
      }
      var i := index.value;
      ok := SaveData(d.(fonts := d.fonts[i := Merge(d.fonts[i], updates)]));
    }

    /** `deleteFont`: removes the first font with the id. */
    method DeleteFont(id: string) returns (ok: bool)
      modifies this
      ensures writable == old(writable)
      ensures ok <==> HasFontInCollection(old(stored), id) && writable
      ensures stored == if ok then
          Some(old(stored).value.(fonts := RemoveAt(old(stored).value.fonts, FindIndex(old(stored).value.fonts, HasId(id)).value)))
        else old(stored)
    {
      if stored.None? {
        return false;
      }
      var d := stored.value;
      var index := FindIndex(d.fonts, HasId(id));
      if index.None? {
        return false;
      }
      ok := SaveData(d.(fonts := RemoveAt(d.fonts, index.value)));
    }

    /** `toggleFavorite`. */
    method ToggleFavorite(id: string) returns (ok: bool)
      modifies this
      ensures writable == old(writable)
      ensures ok <==> HasFontInCollection(old(stored), id) && writable
      ensures stored == if ok then Some(old(stored).value.(fonts := ToggleAt(old(stored).value.fonts, id).value))
                        else old(stored)
    {
      var font := GetFont(stored, id);
      if font.None? {
        return false;
      }
      ok := UpdateFont(id, FavoritePatch(!IsFavorite(font.value)));
    }

    /** `updateSettings`. */
    method UpdateSettings(updates: Settings) returns (ok: bool)
      modifies this
      ensures writable == old(writable)
      ensures ok <==> old(stored).Some? && writable
      ensures stored == if ok then Some(old(stored).value.(settings := Some(MergedSettings(old(stored).value, updates))))
                        else old(stored)
    {
      if stored.None? {
        return false;
      }
      var d := stored.value;
      ok := SaveData(d.(settings := Some(MergedSettings(d, updates))));
    }

    /** `setSetting`. */
    method SetSetting(key: string, value: Json) returns (ok: bool)
      modifies this
      ensures writable == old(writable)
      ensures ok <==> old(stored).Some? && writable
      ensures stored == if ok then Some(old(stored).value.(settings := Some(MergedSettings(old(stored).value, map[key := value]))))
                        else old(stored)
      ensures ok ==> GetSetting(stored, key) == Some(value)
    {
      ok := UpdateSettings(map[key := value]);
      if ok {
        SettingsReadBack(old(stored).value, key, value, "", key);
      }
    }

    /** `setSelectedFont`. */
    method SetSelectedFont(id: string) returns (ok: bool)
      modifies this
      ensures writable == old(writable)
      ensures ok <==> old(stored).Some? && writable
      ensures stored == if ok then
          Some(old(stored).value.(settings := Some(MergedSettings(old(stored).value, map[SELECTED_FONT_ID := JString(id)]))))
        else old(stored)
      ensures ok && HasFontInCollection(old(stored), id) ==> GetSelectedFont(stored) == GetFont(old(stored), id)
    {
      ok := UpdateSettings(map[SELECTED_FONT_ID := JString(id)]);
      if ok {
        SettingsReadBack(old(stored).value, SELECTED_FONT_ID, JString(id), id, "");
      }
    }

    /** `importCollection`: stores what the JSON text holds when it has a
        font list. */
    method ImportCollection(parsed: Option<ImportPayload>) returns (ok: bool)
      modifies this
      ensures writable == old(writable)
      ensures ok <==> ImportedDoc(parsed).Some? && writable
      ensures stored == if ok then ImportedDoc(parsed) else old(stored)
    {
      if parsed.None? || parsed.value.fonts.None? {
        return false;
      }
      ok := SaveData(Doc(parsed.value.fonts.value, parsed.value.settings));
    }

    /** `resetToDefaults`: `starters` None when loading the starter fonts
        fails. */
    method ResetToDefaults(starters: Option<seq<AppFont>>) returns (ok: bool)
      modifies this
      ensures writable == old(writable)
      ensures ok <==> starters.Some? && writable
      ensures stored == if ok then Some(Doc(starters.value, Some(DEFAULT_SETTINGS))) else old(stored)
    {
      if starters.None? {
        return false;
      }
      ok := SaveData(Doc(starters.value, Some(DEFAULT_SETTINGS)));
    }

    /** `clearAllFonts`: an empty list, keeping the settings in effect. */
    method ClearAllFonts() returns (ok: bool)
      modifies this
      ensures writable == old(writable)
      ensures ok == writable
      ensures stored == if ok then Some(Doc([], Some(GetSettings(old(stored))))) else old(stored)
    {
      ok := SaveData(Doc([], Some(GetSettings(stored))));
    }
  }
}
