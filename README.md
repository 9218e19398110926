# Fontdue font core in Dafny

Fontdue is a browser app for collecting and previewing web fonts. This
project models its three core scripts:

- `js/fontCatalog.js` fetches and caches the font catalogs. It reads the
  curated Google, Bunny and Fontshare lists, the full Google Fonts and
  Bunny Fonts API answers and the starter configuration. It turns the API
  answers into catalog fonts, builds stylesheet URLs, searches a catalog
  and turns catalog fonts into collection fonts.
- `public/js/fontManager.js` keeps the user's collection and settings in the
  browser's storage. It covers create, read, update and delete, favourites,
  settings, search, import and export, and the font constructors.
- `public/js/fontLoader.js` makes fonts usable on the page. It injects
  stylesheet links and `@font-face` rules and removes them again. It sets the
  preview variables, detects font formats, de-duplicates and sorts the fonts
  the Local Font Access API lists, and checks and names uploaded files.

The modules follow the program's structure:

- `CatalogTransform` holds the two API transforms.
- `FontCatalog` holds the URLs, search, starter fonts and the catalog cache.
  The cache is the class `CatalogStore`.
- `FontManager` holds the collection. Browser storage is the class
  `FontStore`; its `stored` field is the stored document.
- `FontFiles` holds format detection, file checks, display names and local
  fonts.
- `FontLoader` holds the loaded-font registry and the document head.
  `FontRegistry` owns the registry, and `DocumentRoot` holds the root
  element's style.

The JavaScript built-ins the code relies on are written out in support
modules:

- `JsText` models case mapping, `indexOf`, `trim`, `split`/`join` and
  regex run replacement.
- `JsNumber` models `parseInt` and `Number#toString(radix)`.
- `UriEncoding` models `encodeURIComponent` and `decodeURIComponent` over
  UTF-8.
- `Ordering` models numeric sort with `Set` de-duplication, and the stable
  sort by string key.
- `Seqs` models `filter`, `find`, `findIndex` and `splice`.

Whatever the host provides is a parameter: network answers, the parsed JSON
files, whether a `<link>` loaded, the result of `queryLocalFonts`, the clock,
and whether storage accepts a write.

## Model

| member | source | states |
|---|---|---|
| CatalogTransform.CategoryOrDefault | js/fontCatalog.js:153 | A given category is kept, and an empty one becomes "sans-serif". |
| CatalogTransform.GoogleVariantsMeaning | js/fontCatalog.js:124-141 | The variant loop collects exactly the weights some variant names ("regular" is 400), and flags italic exactly when some variant ends in "italic". |
| CatalogTransform.VariantForms | js/fontCatalog.js:124-141 | "regular" gives 400, "italic" gives no weight but italic, and "<n>" and "<n>italic" give weight n. |
| CatalogTransform.FinalWeightsSpec | js/fontCatalog.js:143-147 | The weight list is non-empty and strictly ascending. It holds the collected weights, or only 400 when none were collected. |
| CatalogTransform.GoogleFontSpec | js/fontCatalog.js:148-158 | A Google catalog font has the slug id, the family as name, the default category, the variant weights and italic flag, and popularity index + 1. |
| CatalogTransform.ParseGoogleVariants | js/fontCatalog.js:124-141 | The imperative variant loop computes the weights and the italic flag of the specification fold. |
| CatalogTransform.TransformGoogleApiResponse | js/fontCatalog.js:118-167 | The loop maps every item, in order, to its catalog font under the "google" header. |
| CatalogTransform.BunnyStylesDistinct | js/fontCatalog.js:201-211 | The style loop never records a weight twice. |
| CatalogTransform.BunnyStylesWeights | js/fontCatalog.js:201-211 | The style loop collects exactly the weights the style keys name. |
| CatalogTransform.BunnyStylesItalic | js/fontCatalog.js:203-205 | Italic is set exactly when some style key contains "italic". |
| CatalogTransform.BunnyFonts | js/fontCatalog.js:199-227 | One catalog font per entry, in entry order: the i-th is the font built from the i-th entry with popularity i + 1. |
| CatalogTransform.BunnyCatalogSpec | js/fontCatalog.js:195-239 | The Bunny catalog is sorted by name and is a permutation of the mapped entries. Each font is the transform of some entry i, with popularity i + 1. |
| CatalogTransform.BunnyFontSpec | js/fontCatalog.js:213-226 | A Bunny catalog font has the entry id, the family name as name and family, the default category and popularity index + 1. Its weight list is non-empty, strictly ascending, and holds exactly the weights its style keys name, or 400 when none does. It is italic exactly when a style key contains "italic". |
| CatalogTransform.ParseBunnyStyles | js/fontCatalog.js:201-211 | The imperative style loop computes the specification fold. |
| CatalogTransform.TransformBunnyApiResponse | js/fontCatalog.js:195-239 | The loop yields the specified Bunny catalog: mapped entries, then sorted by name. |
| FontCatalog.BuildStylesheetUrl | js/fontCatalog.js:247-266 | A URL is returned exactly for google, bunny and fontshare. Any other source fails with "Unknown source: " + source. |
| FontCatalog.Css2UrlRoundTrip | js/fontCatalog.js:248-257 | A css2 URL parses back to the family and the weight list it was built from. |
| FontCatalog.Css2UrlNoWeights | js/fontCatalog.js:247-252 | With an empty weight list the css2 URL ends in "wght@&display=swap", and the parse that reads a css2 URL back finds no weight list in it. |
| FontCatalog.FontshareUrlRoundTrip | js/fontCatalog.js:258-261 | A Fontshare URL parses back to the family's slug and the weights. |
| FontCatalog.StylesheetUrlRoundTrip | js/fontCatalog.js:247-266 | For each known source, the built URL names the font's family (the slug for Fontshare) and weights. |
| FontCatalog.SearchCatalogSpec | js/fontCatalog.js:276-294 | The search is an order-keeping subsequence of the catalog. Each font is kept as often as it occurs exactly when it matches both the query and the category. An empty query with the category filter off returns the whole catalog. |
| FontCatalog.SearchCatalogFilter | js/fontCatalog.js:276-294 | The two filters of the search are one filter by the combined hit predicate. |
| FontCatalog.SearchBoth | js/fontCatalog.js:280-291 | With both filters on, applying the query filter and then the category filter is one filter by their conjunction. |
| FontCatalog.CatalogFontToAppFontSpec | js/fontCatalog.js:335-348 | A known source succeeds and an unknown one fails with its message. The id is source + "-" + catalog id. The URL is the stylesheet URL built for the font. Name, family, weights, italic flag and category are copied. The font is dated now and not a favourite. A css2 URL parses back to the family and weights. |
| FontCatalog.Categories | js/fontCatalog.js:394 | The list holds each font's category, position by position. |
| FontCatalog.GetCatalogCategoriesSpec | js/fontCatalog.js:391-396 | The categories are strictly ascending and hold exactly the categories of the catalog's fonts. With no catalog the list is empty. |
| FontCatalog.StarterFontSpec | js/fontCatalog.js:308-323 | An entry yields a font exactly when its catalog lists its id. The font has the entry's source, id and favourite flag (false when unset), and the listed font's family and weights. |
| FontCatalog.StarterFontsSpec | js/fontCatalog.js:300-327 | One font per resolving entry, in configuration order: the k-th font is the one the k-th resolving entry yields. |
| FontCatalog.CuratedLoadSpec | js/fontCatalog.js:22-41 | A request is made exactly when the source is not cached. A second load serves the cached catalog without a request. A failed load returns the empty catalog and caches nothing. |
| FontCatalog.GoogleFullLoadSpec | js/fontCatalog.js:87-111 | The Google helper requests exactly when it has a key. A success is cached under "fullGoogle" and a failure caches nothing. |
| FontCatalog.GoogleFullLoadResults | js/fontCatalog.js:87-111 | A missing key fails with the key-required error before any request. Otherwise a body gives the transformed catalog, HTTP 403 gives the invalid-key error, any other status the generic error, and a thrown error its own message. The three errors differ. |
| FontCatalog.GoogleErrorsDistinct | js/fontCatalog.js:88-100 | The key-required, invalid-key and generic Google errors are three different messages. |
| FontCatalog.BunnyFullLoadSpec | js/fontCatalog.js:173-188 | The Bunny helper always requests. A body gives the transformed catalog, an HTTP error the Bunny error and a thrown error its own message. A success is cached under "fullBunny" and a failure caches nothing. |
| FontCatalog.FullLoadSpec | js/fontCatalog.js:66-111 | A cached full catalog is served with no request. A request is made exactly when nothing is cached and the source is Bunny, or Google with a key. A success is cached under the full key and a failure caches nothing. An unknown source fails with its message. |
| FontCatalog.FullLoadErrors | js/fontCatalog.js:66-111 | An uncached Google or Bunny load is that source's helper. For Google, a missing key, HTTP 403 and any other failed status give their own errors. |
| FontCatalog.FullKeys | js/fontCatalog.js:67 | The cache key of a full catalog is "fullGoogle" or "fullBunny". |
| FontCatalog.FullLoadCached | js/fontCatalog.js:66-111 | After a successful full load, the next call returns the same catalog from the cache. |
| FontCatalog.CatalogStore.constructor | js/fontCatalog.js:9-15 | The cache starts empty. |
| FontCatalog.CatalogStore.LoadCuratedCatalog | js/fontCatalog.js:22-41 | The result, the request and the new cache are those of the curated-load specification. |
| FontCatalog.CatalogStore.FetchFullCatalog | js/fontCatalog.js:66-80 | The result, the request and the new cache are those of the full-load specification. |
| FontCatalog.CatalogStore.FetchGoogleFullCatalog | js/fontCatalog.js:87-111 | The result, the request and the new cache are those of the Google helper's specification. |
| FontCatalog.CatalogStore.FetchBunnyFullCatalog | js/fontCatalog.js:173-188 | The result, the request and the new cache are those of the Bunny helper's specification. |
| FontCatalog.CatalogStore.GetStarterFonts | js/fontCatalog.js:300-327 | The starter fonts are the specified fonts over the curated catalogs. A missing configuration gives no fonts. |
| FontCatalog.CatalogStore.FindFontInCatalog | js/fontCatalog.js:356-361 | The font found is the first font with the id in the cached catalog: it has the id and no earlier font does. Nothing is found exactly when the catalog is not cached or lists no such id. |
| FontCatalog.CatalogStore.IsFullCatalogLoaded | js/fontCatalog.js:377-384 | Fontshare is never loaded. Other sources are loaded exactly when their full key is cached. |
| FontManager.GetFont | public/js/fontManager.js:127-130 | The font found is the first font in the collection with that id: it has the id and no earlier font does. Nothing is found exactly when no font has the id. |
| FontManager.HasFontInCollection | public/js/fontManager.js:136-139 | True exactly when some font has the id, that is, exactly when `GetFont` finds one. |
| FontManager.SourceGroupsPartition | public/js/fontManager.js:110-122 | When every font has one of the seven sources, the six source groups together hold every font once. |
| FontManager.GroupMembership | public/js/fontManager.js:113-121 | A font is in favourites exactly when it is a favourite. It is in the google, bunny, fontshare, cdn and upload group exactly when it has that source, and in the system group exactly when its source is system or local. |
| FontManager.GetSelectedFontSpec | public/js/fontManager.js:242-245 | A font is selected exactly when the collection is non-empty, and it comes from the collection. A stored selected id that exists wins. Otherwise "google-inter" wins if it exists, and otherwise the first font. |
| FontManager.SearchFontsSpec | public/js/fontManager.js:257-265 | The search is an order-keeping subsequence. A font is kept as often as it occurs exactly when its name or family contains the query, ignoring case. An empty query returns everything. |
| FontManager.ExportImportRoundTrip | public/js/fontManager.js:270-289 | Importing what was exported restores the stored document. |
| FontManager.StripEdgeHyphens | public/js/fontManager.js:327 | One leading '-' and one trailing '-' are cut off, and the rest is kept as it was. |
| FontManager.IdBaseShape | public/js/fontManager.js:323-327 | The name part of an id holds only lower-case letters, digits and single inner hyphens. |
| FontManager.GeneratedIdTime | public/js/fontManager.js:323-331 | A generated id ends in the time in base 36, which parses back to the time. |
| FontManager.CreatedUrlsMatchCatalog | public/js/fontManager.js:336-390 | The Google, Bunny and Fontshare constructors build the catalog's stylesheet URL and give the catalog's id. The Google URL parses back to the name and the weights. |
| FontManager.CreatedIds | public/js/fontManager.js:395-439 | The CDN, local and upload constructors use the generated id (the id base of the font name, or of the family for a local font, then "-" and the base-36 time) and the single weight 400, and keep the given URL and format. A local font has no URL, is marked italic, and is named by its full name, else by its family. |
| FontManager.MergeLaws | public/js/fontManager.js:177 | An empty spread changes nothing, and the same spread twice acts once. Two spreads in a row are one combined spread. |
| FontManager.UpdateAtSpec | public/js/fontManager.js:170-179 | An update happens exactly when the id exists. It merges the patch into the first font with the id and leaves all others, and it keeps ids unique when the patch has no id. |
| FontManager.ToggleTwice | public/js/fontManager.js:198-203 | Toggling flips the first matching font's flag and changes nothing else in the list. Toggling twice restores the list, with the flag stored as a plain boolean. |
| FontManager.DeleteSpec | public/js/fontManager.js:184-193 | Deleting removes exactly one occurrence of the first matching font. With unique ids, no font with the id remains and ids stay unique. |
| FontManager.AddThenGet | public/js/fontManager.js:144-165 | A font added under a fresh id is the one `getFont` finds, and ids stay unique. |
| FontManager.SettingsReadBack | public/js/fontManager.js:216-252 | A set setting reads back and other settings are kept. Selecting an existing font makes it the selected font. |
| FontManager.FontStore.constructor | public/js/fontManager.js:9-18 | The storage starts with the given document and writability. |
| FontManager.FontStore.SaveData | public/js/fontManager.js:36-44 | A write succeeds exactly when storage is writable, and a failed write changes nothing. |
| FontManager.FontStore.Initialize | public/js/fontManager.js:51-79 | A first run or an empty collection stores the starter fonts (none when loading failed) with the default settings. Otherwise the stored document is returned unchanged. |
| FontManager.FontStore.InitializeSync | public/js/fontManager.js:85-97 | With nothing stored it stores and returns an empty collection. Otherwise it returns the stored document. |
| FontManager.FontStore.AddFont | public/js/fontManager.js:144-165 | It fails with no document or a duplicate id. Otherwise it stores the font with a generated id, a date and a favourite flag where missing. `getFont` then finds it, and unique ids stay unique. |
| FontManager.FontStore.UpdateFont | public/js/fontManager.js:170-179 | It succeeds exactly when the id exists and storage is writable, and the new list is the specified update. |
| FontManager.FontStore.DeleteFont | public/js/fontManager.js:184-193 | It succeeds exactly when the id exists and storage is writable, and the first matching font is removed. |
| FontManager.FontStore.ToggleFavorite | public/js/fontManager.js:198-203 | It succeeds exactly when the id exists and storage is writable, and the new list is the specified toggle. |
| FontManager.FontStore.UpdateSettings | public/js/fontManager.js:231-237 | With a document, the stored settings become the old ones spread with the updates. |
| FontManager.FontStore.SetSetting | public/js/fontManager.js:224-226 | A one-key settings update, after which the setting reads back. |
| FontManager.FontStore.SetSelectedFont | public/js/fontManager.js:250-252 | The selected id is stored, and an existing font becomes the selected font. |
| FontManager.FontStore.ImportCollection | public/js/fontManager.js:278-289 | A payload with a font list is stored. Anything else is refused and changes nothing. |
| FontManager.FontStore.ResetToDefaults | public/js/fontManager.js:295-307 | It stores the starter fonts with the default settings. When loading the starters failed it returns false and changes nothing. |
| FontManager.FontStore.ClearAllFonts | public/js/fontManager.js:312-318 | It stores an empty list with the settings in effect. |
| FontFiles.DataUrlFormatAsWritten | public/js/fontLoader.js:182-188 | The checks run over the whole URL in priority order: "woff2" if present, else "woff", else "opentype" for "opentype" or "otf", else "truetype". |
| FontFiles.DataUrlPayloadMisread | public/js/fontLoader.js:182-188 | A TrueType data URL whose base64 payload contains "otf" is detected as "opentype". |
| FontFiles.DataUrlFormat | public/js/fontLoader.js:182-188 | The corrected detection (checks on the media-type header only) always gives a known format. |
| FontFiles.DataUrlFormatOfHeader | public/js/fontLoader.js:182-188 | The corrected detection depends only on the header, never on the payload. |
| FontFiles.DataUrlHeaderRead | public/js/fontLoader.js:182-188 | The corrected detection reads the same URL as "truetype". |
| FontFiles.TrueTypeDataUrl | public/js/fontLoader.js:186-187 | A header naming ttf with no woff/otf gives "truetype", whatever the payload. |
| FontFiles.FormatFromFilename | public/js/fontLoader.js:193-203 | The result is a known format, and an unknown extension gives "truetype". |
| FontFiles.ExtensionOf | public/js/fontLoader.js:194-202 | The extension is the lower-cased last dot-piece, and it picks the format from the table. |
| FontFiles.ValidExtensionsHaveFormats | public/js/fontLoader.js:193-307 | The accepted extensions are exactly those with a format. Any other file is accepted exactly by its MIME type. |
| FontFiles.RemoveExtension | public/js/fontLoader.js:314 | The result is the name itself, or the name cut before a final dot whose suffix is non-empty and has no '/' or '.'. |
| FontFiles.RemoveExtensionOf | public/js/fontLoader.js:314 | `base.ext` loses exactly its extension. |
| FontFiles.ExtractFontNameShape | public/js/fontLoader.js:312-322 | The display name has no '-' or '_', only single inner spaces, and words that start upper-case with the rest lower-case. |
| FontFiles.ExtractFontNameIgnoresExtension | public/js/fontLoader.js:312-322 | A file's extension does not affect its display name. |
| FontFiles.CamelSplitSeparates | public/js/fontLoader.js:316 | After the split, no lower-case letter is directly followed by an upper-case one. |
| FontFiles.CamelSplitKeeps | public/js/fontLoader.js:316 | A name with no lower-case letter directly before an upper-case one is left unchanged. |
| FontFiles.FirstPerFamilySpec | public/js/fontLoader.js:241-252 | The de-duplication keeps one font per family, covers every family, and keeps the first font listed for each. |
| FontFiles.GetLocalFonts | public/js/fontLoader.js:232-264 | Without the API it fails with the not-supported message. A NotAllowedError becomes the permission message, and other errors pass through. Otherwise the result is the de-duplicated list sorted by family. |
| FontFiles.LocalFontsSorted | public/js/fontLoader.js:255-257 | The local-font list is sorted by family and is a permutation of the de-duplicated fonts. |
| FontLoader.UploadFormat | public/js/fontLoader.js:108 | A stored format wins. Without one, the hint is the substring check over the whole data URL, which gives a known format. |
| FontLoader.UploadHintFromPayload | public/js/fontLoader.js:108 | An upload with no stored format and the TrueType data URL of the finding below gets the "opentype" hint in its @font-face rule. |
| FontLoader.LoadStepSpec | public/js/fontLoader.js:17-131 | A loaded font is a no-op success. Loading succeeds exactly for a system font, an upload with a URL, or a stylesheet font whose link loads. Success marks the font loaded; failure changes no bookkeeping. The head only grows, by at most one element, and other fonts are untouched. |
| FontLoader.LoadStepValid | public/js/fontLoader.js:17-131 | Loading keeps the registry invariant: distinct element serials, and every recorded element in the head. |
| FontLoader.UploadTwice | public/js/fontLoader.js:17-24 | Loading an uploaded font a second time changes nothing. |
| FontLoader.UnloadStepSpec | public/js/fontLoader.js:136-143 | Unloading drops the id from both records and removes exactly its element from the head. An unknown id changes nothing, and the invariant is kept. |
| FontLoader.LoadThenUnload | public/js/fontLoader.js:17-143 | Unloading a newly loaded font restores the registry, apart from the element counter. |
| FontLoader.LoadAllLoaded | public/js/fontLoader.js:208-219 | A batch load only adds loaded fonts, and each reported success is loaded. |
| FontLoader.LoadAllValid | public/js/fontLoader.js:208-219 | A batch load keeps the registry invariant. |
| FontLoader.FontRegistry.constructor | public/js/fontLoader.js:7-10 | The registry starts empty and valid. |
| FontLoader.FontRegistry.LoadFont | public/js/fontLoader.js:17-131 | The new state and the answer are those of the load specification, and the invariant is kept. |
| FontLoader.FontRegistry.UnloadFont | public/js/fontLoader.js:136-143 | The new state is that of the unload specification, and the invariant is kept. |
| FontLoader.FontRegistry.LoadFonts | public/js/fontLoader.js:208-219 | The state after the batch is the specified batch load. It reports the succeeded and failed counts, and they sum to the number of fonts. |
| FontLoader.FallbackStack | public/js/fontLoader.js:167-177 | A known category gets its own stack and an unknown one the sans-serif stack. Every stack ends in a generic family. |
| FontLoader.DocumentRoot.ApplyPreviewFont | public/js/fontLoader.js:149-162 | The preview variable holds the font's family and fallback stack. The mono variable is set only for monospace fonts, and nothing else changes. |
| Fonts.SlugShape | js/fontCatalog.js:150 | A slug has no white space and no upper-case letter. A name without white space is simply lower-cased. |
| JsNumber.NatToStringRoundTrip | public/js/fontManager.js:330 | `toString(radix)` output parses back to the number. |
| JsNumber.ParseIntIgnoresTail | js/fontCatalog.js:131 | `parseInt` reads the leading decimal digits and ignores what follows. |
| JsNumber.WeightListRoundTrip | js/fontCatalog.js:248 | A joined weight list splits and parses back to the weights. |
| UriEncoding.EncodeURIComponent | js/fontCatalog.js:249 | The encoding holds only unreserved characters and '%'. |
| UriEncoding.EncodeDecodeRoundTrip | js/fontCatalog.js:249 | Decoding the encoding of any string gives the string back. |
| Ordering.SortedSetSpec | js/fontCatalog.js:395 | The sorted set is strictly ascending and holds exactly the input's elements. |
| Ordering.SortBySpec | js/fontCatalog.js:230 | The key sort is sorted by the key and is a permutation of its input. |
| Seqs.FilterIsSubsequence | public/js/fontManager.js:114 | A filter keeps the order of what it keeps. |
| Seqs.FindIndex | public/js/fontManager.js:174 | The index found is the first match, and None means no element matches. |

## Left out

- Concurrency: `loadFonts` and `preloadFonts` run loads under `Promise.allSettled`. The model runs them one after another, in list order.
- The outcome of the font probe `document.fonts.load` is not modelled: the source ignores it, and `LoadFont` accepts it without using it. `document.fonts.ready` is not modelled either.
- `readFontFile` (FileReader), `preloadFonts` (link preloads) and `isLocalFontAccessSupported` are host calls. Support for local fonts is a parameter of `GetLocalFonts`.
- The text of the injected CSS is not modelled: a rule is a record of its fields. Family names and URLs are not escaped in the source, and the model does not escape them either.
- Lookups in plain JavaScript objects by a key inherited from the Object prototype are not modelled. This covers `FORMATS[ext]` for "constructor", the fallback stacks, `catalogCache[source]`, `getSetting("toString")` and the starter entry's source. The model's maps hold only their own keys.
- `Object.keys` order of the Bunny answer is the order of the entry list the model receives.
- Weights are integers. `parseInt` on fractional text, and -0, are not modelled.
- Browser storage keeps the document, not its JSON text. Unknown keys in an imported document are dropped, and corrupt stored text is modelled as nothing stored.
- A stored document always has a font list, because every write of the source stores one.
- `localeCompare` and `Array#sort()` on strings are modelled as code-point order. JavaScript compares UTF-16 code units and locale collation.
- Case mapping is ASCII-only. Non-ASCII upper-casing such as 'ß' to "SS" and the Kelvin sign are not modelled.
- Empty weight lists: `createGoogleFont` and `createBunnyFont` write "wght@undefined" for an empty list (`WeightParam`). `buildStylesheetUrl` joins it to "" and writes "wght@&display=swap", which no parse reads back as a weight list (`Css2UrlNoWeights`). That is why `Css2UrlRoundTrip` requires at least one weight.
- The Google API key is placed into the URL unencoded, as in the source, and the model does not parse it back.
- An empty string stands for an absent font id or `dateAdded`, as both are tested for truthiness.
- A fetched catalog file is taken as well-formed. JSON parse errors are modelled as a failed fetch.
- The source files other than `js/fontCatalog.js`, `public/js/fontManager.js` and `public/js/fontLoader.js` are not part of this model.
- Dates: `catalogFontToAppFont` reads the clock once per font. `GetStarterFonts` takes one `now` for every starter font.
- FontManager.ToggleTwice: an unset favourite becomes `false` after two toggles, so the list is restored only up to that flag.

## Findings

| source | as written | input that shows it | evidently intended | confidence | as-written member | corrected member |
|---|---|---|---|---|---|---|
| public/js/fontLoader.js:182-188 | The format checks search the whole data URL, base64 payload included. | "data:font/ttf;base64,AAotf" is detected as "opentype". | The format is taken from the media-type header before the first ','. This URL is "truetype". | medium, not executed | FontFiles.DataUrlPayloadMisread | FontFiles.DataUrlHeaderRead |
