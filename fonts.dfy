/** The records the font code passes around: a collection font, a catalog
    font and a catalog, the source tags, and the two string rules shared by
    several operations (the whitespace-to-hyphen slug and the case-insensitive
    name/family query). */
module Fonts {
  import opened Wrappers
  import opened JsText

  const GOOGLE := "google"
  const BUNNY := "bunny"
  const FONTSHARE := "fontshare"
  const CDN := "cdn"
  const SYSTEM := "system"
  const LOCAL := "local"
  const UPLOAD := "upload"

  /** A font of the user's collection. The empty string stands for an absent
      `id` or `dateAdded` (both are tested with `!`); `url` is None for null,
      `format` None where the record has none, `favorite` None where unset. */
  datatype AppFont = AppFont(
    id: string,
    name: string,
    family: string,
    source: string,
    url: Option<string>,
    format: Option<string>,
    weights: seq<int>,
    hasItalic: bool,
    category: string,
    favorite: Option<bool>,
    dateAdded: string)

  /** A font as a catalog lists it; `id` has no source prefix. */
  datatype CatalogFont = CatalogFont(
    id: string,
    name: string,
    family: string,
    category: string,
    weights: seq<int>,
    hasItalic: bool,
    popularity: nat)

  datatype Catalog = Catalog(
    version: Option<string>,
    source: string,
    sourceName: string,
    sourceUrl: Option<string>,
    fonts: seq<CatalogFont>)

  /** An entry of the Local Font Access API's answer. */
  datatype LocalFont = LocalFont(family: string, fullName: string, postscriptName: string, style: string)

  /** `s.toLowerCase().replace(/\s+/g, '-')`. */
  function Slug(s: string): string {
    ReplaceRuns(ToLower(s), IsSpace, '-')
  }

  /** A character that is not an ASCII capital. */
  predicate NotUpper(c: char) {
    !IsAsciiUpper(c)
  }

  /** A slug holds no white space and no upper-case letter; a name without
      white space only has its case lowered. */
  lemma {:induction false} SlugShape(s: string)
    ensures forall i :: 0 <= i < |Slug(s)| ==> !IsSpace(Slug(s)[i]) && !IsAsciiUpper(Slug(s)[i])
    ensures (forall i :: 0 <= i < |s| ==> !IsSpace(s[i])) ==> Slug(s) == ToLower(s)
  {
    var t := ToLower(s);
    ReplaceRunsClassFree(t, IsSpace, '-');
    ReplaceRunsKeeps(t, IsSpace, '-', NotUpper);
    if forall i :: 0 <= i < |s| ==> !IsSpace(s[i]) {
      ReplaceRunsNone(t, IsSpace, '-');
    }
  }

  /** `name.toLowerCase().includes(q) || family.toLowerCase().includes(q)` with
      `q` the lower-cased query. */
  predicate MatchesQuery(name: string, family: string, query: string) {
    var q := ToLower(query);
    Includes(ToLower(name), q) || Includes(ToLower(family), q)
  }
}
