/** The font loader: a registry of the fonts loaded into the page (the set of
    loaded ids and the map from id to the element injected for it), the
    elements it appends to the document head, and the preview variables it
    sets on the document root. What the browser reports (whether a linked
    stylesheet loaded, whether a system font answered the probe) is a
    parameter. */
module FontLoader {
  import opened Wrappers
  import opened JsText
  import opened Seqs
  import opened Fonts
  import opened FontFiles

  /** The `@font-face` rule written for an uploaded font: its family, the
      data URL with its `format()` hint, the weight range 100 to 900, normal
      style and swap display. */
  datatype FontFaceRule = FontFaceRule(
    family: string, src: string, format: string,
    weightMin: nat, weightMax: nat, style: string, display: string)

  /** An element the loader appends to the document head: a stylesheet
      `<link>` or a `<style>` holding one rule. `serial` tells apart elements
      that are otherwise alike, such as the link a failed load leaves behind
      and the one a retry appends. */
  datatype Element =
    | Link(serial: nat, domId: string, href: string)
    | Style(serial: nat, domId: string, rule: FontFaceRule)

  /** The loader's state: `loadedFonts`, `styleElements`, the elements of the
      document head in the order they were appended, and the next serial. */
  datatype Registry = Registry(
    loadedFonts: set<string>,
    styleElements: map<string, Element>,
    head: seq<Element>,
    nextSerial: nat)

  const EMPTY_REGISTRY := Registry({}, map[], [], 0)

  /** Elements are told apart by their serials, every serial was handed out,
      every recorded element is in the head, and no two ids share one. */
  ghost predicate Valid(r: Registry) {
    && (forall i, j :: 0 <= i < j < |r.head| ==> r.head[i].serial != r.head[j].serial)
    && (forall i :: 0 <= i < |r.head| ==> r.head[i].serial < r.nextSerial)
    && (forall id :: id in r.styleElements ==> r.styleElements[id] in r.head)
    && (forall a, b :: a in r.styleElements && b in r.styleElements && a != b ==>
          r.styleElements[a].serial != r.styleElements[b].serial)
  }

  function DomId(fontId: string): string { "font-" + fontId }

  predicate IsStylesheetSource(source: string) {
    source == GOOGLE || source == BUNNY || source == FONTSHARE || source == CDN
  }

  predicate IsSystemSource(source: string) {
    source == SYSTEM || source == LOCAL
  }

  /** `font.url` is truthy. */
  predicate HasUrl(font: AppFont) {
    font.url.Some? && font.url.value != ""
  }

  /** The `format()` hint of an upload: the stored format when it is set,
      else the substring checks over the whole data URL. */
  function UploadFormat(font: AppFont): (f: string)
    requires font.url.Some?
    ensures font.format.Some? && font.format.value != "" ==> f == font.format.value
    ensures font.format.None? || font.format.value == "" ==>
      f == DataUrlFormatAsWritten(font.url.value) && IsFormat(f)
  {
    if font.format.Some? && font.format.value != "" then font.format.value
    else DataUrlFormatAsWritten(font.url.value)
  }

  /** An upload with no stored format whose payload holds `otf` is
      declared as OpenType, whatever its media type says. */
  lemma UploadHintFromPayload(font: AppFont)
    requires font.url == Some("data:font/ttf;base64,AAotf") && font.format.None?
    ensures UploadFormat(font) == "opentype"
  {
    DataUrlPayloadMisread(font.url.value);
  }

  function UploadRule(font: AppFont): FontFaceRule
    requires font.url.Some?
  {
    FontFaceRule(font.family, font.url.value, UploadFormat(font), 100, 900, "normal", "swap")
  }

  /** `r` with `e` appended to the head and the serial used up. */
  function Append(r: Registry, e: Element): Registry {
    r.(head := r.head + [e], nextSerial := r.nextSerial + 1)
  }

  /** `loadFont`: the new registry and the answer. A stylesheet font whose
      link fails to load leaves its link in the head, records no element and
      is not marked loaded; an upload records its style element; a system or
      local font is marked loaded whatever the probe said. */
  function LoadStep(r: Registry, font: AppFont, linkLoads: bool): (Registry, bool) {
    if font.id in r.loadedFonts then (r, true)
    else if IsStylesheetSource(font.source) then
      if !HasUrl(font) then (r, false)
      else if font.id in r.styleElements then (r.(loadedFonts := r.loadedFonts + {font.id}), true)
      else
        var link := Link(r.nextSerial, DomId(font.id), font.url.value);
        var r1 := Append(r, link);
        if linkLoads then
          (r1.(styleElements := r1.styleElements[font.id := link], loadedFonts := r1.loadedFonts + {font.id}), true)
        else (r1, false)
    else if IsSystemSource(font.source) then (r.(loadedFonts := r.loadedFonts + {font.id}), true)
    else if font.source == UPLOAD then
      if !HasUrl(font) then (r, false)
      else
        var style := Style(r.nextSerial, DomId(font.id), UploadRule(font));
        var r1 := Append(r, style);
        (r1.(styleElements := r1.styleElements[font.id := style], loadedFonts := r1.loadedFonts + {font.id}), true)
    else (r, false)
  }

  /** What one `loadFont` promises. */
  lemma LoadStepSpec(r: Registry, font: AppFont, linkLoads: bool)
    // an id already loaded answers true and changes nothing
    ensures font.id in r.loadedFonts ==> LoadStep(r, font, linkLoads) == (r, true)
    // the answer, case by case
    ensures font.id !in r.loadedFonts ==> (LoadStep(r, font, linkLoads).1 <==>
      || (IsStylesheetSource(font.source) && HasUrl(font) && (font.id in r.styleElements || linkLoads))
      || IsSystemSource(font.source)
      || (font.source == UPLOAD && HasUrl(font)))
    // success marks the id loaded, failure leaves the loaded set and the records alone
    ensures LoadStep(r, font, linkLoads).1 ==>
      LoadStep(r, font, linkLoads).0.loadedFonts == r.loadedFonts + {font.id}
    ensures !LoadStep(r, font, linkLoads).1 ==>
      LoadStep(r, font, linkLoads).0.loadedFonts == r.loadedFonts
      && LoadStep(r, font, linkLoads).0.styleElements == r.styleElements
    // an unknown source, or a missing url, changes nothing at all
    ensures !IsStylesheetSource(font.source) && !IsSystemSource(font.source) && font.source != UPLOAD ==>
      LoadStep(r, font, linkLoads).0 == r
    ensures (IsStylesheetSource(font.source) || font.source == UPLOAD) && !HasUrl(font) ==>
      LoadStep(r, font, linkLoads).0 == r
    // the head only grows, by one element at most, and no other id's record changes
    ensures r.head <= LoadStep(r, font, linkLoads).0.head
    ensures |LoadStep(r, font, linkLoads).0.head| <= |r.head| + 1
    ensures forall id :: id != font.id ==>
      (id in LoadStep(r, font, linkLoads).0.styleElements <==> id in r.styleElements)
    ensures forall id :: id != font.id && id in r.styleElements ==>
      LoadStep(r, font, linkLoads).0.styleElements[id] == r.styleElements[id]
  {
  }

  /** A load keeps the registry well formed. */
  lemma LoadStepValid(r: Registry, font: AppFont, linkLoads: bool)
    requires Valid(r)
    ensures Valid(LoadStep(r, font, linkLoads).0)
  {
    var r' := LoadStep(r, font, linkLoads).0;
    if |r'.head| == |r.head| + 1 {
      var e := r'.head[|r.head|];
      AppendValid(r, e);
      AppendRecordValid(r, e, font.id);
    }
  }

  /** Appending an element with the next serial keeps the registry well formed ... */
  lemma AppendValid(r: Registry, e: Element)
    requires Valid(r) && e.serial == r.nextSerial
    ensures Valid(Append(r, e))
  {
    var r1 := Append(r, e);
    assert forall i :: 0 <= i < |r.head| ==> r1.head[i] == r.head[i];
  }

  /** ... and so does recording it for an id. */
  lemma AppendRecordValid(r: Registry, e: Element, id: string)
    requires Valid(r) && e.serial == r.nextSerial
    ensures Valid(Append(r, e).(styleElements := r.styleElements[id := e]))
  {
    var r1 := Append(r, e);
    AppendValid(r, e);
    var m := r.styleElements[id := e];
    forall a | a in m ensures m[a] in r1.head {
      if a != id {
        assert r.styleElements[a] in r.head;
      }
    }
  }

  /** Loading the same upload twice in a row appends one style element and
      records one element for the id. */
  lemma UploadTwice(r: Registry, font: AppFont)
    requires font.source == UPLOAD && HasUrl(font) && font.id !in r.loadedFonts
    ensures var once := LoadStep(r, font, true).0;
      && LoadStep(once, font, true) == (once, true)
      && once.head == r.head + [Style(r.nextSerial, DomId(font.id), UploadRule(font))]
      && once.styleElements == r.styleElements[font.id := Style(r.nextSerial, DomId(font.id), UploadRule(font))]
  {
  }

  /** `unloadFont`. */
  function UnloadStep(r: Registry, fontId: string): Registry {
    if fontId in r.styleElements then
      var e := r.styleElements[fontId];
      Registry(r.loadedFonts - {fontId}, r.styleElements - {fontId}, Filter(r.head, Other(e)), r.nextSerial)
    else r.(loadedFonts := r.loadedFonts - {fontId})
  }

  function Other(e: Element): Element -> bool {
    x => x != e
  }

  /** A filter by serials keeps serials apart. */
  lemma {:induction false} FilterKeepsSerialsApart(s: seq<Element>, p: Element -> bool)
    requires forall i, j :: 0 <= i < j < |s| ==> s[i].serial != s[j].serial
    ensures forall i, j :: 0 <= i < j < |Filter(s, p)| ==> Filter(s, p)[i].serial != Filter(s, p)[j].serial
  {
    if s != [] {
      var tail := s[1..];
      assert forall i, j :: 0 <= i < j < |tail| ==> tail[i].serial != tail[j].serial by {
        forall i, j | 0 <= i < j < |tail| ensures tail[i].serial != tail[j].serial {
          assert tail[i] == s[i + 1] && tail[j] == s[j + 1];
        }
      }
      FilterKeepsSerialsApart(tail, p);
      var rest := Filter(tail, p);
      if p(s[0]) {
        SerialNotInFilter(s, p);
        ConsSerialsApart(s[0], rest);
      } else {
        assert Filter(s, p) == rest;
      }
    }
  }

  /** What a filter keeps of the tail does not share the first serial. */
  lemma SerialNotInFilter(s: seq<Element>, p: Element -> bool)
    requires s != []
    requires forall j :: 0 < j < |s| ==> s[0].serial != s[j].serial
    ensures forall k :: 0 <= k < |Filter(s[1..], p)| ==> Filter(s[1..], p)[k].serial != s[0].serial
  {
    var rest := Filter(s[1..], p);
    forall k | 0 <= k < |rest| ensures rest[k].serial != s[0].serial {
      assert rest[k] in s[1..];
      var m :| 0 <= m < |s[1..]| && s[1..][m] == rest[k];
      assert s[m + 1] == rest[k];
    }
  }

  /** An element whose serial the rest does not have keeps serials apart. */
  lemma ConsSerialsApart(e: Element, rest: seq<Element>)
    requires forall i, j :: 0 <= i < j < |rest| ==> rest[i].serial != rest[j].serial
    requires forall k :: 0 <= k < |rest| ==> rest[k].serial != e.serial
    ensures forall i, j :: 0 <= i < j < |[e] + rest| ==> ([e] + rest)[i].serial != ([e] + rest)[j].serial
  {
    var t := [e] + rest;
    forall i, j | 0 <= i < j < |t| ensures t[i].serial != t[j].serial {
      assert t[j] == rest[j - 1];
      if i > 0 {
        assert t[i] == rest[i - 1];
      }
    }
  }

  /** Removing an element that occurs once shortens the head by one. */
  lemma {:induction false} FilterOtherCount(s: seq<Element>, e: Element)
    requires forall i, j :: 0 <= i < j < |s| ==> s[i].serial != s[j].serial
    requires e in s
    ensures |Filter(s, Other(e))| == |s| - 1
  {
    if s[0] == e {
      FilterAll(s[1..], Other(e));
    } else {
      FilterOtherCount(s[1..], e);
    }
  }

  /** What one `unloadFont` promises: the id leaves both the loaded set and
      the records, exactly its element leaves the head, and nothing else
      changes; an id the registry does not know changes nothing. */
  lemma UnloadStepSpec(r: Registry, fontId: string)
    requires Valid(r)
    ensures UnloadStep(r, fontId).loadedFonts == r.loadedFonts - {fontId}
    ensures UnloadStep(r, fontId).styleElements == r.styleElements - {fontId}
    ensures fontId !in r.styleElements ==> UnloadStep(r, fontId).head == r.head
    ensures fontId in r.styleElements ==>
      r.styleElements[fontId] !in UnloadStep(r, fontId).head
      && |UnloadStep(r, fontId).head| == |r.head| - 1
      && IsSubsequence(UnloadStep(r, fontId).head, r.head)
    ensures fontId !in r.loadedFonts && fontId !in r.styleElements ==> UnloadStep(r, fontId) == r
    ensures Valid(UnloadStep(r, fontId))
  {
    if fontId in r.styleElements {
      var e := r.styleElements[fontId];
      var h := Filter(r.head, Other(e));
      FilterOtherCount(r.head, e);
      FilterIsSubsequence(r.head, Other(e));
      FilterKeepsSerialsApart(r.head, Other(e));
      var r' := UnloadStep(r, fontId);
      forall id | id in r'.styleElements ensures r'.styleElements[id] in h {
        var x := r.styleElements[id];
        assert x.serial != e.serial;
        assert Other(e)(x);
      }
    }
  }

  /** Unloading a font that a load has just injected gives back the registry
      as it was, but for the serial used up. */
  lemma LoadThenUnload(r: Registry, font: AppFont, linkLoads: bool)
    requires Valid(r)
    requires font.id !in r.loadedFonts && font.id !in r.styleElements
    requires LoadStep(r, font, linkLoads).1
    ensures UnloadStep(LoadStep(r, font, linkLoads).0, font.id) == r
         || UnloadStep(LoadStep(r, font, linkLoads).0, font.id) == r.(nextSerial := r.nextSerial + 1)
  {
    var r1 := LoadStep(r, font, linkLoads).0;
    if |r1.head| == |r.head| + 1 {
      UnloadAppended(r, r1.head[|r.head|], font.id);
    }
  }

  /** Unloading the id an appended element was just recorded for. */
  lemma UnloadAppended(r: Registry, e: Element, id: string)
    requires e.serial == r.nextSerial
    requires forall i :: 0 <= i < |r.head| ==> r.head[i].serial < r.nextSerial
    requires id !in r.loadedFonts && id !in r.styleElements
    ensures UnloadStep(Append(r, e).(styleElements := r.styleElements[id := e],
      loadedFonts := r.loadedFonts + {id}), id) == r.(nextSerial := r.nextSerial + 1)
  {
    var m := r.styleElements[id := e];
    var h := r.head + [e];
    FilterAppended(r.head, e);
    assert m - {id} == r.styleElements;
    assert (r.loadedFonts + {id}) - {id} == r.loadedFonts;
    assert UnloadStep(Registry(r.loadedFonts + {id}, m, h, r.nextSerial + 1), id)
        == Registry(r.loadedFonts, r.styleElements, r.head, r.nextSerial + 1);
  }

  /** Filtering out an element appended with a fresh serial gives back the
      elements before it. */
  lemma FilterAppended(s: seq<Element>, e: Element)
    requires forall i :: 0 <= i < |s| ==> s[i].serial < e.serial
    ensures Filter(s + [e], Other(e)) == s
  {
    forall i | 0 <= i < |s| ensures Other(e)(s[i]) {
      assert s[i].serial < e.serial;
    }
    FilterAll(s, Other(e));
    FilterAppend(s, e, Other(e));
  }

  /** `loadFonts`, one load after another: the final registry and the
      answer of each load. */
  function LoadAll(r: Registry, fonts: seq<AppFont>, linkLoads: seq<bool>): (res: (Registry, seq<bool>))
    requires |linkLoads| == |fonts|
    ensures |res.1| == |fonts|
    decreases |fonts|
  {
    if fonts == [] then (r, [])
    else
      var n := |fonts| - 1;
      var prior := LoadAll(r, fonts[..n], linkLoads[..n]);
      var step := LoadStep(prior.0, fonts[n], linkLoads[n]);
      (step.0, prior.1 + [step.1])
  }

  /** A batch only adds to the loaded set, and every font reported loaded is
      in it afterwards. */
  lemma {:induction false} LoadAllLoaded(r: Registry, fonts: seq<AppFont>, linkLoads: seq<bool>)
    requires |linkLoads| == |fonts|
    ensures r.loadedFonts <= LoadAll(r, fonts, linkLoads).0.loadedFonts
    ensures forall i :: 0 <= i < |fonts| && LoadAll(r, fonts, linkLoads).1[i] ==>
      fonts[i].id in LoadAll(r, fonts, linkLoads).0.loadedFonts
    decreases |fonts|
  {
    if fonts != [] {
      var n := |fonts| - 1;
      LoadAllLoaded(r, fonts[..n], linkLoads[..n]);
      var prior := LoadAll(r, fonts[..n], linkLoads[..n]);
      LoadStepSpec(prior.0, fonts[n], linkLoads[n]);
      forall i | 0 <= i < n ensures fonts[..n][i] == fonts[i] {}
    }
  }

  /** A batch keeps the registry well formed. */
  lemma {:induction false} LoadAllValid(r: Registry, fonts: seq<AppFont>, linkLoads: seq<bool>)
    requires |linkLoads| == |fonts| && Valid(r)
    ensures Valid(LoadAll(r, fonts, linkLoads).0)
    decreases |fonts|
  {
    if fonts != [] {
      var n := |fonts| - 1;
      LoadAllValid(r, fonts[..n], linkLoads[..n]);
      LoadStepValid(LoadAll(r, fonts[..n], linkLoads[..n]).0, fonts[n], linkLoads[n]);
    }
  }

  function Succeeded(ok: bool): bool { ok }

  function Failed(ok: bool): bool { !ok }

  /** The module-level `loadedFonts` and `styleElements`, with the document
      head they add to. */
  class FontRegistry {
    var loadedFonts: set<string>
    var styleElements: map<string, Element>
    var head: seq<Element>
    var nextSerial: nat

    function State(): Registry
      reads this
    {
      Registry(loadedFonts, styleElements, head, nextSerial)
    }

    constructor ()
      ensures State() == EMPTY_REGISTRY && Valid(State())
    {
      loadedFonts, styleElements, head, nextSerial := {}, map[], [], 0;
    }

    /** `loadFont`; `linkLoads` is whether an appended stylesheet link fires
        `load` rather than `error`, and `probeOk` whether a system font
        answered the probe, which does not change the outcome. */
    method LoadFont(font: AppFont, linkLoads: bool, probeOk: bool) returns (ok: bool)
      modifies this
      ensures (State(), ok) == LoadStep(old(State()), font, linkLoads)
      ensures Valid(old(State())) ==> Valid(State())
    {
      if Valid(State()) {
        LoadStepValid(State(), font, linkLoads);
      }
      if font.id in loadedFonts {
        return true;
      }
      if IsStylesheetSource(font.source) {
        if !HasUrl(font) {
          return false;
        }
        if font.id !in styleElements {
          var link := Link(nextSerial, DomId(font.id), font.url.value);
          head := head + [link];
          nextSerial := nextSerial + 1;
          if !linkLoads {
            return false;
          }
          styleElements := styleElements[font.id := link];
        }
      } else if IsSystemSource(font.source) {
        // the probe's outcome is only reported, never acted on
      } else if font.source == UPLOAD {
        if !HasUrl(font) {
          return false;
        }
        var style := Style(nextSerial, DomId(font.id), UploadRule(font));
        head := head + [style];
        nextSerial := nextSerial + 1;
        styleElements := styleElements[font.id := style];
      } else {
        return false;
      }
      loadedFonts := loadedFonts + {font.id};
      ok := true;
    }

    /** `unloadFont`. */
    method UnloadFont(fontId: string)
      modifies this
      ensures State() == UnloadStep(old(State()), fontId)
      ensures Valid(old(State())) ==> Valid(State())
    {
      if Valid(State()) {
        UnloadStepSpec(State(), fontId);
      }
      if fontId in styleElements {
        var element := styleElements[fontId];
        head := Filter(head, Other(element));
        styleElements := styleElements - {fontId};
      }
      loadedFonts := loadedFonts - {fontId};
    }

    /** `loadFonts`, with the loads run one after another; `loaded` counts
        the answers true and `failed` the answers false. */
    method LoadFonts(fonts: seq<AppFont>, linkLoads: seq<bool>, probes: seq<bool>) returns (loaded: nat, failed: nat)
      requires |linkLoads| == |fonts| && |probes| == |fonts|
      modifies this
      ensures State() == LoadAll(old(State()), fonts, linkLoads).0
      ensures loaded == |Filter(LoadAll(old(State()), fonts, linkLoads).1, Succeeded)|
      ensures failed == |Filter(LoadAll(old(State()), fonts, linkLoads).1, Failed)|
      ensures loaded + failed == |fonts|
    {
      var results: seq<bool> := [];
      for i := 0 to |fonts|
        invariant (State(), results) == LoadAll(old(State()), fonts[..i], linkLoads[..i])
      {
        var ok := LoadFont(fonts[i], linkLoads[i], probes[i]);
        assert fonts[..i + 1][..i] == fonts[..i];
        assert linkLoads[..i + 1][..i] == linkLoads[..i];
        results := results + [ok];
      }
      assert fonts[..|fonts|] == fonts;
      assert linkLoads[..|linkLoads|] == linkLoads;
      loaded := |Filter(results, Succeeded)|;
      failed := |Filter(results, Failed)|;
      FilterComplementCount(results, Succeeded, Failed);
    }
  }

  // ---------------------------------------------------------------------
  // Preview variables
  // ---------------------------------------------------------------------

  const SANS_STACK := "system-ui, -apple-system, BlinkMacSystemFont, \"Segoe UI\", sans-serif"
  const SERIF_STACK := "Georgia, \"Times New Roman\", Times, serif"
  const MONO_STACK := "\"SF Mono\", Monaco, \"Cascadia Code\", \"Roboto Mono\", Consolas, monospace"
  const DISPLAY_STACK := "system-ui, sans-serif"
  const HANDWRITING_STACK := "\"Brush Script MT\", cursive"

  /** The fallback stacks by category. */
  const STACKS: map<string, string> := map[
    "sans-serif" := SANS_STACK,
    "serif" := SERIF_STACK,
    "monospace" := MONO_STACK,
    "display" := DISPLAY_STACK,
    "handwriting" := HANDWRITING_STACK]

  /** `getFallbackStack`: the category's stack, the sans-serif one for any
      other category; every stack ends in a generic family. */
  function FallbackStack(category: string): (r: string)
    ensures category in STACKS ==> r == STACKS[category]
    ensures category !in STACKS ==> r == STACKS["sans-serif"]
    ensures EndsWith(r, "serif") || EndsWith(r, "monospace") || EndsWith(r, "cursive")
  {
    var key := if category in STACKS then category else "sans-serif";
    StackEndsGeneric(key);
    STACKS[key]
  }

  /** A stack ends in the generic family its category falls back on. */
  lemma StackEndsGeneric(key: string)
    requires key in STACKS
    ensures EndsWith(STACKS[key], "serif") || EndsWith(STACKS[key], "monospace") || EndsWith(STACKS[key], "cursive")
  {
    if key == "sans-serif" {
      assert EndsWith(SANS_STACK, "serif");
    } else if key == "serif" {
      assert EndsWith(SERIF_STACK, "serif");
    } else if key == "monospace" {
      assert EndsWith(MONO_STACK, "monospace");
    } else if key == "display" {
      assert EndsWith(DISPLAY_STACK, "serif");
    } else {
      assert EndsWith(HANDWRITING_STACK, "cursive");
    }
  }

  /** The `font-family` value of the preview: the quoted family, then the stack. */
  function PreviewFamily(font: AppFont): string {
    "\"" + font.family + "\", " + FallbackStack(font.category)
  }

  const PREVIEW_FONT := "--preview-font"
  const PREVIEW_FONT_MONO := "--preview-font-mono"

  /** The custom properties set on the document root. */
  class DocumentRoot {
    var style: map<string, string>

    constructor ()
      ensures style == map[]
    {
      style := map[];
    }

    /** `applyPreviewFont`: the preview variable always, the monospace one
        too for a monospace font, every other property as it was. */
    method ApplyPreviewFont(font: AppFont)
      modifies this
      ensures PREVIEW_FONT in style && style[PREVIEW_FONT] == PreviewFamily(font)
      ensures font.category == "monospace" ==> style == old(style)[PREVIEW_FONT := PreviewFamily(font)][PREVIEW_FONT_MONO := PreviewFamily(font)]
      ensures font.category != "monospace" ==> style == old(style)[PREVIEW_FONT := PreviewFamily(font)]
    {
      var fontFamily := PreviewFamily(font);
      style := style[PREVIEW_FONT := fontFamily];
      if font.category == "monospace" {
        style := style[PREVIEW_FONT_MONO := fontFamily];
      }
    }
  }
}
