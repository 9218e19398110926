/** The pure helpers of the font loader that work on file names, data URLs
    and the answer of the Local Font Access API: the `format()` hint of an
    uploaded font, the upload validator, the display name drawn from a file
    name, and the de-duplication of local fonts by family. */
module FontFiles {
  import opened Wrappers
  import opened JsText
  import opened Ordering
  import opened Seqs
  import opened Fonts

  /** The `format()` hints the loader can produce. */
  predicate IsFormat(f: string) {
    f == "woff2" || f == "woff" || f == "opentype" || f == "truetype" || f == "embedded-opentype"
  }

  // ---------------------------------------------------------------------
  // Format of a data URL
  // ---------------------------------------------------------------------

  /** The data-URL format check as written: substring tests, in the order
      woff2, woff, opentype/otf, truetype/ttf, over the WHOLE URL, base64
      payload included; truetype when nothing matches. */
  function DataUrlFormatAsWritten(dataUrl: string): (r: string)
    ensures IsFormat(r) && r != "embedded-opentype"
    ensures r == "woff2" <==> Includes(dataUrl, "woff2")
    ensures r == "woff" <==> !Includes(dataUrl, "woff2") && Includes(dataUrl, "woff")
    ensures r == "opentype" <==>
      !Includes(dataUrl, "woff2") && !Includes(dataUrl, "woff") && (Includes(dataUrl, "opentype") || Includes(dataUrl, "otf"))
    ensures r == "truetype" <==>
      !Includes(dataUrl, "woff2") && !Includes(dataUrl, "woff") && !Includes(dataUrl, "opentype") && !Includes(dataUrl, "otf")
  {
    if Includes(dataUrl, "woff2") then "woff2"
    else if Includes(dataUrl, "woff") then "woff"
    else if Includes(dataUrl, "opentype") || Includes(dataUrl, "otf") then "opentype"
    else if Includes(dataUrl, "truetype") || Includes(dataUrl, "ttf") then "truetype"
    else "truetype"
  }

  /** The part of a data URL before its first comma: `data:` followed by the
      media type and the `;base64` marker (RFC 2397, section 3). */
  function DataUrlHeader(dataUrl: string): (r: string)
    ensures r <= dataUrl
    ensures ',' !in r
  {
    match IndexOf(dataUrl, ",")
    case None =>
      assert forall k :: 0 <= k < |dataUrl| ==> dataUrl[k] != ',' by {
        forall k | 0 <= k < |dataUrl| ensures dataUrl[k] != ',' {
          assert !OccursAt(dataUrl, ",", k);
        }
      }
      dataUrl
    case Some(i) =>
      assert forall k :: 0 <= k < i ==> dataUrl[k] != ',' by {
        forall k | 0 <= k < i ensures dataUrl[k] != ',' {
          assert !OccursAt(dataUrl, ",", k);
        }
      }
      dataUrl[..i]
  }

  /** The same checks on the header alone: the format named by the media type. */
  function DataUrlFormat(dataUrl: string): (r: string)
    ensures IsFormat(r) && r != "embedded-opentype"
  {
    DataUrlFormatAsWritten(DataUrlHeader(dataUrl))
  }

  /** The format of a data URL depends on its header only, whatever the payload. */
  lemma DataUrlFormatOfHeader(header: string, payload: string)
    requires ',' !in header
    ensures DataUrlFormat(header + "," + payload) == DataUrlFormatAsWritten(header)
  {
    IndexOfSkip(header, "," + payload, ",");
    assert IndexOf("," + payload, ",") == Some(0);
    assert (header + "," + payload) == header + ("," + payload);
    assert (header + "," + payload)[..|header|] == header;
  }

  /** A pattern is not found where its first character does not occur. */
  lemma IndexOfMissing(s: string, t: string)
    requires |t| > 0 && t[0] !in s
    ensures IndexOf(s, t) == None
  {
    forall k | 0 <= k <= |s| ensures !OccursAt(s, t, k) {
      if k < |s| {
        assert s[k] != t[0];
      }
    }
  }

  /** A pattern whose first character occurs once, followed by a character
      other than the pattern's second, is not found. */
  lemma {:induction false} NotFoundAtOnlyStart(a: string, b: string, t: string)
    requires |t| >= 2 && t[0] !in a && t[0] !in b
    requires |b| > 0 && b[0] != t[1]
    ensures !Includes(a + [t[0]] + b, t)
  {
    var ob := [t[0]] + b;
    assert a + [t[0]] + b == a + ob;
    assert ob[1..] == b;
    IndexOfMissing(b, t);
    assert !OccursAt(ob, t, 0) by { assert ob[1] == b[0]; }
    IndexOfSkip(a, ob, t);
  }

  /** A header with no `w` and a single `o` that starts neither `otf` nor
      `opentype` is hinted as TrueType. */
  lemma TrueTypeHeader(a: string, b: string)
    requires 'w' !in a && 'w' !in b && 'o' !in a && 'o' !in b
    requires |b| > 0 && b[0] != 't' && b[0] != 'p'
    ensures DataUrlFormatAsWritten(a + ['o'] + b) == "truetype"
  {
    var s := a + ['o'] + b;
    assert 'w' !in s;
    IndexOfMissing(s, "woff2");
    IndexOfMissing(s, "woff");
    NotFoundAtOnlyStart(a, b, "otf");
    NotFoundAtOnlyStart(a, b, "opentype");
  }

  /** A data URL whose header is such a header is hinted as TrueType,
      whatever its payload. */
  lemma TrueTypeDataUrl(a: string, b: string, payload: string)
    requires 'w' !in a && 'w' !in b && 'o' !in a && 'o' !in b && ',' !in a && ',' !in b
    requires |b| > 0 && b[0] != 't' && b[0] != 'p'
    ensures DataUrlFormat(a + ['o'] + b + "," + payload) == "truetype"
  {
    var h := a + ['o'] + b;
    assert ',' !in h;
    DataUrlFormatOfHeader(h, payload);
    TrueTypeHeader(a, b);
  }

  /** A TrueType upload whose base64 payload happens to hold the letters
      `otf` is hinted as OpenType by the check as written ... */
  lemma DataUrlPayloadMisread(url: string)
    requires url == "data:font/ttf;base64,AAotf"
    ensures DataUrlFormatAsWritten(url) == "opentype"
  {
    assert OccursAt(url, "otf", 23);
    assert forall k :: 0 <= k < |url| ==> url[k] != 'w';
    OtfHint(url);
  }

  /** With no `w` anywhere, an `otf` anywhere makes the hint OpenType. */
  lemma OtfHint(url: string)
    requires 'w' !in url && Includes(url, "otf")
    ensures DataUrlFormatAsWritten(url) == "opentype"
  {
    IndexOfMissing(url, "woff2");
    IndexOfMissing(url, "woff");
  }

  /** ... and as TrueType by the check on the header, which its media type names. */
  lemma DataUrlHeaderRead(url: string)
    requires url == "data:font/ttf;base64,AAotf"
    ensures DataUrlFormat(url) == "truetype"
  {
    var a, b, p := url[..6], url[7..20], url[21..];
    assert url == a + ['o'] + b + "," + p;
    TrueTypeDataUrl(a, b, p);
  }

  // ---------------------------------------------------------------------
  // Format and validity from a file name
  // ---------------------------------------------------------------------

  /** `filename.split('.').pop().toLowerCase()`: the lower-cased text after
      the last dot, the whole name when there is none. */
  function Extension(filename: string): string {
    ToLower(LastPiece(filename, '.'))
  }

  /** The extension table of the format lookup. */
  const FORMATS: map<string, string> :=
    map["woff2" := "woff2", "woff" := "woff", "otf" := "opentype", "ttf" := "truetype",
        "eot" := "embedded-opentype"]

  /** The format of an uploaded file from its extension, truetype when the
      table does not list it. */
  function FormatFromFilename(filename: string): (r: string)
    ensures IsFormat(r)
    ensures Extension(filename) !in FORMATS ==> r == "truetype"
  {
    var ext := Extension(filename);
    if ext in FORMATS then FORMATS[ext] else "truetype"
  }

  /** The extension is whatever follows the last dot, in any case. */
  lemma ExtensionOf(base: string, ext: string)
    requires '.' !in ext
    ensures Extension(base + "." + ext) == ToLower(ext)
    ensures FormatFromFilename(base + "." + ext) ==
      if ToLower(ext) in FORMATS then FORMATS[ToLower(ext)] else "truetype"
  {
    LastPieceAfterSeparator(base, ext, '.');
  }

  const VALID_TYPES: seq<string> := [
    "font/woff2", "font/woff", "font/otf", "font/ttf",
    "application/font-woff2", "application/font-woff",
    "application/vnd.ms-fontobject", "application/x-font-ttf", "application/x-font-opentype"]

  const VALID_EXTENSIONS: seq<string> := ["woff2", "woff", "otf", "ttf", "eot"]

  /** An upload is accepted by its MIME type or by its extension. */
  predicate IsValidFontFile(name: string, mimeType: string) {
    mimeType in VALID_TYPES || Extension(name) in VALID_EXTENSIONS
  }

  /** The extensions the validator accepts are exactly those the format
      table knows, so a file accepted by its name never gets the default
      format; a file whose extension is not listed is accepted by its
      MIME type alone. */
  lemma ValidExtensionsHaveFormats(name: string, mimeType: string)
    ensures Extension(name) in VALID_EXTENSIONS <==> Extension(name) in FORMATS
    ensures Extension(name) in VALID_EXTENSIONS ==>
      IsValidFontFile(name, mimeType) && FormatFromFilename(name) == FORMATS[Extension(name)]
    ensures Extension(name) !in FORMATS ==> (IsValidFontFile(name, mimeType) <==> mimeType in VALID_TYPES)
  {
  }

  // ---------------------------------------------------------------------
  // Display name from a file name
  // ---------------------------------------------------------------------

  /** The position of the last dot, None when there is none. */
  function LastDot(s: string): (r: Option<nat>)
    ensures r.Some? ==> r.value < |s| && s[r.value] == '.' && '.' !in s[r.value + 1..]
    ensures r.None? ==> '.' !in s
  {
    if s == [] then None
    else if s[|s| - 1] == '.' then Some(|s| - 1)
    else
      var r := LastDot(s[..|s| - 1]);
      assert forall k :: 0 <= k < |s| - 1 ==> s[k] == s[..|s| - 1][k];
      r
  }

  /** `s.replace(/\.[^/.]+$/, '')`: a final dot followed by one or more
      characters other than `/` and `.` is removed. */
  function RemoveExtension(s: string): (r: string)
    ensures r == s || exists k :: (0 <= k < |s| - 1 && r == s[..k] && s[k] == '.'
      && '.' !in s[k + 1..] && '/' !in s[k + 1..])
  {
    match LastDot(s)
    case None => s
    case Some(k) => if k + 1 < |s| && '/' !in s[k + 1..] then s[..k] else s
  }

  /** A name with an extension loses exactly the extension. */
  lemma RemoveExtensionOf(base: string, ext: string)
    requires ext != "" && '.' !in ext && '/' !in ext
    ensures RemoveExtension(base + "." + ext) == base
  {
    var s := base + "." + ext;
    var k := |base|;
    assert s[k] == '.';
    assert s[k + 1..] == ext;
    assert s[..k] == base;
    var d := LastDot(s);
    assert d.Some?;
  }

  /** `replace(/[-_]/g, ' ')`. */
  function HyphensToSpaces(s: string): (r: string)
    ensures |r| == |s|
    ensures forall i :: 0 <= i < |r| ==> r[i] != '-' && r[i] != '_' && (r[i] == ' ' || r[i] == s[i])
  {
    seq(|s|, i requires 0 <= i < |s| => if s[i] == '-' || s[i] == '_' then ' ' else s[i])
  }

  /** `replace(/([a-z])([A-Z])/g, '$1 $2')`: a space between every ASCII
      lower-case letter and the upper-case letter right after it. */
  function CamelSplit(s: string): string
    decreases |s|
  {
    if |s| >= 2 && IsAsciiLower(s[0]) && IsAsciiUpper(s[1]) then [s[0], ' ', s[1]] + CamelSplit(s[2..])
    else if s == [] then []
    else [s[0]] + CamelSplit(s[1..])
  }

  /** `word.charAt(0).toUpperCase() + word.slice(1).toLowerCase()`. */
  function Capitalize(w: string): (r: string)
    ensures |r| == |w|
  {
    if w == [] then [] else [UpperChar(w[0])] + ToLower(w[1..])
  }

  function CapitalizeAll(words: seq<string>): (r: seq<string>)
    ensures |r| == |words|
  {
    seq(|words|, i requires 0 <= i < |words| => Capitalize(words[i]))
  }

  /** The name before it is cut into words: extension removed, `-` and `_`
      turned into spaces, camel case split, white-space runs made one space,
      both ends trimmed. */
  function NormalizeName(filename: string): string {
    Trim(ReplaceRuns(CamelSplit(HyphensToSpaces(RemoveExtension(filename))), IsSpace, ' '))
  }

  /** `extractFontName`: the normalised name with every word capitalised. */
  function ExtractFontName(filename: string): string {
    Join(CapitalizeAll(Split(NormalizeName(filename), ' ')), " ")
  }

  /** A word of a display name: not empty, no space, upper-case first and
      lower-case after as far as ASCII letters go. */
  predicate IsTitleWord(w: string) {
    && w != []
    && ' ' !in w
    && !IsAsciiLower(w[0])
    && forall j :: 1 <= j < |w| ==> !IsAsciiUpper(w[j])
  }

  /** Every character of `s` satisfies `ok`. */
  ghost predicate AllChars(s: string, ok: char -> bool) {
    forall i :: 0 <= i < |s| ==> ok(s[i])
  }

  lemma {:induction false} CamelSplitChars(s: string, ok: char -> bool)
    requires ok(' ') && AllChars(s, ok)
    ensures AllChars(CamelSplit(s), ok)
    decreases |s|
  {
    if |s| >= 2 && IsAsciiLower(s[0]) && IsAsciiUpper(s[1]) {
      CamelSplitChars(s[2..], ok);
      var r := CamelSplit(s[2..]);
      assert forall i :: 3 <= i < 3 + |r| ==> CamelSplit(s)[i] == r[i - 3];
    } else if s != [] {
      CamelSplitChars(s[1..], ok);
      var r := CamelSplit(s[1..]);
      assert forall i :: 1 <= i < 1 + |r| ==> CamelSplit(s)[i] == r[i - 1];
    }
  }

  /** No lower-case letter is directly followed by an upper-case one. */
  predicate NoCamelPair(s: string) {
    forall i :: 0 <= i < |s| - 1 ==> !(IsAsciiLower(s[i]) && IsAsciiUpper(s[i + 1]))
  }

  lemma CamelSplitHead(t: string)
    requires t != []
    ensures CamelSplit(t) != [] && CamelSplit(t)[0] == t[0]
  {
  }

  /** After the split every upper-case letter that followed a lower-case one
      stands after a space. */
  lemma {:induction false} CamelSplitSeparates(s: string)
    ensures NoCamelPair(CamelSplit(s))
    decreases |s|
  {
    if |s| >= 2 && IsAsciiLower(s[0]) && IsAsciiUpper(s[1]) {
      var r := CamelSplit(s[2..]);
      CamelSplitSeparates(s[2..]);
      var t := [s[0], ' ', s[1]] + r;
      assert CamelSplit(s) == t;
      forall i | 0 <= i < |t| - 1 ensures !(IsAsciiLower(t[i]) && IsAsciiUpper(t[i + 1])) {
        if i >= 3 {
          assert t[i] == r[i - 3] && t[i + 1] == r[i - 2];
        }
      }
    } else if s != [] {
      var r := CamelSplit(s[1..]);
      CamelSplitSeparates(s[1..]);
      var t := [s[0]] + r;
      assert CamelSplit(s) == t;
      if |s| >= 2 {
        CamelSplitHead(s[1..]);
      }
      forall i | 0 <= i < |t| - 1 ensures !(IsAsciiLower(t[i]) && IsAsciiUpper(t[i + 1])) {
        if i >= 1 {
          assert t[i] == r[i - 1] && t[i + 1] == r[i];
        }
      }
    }
  }

  /** A name with no lower-upper pair is left as it is. */
  lemma {:induction false} CamelSplitKeeps(s: string)
    requires NoCamelPair(s)
    ensures CamelSplit(s) == s
    decreases |s|
  {
    if s != [] {
      assert !(|s| >= 2 && IsAsciiLower(s[0]) && IsAsciiUpper(s[1]));
      var t := s[1..];
      assert NoCamelPair(t) by {
        forall i | 0 <= i < |t| - 1 ensures !(IsAsciiLower(t[i]) && IsAsciiUpper(t[i + 1])) {
          assert t[i] == s[i + 1] && t[i + 1] == s[i + 2];
        }
      }
      CamelSplitKeeps(t);
      assert s == [s[0]] + t;
    }
  }

  /** `trim` keeps one contiguous stretch of its input. */
  lemma TrimSlice(s: string) returns (a: nat)
    ensures a + |Trim(s)| <= |s| && Trim(s) == s[a..a + |Trim(s)|]
  {
    var d := DropRun(s, IsSpace);
    a := |s| - |d|;
    assert Trim(s) == d[..|Trim(s)|];
  }

  lemma {:induction false} SplitChars(s: string, sep: char, ok: char -> bool)
    requires AllChars(s, ok)
    ensures forall k :: 0 <= k < |Split(s, sep)| ==> AllChars(Split(s, sep)[k], ok)
  {
    if s != [] {
      SplitChars(s[1..], sep, ok);
    }
  }

  /** With no separator at either end and never two in a row, every piece of
      a split is non-empty. */
  lemma {:induction false} SplitNonEmpty(s: string, sep: char)
    requires s != [] && s[0] != sep && s[|s| - 1] != sep
    requires forall i :: 0 <= i < |s| - 1 && s[i] == sep ==> s[i + 1] != sep
    ensures forall k :: 0 <= k < |Split(s, sep)| ==> Split(s, sep)[k] != []
  {
    if |s| > 1 {
      if s[1] != sep {
        SplitNonEmpty(s[1..], sep);
      } else {
        var t := s[2..];
        assert s[1..][1..] == t;
        SplitNonEmpty(t, sep);
        assert Split(s[1..], sep) == [""] + Split(t, sep);
      }
    }
  }

  /** Pieces that are non-empty and free of the separator join into a string
      with no separator at either end and never two in a row. */
  lemma {:induction false} JoinSpacing(parts: seq<string>, sep: char)
    requires forall k :: 0 <= k < |parts| ==> parts[k] != [] && sep !in parts[k]
    ensures var r := Join(parts, [sep]);
      && (r == [] || (r[0] != sep && r[|r| - 1] != sep))
      && (forall i :: 0 <= i < |r| - 1 && r[i] == sep ==> r[i + 1] != sep)
  {
    if |parts| > 1 {
      JoinSpacing(parts[1..], sep);
      var rest := Join(parts[1..], [sep]);
      var r := Join(parts, [sep]);
      var n := |parts[0]|;
      assert r == parts[0] + [sep] + rest;
      assert rest != [] by { assert parts[1] != []; JoinStartsWith(parts[1..], [sep]); }
      forall i | 0 <= i < |r| - 1 && r[i] == sep ensures r[i + 1] != sep {
        if i == n {
          assert r[i + 1] == rest[0];
        } else {
          assert r[i] == rest[i - n - 1];
          assert r[i + 1] == rest[i + 1 - n - 1];
        }
      }
      assert r[|r| - 1] == rest[|rest| - 1];
    }
  }

  /** A join begins with its first piece. */
  lemma {:induction false} JoinStartsWith(parts: seq<string>, sep: string)
    requires |parts| >= 1
    ensures parts[0] <= Join(parts, sep)
  {
  }

  /** Capitalising keeps a word free of the characters `ok` rules out when
      `ok` holds for every case form of them. */
  lemma CapitalizeChars(w: string, ok: char -> bool)
    requires AllChars(w, ok)
    requires forall c :: ok(c) ==> ok(UpperChar(c)) && ok(LowerChar(c))
    ensures AllChars(Capitalize(w), ok)
  {
    if w != [] {
      forall i | 0 <= i < |w| ensures ok(Capitalize(w)[i]) {
        if i > 0 {
          assert Capitalize(w)[i] == LowerChar(w[i]);
        }
      }
    }
  }

  /** A piece with no white space and not empty capitalises into a title word. */
  lemma CapitalizeWord(w: string)
    requires w != [] && AllChars(w, NotSpace)
    ensures IsTitleWord(Capitalize(w))
  {
    CapitalizeChars(w, NotSpace);
    var r := Capitalize(w);
    forall j | 1 <= j < |r| ensures !IsAsciiUpper(r[j]) {
      assert r[j] == LowerChar(w[j]);
    }
  }

  function NotSpace(c: char): bool { !IsSpace(c) }

  function NotHyphen(c: char): bool { c != '-' && c != '_' }

  function SpaceIsBlank(c: char): bool { IsSpace(c) ==> c == ' ' }

  /** No blank is followed by another blank. */
  ghost predicate SingleBlanks(s: string) {
    forall i :: 0 <= i < |s| - 1 && s[i] == ' ' ==> s[i + 1] != ' '
  }

  ghost predicate NoEdgeBlank(s: string) {
    s == [] || (s[0] != ' ' && s[|s| - 1] != ' ')
  }

  /** Collapsing white-space runs to one blank leaves single blanks as the
      only white space. */
  lemma CollapsedSpaces(c: string)
    ensures AllChars(ReplaceRuns(c, IsSpace, ' '), SpaceIsBlank)
    ensures SingleBlanks(ReplaceRuns(c, IsSpace, ' '))
  {
    ReplaceRunsShape(c, IsSpace, ' ');
  }

  /** Trimming keeps what holds of every character and of every blank. */
  lemma TrimKeeps(t: string, ok: char -> bool)
    requires AllChars(t, ok) && AllChars(t, SpaceIsBlank) && SingleBlanks(t)
    ensures AllChars(Trim(t), ok) && AllChars(Trim(t), SpaceIsBlank) && SingleBlanks(Trim(t))
    ensures NoEdgeBlank(Trim(t))
  {
    var n := Trim(t);
    var a := TrimSlice(t);
    assert forall i :: 0 <= i < |n| ==> n[i] == t[a + i];
  }

  /** The normalised name has no `-` or `_`, no white space but single
      blanks, and no blank at either end. */
  lemma NormalizeNameShape(filename: string)
    ensures AllChars(NormalizeName(filename), NotHyphen)
    ensures AllChars(NormalizeName(filename), SpaceIsBlank)
    ensures SingleBlanks(NormalizeName(filename)) && NoEdgeBlank(NormalizeName(filename))
  {
    var h := HyphensToSpaces(RemoveExtension(filename));
    var c := CamelSplit(h);
    CamelSplitChars(h, NotHyphen);
    var t := ReplaceRuns(c, IsSpace, ' ');
    ReplaceRunsKeeps(c, IsSpace, ' ', NotHyphen);
    CollapsedSpaces(c);
    TrimKeeps(t, NotHyphen);
  }

  /** Cutting a normalised name at its blanks and capitalising gives title
      words free of `-`, `_` and white space. */
  lemma TitleWords(n: string)
    requires n != [] && AllChars(n, NotHyphen) && AllChars(n, SpaceIsBlank)
    requires SingleBlanks(n) && NoEdgeBlank(n)
    ensures forall k :: 0 <= k < |Split(n, ' ')| ==>
      var w := CapitalizeAll(Split(n, ' '))[k];
      IsTitleWord(w) && AllChars(w, NotHyphen) && AllChars(w, SpaceIsBlank)
  {
    var words := Split(n, ' ');
    var caps := CapitalizeAll(words);
    SplitChars(n, ' ', NotHyphen);
    SplitChars(n, ' ', SpaceIsBlank);
    SplitNonEmpty(n, ' ');
    forall k | 0 <= k < |words|
      ensures IsTitleWord(caps[k]) && AllChars(caps[k], NotHyphen) && AllChars(caps[k], SpaceIsBlank)
    {
      var w := words[k];
      CapitalizeChars(w, NotHyphen);
      CapitalizeChars(w, SpaceIsBlank);
      forall i | 0 <= i < |w| ensures NotSpace(w[i]) {
        assert SpaceIsBlank(w[i]);
      }
      CapitalizeWord(w);
    }
  }

  /** Joining the capitalised words of a normalised name keeps its shape. */
  lemma JoinedWordsShape(n: string)
    requires n != [] && AllChars(n, NotHyphen) && AllChars(n, SpaceIsBlank)
    requires SingleBlanks(n) && NoEdgeBlank(n)
    ensures var r := Join(CapitalizeAll(Split(n, ' ')), " ");
      AllChars(r, NotHyphen) && AllChars(r, SpaceIsBlank) && SingleBlanks(r) && NoEdgeBlank(r) &&
      forall k :: 0 <= k < |Split(r, ' ')| ==> IsTitleWord(Split(r, ' ')[k])
  {
    var caps := CapitalizeAll(Split(n, ' '));
    TitleWords(n);
    JoinChars(caps, " ", NotHyphen);
    JoinChars(caps, " ", SpaceIsBlank);
    JoinSpacing(caps, ' ');
    SplitJoin(caps, ' ');
  }

  /** `extractFontName` yields no `-` or `_`, no white space but single
      blanks, no blank at either end, and title-cased words. */
  lemma ExtractFontNameShape(filename: string)
    ensures forall i :: 0 <= i < |ExtractFontName(filename)| ==>
      var c := ExtractFontName(filename)[i]; c != '-' && c != '_' && (IsSpace(c) ==> c == ' ')
    ensures SingleBlanks(ExtractFontName(filename)) && NoEdgeBlank(ExtractFontName(filename))
    ensures ExtractFontName(filename) != [] ==>
      forall k :: 0 <= k < |Split(ExtractFontName(filename), ' ')| ==> IsTitleWord(Split(ExtractFontName(filename), ' ')[k])
  {
    var n := NormalizeName(filename);
    NormalizeNameShape(filename);
    var r := Join(CapitalizeAll(Split(n, ' ')), " ");
    assert ExtractFontName(filename) == r;
    if n == [] {
      assert r == [];
    } else {
      JoinedWordsShape(n);
      forall i | 0 <= i < |r| ensures r[i] != '-' && r[i] != '_' && (IsSpace(r[i]) ==> r[i] == ' ') {
        assert NotHyphen(r[i]) && SpaceIsBlank(r[i]);
      }
    }
  }

  /** A file name with an extension is named after what comes before it. */
  lemma ExtractFontNameIgnoresExtension(base: string, ext: string)
    requires ext != "" && '.' !in ext && '/' !in ext
    ensures ExtractFontName(base + "." + ext) ==
      Join(CapitalizeAll(Split(Trim(ReplaceRuns(CamelSplit(HyphensToSpaces(base)), IsSpace, ' ')), ' ')), " ")
  {
    RemoveExtensionOf(base, ext);
  }

  // ---------------------------------------------------------------------
  // Local fonts
  // ---------------------------------------------------------------------

  function Families(fonts: seq<LocalFont>): (r: seq<string>)
    ensures |r| == |fonts|
  {
    seq(|fonts|, i requires 0 <= i < |fonts| => fonts[i].family)
  }

  function Family(f: LocalFont): string { f.family }

  function FamilyIs(family: string): LocalFont -> bool {
    (f: LocalFont) => f.family == family
  }

  /** The entries in first-seen order, keeping the first one of each family. */
  function FirstPerFamily(fonts: seq<LocalFont>): seq<LocalFont> {
    if fonts == [] then []
    else
      var kept := FirstPerFamily(fonts[..|fonts| - 1]);
      var f := fonts[|fonts| - 1];
      if f.family in Families(kept) then kept else kept + [f]
  }

  /** `getLocalFonts` keeps one entry per family, covers every family of the
      answer, and keeps for each family the first entry the answer lists. */
  lemma {:induction false} FirstPerFamilySpec(fonts: seq<LocalFont>)
    ensures forall i, j :: 0 <= i < j < |FirstPerFamily(fonts)| ==>
      FirstPerFamily(fonts)[i].family != FirstPerFamily(fonts)[j].family
    ensures forall family :: family in Families(FirstPerFamily(fonts)) <==> family in Families(fonts)
    ensures forall i :: 0 <= i < |FirstPerFamily(fonts)| ==>
      Find(fonts, FamilyIs(FirstPerFamily(fonts)[i].family)) == Some(FirstPerFamily(fonts)[i])
  {
    if fonts != [] {
      var init := fonts[..|fonts| - 1];
      var f := fonts[|fonts| - 1];
      assert fonts == init + [f];
      FirstPerFamilySpec(init);
      var kept := FirstPerFamily(init);
      assert Families(fonts) == Families(init) + [f.family];
      forall i | 0 <= i < |FirstPerFamily(fonts)|
        ensures Find(fonts, FamilyIs(FirstPerFamily(fonts)[i].family)) == Some(FirstPerFamily(fonts)[i])
      {
        var g := FirstPerFamily(fonts)[i];
        var p := FamilyIs(g.family);
        FindIndexAppend(init, f, p);
        if i < |kept| {
          assert g == kept[i];
          assert Find(init, p) == Some(g);
          var j := FindIndex(init, p).value;
          assert fonts[j] == init[j];
        } else {
          assert g == f && f.family !in Families(init);
          assert forall j :: 0 <= j < |init| ==> !p(init[j]) by {
            forall j | 0 <= j < |init| ensures init[j].family != g.family {
              assert Families(init)[j] == init[j].family;
            }
          }
          assert FindIndex(init, p) == None;
          assert fonts[|init|] == f;
        }
      }
      if f.family !in Families(kept) {
        assert Families(kept + [f]) == Families(kept) + [f.family];
        forall i | 0 <= i < |kept| ensures kept[i].family != f.family {
          assert Families(kept)[i] == kept[i].family;
        }
      }
    }
  }

  const NOT_SUPPORTED := "Local Font Access API is not supported in this browser"
  const PERMISSION_DENIED := "Permission denied to access local fonts"
  const NOT_ALLOWED := "NotAllowedError"

  /** An exception: its `name` and its `message`. */
  datatype HostError = HostError(name: string, message: string)

  /** `getLocalFonts`, given whether the browser offers `queryLocalFonts` and
      what the query answered: the entries de-duplicated by family and sorted
      by family; a refused permission becomes its own message, and any other
      failure passes through unchanged. */
  method GetLocalFonts(supported: bool, answer: Result<seq<LocalFont>, HostError>)
    returns (r: Result<seq<LocalFont>, HostError>)
    ensures !supported ==> r == Failure(HostError("Error", NOT_SUPPORTED))
    ensures supported && answer.Failure? ==>
      r == Failure(if answer.error.name == NOT_ALLOWED then HostError("Error", PERMISSION_DENIED) else answer.error)
    ensures supported && answer.Success? ==>
      r.Success? && r.value == SortBy(FirstPerFamily(answer.value), Family)
  {
    if !supported {
      return Failure(HostError("Error", NOT_SUPPORTED));
    }
    match answer
    case Failure(e) =>
      if e.name == NOT_ALLOWED {
        r := Failure(HostError("Error", PERMISSION_DENIED));
      } else {
        r := Failure(e);
      }
    case Success(fonts) =>
      var seen: set<string> := {};
      var kept: seq<LocalFont> := [];
      for i := 0 to |fonts|
        invariant kept == FirstPerFamily(fonts[..i])
        invariant forall family :: family in seen <==> family in Families(kept)
      {
        var f := fonts[i];
        assert fonts[..i + 1][..i] == fonts[..i];
        if f.family !in seen {
          assert Families(kept + [f]) == Families(kept) + [f.family];
          seen := seen + {f.family};
          kept := kept + [LocalFont(f.family, f.fullName, f.postscriptName, f.style)];
        }
      }
      assert fonts[..|fonts|] == fonts;
      r := Success(SortBy(kept, Family));
  }

  /** What `getLocalFonts` returns is sorted by family, holds exactly the
      entries kept per family, and one entry per family. */
  lemma LocalFontsSorted(fonts: seq<LocalFont>)
    ensures SortedBy(SortBy(FirstPerFamily(fonts), Family), Family)
    ensures multiset(SortBy(FirstPerFamily(fonts), Family)) == multiset(FirstPerFamily(fonts))
  {
    SortBySpec(FirstPerFamily(fonts), Family);
  }
}
