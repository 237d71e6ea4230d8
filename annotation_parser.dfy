/**
 * Parsing of Georeference Annotations into maps (packages/annotation/src/parser.ts): the
 * resource mask from the SVG selector, the image dimensions, the control points and the
 * shape of the result. Schema validation is not part of this model: annotations arrive
 * already validated, as values of the datatypes below.
 */
module AnnotationParser {
  import opened Geometry
  import opened Wrappers

  const MaskError: string := "Could not parse resource mask"
  const DimensionsError: string := "Could not parse image dimensions"

  // ---------------------------------------------------------------------------
  // Characters and strings

  /** `\s` of JavaScript regular expressions, which is also what `trim` removes. */
  predicate IsSpace(c: char)
  {
    || c == '\t' || c == '\n' || c == '\U{B}' || c == '\U{C}' || c == '\r' || c == ' '
    || c == '\U{A0}' || c == '\U{1680}' || ('\U{2000}' <= c <= '\U{200A}')
    || c == '\U{2028}' || c == '\U{2029}' || c == '\U{202F}' || c == '\U{205F}'
    || c == '\U{3000}' || c == '\U{FEFF}'
  }

  /** The characters `.` does not match. */
  predicate IsLineTerminator(c: char)
  {
    c == '\n' || c == '\r' || c == '\U{2028}' || c == '\U{2029}'
  }

  predicate IsDigit(c: char)
  {
    '0' <= c <= '9'
  }

  /** One or more decimal digits. */
  predicate Digits(ds: string)
  {
    ds != [] && forall k :: 0 <= k < |ds| ==> IsDigit(ds[k])
  }

  predicate NoSpaces(s: string)
  {
    forall i :: 0 <= i < |s| ==> !IsSpace(s[i])
  }

  /** Where the run of white space that starts at `i` ends. */
  function SpaceRunEnd(s: string, i: nat): (n: nat)
    requires i <= |s|
    decreases |s| - i
    ensures i <= n <= |s| && (n < |s| ==> !IsSpace(s[n]))
    ensures forall k :: i <= k < n ==> IsSpace(s[k])
  {
    if i < |s| && IsSpace(s[i]) then SpaceRunEnd(s, i + 1) else i
  }

  /** Where the run of white space that ends at `j` starts. */
  function SpaceRunStart(s: string, j: nat): (n: nat)
    requires j <= |s|
    decreases j
    ensures n <= j && (n > 0 ==> !IsSpace(s[n - 1]))
    ensures forall k :: n <= k < j ==> IsSpace(s[k])
  {
    if j > 0 && IsSpace(s[j - 1]) then SpaceRunStart(s, j - 1) else j
  }

  /** `trimStart()`: the leading white space is removed, and nothing else. */
  function TrimStart(s: string): (r: string)
    ensures |r| <= |s| && r == s[|s| - |r|..]
    ensures r == [] || !IsSpace(r[0])
    ensures forall k :: 0 <= k < |s| - |r| ==> IsSpace(s[k])
  {
    s[SpaceRunEnd(s, 0)..]
  }

  /** `trimEnd()`: the trailing white space is removed, and nothing else. */
  function TrimEnd(s: string): (r: string)
    ensures |r| <= |s| && r == s[..|r|]
    ensures r == [] || !IsSpace(r[|r| - 1])
    ensures forall k :: |r| <= k < |s| ==> IsSpace(s[k])
  {
    s[..SpaceRunStart(s, |s|)]
  }

  /** `r == s[i..j]` is what remains of `s` once the white space before `i` and from `j` on is cut off. */
  predicate TrimmedAt(s: string, i: int, j: int, r: string)
  {
    && 0 <= i <= j <= |s| && r == s[i..j]
    && (forall k :: 0 <= k < i ==> IsSpace(s[k]))
    && (forall k :: j <= k < |s| ==> IsSpace(s[k]))
  }

  /**
   * `trim()`: the result neither starts nor ends with white space, and is `s` with white
   * space cut off at both ends and nothing else.
   */
  function Trim(s: string): (r: string)
    ensures r == [] || (!IsSpace(r[0]) && !IsSpace(r[|r| - 1]))
    ensures TrimmedAt(s, |s| - |TrimStart(s)|, |s| - |TrimStart(s)| + |r|, r)
  {
    var u := TrimStart(s);
    var r := TrimEnd(u);
    assert r != [] ==> r[0] == u[0];
    CutBothEnds(s, u, r);
    r
  }

  /** Cutting white space off the start of `s`, then off the end of what is left, cuts `s` at both ends. */
  lemma CutBothEnds(s: string, u: string, r: string)
    requires |u| <= |s| && u == s[|s| - |u|..] && forall k :: 0 <= k < |s| - |u| ==> IsSpace(s[k])
    requires |r| <= |u| && r == u[..|r|] && forall k :: |r| <= k < |u| ==> IsSpace(u[k])
    ensures TrimmedAt(s, |s| - |u|, |s| - |u| + |r|, r)
  {
    var i := |s| - |u|;
    forall k | i + |r| <= k < |s|
      ensures IsSpace(s[k])
    {
      assert s[k] == u[k - i];
    }
  }

  /** The trimmed string is the only cut of `s` at white space whose ends are not white space. */
  lemma TrimUnique(s: string, i: int, j: int, t: string)
    requires TrimmedAt(s, i, j, t)
    requires t == [] || (!IsSpace(t[0]) && !IsSpace(t[|t| - 1]))
    ensures t == Trim(s)
  {
    var r := Trim(s);
    var i' := |s| - |TrimStart(s)|;
    SameCut(s, i, j, i', i' + |r|);
  }

  /** Two cuts of `s` at white space, each empty or with ends that are not white space, are the same. */
  lemma SameCut(s: string, i: int, j: int, i': int, j': int)
    requires 0 <= i <= j <= |s| && 0 <= i' <= j' <= |s|
    requires forall k :: 0 <= k < i ==> IsSpace(s[k])
    requires forall k :: j <= k < |s| ==> IsSpace(s[k])
    requires forall k :: 0 <= k < i' ==> IsSpace(s[k])
    requires forall k :: j' <= k < |s| ==> IsSpace(s[k])
    requires i < j ==> !IsSpace(s[i]) && !IsSpace(s[j - 1])
    requires i' < j' ==> !IsSpace(s[i']) && !IsSpace(s[j' - 1])
    ensures s[i..j] == s[i'..j']
  {
    if i < j && i' < j' {
      assert i == i' && j == j';
    }
  }

  /** `trim()` removes white space only: a string with none at either end is left as it is. */
  lemma TrimKeepsTrimmed(s: string)
    requires s == [] || (!IsSpace(s[0]) && !IsSpace(s[|s| - 1]))
    ensures Trim(s) == s
  {
  }

  /** `s.split(/\s+/)`, with `cur` the part of the current piece already read. */
  function SplitWords(s: string, cur: string): (r: seq<string>)
    ensures |r| >= 1
    decreases |s|
  {
    if s == [] then [cur]
    else if IsSpace(s[0]) then [cur] + SplitWords(TrimStart(s[1..]), [])
    else SplitWords(s[1..], cur + [s[0]])
  }

  function SplitOnSpaces(s: string): (r: seq<string>)
    ensures |r| >= 1
  {
    SplitWords(s, [])
  }

  /** `s.split(',')`, with `cur` the part of the current piece already read. */
  function SplitCommas(s: string, cur: string): (r: seq<string>)
    ensures |r| >= 1
  {
    if s == [] then [cur]
    else if s[0] == ',' then [cur] + SplitCommas(s[1..], [])
    else SplitCommas(s[1..], cur + [s[0]])
  }

  function SplitOnComma(s: string): (r: seq<string>)
    ensures |r| >= 1
  {
    SplitCommas(s, [])
  }

  function CommaCount(s: string): nat
  {
    if s == [] then 0 else (if s[0] == ',' then 1 else 0) + CommaCount(s[1..])
  }

  /** `split(',')` gives one piece more than there are commas. */
  lemma {:induction false} SplitCommasCount(s: string, cur: string)
    ensures |SplitCommas(s, cur)| == CommaCount(s) + 1
  {
    if s != [] {
      if s[0] == ',' {
        SplitCommasCount(s[1..], []);
      } else {
        SplitCommasCount(s[1..], cur + [s[0]]);
      }
    }
  }

  lemma {:induction false} CommaFreePrefix(w: string, rest: string, cur: string)
    requires ',' !in w
    ensures SplitCommas(w + rest, cur) == SplitCommas(rest, cur + w)
  {
    if w == [] {
      assert w + rest == rest && cur + w == cur;
    } else {
      assert (w + rest)[0] == w[0] && (w + rest)[1..] == w[1..] + rest;
      CommaFreePrefix(w[1..], rest, cur + [w[0]]);
      assert cur + [w[0]] + w[1..] == cur + w;
    }
  }

  /** Splitting `x,y` at its one comma gives back `x` and `y`. */
  lemma SplitPair(x: string, y: string)
    requires ',' !in x && ',' !in y
    ensures SplitOnComma(x + [','] + y) == [x, y]
  {
    var tail := [','] + y;
    assert x + [','] + y == x + tail;
    CommaFreePrefix(x, tail, []);
    assert [] + x == x;
    assert tail[0] == ',' && tail[1..] == y;
    assert SplitCommas(tail, x) == [x] + SplitCommas(y, []);
    CommaFreePrefix(y, [], []);
    assert y + [] == y && [] + y == y;
  }

  lemma {:induction false} WordPrefix(w: string, rest: string, cur: string)
    requires NoSpaces(w)
    ensures SplitWords(w + rest, cur) == SplitWords(rest, cur + w)
  {
    if w == [] {
      assert w + rest == rest && cur + w == cur;
    } else {
      assert (w + rest)[0] == w[0] && (w + rest)[1..] == w[1..] + rest;
      WordPrefix(w[1..], rest, cur + [w[0]]);
      assert cur + [w[0]] + w[1..] == cur + w;
    }
  }

  /** Tokens that can stand in a `points` value: non-empty and free of white space. */
  predicate Words(ts: seq<string>)
  {
    forall i :: 0 <= i < |ts| ==> ts[i] != [] && NoSpaces(ts[i])
  }

  /** The tokens written out with one space between each. */
  function JoinSpaces(ts: seq<string>): string
    requires |ts| >= 1
  {
    if |ts| == 1 then ts[0] else ts[0] + " " + JoinSpaces(ts[1..])
  }

  lemma {:induction false} JoinSpacesEnds(ts: seq<string>)
    requires |ts| >= 1 && Words(ts)
    ensures var s := JoinSpaces(ts); s != [] && s[0] == ts[0][0] && s[|s| - 1] == ts[|ts| - 1][|ts[|ts| - 1]| - 1]
  {
    if |ts| > 1 {
      var rest := JoinSpaces(ts[1..]);
      JoinSpacesEnds(ts[1..]);
      var s := ts[0] + " " + rest;
      assert s[0] == ts[0][0];
      assert s[|s| - 1] == rest[|rest| - 1];
      assert ts[1..][|ts| - 2] == ts[|ts| - 1];
    }
  }

  /** A single space followed by a token ends the current piece. */
  lemma SpaceStep(rest: string, cur: string)
    requires rest != [] && !IsSpace(rest[0])
    ensures SplitWords(" " + rest, cur) == [cur] + SplitWords(rest, [])
  {
    var tail := " " + rest;
    assert tail[0] == ' ' && tail[1..] == rest;
    assert TrimStart(rest) == rest;
  }

  lemma WordsTail(ts: seq<string>)
    requires |ts| >= 1 && Words(ts)
    ensures Words(ts[1..]) && ts[0] != [] && NoSpaces(ts[0])
  {
    assert forall i :: 0 <= i < |ts| - 1 ==> ts[1..][i] == ts[i + 1];
  }

  /** Splitting the joined tokens at white space gives back the tokens. */
  lemma {:induction false} SplitJoin(ts: seq<string>)
    requires |ts| >= 1 && Words(ts)
    ensures SplitOnSpaces(JoinSpaces(ts)) == ts
  {
    WordsTail(ts);
    if |ts| == 1 {
      WordPrefix(ts[0], [], []);
      assert ts[0] + [] == ts[0] && [] + ts[0] == ts[0];
    } else {
      var rest := JoinSpaces(ts[1..]);
      SplitJoin(ts[1..]);
      JoinSpacesEnds(ts[1..]);
      WordsTail(ts[1..]);
      assert !IsSpace(rest[0]) by {
        assert ts[1..][0][0] == rest[0];
      }
      var tail := " " + rest;
      assert JoinSpaces(ts) == ts[0] + tail;
      WordPrefix(ts[0], tail, []);
      assert [] + ts[0] == ts[0];
      SpaceStep(rest, ts[0]);
      calc {
        SplitOnSpaces(JoinSpaces(ts));
        SplitWords(ts[0] + tail, []);
        SplitWords(tail, ts[0]);
        [ts[0]] + SplitWords(rest, []);
        [ts[0]] + ts[1..];
        ts;
      }
    }
  }

  // ---------------------------------------------------------------------------
  // The regular expressions

  const PointsPrefix: string := "points=\""

  /** The first line terminator at or after `i`, or the end. */
  function LineEnd(s: string, i: nat): (e: nat)
    requires i <= |s|
    ensures i <= e <= |s|
    decreases |s| - i
  {
    if i == |s| || IsLineTerminator(s[i]) then i else LineEnd(s, i + 1)
  }

  /** The last `"` in `s[lo..hi]`, or `-1`. */
  function LastQuote(s: string, lo: nat, hi: nat): (j: int)
    requires lo <= hi <= |s|
    ensures j == -1 || (lo <= j < hi && s[j] == '"')
    decreases hi - lo
  {
    if lo == hi then -1 else if s[hi - 1] == '"' then hi - 1 else LastQuote(s, lo, hi - 1)
  }

  /** `/points="(?<points>.+)"/.exec(svg)` from position `i` on: the leftmost match, with `.+` greedy. */
  function MatchPointsFrom(svg: string, i: nat): (r: Option<string>)
    requires i <= |svg|
    decreases |svg| - i
  {
    if i + |PointsPrefix| > |svg| then None
    else if svg[i..i + |PointsPrefix|] == PointsPrefix then
      var start := i + |PointsPrefix|;
      var e := LineEnd(svg, start);
      var j := if start < e then LastQuote(svg, start + 1, e) else -1;
      if j >= 0 then Some(svg[start..j]) else MatchPointsFrom(svg, i + 1)
    else MatchPointsFrom(svg, i + 1)
  }

  /** The `points` group of the selector's SVG, when the pattern matches. */
  function MatchPoints(svg: string): Option<string>
  {
    MatchPointsFrom(svg, 0)
  }

  predicate PrefixAt(svg: string, k: nat)
  {
    k + |PointsPrefix| <= |svg| && svg[k..k + |PointsPrefix|] == PointsPrefix
  }

  /** `points="`, then `p`, then `"`, starting at `k`. */
  predicate PointsAt(svg: string, k: nat, p: string)
  {
    var start := k + |PointsPrefix|;
    && PrefixAt(svg, k) && start + |p| < |svg| && svg[start..start + |p|] == p && svg[start + |p|] == '"'
  }

  lemma {:induction false} LineEndProperties(s: string, i: nat)
    requires i <= |s|
    ensures forall k :: i <= k < LineEnd(s, i) ==> !IsLineTerminator(s[k])
    decreases |s| - i
  {
    if i < |s| && !IsLineTerminator(s[i]) {
      LineEndProperties(s, i + 1);
    }
  }

  /** What a match is: a non-empty run without line breaks, between `points="` and a `"`. */
  lemma {:induction false} MatchPointsFromProperties(svg: string, i: nat)
    requires i <= |svg|
    decreases |svg| - i
    ensures MatchPointsFrom(svg, i).Some? ==>
      var p := MatchPointsFrom(svg, i).value;
      && p != [] && (forall k :: 0 <= k < |p| ==> !IsLineTerminator(p[k]))
      && exists k :: i <= k && PointsAt(svg, k, p)
  {
    if i + |PointsPrefix| <= |svg| {
      var start := i + |PointsPrefix|;
      var e := LineEnd(svg, start);
      var j := if start < e then LastQuote(svg, start + 1, e) else -1;
      if svg[i..i + |PointsPrefix|] == PointsPrefix && j >= 0 {
        LineEndProperties(svg, start);
        var p := svg[start..j];
        assert forall k :: 0 <= k < |p| ==> p[k] == svg[start + k];
        assert svg[start..start + |p|] == p;
        assert PointsAt(svg, i, p);
      } else {
        MatchPointsFromProperties(svg, i + 1);
      }
    }
  }

  /** Without `points="` from `i` on, there is no match. */
  lemma {:induction false} NoPrefixNoMatch(svg: string, i: nat)
    requires i <= |svg|
    decreases |svg| - i
    ensures (forall k :: i <= k <= |svg| - |PointsPrefix| ==> !PrefixAt(svg, k)) ==> MatchPointsFrom(svg, i).None?
  {
    if i + |PointsPrefix| <= |svg| {
      NoPrefixNoMatch(svg, i + 1);
      if forall k :: i <= k <= |svg| - |PointsPrefix| ==> !PrefixAt(svg, k) {
        assert !PrefixAt(svg, i);
      }
    }
  }

  /** The end of the run of digits starting at `i`. */
  function DigitsEnd(s: string, i: nat): (e: nat)
    requires i <= |s|
    ensures i <= e <= |s|
    decreases |s| - i
  {
    if i == |s| || !IsDigit(s[i]) then i else DigitsEnd(s, i + 1)
  }

  /** `/<name>="(?<name>\d+)"/.exec(svg)` from position `i` on. */
  function MatchNumberFrom(svg: string, name: string, i: nat): (r: Option<string>)
    requires i <= |svg|
    decreases |svg| - i
  {
    var prefix := name + "=\"";
    if i + |prefix| > |svg| then None
    else if svg[i..i + |prefix|] == prefix then
      var start := i + |prefix|;
      var e := DigitsEnd(svg, start);
      if start < e < |svg| && svg[e] == '"' then Some(svg[start..e]) else MatchNumberFrom(svg, name, i + 1)
    else MatchNumberFrom(svg, name, i + 1)
  }

  /** `parseInt` of a run of decimal digits. */
  function DecimalValue(ds: string): nat
  {
    if ds == [] then 0 else 10 * DecimalValue(ds[..|ds| - 1]) + (if IsDigit(ds[|ds| - 1]) then (ds[|ds| - 1] as int - '0' as int) else 0)
  }

  /** Writing a number in decimal and reading it back gives the number. */
  function Decimal(n: nat): (ds: string)
    ensures Digits(ds) && DecimalValue(ds) == n
  {
    var last := ['0' + ((n % 10) as char)];
    assert DecimalValue(last) == n % 10;
    if n < 10 then last
    else
      var ds := Decimal(n / 10) + last;
      assert ds[..|ds| - 1] == Decimal(n / 10);
      ds
  }

  // ---------------------------------------------------------------------------
  // Annotations and maps

  /** The annotation versions, told apart by the `isAnnotation1` guard. */
  datatype Version =
    | Version0(serviceId: string)
    | Version1(sourceId: string, width: int, height: int)

  datatype FeatureProperties = PixelCoords(pixelCoords: Pos) | ResourceCoords(resourceCoords: Pos)

  datatype GcpFeature = GcpFeature(properties: FeatureProperties, coordinates: Pos)

  /** A validated annotation: the parts the parser reads. */
  datatype Annotation = Annotation(
    id: string,
    version: Version,
    selectorValue: string,
    features: seq<GcpFeature>,
    transformation: Option<string>)

  datatype AnnotationInput = SingleAnnotation(annotation: Annotation) | AnnotationPage(items: seq<Annotation>)

  datatype Gcp = Gcp(resource: Pos, geo: Pos)

  datatype Resource = Resource(id: string, width: int, height: int)

  datatype GeoreferencedMap = GeoreferencedMap(
    id: string,
    resource: Resource,
    gcps: seq<Gcp>,
    resourceMask: seq<Pos>,
    transformation: Option<string>)

  function ParseImageId(a: Annotation): string
  {
    match a.version
    case Version1(sourceId, _, _) => sourceId
    case Version0(serviceId) => serviceId
  }

  /**
   * `parseImageDimensions`: the source's size for version 1; otherwise the `width` and
   * `height` attributes of the SVG, an error when either is missing.
   */
  function ParseImageDimensions(a: Annotation): (r: Result<(int, int)>)
    ensures a.version.Version1? ==> r == Success((a.version.width, a.version.height))
    ensures a.version.Version0? ==>
      var w, h := MatchNumberFrom(a.selectorValue, "width", 0), MatchNumberFrom(a.selectorValue, "height", 0);
      && (r.Failure? <==> w.None? || h.None?)
      && (r.Failure? ==> r.error == DimensionsError)
      && (r.Success? ==> r.value == (DecimalValue(w.value), DecimalValue(h.value)))
  {
    match a.version
    case Version1(_, width, height) => Success((width, height))
    case Version0(_) =>
      var width := MatchNumberFrom(a.selectorValue, "width", 0);
      var height := MatchNumberFrom(a.selectorValue, "height", 0);
      if width.None? || height.None? then Failure(DimensionsError)
      else Success((DecimalValue(width.value), DecimalValue(height.value)))
  }

  /** The attribute `name="ds"`. */
  function Attribute(name: string, ds: string): string
  {
    name + "=\"" + ds + "\""
  }

  /** A version-0 selector `height="H" width="W"…` gives back `W` and `H`. */
  lemma DimensionsRoundTrip(a: Annotation, w: nat, h: nat, rest: string)
    requires a.version.Version0?
    requires a.selectorValue == Attribute("height", Decimal(h)) + " " + Attribute("width", Decimal(w)) + rest
    ensures ParseImageDimensions(a) == Success((w, h))
  {
    var svg := a.selectorValue;
    var dh, dw := Decimal(h), Decimal(w);
    var ah, aw := Attribute("height", dh), Attribute("width", dw);
    var k := |ah| + 1;
    assert svg[..|ah|] == ah by {
      assert forall j :: 0 <= j < |ah| ==> svg[j] == ah[j];
    }
    assert svg[|ah|] == ' ';
    assert svg[k..k + |aw|] == aw by {
      assert forall j :: k <= j < k + |aw| ==> svg[j] == aw[j - k];
    }
    AttributeAt(svg, "height", 0, dh);
    HeightHasNoW(svg, dh);
    SkipNoPrefix(svg, "width", 0, k);
    AttributeAt(svg, "width", k, dw);
  }

  lemma HeightHasNoW(svg: string, ds: string)
    requires Digits(ds) && |Attribute("height", ds)| < |svg|
    requires svg[..|Attribute("height", ds)|] == Attribute("height", ds) && svg[|Attribute("height", ds)|] == ' '
    ensures forall k :: 0 <= k < |Attribute("height", ds)| + 1 ==> svg[k] != 'w'
  {
    var ah := Attribute("height", ds);
    forall k | 0 <= k < |ah| + 1
      ensures svg[k] != 'w'
    {
      if k < 8 {
        assert svg[k] == ah[k] == "height=\""[k];
      } else if k < 8 + |ds| {
        assert svg[k] == ah[k] == ds[k - 8];
      } else if k < |ah| {
        assert svg[k] == ah[k];
      }
    }
  }

  /** The attribute `name="ds"` at `i` makes the match at `i`. */
  lemma AttributeAt(svg: string, name: string, i: nat, ds: string)
    requires Digits(ds)
    requires i + |Attribute(name, ds)| <= |svg| && svg[i..i + |Attribute(name, ds)|] == Attribute(name, ds)
    ensures MatchNumberFrom(svg, name, i) == Some(ds)
  {
    var prefix := name + "=\"";
    var attr := Attribute(name, ds);
    var start := i + |prefix|;
    var body := prefix + ds;
    assert attr == body + "\"";
    forall k | 0 <= k < |attr|
      ensures svg[i + k] == attr[k]
    {
      assert svg[i..i + |attr|][k] == svg[i + k];
    }
    forall k | 0 <= k < |ds|
      ensures svg[start + k] == ds[k]
    {
      assert attr[|prefix| + k] == body[|prefix| + k] == ds[k];
    }
    assert svg[i..start] == prefix by {
      forall k | 0 <= k < |prefix|
        ensures svg[i + k] == prefix[k]
      {
        assert attr[k] == body[k] == prefix[k];
      }
    }
    assert svg[start + |ds|] == attr[|body|] == '"';
    assert svg[start..start + |ds|] == ds;
    assert forall k :: start <= k < start + |ds| ==> IsDigit(svg[k]) by {
      forall k | start <= k < start + |ds|
        ensures IsDigit(svg[k])
      {
        assert svg[start + (k - start)] == ds[k - start];
      }
    }
    DigitsRun(svg, start, start + |ds|);
  }

  /** A run of digits from `i` to `e` that no digit continues ends at `e`. */
  lemma {:induction false} DigitsRun(s: string, i: nat, e: nat)
    requires i <= e <= |s| && (e < |s| ==> !IsDigit(s[e]))
    requires forall k :: i <= k < e ==> IsDigit(s[k])
    ensures DigitsEnd(s, i) == e
    decreases e - i
  {
    if i < e {
      DigitsRun(s, i + 1, e);
    }
  }

  /** Positions that do not hold the first letter of `name` cannot start a match. */
  lemma {:induction false} SkipNoPrefix(svg: string, name: string, i: nat, j: nat)
    requires name != [] && i <= j <= |svg|
    requires forall k :: i <= k < j ==> svg[k] != name[0]
    ensures MatchNumberFrom(svg, name, i) == MatchNumberFrom(svg, name, j)
    decreases j - i
  {
    if i < j {
      var prefix := name + "=\"";
      assert prefix[0] == name[0];
      if i + |prefix| <= |svg| {
        assert svg[i..i + |prefix|][0] == svg[i];
      }
      SkipNoPrefix(svg, name, i + 1, j);
    }
  }

  function ParseResourceCoords(properties: FeatureProperties): Pos
  {
    match properties
    case PixelCoords(p) => p
    case ResourceCoords(p) => p
  }

  /** `parseGcps`: one control point per feature, in order. */
  function ParseGcps(a: Annotation): (r: seq<Gcp>)
    ensures |r| == |a.features|
    ensures forall i :: 0 <= i < |r| ==>
      r[i].geo == a.features[i].coordinates && r[i].resource == ParseResourceCoords(a.features[i].properties)
  {
    seq(|a.features|, i requires 0 <= i < |a.features| =>
      Gcp(ParseResourceCoords(a.features[i].properties), a.features[i].coordinates))
  }

  /** The mask tokens: the white-space split of the trimmed points, less a closing repeat of the first. */
  function MaskTokens(points: string): seq<string>
  {
    DropClosing(SplitOnSpaces(Trim(points)))
  }

  /** The tokens less the last when it repeats the first. */
  function DropClosing(ts: seq<string>): seq<string>
    requires |ts| >= 1
  {
    if ts[0] == ts[|ts| - 1] then ts[..|ts| - 1] else ts
  }

  /** One token `x,y` read with `parseFloat`, or nothing when it is not two comma-separated parts. */
  function ParsePoint(token: string, parseFloat: string -> real): Option<Pos>
  {
    var numbers := SplitOnComma(token);
    if |numbers| == 2 then Some(Pos(parseFloat(numbers[0]), parseFloat(numbers[1]))) else None
  }

  /** The `map` over the tokens, which throws at the first bad one. */
  function ParsePoints(ts: seq<string>, parseFloat: string -> real): (r: Result<seq<Pos>>)
    ensures r.Failure? <==> exists i :: 0 <= i < |ts| && ParsePoint(ts[i], parseFloat).None?
    ensures r.Failure? ==> r.error == MaskError
    ensures r.Success? ==> |r.value| == |ts| && forall i :: 0 <= i < |ts| ==> Some(r.value[i]) == ParsePoint(ts[i], parseFloat)
  {
    if ts == [] then Success([])
    else
      var p := ParsePoint(ts[0], parseFloat);
      if p.None? then Failure(MaskError)
      else
        var rest := ParsePoints(ts[1..], parseFloat);
        if rest.Failure? then
          assert exists i :: 1 <= i < |ts| && ParsePoint(ts[i], parseFloat).None? by {
            var i :| 0 <= i < |ts[1..]| && ParsePoint(ts[1..][i], parseFloat).None?;
            assert ParsePoint(ts[i + 1], parseFloat).None?;
          }
          Failure(MaskError)
        else Success([p.value] + rest.value)
  }

  /** The resource mask `parseResourceMask` computes from the selector's SVG. */
  function ResourceMask(svg: string, parseFloat: string -> real): Result<seq<Pos>>
  {
    match MatchPoints(svg)
    case None => Failure(MaskError)
    case Some(points) =>
      var ts := MaskTokens(points);
      if |ts| >= 3 then ParsePoints(ts, parseFloat) else Failure(MaskError)
  }

  /**
   * The outcomes: no `points` attribute, fewer than three tokens or a token without exactly
   * one comma give the mask error; otherwise one position per token, in order.
   */
  lemma ResourceMaskProperties(svg: string, parseFloat: string -> real)
    ensures MatchPoints(svg).None? ==> ResourceMask(svg, parseFloat) == Failure(MaskError)
    ensures MatchPoints(svg).Some? ==>
      var ts := MaskTokens(MatchPoints(svg).value);
      var r := ResourceMask(svg, parseFloat);
      && (r.Success? <==> |ts| >= 3 && forall i :: 0 <= i < |ts| ==> CommaCount(ts[i]) == 1)
      && (r.Failure? ==> r.error == MaskError)
      && (r.Success? ==> |r.value| == |ts| && forall i :: 0 <= i < |ts| ==>
            r.value[i] == Pos(parseFloat(SplitOnComma(ts[i])[0]), parseFloat(SplitOnComma(ts[i])[1])))
  {
    forall t: string
      ensures ParsePoint(t, parseFloat).None? <==> CommaCount(t) != 1
    {
      SplitCommasCount(t, []);
    }
  }

  /** The tokens of a `points` value written as tokens joined by single spaces. */
  lemma MaskTokensOfJoin(ts: seq<string>)
    requires |ts| >= 1 && Words(ts)
    ensures MaskTokens(JoinSpaces(ts)) == DropClosing(ts)
  {
    var s := JoinSpaces(ts);
    JoinSpacesEnds(ts);
    TrimKeepsTrimmed(s);
    SplitJoin(ts);
  }

  /**
   * An open ring written out, and the same ring closed by repeating its first point, give
   * the same tokens: the closing point is dropped once.
   */
  lemma ClosedRingDropsRepeat(ts: seq<string>)
    requires |ts| >= 1 && Words(ts) && ts[0] != ts[|ts| - 1]
    ensures MaskTokens(JoinSpaces(ts)) == ts
    ensures MaskTokens(JoinSpaces(ts + [ts[0]])) == ts
  {
    var closed := ts + [ts[0]];
    MaskTokensOfJoin(ts);
    WordsAppend(ts, ts[0]);
    MaskTokensOfJoin(closed);
    assert closed[0] == closed[|closed| - 1];
    assert closed[..|ts|] == ts;
  }

  lemma WordsAppend(ts: seq<string>, t: string)
    requires Words(ts) && t != [] && NoSpaces(t)
    ensures Words(ts + [t])
  {
    forall i | 0 <= i < |ts| + 1
      ensures (ts + [t])[i] != [] && NoSpaces((ts + [t])[i])
    {
      if i < |ts| {
        assert (ts + [t])[i] == ts[i];
      }
    }
  }

  lemma ResourceMaskOfPoints(svg: string, points: string, parseFloat: string -> real)
    requires MatchPoints(svg) == Some(points)
    ensures |MaskTokens(points)| < 3 ==> ResourceMask(svg, parseFloat) == Failure(MaskError)
    ensures |MaskTokens(points)| >= 3 ==> ResourceMask(svg, parseFloat) == ParsePoints(MaskTokens(points), parseFloat)
  {
  }

  /** `parseResourceMask`, which drops the closing repeat with `splice` and maps the tokens to positions. */
  method ParseResourceMask(svg: string, parseFloat: string -> real) returns (r: Result<seq<Pos>>)
    ensures r == ResourceMask(svg, parseFloat)
  {
    var groups := MatchPoints(svg);
    if groups.None? {
      return Failure(MaskError);
    }
    var pointStrings := SplitOnSpaces(Trim(groups.value));
    ghost var split := pointStrings;
    if pointStrings[0] == pointStrings[|pointStrings| - 1] {
      pointStrings := pointStrings[..|pointStrings| - 1];
    }
    assert pointStrings == DropClosing(split);
    ResourceMaskOfPoints(svg, groups.value, parseFloat);
    if |pointStrings| < 3 {
      return Failure(MaskError);
    }
    r := ParsePointStrings(pointStrings, parseFloat);
  }

  /** The `map` over the point strings, throwing at the first that is not `x,y`. */
  method ParsePointStrings(pointStrings: seq<string>, parseFloat: string -> real) returns (r: Result<seq<Pos>>)
    ensures r == ParsePoints(pointStrings, parseFloat)
  {
    var points: seq<Pos> := [];
    for i := 0 to |pointStrings|
      invariant |points| == i
      invariant forall k :: 0 <= k < i ==> ParsePoint(pointStrings[k], parseFloat) == Some(points[k])
    {
      var numberStrings := SplitOnComma(pointStrings[i]);
      if |numberStrings| == 2 {
        points := points + [Pos(parseFloat(numberStrings[0]), parseFloat(numberStrings[1]))];
      } else {
        assert ParsePoint(pointStrings[i], parseFloat).None?;
        return Failure(MaskError);
      }
    }
    assert ParsePoints(pointStrings, parseFloat).value == points;
    r := Success(points);
  }

  /** `getMap`: the fields in the order the object literal evaluates them, so a dimension error comes first. */
  function GetMap(a: Annotation, parseFloat: string -> real): (r: Result<GeoreferencedMap>)
    ensures r.Success? <==> ParseImageDimensions(a).Success? && ResourceMask(a.selectorValue, parseFloat).Success?
    ensures ParseImageDimensions(a).Failure? ==> r == Failure(DimensionsError)
    ensures r.Success? ==>
      && r.value.id == a.id && r.value.transformation == a.transformation
      && r.value.resource == Resource(ParseImageId(a), ParseImageDimensions(a).value.0, ParseImageDimensions(a).value.1)
      && r.value.gcps == ParseGcps(a) && r.value.resourceMask == ResourceMask(a.selectorValue, parseFloat).value
  {
    var dimensions :- ParseImageDimensions(a);
    var mask :- ResourceMask(a.selectorValue, parseFloat);
    Success(GeoreferencedMap(a.id, Resource(ParseImageId(a), dimensions.0, dimensions.1), ParseGcps(a), mask, a.transformation))
  }

  /**
   * `parseAnnotation`: a single annotation gives a one-element list, a page one map per
   * item in order; the first map that fails decides the error.
   */
  function ParseAnnotation(input: AnnotationInput, parseFloat: string -> real): (r: Result<seq<GeoreferencedMap>>)
    ensures input.SingleAnnotation? ==>
      && (r.Success? <==> GetMap(input.annotation, parseFloat).Success?)
      && (r.Success? ==> r.value == [GetMap(input.annotation, parseFloat).value])
      && (r.Failure? ==> r.error == GetMap(input.annotation, parseFloat).error)
    ensures input.AnnotationPage? ==>
      var items := input.items;
      && (r.Success? <==> forall i :: 0 <= i < |items| ==> GetMap(items[i], parseFloat).Success?)
      && (r.Success? ==> |r.value| == |items| && forall i :: 0 <= i < |items| ==> r.value[i] == GetMap(items[i], parseFloat).value)
      && (r.Failure? ==> exists i :: 0 <= i < |items| && GetMap(items[i], parseFloat) == Failure(r.error) && forall k :: 0 <= k < i ==> GetMap(items[k], parseFloat).Success?)
  {
    match input
    case SingleAnnotation(a) =>
      var m :- GetMap(a, parseFloat);
      Success([m])
    case AnnotationPage(items) =>
      var f := (a: Annotation) => GetMap(a, parseFloat);
      var r := MapOrThrow(items, f);
      assert r.Failure? ==> exists i :: 0 <= i < |items| && FirstFailure(items, f, i, r.error);
      r
  }
}
