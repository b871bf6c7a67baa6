/**
 The documentation site's route generator. The base names of the route files,
 written in the Remix flat-route convention (dot-separated tokens, `$` for a
 dynamic parameter, `_` for pathless and index tokens), become route paths
 (`/foo/{bar}/baz`), route patterns (`/foo/:bar/baz`) and top-level navigation
 items, which are emitted as a TypeScript module.
 */
module GenDocsRoutes {
  import opened JsText
  import opened JsSort

  /** `.filter(Boolean)` on strings: drops the empty string. */
  predicate NonEmpty(s: string) {
    s != []
  }

  predicate IsSlash(c: char) {
    c == '/'
  }

  /** `/^\$/.test(segment)`: the segment names a dynamic parameter. */
  predicate IsDynamic(segment: string) {
    |segment| > 0 && segment[0] == '$'
  }

  /** `/^_/.test(part)`: a pathless token. */
  predicate IsPathless(part: string) {
    |part| > 0 && part[0] == '_'
  }

  // ---------------------------------------------------------------------------
  // Segment parser

  /** The token filter of the parser: index routes match their parent route and
      pathless tokens do not contribute to the URL. The first test is subsumed by
      the second; both are kept as written. */
  predicate IsRouteToken(part: string)
    ensures IsRouteToken(part) <==> !IsPathless(part)
  {
    if part == "_index" then false
    else if IsPathless(part) then false
    else true
  }

  /** A segment as the parser returns it: non-empty, no whitespace at either end. */
  predicate IsTidy(segment: string) {
    segment != [] && !IsWhitespace(segment[0]) && !IsWhitespace(segment[|segment| - 1])
  }

  /** A part as the parser sees it after trimming: no `.`, and tidy unless empty. */
  predicate IsTrimmedPart(t: string) {
    '.' !in t && (t != [] ==> IsTidy(t))
  }

  /** The trimmed `.`-separated parts of a file name, before any is dropped. */
  function TrimmedParts(filename: string): (parts: seq<string>)
    ensures forall t | t in parts :: IsTrimmedPart(t)
  {
    var pieces := Split(filename, '.');
    var parts := Map(Trim, pieces);
    assert forall i | 0 <= i < |parts| :: IsTrimmedPart(parts[i]) by {
      forall i | 0 <= i < |parts| ensures IsTrimmedPart(parts[i]) {
        assert pieces[i] in pieces;
        TrimKeepsOut(pieces[i], '.');
      }
    }
    parts
  }

  /** Splits a file name on `.`, trims the parts and keeps the non-empty ones that
      are neither `_index` nor start with `_`, in their order. */
  function ParseSegmentsFromFilename(filename: string): (segments: seq<string>)
    ensures forall t | t in segments :: IsTidy(t) && t[0] != '_' && '.' !in t
  {
    Filter(IsRouteToken, Filter(NonEmpty, TrimmedParts(filename)))
  }

  /** Exactly the trimmed parts that are non-empty and do not start with `_` survive. */
  lemma ParsedSegmentsAreKeptParts(filename: string, t: string)
    ensures t in ParseSegmentsFromFilename(filename)
        <==> t in TrimmedParts(filename) && t != [] && t[0] != '_'
  {
    assert "_index"[0] == '_';
  }

  /** The surviving segments keep their relative order: they are a subsequence of the trimmed parts. */
  lemma ParsedSegmentsInOrder(filename: string)
    ensures IsSubsequence(ParseSegmentsFromFilename(filename), TrimmedParts(filename))
  {
    var parts := TrimmedParts(filename);
    var nonEmpty := Filter(NonEmpty, parts);
    FilterIsSubsequence(NonEmpty, parts);
    FilterIsSubsequence(IsRouteToken, nonEmpty);
    SubsequenceTransitive(Filter(IsRouteToken, nonEmpty), nonEmpty, parts);
  }

  /** Every trimmed part that survives is kept as often as it occurs, so a name
      such as `docs.docs` keeps both segments. */
  lemma ParsedSegmentsCount(filename: string, t: string)
    ensures multiset(ParseSegmentsFromFilename(filename))[t]
        == if t != [] && t[0] != '_' then multiset(TrimmedParts(filename))[t] else 0
  {
    var parts := TrimmedParts(filename);
    FilterCount(NonEmpty, parts, t);
    FilterCount(IsRouteToken, Filter(NonEmpty, parts), t);
  }

  /** The index-route marker never survives as a segment. */
  lemma IndexNeverSegment(filename: string)
    ensures "_index" !in ParseSegmentsFromFilename(filename)
  {
    assert "_index"[0] == '_';
  }

  // ---------------------------------------------------------------------------
  // Slash trimming

  /** Removes every leading `/` (the `^\/+` replacement): what is left is a suffix
      of the input that does not start with `/`. */
  function TrimLeadingSlashes(value: string): (r: string)
    ensures r == [] || r[0] != '/'
    ensures |r| <= |value| && r == value[|value| - |r|..]
  {
    TrimLeft(value, IsSlash)
  }

  /** Only slashes are removed from the front. */
  lemma LeadingSlashesRemoved(value: string)
    ensures forall i | 0 <= i < |value| - |TrimLeadingSlashes(value)| :: value[i] == '/'
  {
    TrimLeftDropsOnly(value, IsSlash);
  }

  /** Removes every trailing `/` (the `\/+$` replacement): what is left is a prefix
      of the input that does not end with `/`. */
  function TrimTrailingSlashes(value: string): (r: string)
    ensures r == [] || r[|r| - 1] != '/'
    ensures |r| <= |value| && r == value[..|r|]
  {
    TrimRight(value, IsSlash)
  }

  /** Only slashes are removed from the back. */
  lemma TrailingSlashesRemoved(value: string)
    ensures forall i | |TrimTrailingSlashes(value)| <= i < |value| :: value[i] == '/'
  {
    TrimRightDropsOnly(value, IsSlash);
  }

  /** Removes the slashes at both ends; a string without slashes at its ends is left alone. */
  function TrimSlashes(value: string): (r: string)
    ensures r == [] || (r[0] != '/' && r[|r| - 1] != '/')
    ensures value != [] && value[0] != '/' && value[|value| - 1] != '/' ==> r == value
  {
    TrimLeadingSlashes(TrimTrailingSlashes(value))
  }

  /** The result is one stretch `value[i..j]` of the input, and only slashes lie
      outside it. */
  lemma TrimSlashesSlice(value: string) returns (i: nat, j: nat)
    ensures i <= j <= |value| && TrimSlashes(value) == value[i..j]
    ensures forall k | 0 <= k < i :: value[k] == '/'
    ensures forall k | j <= k < |value| :: value[k] == '/'
  {
    var t := TrimTrailingSlashes(value);
    TrailingSlashesRemoved(value);
    LeadingSlashesRemoved(t);
    j := |t|;
    i := |t| - |TrimSlashes(value)|;
    assert t == value[..j];
    assert forall k | 0 <= k < i :: t[k] == value[k];
  }

  lemma TrimSlashesIdempotent(value: string)
    ensures TrimSlashes(TrimSlashes(value)) == TrimSlashes(value)
  {
  }

  /** The first documented example of `trimLeadingSlashes`. */
  lemma TrimLeadingSlashExample()
    ensures TrimLeadingSlashes("/foo/bar") == "foo/bar"
  {
    var v := "/foo/bar";
    assert v[0] == '/' && v[1] == 'f';
    TrimLeftAfter(v, IsSlash, 1);
    assert v[1..] == "foo/bar";
  }

  /** The second documented example of `trimLeadingSlashes`: a run of slashes goes at once. */
  lemma TrimLeadingSlashesExample()
    ensures TrimLeadingSlashes("/////foo/bar") == "foo/bar"
  {
    var v := "/////foo/bar";
    assert v[0] == '/' && v[1] == '/' && v[2] == '/' && v[3] == '/' && v[4] == '/' && v[5] == 'f';
    TrimLeftAfter(v, IsSlash, 5);
    assert v[5..] == "foo/bar";
  }

  /** The first documented example of `trimTrailingSlashes`. */
  lemma TrimTrailingSlashExample()
    ensures TrimTrailingSlashes("/foo/bar/") == "/foo/bar"
  {
    var v := "/foo/bar/";
    assert v[7] == 'r' && v[8] == '/';
    TrimRightBefore(v, IsSlash, 8);
    assert v[..8] == "/foo/bar";
  }

  /** The second documented example of `trimTrailingSlashes`: a run of slashes goes at once. */
  lemma TrimTrailingSlashesExample()
    ensures TrimTrailingSlashes("/foo/bar/////") == "/foo/bar"
  {
    var v := "/foo/bar/////";
    assert v[7] == 'r' && v[8] == '/' && v[9] == '/' && v[10] == '/' && v[11] == '/' && v[12] == '/';
    TrimRightBefore(v, IsSlash, 8);
    assert v[..8] == "/foo/bar";
  }

  // ---------------------------------------------------------------------------
  // Path and pattern formatters

  /** A route as both formatters produce it: exactly one leading `/`, and no
      trailing `/` unless the route is the root `/`. */
  predicate WellFormedRoute(route: string) {
    |route| >= 1 && route[0] == '/' && (|route| > 1 ==> route[1] != '/' && route[|route| - 1] != '/')
  }

  /** The defensive clean-up both formatters start with: trim each segment, drop the empty ones. */
  function CleanSegments(segments: seq<string>): (clean: seq<string>)
    ensures forall c | c in clean :: IsTidy(c)
  {
    Filter(NonEmpty, Map(Trim, segments))
  }

  /** Every clean segment is the non-empty trim of some input segment. */
  lemma CleanSegmentOrigin(segments: seq<string>, c: string) returns (k: nat)
    requires c in CleanSegments(segments)
    ensures k < |segments| && Trim(segments[k]) == c && c != []
  {
    var trimmed := Map(Trim, segments);
    assert c in trimmed && NonEmpty(c);
    k :| 0 <= k < |trimmed| && trimmed[k] == c;
  }

  /** Segments that all trim to nothing leave nothing after the clean-up. */
  lemma AllBlankCleansToEmpty(segments: seq<string>)
    ensures (forall s | s in segments :: Trim(s) == []) ==> CleanSegments(segments) == []
  {
    var trimmed := Map(Trim, segments);
    var clean := Filter(NonEmpty, trimmed);
    if clean != [] {
      assert clean[0] in clean;
      assert clean[0] in trimmed && NonEmpty(clean[0]);
      var k :| 0 <= k < |trimmed| && trimmed[k] == clean[0];
      assert segments[k] in segments && Trim(segments[k]) != [];
    }
  }

  /** `$x` becomes `{x}`; only the single leading `$` is replaced. */
  function RenderPathSegment(segment: string): (r: string)
    ensures !IsDynamic(segment) ==> r == segment
    ensures IsDynamic(segment) ==> |r| == |segment| + 1 && r[0] == '{' && r[1..|r| - 1] == segment[1..] && r[|r| - 1] == '}'
  {
    if IsDynamic(segment) then "{" + segment[1..] + "}" else segment
  }

  /** `$x` becomes `:x`; only the single leading `$` is replaced. */
  function RenderPatternSegment(segment: string): (r: string)
    ensures !IsDynamic(segment) ==> r == segment
    ensures IsDynamic(segment) ==> |r| == |segment| && r[0] == ':' && r[1..] == segment[1..]
  {
    if IsDynamic(segment) then ":" + segment[1..] else segment
  }

  /** The pipeline both formatters run: clean, render each segment, join with
      `/`, trim the slashes at both ends and prefix exactly one `/`. */
  function FormatSegments(segments: seq<string>, render: string -> string): (route: string)
    ensures WellFormedRoute(route)
    ensures (forall s | s in segments :: Trim(s) == []) ==> route == "/"
  {
    var clean := CleanSegments(segments);
    var body := Join(Map(render, clean), '/');
    AllBlankCleansToEmpty(segments);
    assert clean == [] ==> body == "" && TrimSlashes(body) == "";
    var trimmed := TrimSlashes(body);
    var route := "/" + trimmed;
    assert |route| > 1 ==> route[1] == trimmed[0] && route[|route| - 1] == trimmed[|trimmed| - 1];
    route
  }

  function FormatRoutePathFromSegments(pathSegments: seq<string>): (route: string)
    ensures WellFormedRoute(route)
    ensures (forall s | s in pathSegments :: Trim(s) == []) ==> route == "/"
  {
    FormatSegments(pathSegments, RenderPathSegment)
  }

  function FormatRoutePatternFromSegments(pathSegments: seq<string>): (route: string)
    ensures WellFormedRoute(route)
    ensures (forall s | s in pathSegments :: Trim(s) == []) ==> route == "/"
  {
    FormatSegments(pathSegments, RenderPatternSegment)
  }

  /** The formatters' defensive clean-up changes nothing on tidy segments, in
      particular on the parser's output. */
  lemma CleanSegmentsOfTidy(segments: seq<string>)
    requires forall s | s in segments :: IsTidy(s)
    ensures CleanSegments(segments) == segments
  {
    assert Map(Trim, segments) == segments by {
      forall i | 0 <= i < |segments| ensures Trim(segments[i]) == segments[i] {
        assert segments[i] in segments;
        TrimFixedPoint(segments[i]);
      }
    }
    assert forall i | 0 <= i < |segments| :: NonEmpty(segments[i]) by {
      forall i | 0 <= i < |segments| ensures NonEmpty(segments[i]) {
        assert segments[i] in segments;
      }
    }
    FilterKeepsAll(NonEmpty, segments);
  }

  lemma CleanSegmentsOfParsed(filename: string)
    ensures CleanSegments(ParseSegmentsFromFilename(filename)) == ParseSegmentsFromFilename(filename)
  {
    CleanSegmentsOfTidy(ParseSegmentsFromFilename(filename));
  }

  /** No segment holds `/`: true of every segment parsed from a base name. */
  predicate SlashFree(segments: seq<string>) {
    forall s | s in segments :: '/' !in s
  }

  /** A base name without `/` parses to slash-free segments, as the base name of a
      file path always does. */
  lemma ParsedSegmentsSlashFree(basename: string)
    requires '/' !in basename
    ensures SlashFree(ParseSegmentsFromFilename(Trim(basename)))
  {
    var filename := Trim(basename);
    TrimKeepsOut(basename, '/');
    var pieces := Split(filename, '.');
    SplitKeepsOut(filename, '.', '/');
    var parts := TrimmedParts(filename);
    assert forall t | t in parts :: '/' !in t by {
      forall k | 0 <= k < |parts| ensures '/' !in parts[k] {
        assert pieces[k] in pieces;
        TrimKeepsOut(pieces[k], '/');
      }
    }
  }

  lemma CleanSegmentsSlashFree(segments: seq<string>)
    requires SlashFree(segments)
    ensures forall s | s in CleanSegments(segments) :: s != [] && '/' !in s
  {
    var trimmed := Map(Trim, segments);
    forall s | s in trimmed ensures '/' !in s {
      var k :| 0 <= k < |trimmed| && trimmed[k] == s;
      assert segments[k] in segments;
      TrimKeepsOut(segments[k], '/');
    }
  }

  /** Rendering the clean segments keeps them non-empty and slash-free. */
  lemma RenderedPartsSlashFree(segments: seq<string>, render: string -> string)
    requires SlashFree(segments)
    requires forall s :: s != [] && '/' !in s ==> render(s) != [] && '/' !in render(s)
    ensures forall p | p in Map(render, CleanSegments(segments)) :: p != [] && '/' !in p
  {
    var clean := CleanSegments(segments);
    var rendered := Map(render, clean);
    CleanSegmentsSlashFree(segments);
    forall p | p in rendered ensures p != [] && '/' !in p {
      var i :| 0 <= i < |rendered| && rendered[i] == p;
      assert clean[i] in clean;
    }
  }

  /** For slash-free segments the slash trimming never fires: the route is `/`
      followed by the rendered segments joined with `/`, and splitting the route
      after its leading `/` gives the rendered segments back. */
  lemma {:induction false} FormatSegmentsRoundTrip(segments: seq<string>, render: string -> string)
    requires SlashFree(segments)
    requires forall s :: s != [] && '/' !in s ==> render(s) != [] && '/' !in render(s)
    ensures CleanSegments(segments) == [] ==> FormatSegments(segments, render) == "/"
    ensures CleanSegments(segments) != [] ==>
      && FormatSegments(segments, render) == "/" + Join(Map(render, CleanSegments(segments)), '/')
      && Split(FormatSegments(segments, render)[1..], '/') == Map(render, CleanSegments(segments))
  {
    var clean := CleanSegments(segments);
    var rendered := Map(render, clean);
    if clean != [] {
      RenderedPartsSlashFree(segments, render);
      JoinEnds(rendered, '/');
      SplitJoin(rendered, '/');
    }
  }

  /** Rendering keeps a non-empty, slash-free segment non-empty and slash-free. */
  lemma RenderKeepsSlashFree()
    ensures forall s :: s != [] && '/' !in s ==> RenderPathSegment(s) != [] && '/' !in RenderPathSegment(s)
    ensures forall s :: s != [] && '/' !in s ==> RenderPatternSegment(s) != [] && '/' !in RenderPatternSegment(s)
  {
    forall s | s != [] && '/' !in s
      ensures '/' !in RenderPathSegment(s) && '/' !in RenderPatternSegment(s)
    {
      if IsDynamic(s) {
        assert forall c | c in s[1..] :: c in s;
      }
    }
  }

  /** The same fact for the path renderer passed as a value, as the formatter passes it. */
  lemma PathRendererKeepsSlashFree(render: string -> string)
    requires render == RenderPathSegment
    ensures forall s :: s != [] && '/' !in s ==> render(s) != [] && '/' !in render(s)
  {
    RenderKeepsSlashFree();
  }

  /** The same fact for the pattern renderer passed as a value. */
  lemma PatternRendererKeepsSlashFree(render: string -> string)
    requires render == RenderPatternSegment
    ensures forall s :: s != [] && '/' !in s ==> render(s) != [] && '/' !in render(s)
  {
    RenderKeepsSlashFree();
  }

  /** The pieces of a formatted route path, one per clean segment: `$x` is
      rewritten to `{x}` and every other segment passes through unchanged. */
  lemma FormattedPathPieces(segments: seq<string>)
    requires SlashFree(segments)
    ensures var clean := CleanSegments(segments);
      var pieces := Split(FormatRoutePathFromSegments(segments)[1..], '/');
      clean != [] ==>
        && |pieces| == |clean|
        && forall i | 0 <= i < |clean| ::
             pieces[i] == (if IsDynamic(clean[i]) then "{" + clean[i][1..] + "}" else clean[i])
  {
    var clean := CleanSegments(segments);
    if clean != [] {
      var pieces := Split(FormatRoutePathFromSegments(segments)[1..], '/');
      assert pieces == Map(RenderPathSegment, clean) by {
        RenderKeepsSlashFree();
        FormatSegmentsRoundTrip(segments, RenderPathSegment);
      }
    }
  }

  /** The pieces of a formatted route pattern, one per clean segment: `$x` is
      rewritten to `:x` and every other segment passes through unchanged. */
  lemma FormattedPatternPieces(segments: seq<string>)
    requires SlashFree(segments)
    ensures var clean := CleanSegments(segments);
      var pieces := Split(FormatRoutePatternFromSegments(segments)[1..], '/');
      clean != [] ==>
        && |pieces| == |clean|
        && forall i | 0 <= i < |clean| ::
             pieces[i] == (if IsDynamic(clean[i]) then ":" + clean[i][1..] else clean[i])
  {
    var clean := CleanSegments(segments);
    if clean != [] {
      var pieces := Split(FormatRoutePatternFromSegments(segments)[1..], '/');
      assert pieces == Map(RenderPatternSegment, clean) by {
        RenderKeepsSlashFree();
        FormatSegmentsRoundTrip(segments, RenderPatternSegment);
      }
    }
  }

  /** Without a dynamic segment the path and the pattern are the same string. */
  lemma StaticPathEqualsPattern(segments: seq<string>)
    requires forall s | s in segments :: !IsDynamic(Trim(s))
    ensures FormatRoutePathFromSegments(segments) == FormatRoutePatternFromSegments(segments)
  {
    var clean := CleanSegments(segments);
    forall i | 0 <= i < |clean| ensures RenderPathSegment(clean[i]) == RenderPatternSegment(clean[i]) {
      assert clean[i] in clean;
      var k := CleanSegmentOrigin(segments, clean[i]);
      assert segments[k] in segments;
    }
    assert Map(RenderPathSegment, clean) == Map(RenderPatternSegment, clean);
  }

  /** The piece of the route path for a dynamic clean segment starts with `{`. */
  lemma DynamicPathPiece(segments: seq<string>, i: nat)
    requires SlashFree(segments)
    requires i < |CleanSegments(segments)| && IsDynamic(CleanSegments(segments)[i])
    ensures var pieces := Split(FormatRoutePathFromSegments(segments)[1..], '/');
      i < |pieces| && |pieces[i]| > 0 && pieces[i][0] == '{'
  {
    FormattedPathPieces(segments);
  }

  /** The piece of the route pattern for a dynamic clean segment starts with `:`. */
  lemma DynamicPatternPiece(segments: seq<string>, i: nat)
    requires SlashFree(segments)
    requires i < |CleanSegments(segments)| && IsDynamic(CleanSegments(segments)[i])
    ensures var pieces := Split(FormatRoutePatternFromSegments(segments)[1..], '/');
      i < |pieces| && |pieces[i]| > 0 && pieces[i][0] == ':'
  {
    FormattedPatternPieces(segments);
  }

  /** A dynamic segment makes the path and the pattern differ: `{` against `:`. */
  lemma DynamicPathDiffersFromPattern(segments: seq<string>, s: string)
    requires SlashFree(segments)
    requires s in segments && IsDynamic(Trim(s))
    ensures FormatRoutePathFromSegments(segments) != FormatRoutePatternFromSegments(segments)
  {
    var clean := CleanSegments(segments);
    assert Trim(s) in clean by {
      var k :| 0 <= k < |segments| && segments[k] == s;
      assert Map(Trim, segments)[k] == Trim(s);
    }
    var i :| 0 <= i < |clean| && clean[i] == Trim(s);
    DynamicPathPiece(segments, i);
    DynamicPatternPiece(segments, i);
  }

  /** Path and pattern coincide exactly when no segment is dynamic. */
  lemma PathEqualsPatternIffStatic(segments: seq<string>)
    requires SlashFree(segments)
    ensures FormatRoutePathFromSegments(segments) == FormatRoutePatternFromSegments(segments)
        <==> forall s | s in segments :: !IsDynamic(Trim(s))
  {
    if forall s | s in segments :: !IsDynamic(Trim(s)) {
      StaticPathEqualsPattern(segments);
    } else {
      var s :| s in segments && IsDynamic(Trim(s));
      DynamicPathDiffersFromPattern(segments, s);
    }
  }

  /** For tidy segments, which `trim` leaves alone, path and pattern coincide
      exactly when no segment is dynamic. */
  lemma TidyPathEqualsPatternIffStatic(segments: seq<string>)
    requires SlashFree(segments)
    requires forall s | s in segments :: IsTidy(s)
    ensures FormatRoutePathFromSegments(segments) == FormatRoutePatternFromSegments(segments)
        <==> forall s | s in segments :: !IsDynamic(s)
  {
    forall s | s in segments ensures Trim(s) == s {
      TrimFixedPoint(s);
    }
    PathEqualsPatternIffStatic(segments);
  }

  /** No segments format to the root route. */
  lemma FormatEmptyExample()
    ensures FormatRoutePathFromSegments([]) == "/"
    ensures FormatRoutePatternFromSegments([]) == "/"
  {
  }

  /** Tidy, slash-free segments format to their renderings joined with `/` after one `/`. */
  lemma FormatTidySegments(segments: seq<string>, render: string -> string)
    requires forall s | s in segments :: IsTidy(s) && '/' !in s
    requires forall s :: s != [] && '/' !in s ==> render(s) != [] && '/' !in render(s)
    ensures FormatSegments(segments, render) == "/" + Join(Map(render, segments), '/')
  {
    CleanSegmentsOfTidy(segments);
    FormatSegmentsRoundTrip(segments, render);
  }

  /** Three tidy, slash-free segments format to their renderings joined with `/`. */
  lemma FormatThreeSegments(a: string, b: string, c: string, render: string -> string)
    requires IsTidy(a) && IsTidy(b) && IsTidy(c)
    requires '/' !in a && '/' !in b && '/' !in c
    requires forall s :: s != [] && '/' !in s ==> render(s) != [] && '/' !in render(s)
    ensures FormatSegments([a, b, c], render) == "/" + (render(a) + "/" + (render(b) + "/" + render(c)))
  {
    var segments := [a, b, c];
    var rendered := [render(a), render(b), render(c)];
    assert Map(render, segments) == rendered;
    JoinThree(render(a), render(b), render(c), '/');
    assert forall s | s in segments :: IsTidy(s) && '/' !in s;
    FormatTidySegments(segments, render);
  }

  /** The segments of the formatters' documented example are tidy and slash-free. */
  lemma ExampleSegmentsTidy()
    ensures IsTidy("foo") && IsTidy("$bar") && IsTidy("baz")
    ensures '/' !in "foo" && '/' !in "$bar" && '/' !in "baz"
  {
  }

  /** The example of the path formatter's documentation. */
  lemma FormatRoutePathExample()
    ensures FormatRoutePathFromSegments(["foo", "$bar", "baz"]) == "/foo/{bar}/baz"
  {
    assert RenderPathSegment("$bar") == "{bar}" by {
      assert "$bar"[1..] == "bar";
    }
    assert "/" + ("foo" + "/" + ("{bar}" + "/" + "baz")) == "/foo/{bar}/baz";
    assert FormatRoutePathFromSegments(["foo", "$bar", "baz"])
        == "/" + (RenderPathSegment("foo") + "/" + (RenderPathSegment("$bar") + "/" + RenderPathSegment("baz"))) by {
      ExampleSegmentsTidy();
      RenderKeepsSlashFree();
      FormatThreeSegments("foo", "$bar", "baz", RenderPathSegment);
    }
  }

  /** The example of the pattern formatter's documentation. */
  lemma FormatRoutePatternExample()
    ensures FormatRoutePatternFromSegments(["foo", "$bar", "baz"]) == "/foo/:bar/baz"
  {
    assert RenderPatternSegment("$bar") == ":bar" by {
      assert "$bar"[1..] == "bar";
    }
    assert "/" + ("foo" + "/" + (":bar" + "/" + "baz")) == "/foo/:bar/baz";
    assert FormatRoutePatternFromSegments(["foo", "$bar", "baz"])
        == "/" + (RenderPatternSegment("foo") + "/" + (RenderPatternSegment("$bar") + "/" + RenderPatternSegment("baz"))) by {
      ExampleSegmentsTidy();
      RenderKeepsSlashFree();
      FormatThreeSegments("foo", "$bar", "baz", RenderPatternSegment);
    }
  }

  // ---------------------------------------------------------------------------
  // Top-level navigation

  /** `/` followed by the first non-empty `/`-separated part of the route, if any. */
  function TopLevelNav(route: string): (item: string)
    ensures |item| >= 1 && item[0] == '/' && '/' !in item[1..]
  {
    var routeParts := Filter(NonEmpty, Split(route, '/'));
    if routeParts == [] then "/"
    else
      assert routeParts[0] in Split(route, '/');
      "/" + routeParts[0]
  }

  /** The root route is its own navigation item. */
  lemma TopLevelNavOfRoot()
    ensures TopLevelNav("/") == "/"
  {
    assert "/" == [] + ['/'] + [];
    SplitAtFirst([], [], '/');
    assert Split("/", '/') == ["", ""];
    assert ["", ""][1..] == [""] && [""][1..] == [];
  }

  /** The navigation item of `/` followed by slash-free parts joined with `/` is the first part. */
  lemma TopLevelNavOfJoined(parts: seq<string>)
    requires |parts| >= 1 && forall p | p in parts :: p != [] && '/' !in p
    ensures TopLevelNav("/" + Join(parts, '/')) == "/" + parts[0]
  {
    var body := Join(parts, '/');
    assert "/" + body == [] + ['/'] + body;
    SplitAtFirst([], body, '/');
    SplitJoin(parts, '/');
    assert ([""] + parts)[1..] == parts;
    assert parts[0] in parts;
    assert Filter(NonEmpty, [""] + parts) == Filter(NonEmpty, parts);
    assert Filter(NonEmpty, parts)[0] == parts[0];
  }

  /** The navigation item of a formatted route path is its first rendered segment. */
  lemma TopLevelNavOfRoutePath(segments: seq<string>)
    requires SlashFree(segments)
    ensures var clean := CleanSegments(segments);
      TopLevelNav(FormatRoutePathFromSegments(segments))
        == if clean == [] then "/" else "/" + RenderPathSegment(clean[0])
  {
    var clean := CleanSegments(segments);
    var route := FormatRoutePathFromSegments(segments);
    var rendered := Map(RenderPathSegment, clean);
    assert clean == [] ==> route == "/" by {
      RenderKeepsSlashFree();
      FormatSegmentsRoundTrip(segments, RenderPathSegment);
    }
    assert clean != [] ==> route == "/" + Join(rendered, '/') by {
      RenderKeepsSlashFree();
      FormatSegmentsRoundTrip(segments, RenderPathSegment);
    }
    if clean == [] {
      TopLevelNavOfRoot();
    } else {
      assert forall p | p in rendered :: p != [] && '/' !in p by {
        RenderKeepsSlashFree();
        RenderedPartsSlashFree(segments, RenderPathSegment);
      }
      TopLevelNavOfJoined(rendered);
    }
  }

  /** A navigation item is its own navigation item. */
  lemma TopLevelNavIdempotent(route: string)
    ensures TopLevelNav(TopLevelNav(route)) == TopLevelNav(route)
  {
    var item := TopLevelNav(route);
    if item == "/" {
      assert Split("/", '/') == [""] + Split("", '/');
    } else {
      var rest := item[1..];
      assert item == [] + ['/'] + rest;
      SplitAtFirst([], rest, '/');
      SplitNoSeparator(rest, '/');
      assert Split(item, '/') == ["", rest];
      assert ["", rest][1..] == [rest] && [rest][1..] == [];
      assert Filter(NonEmpty, [rest]) == [rest];
      assert Filter(NonEmpty, ["", rest]) == [rest];
    }
  }

  /** The values `f` takes on the elements of `s`: what a `Set` filled by a `forEach` holds. */
  function Image(f: string -> string, s: seq<string>): set<string> {
    set x | x in s :: f(x)
  }

  /** Visiting one more element adds its value to the image. */
  lemma ImageStep(f: string -> string, s: seq<string>, i: nat)
    requires i < |s|
    ensures Image(f, s[..i + 1]) == Image(f, s[..i]) + {f(s[i])}
  {
    assert s[..i + 1] == s[..i] + [s[i]];
  }

  /** The image holds the value of every element. */
  lemma ImageHasEvery(f: string -> string, s: seq<string>)
    ensures forall x | x in s :: f(x) in Image(f, s)
  {
  }

  /** Every value in the image satisfies a property that all values of `f` satisfy. */
  lemma ImageAll(f: string -> string, s: seq<string>, p: string -> bool)
    requires forall x :: p(f(x))
    ensures forall y | y in Image(f, s) :: p(y)
  {
  }

  function TopLevelNavSet(routePaths: seq<string>): set<string> {
    Image(TopLevelNav, routePaths)
  }

  /** Collects the navigation item of every route path into a set and sorts it. */
  method GatherTopLevelNav(routePaths: seq<string>) returns (items: seq<string>)
    ensures items == Sorted(TopLevelNavSet(routePaths))
    ensures StrictlySorted(items)
    ensures forall route | route in routePaths :: TopLevelNav(route) in items
    ensures forall item | item in items :: |item| >= 1 && item[0] == '/' && '/' !in item[1..]
  {
    var navSet: set<string> := {};
    for i := 0 to |routePaths|
      invariant navSet == TopLevelNavSet(routePaths[..i])
    {
      ImageStep(TopLevelNav, routePaths, i);
      navSet := navSet + {TopLevelNav(routePaths[i])};
    }
    assert routePaths[..|routePaths|] == routePaths;
    items := SortSet(navSet);
    assert forall item | item in items :: item in Elements(items);
    assert forall route | route in routePaths :: TopLevelNav(route) in Elements(items);
  }

  // ---------------------------------------------------------------------------
  // Route collection

  /** The route path of one base name (the `.trim()` of the base name included). */
  function RoutePathOf(basename: string): (route: string)
    ensures WellFormedRoute(route)
  {
    FormatRoutePathFromSegments(ParseSegmentsFromFilename(Trim(basename)))
  }

  function RoutePatternOf(basename: string): (route: string)
    ensures WellFormedRoute(route)
  {
    FormatRoutePatternFromSegments(ParseSegmentsFromFilename(Trim(basename)))
  }

  /** The route path of a base name without `/`: the root when no segment survives
      the parser, otherwise one `/`-separated piece per parsed segment, `$x`
      rewritten to `{x}`. */
  lemma RoutePathOfPieces(basename: string)
    requires '/' !in basename
    ensures var segments := ParseSegmentsFromFilename(Trim(basename));
      var pieces := Split(RoutePathOf(basename)[1..], '/');
      && (segments == [] ==> RoutePathOf(basename) == "/")
      && (segments != [] ==>
        && |pieces| == |segments|
        && forall i | 0 <= i < |segments| ::
             pieces[i] == (if IsDynamic(segments[i]) then "{" + segments[i][1..] + "}" else segments[i]))
  {
    var segments := ParseSegmentsFromFilename(Trim(basename));
    ParsedSegmentsSlashFree(basename);
    CleanSegmentsOfTidy(segments);
    FormattedPathPieces(segments);
  }

  /** The route pattern of a base name without `/`: the same pieces with `$x`
      rewritten to `:x`. */
  lemma RoutePatternOfPieces(basename: string)
    requires '/' !in basename
    ensures var segments := ParseSegmentsFromFilename(Trim(basename));
      var pieces := Split(RoutePatternOf(basename)[1..], '/');
      && (segments == [] ==> RoutePatternOf(basename) == "/")
      && (segments != [] ==>
        && |pieces| == |segments|
        && forall i | 0 <= i < |segments| ::
             pieces[i] == (if IsDynamic(segments[i]) then ":" + segments[i][1..] else segments[i]))
  {
    var segments := ParseSegmentsFromFilename(Trim(basename));
    ParsedSegmentsSlashFree(basename);
    CleanSegmentsOfTidy(segments);
    FormattedPatternPieces(segments);
  }

  /** A base name's route path and route pattern coincide exactly when none of
      its parsed segments is dynamic. */
  lemma RoutePathEqualsPatternIffStatic(basename: string)
    requires '/' !in basename
    ensures RoutePathOf(basename) == RoutePatternOf(basename)
        <==> forall s | s in ParseSegmentsFromFilename(Trim(basename)) :: !IsDynamic(s)
  {
    ParsedSegmentsSlashFree(basename);
    TidyPathEqualsPatternIffStatic(ParseSegmentsFromFilename(Trim(basename)));
  }

  /** A base name's navigation item is `/` followed by its first rendered segment. */
  lemma TopLevelNavOfRoutePathOf(basename: string)
    requires '/' !in basename
    ensures var segments := ParseSegmentsFromFilename(Trim(basename));
      TopLevelNav(RoutePathOf(basename))
        == if segments == [] then "/" else "/" + RenderPathSegment(segments[0])
  {
    var segments := ParseSegmentsFromFilename(Trim(basename));
    ParsedSegmentsSlashFree(basename);
    CleanSegmentsOfTidy(segments);
    TopLevelNavOfRoutePath(segments);
  }

  /** The root `/` and the route path of every base name. */
  function RoutePathSet(basenames: seq<string>): set<string> {
    {"/"} + Image(RoutePathOf, basenames)
  }

  function RoutePatternSet(basenames: seq<string>): set<string> {
    {"/"} + Image(RoutePatternOf, basenames)
  }

  /** The path set holds the root, every file's route path, and only well-formed routes. */
  lemma RoutePathSetContents(basenames: seq<string>)
    ensures "/" in RoutePathSet(basenames)
    ensures forall f | f in basenames :: RoutePathOf(f) in RoutePathSet(basenames)
    ensures forall route | route in RoutePathSet(basenames) :: WellFormedRoute(route)
  {
    assert WellFormedRoute("/");
    ImageHasEvery(RoutePathOf, basenames);
    ImageAll(RoutePathOf, basenames, WellFormedRoute);
  }

  /** The pattern set holds the root, every file's route pattern, and only well-formed routes. */
  lemma RoutePatternSetContents(basenames: seq<string>)
    ensures "/" in RoutePatternSet(basenames)
    ensures forall f | f in basenames :: RoutePatternOf(f) in RoutePatternSet(basenames)
    ensures forall route | route in RoutePatternSet(basenames) :: WellFormedRoute(route)
  {
    assert WellFormedRoute("/");
    ImageHasEvery(RoutePatternOf, basenames);
    ImageAll(RoutePatternOf, basenames, WellFormedRoute);
  }

  /** Adding one more file's route path to the set built so far. */
  lemma RoutePathSetStep(basenames: seq<string>, i: nat)
    requires i < |basenames|
    ensures {"/"} + Image(RoutePathOf, basenames[..i]) + {RoutePathOf(basenames[i])}
         == {"/"} + Image(RoutePathOf, basenames[..i + 1])
  {
    ImageStep(RoutePathOf, basenames, i);
  }

  /** Adding one more file's route pattern to the set built so far. */
  lemma RoutePatternSetStep(basenames: seq<string>, i: nat)
    requires i < |basenames|
    ensures {"/"} + Image(RoutePatternOf, basenames[..i]) + {RoutePatternOf(basenames[i])}
         == {"/"} + Image(RoutePatternOf, basenames[..i + 1])
  {
    ImageStep(RoutePatternOf, basenames, i);
  }

  /** The body of the per-file callback: trims the base name, parses it once and
      formats the segments both ways. */
  method ProcessFile(basename: string) returns (routePath: string, routePattern: string)
    ensures routePath == RoutePathOf(basename) && routePattern == RoutePatternOf(basename)
  {
    var filename := Trim(basename);
    var segments := ParseSegmentsFromFilename(filename);
    routePath := FormatRoutePathFromSegments(segments);
    routePattern := FormatRoutePatternFromSegments(segments);
  }

  /** Fills the two route sets: each starts as `{"/"}` (`getInitialRouteSets`)
      and receives the route path and route pattern of every base name. */
  method CollectRouteSets(basenames: seq<string>) returns (uniqRoutePaths: set<string>, uniqRoutePatterns: set<string>)
    ensures uniqRoutePaths == RoutePathSet(basenames)
    ensures uniqRoutePatterns == RoutePatternSet(basenames)
  {
    uniqRoutePaths, uniqRoutePatterns := {"/"}, {"/"};
    for i := 0 to |basenames|
      invariant uniqRoutePaths == {"/"} + Image(RoutePathOf, basenames[..i])
      invariant uniqRoutePatterns == {"/"} + Image(RoutePatternOf, basenames[..i])
    {
      var routePath, routePattern := ProcessFile(basenames[i]);
      RoutePathSetStep(basenames, i);
      RoutePatternSetStep(basenames, i);
      uniqRoutePaths := uniqRoutePaths + {routePath};
      uniqRoutePatterns := uniqRoutePatterns + {routePattern};
    }
    assert basenames[..|basenames|] == basenames;
  }

  /** Collects the route sets of every base name and returns both sets sorted. */
  method ProcessRoutes(basenames: seq<string>) returns (routePaths: seq<string>, routePatterns: seq<string>)
    ensures routePaths == Sorted(RoutePathSet(basenames))
    ensures routePatterns == Sorted(RoutePatternSet(basenames))
    ensures "/" in routePaths && "/" in routePatterns
    ensures StrictlySorted(routePaths) && StrictlySorted(routePatterns)
    ensures forall f | f in basenames :: RoutePathOf(f) in routePaths && RoutePatternOf(f) in routePatterns
    ensures forall route | route in routePaths :: WellFormedRoute(route)
    ensures forall route | route in routePatterns :: WellFormedRoute(route)
  {
    var uniqRoutePaths, uniqRoutePatterns := CollectRouteSets(basenames);
    routePaths := SortSet(uniqRoutePaths);
    routePatterns := SortSet(uniqRoutePatterns);
    RoutePathSetContents(basenames);
    RoutePatternSetContents(basenames);
    assert forall route | route in routePaths :: route in Elements(routePaths);
    assert forall route | route in routePatterns :: route in Elements(routePatterns);
  }
}
