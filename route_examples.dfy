/**
 Worked examples of the route generator: what it makes of typical base names
 (a nested page, a section index, the root index, pathless and index tokens),
 stated for arbitrary token names and proved from general lemmas about
 joined parts.
 */
module RouteExamples {
  import opened JsText
  import opened GenDocsRoutes

  /** A base name made of tidy, dot-free parts parses to the parts the token filter keeps. */
  lemma ParseJoinedParts(parts: seq<string>)
    requires |parts| >= 1 && forall p | p in parts :: IsTidy(p) && '.' !in p
    ensures ParseSegmentsFromFilename(Join(parts, '.')) == Filter(IsRouteToken, parts)
  {
    SplitJoin(parts, '.');
    CleanSegmentsOfTidy(parts);
  }

  /** A function that fixes every element leaves the list unchanged under `map`. */
  lemma MapFixed(f: string -> string, s: seq<string>)
    requires forall x | x in s :: f(x) == x
    ensures Map(f, s) == s
  {
    forall i | 0 <= i < |s| ensures Map(f, s)[i] == s[i] {
      assert s[i] in s;
    }
  }

  /** A token that survives trimming unchanged and holds no `.`, no `/` and no leading `$`. */
  predicate IsStaticPart(p: string) {
    IsTidy(p) && '.' !in p && '/' !in p && !IsDynamic(p)
  }

  /** A static token that the parser keeps as a route segment, such as `components`. */
  predicate IsPageToken(p: string) {
    IsStaticPart(p) && IsRouteToken(p)
  }

  /** Tidy segments with no `/` and no `$` format to `/` followed by the segments joined with `/`. */
  lemma FormatStaticPath(segments: seq<string>)
    requires forall s | s in segments :: IsStaticPart(s)
    ensures FormatRoutePathFromSegments(segments) == "/" + Join(segments, '/')
  {
    assert FormatRoutePathFromSegments(segments) == "/" + Join(Map(RenderPathSegment, segments), '/') by {
      RenderKeepsSlashFree();
      FormatTidySegments(segments, RenderPathSegment);
    }
    MapFixed(RenderPathSegment, segments);
  }

  /** The same segments format to the same pattern. */
  lemma FormatStaticPattern(segments: seq<string>)
    requires forall s | s in segments :: IsStaticPart(s)
    ensures FormatRoutePatternFromSegments(segments) == "/" + Join(segments, '/')
  {
    assert FormatRoutePatternFromSegments(segments) == "/" + Join(Map(RenderPatternSegment, segments), '/') by {
      RenderKeepsSlashFree();
      FormatTidySegments(segments, RenderPatternSegment);
    }
    MapFixed(RenderPatternSegment, segments);
  }

  /** Joining tidy parts gives a tidy string. */
  lemma {:induction false} JoinTidy(parts: seq<string>, sep: char)
    requires |parts| >= 1 && forall p | p in parts :: IsTidy(p)
    ensures IsTidy(Join(parts, sep))
  {
    assert parts[0] in parts;
    if |parts| > 1 {
      assert forall p | p in parts[1..] :: p in parts;
      JoinTidy(parts[1..], sep);
      var j := Join(parts, sep);
      var rest := Join(parts[1..], sep);
      assert j == parts[0] + [sep] + rest;
      assert j[0] == parts[0][0];
      assert j[|j| - 1] == rest[|rest| - 1];
    }
  }

  /** A base name made of tidy parts is left alone by `trim`. */
  lemma TidyBasenameIsTrimmed(parts: seq<string>)
    requires |parts| >= 1
    requires forall p | p in parts :: IsTidy(p)
    ensures Trim(Join(parts, '.')) == Join(parts, '.')
  {
    JoinTidy(parts, '.');
    TrimFixedPoint(Join(parts, '.'));
  }

  /** A base name made of tidy, dot-free parts (static or dynamic) is left alone
      by `trim` and parses to the parts that survive the token filter. */
  lemma TidyBasenameSegments(parts: seq<string>)
    requires |parts| >= 1
    requires forall p | p in parts :: IsTidy(p) && '.' !in p
    ensures ParseSegmentsFromFilename(Trim(Join(parts, '.'))) == Filter(IsRouteToken, parts)
  {
    TidyBasenameIsTrimmed(parts);
    ParseJoinedParts(parts);
  }

  /** A base name whose `.`-separated parts are all static is served at `/`
      followed by the parts that survive the token filter, joined with `/`;
      its route path and route pattern coincide. */
  lemma StaticBasenameRoute(parts: seq<string>)
    requires |parts| >= 1
    requires forall p | p in parts :: IsStaticPart(p)
    ensures RoutePathOf(Join(parts, '.')) == "/" + Join(Filter(IsRouteToken, parts), '/')
    ensures RoutePatternOf(Join(parts, '.')) == "/" + Join(Filter(IsRouteToken, parts), '/')
  {
    var kept := Filter(IsRouteToken, parts);
    TidyBasenameSegments(parts);
    FormatStaticPath(kept);
    FormatStaticPattern(kept);
  }

  /** Filtering a one-element list. */
  lemma FilterOne(keep: string -> bool, x: string)
    ensures Filter(keep, [x]) == if keep(x) then [x] else []
  {
    assert [x][1..] == [];
  }

  /** Filtering a two-element list filters each element on its own. */
  lemma FilterTwo(keep: string -> bool, x: string, y: string)
    ensures Filter(keep, [x, y]) == Filter(keep, [x]) + Filter(keep, [y])
  {
    assert [x, y] == [x] + [y];
    FilterAppend(keep, [x], [y]);
  }

  /** Filtering a three-element list filters each element on its own. */
  lemma FilterThree(keep: string -> bool, x: string, y: string, z: string)
    ensures Filter(keep, [x, y, z]) == Filter(keep, [x]) + Filter(keep, [y]) + Filter(keep, [z])
  {
    assert [x, y, z] == [x] + [y, z];
    FilterAppend(keep, [x], [y, z]);
    FilterTwo(keep, y, z);
  }

  /** The root and the values of a function on a three-element list. */
  lemma RootAndImageOfThree(f: string -> string, a: string, b: string, c: string)
    ensures {"/"} + Image(f, [a, b, c]) == {"/", f(a), f(b), f(c)}
  {
    assert forall x | x in [a, b, c] :: x == a || x == b || x == c;
    assert a in [a, b, c] && b in [a, b, c] && c in [a, b, c];
  }

  /** A set started with the root and filled with the values of `f` on three
      elements, the last of which `f` maps to the root. */
  lemma RootAndImageOfThreeWithRoot(f: string -> string, x: string, y: string, z: string, fx: string, fy: string)
    requires f(x) == fx && f(y) == fy && f(z) == "/"
    ensures {"/"} + Image(f, [x, y, z]) == {"/", fx, fy}
  {
    RootAndImageOfThree(f, x, y, z);
  }

  /** The `_index` token is static but never a route segment. */
  lemma IndexTokenIsStatic()
    ensures IsStaticPart("_index") && !IsRouteToken("_index")
  {
  }

  /** `a._index.b`: an index token between two route tokens is dropped. */
  lemma IndexTokenInTheMiddle(a: string, b: string)
    requires IsTidy(a) && '.' !in a && IsRouteToken(a)
    requires IsTidy(b) && '.' !in b && IsRouteToken(b)
    ensures ParseSegmentsFromFilename(a + "." + ("_index" + "." + b)) == [a, b]
  {
    var parts := [a, "_index", b];
    IndexTokenIsStatic();
    assert Join(parts, '.') == a + "." + ("_index" + "." + b) by {
      assert parts[1..] == ["_index", b] && parts[1..][1..] == [b];
      assert Join(parts[1..], '.') == "_index" + "." + b;
    }
    assert Filter(IsRouteToken, parts) == [a, b] by {
      FilterThree(IsRouteToken, a, "_index", b);
      FilterOne(IsRouteToken, a);
      FilterOne(IsRouteToken, "_index");
      FilterOne(IsRouteToken, b);
    }
    ParseJoinedParts(parts);
  }

  /** `l.a` with `l` pathless (say `_layout`): the pathless token is dropped. */
  lemma PathlessPrefix(l: string, a: string)
    requires IsTidy(l) && '.' !in l && IsPathless(l)
    requires IsTidy(a) && '.' !in a && IsRouteToken(a)
    ensures ParseSegmentsFromFilename(l + "." + a) == [a]
  {
    var parts := [l, a];
    assert Join(parts, '.') == l + "." + a by {
      assert parts[1..] == [a];
    }
    assert Filter(IsRouteToken, parts) == [a] by {
      FilterTwo(IsRouteToken, l, a);
      FilterOne(IsRouteToken, l);
      FilterOne(IsRouteToken, a);
    }
    ParseJoinedParts(parts);
  }

  /** `a.b` (say `components.button`) is the page at `/a/b`. */
  lemma NestedPageRoute(a: string, b: string)
    requires IsPageToken(a) && IsPageToken(b)
    ensures RoutePathOf(a + "." + b) == "/" + (a + "/" + b)
    ensures RoutePatternOf(a + "." + b) == "/" + (a + "/" + b)
  {
    var parts := [a, b];
    assert Join(parts, '.') == a + "." + b && Join(parts, '/') == a + "/" + b by {
      assert parts[1..] == [b];
    }
    assert Filter(IsRouteToken, parts) == parts by {
      FilterTwo(IsRouteToken, a, b);
      FilterOne(IsRouteToken, a);
      FilterOne(IsRouteToken, b);
    }
    StaticBasenameRoute(parts);
  }

  /** `$p` is a tidy route token without `.` or `/` when `p` holds neither and
      does not end in whitespace. */
  lemma DynamicTokenIsSegment(p: string)
    requires '.' !in p && '/' !in p && (p != [] ==> !IsWhitespace(p[|p| - 1]))
    ensures var d := "$" + p;
      IsTidy(d) && '.' !in d && '/' !in d && IsRouteToken(d) && IsDynamic(d) && d[1..] == p
  {
    var d := "$" + p;
    assert d[0] == '$' && d[1..] == p;
    assert p != [] ==> d[|d| - 1] == p[|p| - 1];
    assert forall k | 0 <= k < |d| :: d[k] == '$' || d[k] in p;
  }

  /** A base name of tidy, dot-free parts that are all route tokens parses to
      exactly those parts. */
  lemma RouteTokenBasenameSegments(parts: seq<string>)
    requires |parts| >= 1
    requires forall p | p in parts :: IsTidy(p) && '.' !in p && IsRouteToken(p)
    ensures ParseSegmentsFromFilename(Trim(Join(parts, '.'))) == parts
  {
    TidyBasenameSegments(parts);
    assert forall i | 0 <= i < |parts| :: IsRouteToken(parts[i]) by {
      forall i | 0 <= i < |parts| ensures IsRouteToken(parts[i]) {
        assert parts[i] in parts;
      }
    }
    FilterKeepsAll(IsRouteToken, parts);
  }

  /** `a.d.b` with `d` a dynamic token parses to its three tokens. */
  lemma DynamicMiddleSegments(a: string, d: string, b: string)
    requires IsPageToken(a) && IsPageToken(b)
    requires IsTidy(d) && '.' !in d && IsDynamic(d)
    ensures ParseSegmentsFromFilename(Trim(a + "." + (d + "." + b))) == [a, d, b]
  {
    var parts := [a, d, b];
    JoinThree(a, d, b, '.');
    assert forall x | x in parts :: IsTidy(x) && '.' !in x && IsRouteToken(x);
    RouteTokenBasenameSegments(parts);
  }

  /** `a.d.b` with `d` a dynamic token: the route path renders `d` as `{..}`. */
  lemma DynamicMiddlePath(a: string, d: string, b: string)
    requires IsPageToken(a) && IsPageToken(b)
    requires IsTidy(d) && '.' !in d && '/' !in d && IsDynamic(d)
    ensures RoutePathOf(a + "." + (d + "." + b)) == "/" + (a + "/" + ("{" + d[1..] + "}" + "/" + b))
  {
    var parts := [a, d, b];
    assert FormatRoutePathFromSegments(parts) == "/" + (RenderPathSegment(a) + "/" + (RenderPathSegment(d) + "/" + RenderPathSegment(b))) by {
      PathRendererKeepsSlashFree(RenderPathSegment);
      FormatThreeSegments(a, d, b, RenderPathSegment);
    }
    assert RoutePathOf(a + "." + (d + "." + b)) == FormatRoutePathFromSegments(parts) by {
      DynamicMiddleSegments(a, d, b);
    }
    assert RenderPathSegment(a) == a && RenderPathSegment(b) == b && RenderPathSegment(d) == "{" + d[1..] + "}";
  }

  /** `a.d.b` with `d` a dynamic token: the route pattern renders `d` as `:..`. */
  lemma DynamicMiddlePattern(a: string, d: string, b: string)
    requires IsPageToken(a) && IsPageToken(b)
    requires IsTidy(d) && '.' !in d && '/' !in d && IsDynamic(d)
    ensures RoutePatternOf(a + "." + (d + "." + b)) == "/" + (a + "/" + (":" + d[1..] + "/" + b))
  {
    var parts := [a, d, b];
    assert FormatRoutePatternFromSegments(parts) == "/" + (RenderPatternSegment(a) + "/" + (RenderPatternSegment(d) + "/" + RenderPatternSegment(b))) by {
      PatternRendererKeepsSlashFree(RenderPatternSegment);
      FormatThreeSegments(a, d, b, RenderPatternSegment);
    }
    assert RoutePatternOf(a + "." + (d + "." + b)) == FormatRoutePatternFromSegments(parts) by {
      DynamicMiddleSegments(a, d, b);
    }
    assert RenderPatternSegment(a) == a && RenderPatternSegment(b) == b && RenderPatternSegment(d) == ":" + d[1..];
  }

  /** `a.$p.b` (say `components.$name.props`): the dynamic token is served as
      `{p}` in the route path and as `:p` in the route pattern, between the two
      static segments. */
  lemma DynamicBasenameRoute(a: string, p: string, b: string)
    requires IsPageToken(a) && IsPageToken(b)
    requires '.' !in p && '/' !in p && (p != [] ==> !IsWhitespace(p[|p| - 1]))
    ensures RoutePathOf(a + ".$" + p + "." + b) == "/" + a + "/{" + p + "}/" + b
    ensures RoutePatternOf(a + ".$" + p + "." + b) == "/" + a + "/:" + p + "/" + b
  {
    var d := "$" + p;
    assert a + ".$" + p + "." + b == a + "." + (d + "." + b);
    assert "/" + (a + "/" + ("{" + p + "}" + "/" + b)) == "/" + a + "/{" + p + "}/" + b;
    assert "/" + (a + "/" + (":" + p + "/" + b)) == "/" + a + "/:" + p + "/" + b;
    DynamicTokenIsSegment(p);
    DynamicMiddlePath(a, d, b);
    DynamicMiddlePattern(a, d, b);
  }

  /** `a._index` (say `components._index`) is the index page of `/a`. */
  lemma SectionIndexRoute(a: string)
    requires IsPageToken(a)
    ensures RoutePathOf(a + "." + "_index") == "/" + a
    ensures RoutePatternOf(a + "." + "_index") == "/" + a
  {
    var parts := [a, "_index"];
    IndexTokenIsStatic();
    assert Join(parts, '.') == a + "." + "_index" by {
      assert parts[1..] == ["_index"];
    }
    assert Filter(IsRouteToken, parts) == [a] by {
      FilterTwo(IsRouteToken, a, "_index");
      FilterOne(IsRouteToken, a);
      FilterOne(IsRouteToken, "_index");
    }
    StaticBasenameRoute(parts);
  }

  /** `_index` is the site's root page. */
  lemma RootIndexRoute()
    ensures RoutePathOf("_index") == "/"
    ensures RoutePatternOf("_index") == "/"
  {
    var parts := ["_index"];
    IndexTokenIsStatic();
    assert Join(parts, '.') == "_index";
    assert Filter(IsRouteToken, parts) == [] by {
      FilterOne(IsRouteToken, "_index");
    }
    StaticBasenameRoute(parts);
  }

  /** A section with one page, its own index page and the root index page (say
      `components.button`, `components._index` and `_index`) yields three route
      paths: the root, the page and the section. The root index page adds nothing
      to the root route that the set starts with. */
  lemma SectionSiteRoutePaths(a: string, b: string)
    requires IsPageToken(a) && IsPageToken(b)
    ensures RoutePathSet([a + "." + b, a + "." + "_index", "_index"])
      == {"/", "/" + (a + "/" + b), "/" + a}
  {
    NestedPageRoute(a, b);
    SectionIndexRoute(a);
    RootIndexRoute();
    RootAndImageOfThreeWithRoot(RoutePathOf, a + "." + b, a + "." + "_index", "_index", "/" + (a + "/" + b), "/" + a);
  }

  /** The same three base names yield the same three route patterns. */
  lemma SectionSiteRoutePatterns(a: string, b: string)
    requires IsPageToken(a) && IsPageToken(b)
    ensures RoutePatternSet([a + "." + b, a + "." + "_index", "_index"])
      == {"/", "/" + (a + "/" + b), "/" + a}
  {
    NestedPageRoute(a, b);
    SectionIndexRoute(a);
    RootIndexRoute();
    RootAndImageOfThreeWithRoot(RoutePatternOf, a + "." + b, a + "." + "_index", "_index", "/" + (a + "/" + b), "/" + a);
  }
}
