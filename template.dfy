/**
 The generated TypeScript module: a fixed text with three lists spliced in,
 the route patterns, the route paths and the top-level navigation items,
 one `\t"<entry>",` line per entry. The text is held as its lines joined
 with newlines; the leading newline of the template literal is what
 `.trimStart()` removes.
 */
module TypeScriptTemplate {
  import opened JsText
  import opened JsSort
  import opened GenDocsRoutes

  // Lines longer than a few words are written as concatenations of short
  // pieces, a size the verifier checks character by character.

  const CommentLine: string :=
    "// This file " + "was generated " + "by " + "`gen-remix-" + "routes`. DO NOT " + "EDIT."
  const RoutePatternsOpenLine: string :=
    "export const " + "routePatterns = " + "["
  const RoutePatternTypeLine: string :=
    "export type " + "RoutePattern = " + "typeof " + "routePatterns" + "[number];"
  const RoutePatternFnLine: string :=
    "export const " + "routePattern = " + "<T extends " + "RoutePattern>" + "(value: T) => " + "value;"
  const IsRoutePatternHeadLine: string :=
    "export const " + "isRoutePattern " + "= (value: " + "unknown): value " + "is RoutePattern " + "=>"
  const IsRoutePatternBodyLine: string :=
    "\ttypeof value " + "=== \"string\" && " + "routePatterns." + "includes(value " + "as RoutePattern);"
  const RouteTypeLine: string :=
    "export type " + "Route = typeof " + "routes[number];"
  const RouteFnLine: string :=
    "export const " + "route = <T " + "extends " + "Route>(value: " + "T) => value;"
  const IsRouteLine: string :=
    "export const " + "isRoute = " + "(value: " + "unknown): value " + "is Route => " + "typeof value " + "=== \"string\" && " + "routes.includes(" + "value as Route);"
  const TopLevelNavItemsOpenLine: string :=
    "export const " + "topLevelNavItems" + " = ["
  const TopLevelNavTypeLine: string :=
    "export type " + "TopLevelNav = " + "typeof " + "topLevelNavItems" + "[number];"
  const TopLevelNavFnLine: string :=
    "export const " + "topLevelNav = " + "<T extends " + "TopLevelNav>" + "(value: T) => " + "value;"
  const IsTopLevelNavHeadLine: string :=
    "export const " + "isTopLevelNav = " + "(value: " + "unknown): value " + "is TopLevelNav " + "=>"
  const IsTopLevelNavBodyLine: string :=
    "\ttypeof value " + "=== \"string\" && " + "topLevelNavItems" + ".includes(value " + "as TopLevelNav);"

  /** The lines before the route patterns. */
  const HeaderLines: seq<string> := [CommentLine, "", RoutePatternsOpenLine]

  /** The lines between the route patterns and the route paths. */
  const PatternsToRoutesLines: seq<string> := [
    "] as const;", "",
    RoutePatternTypeLine, "",
    RoutePatternFnLine, "",
    IsRoutePatternHeadLine,
    IsRoutePatternBodyLine, "",
    "export const routes = ["
  ]

  /** The lines between the route paths and the navigation items. */
  const RoutesToNavLines: seq<string> := [
    "] as const;", "",
    RouteTypeLine, "",
    RouteFnLine, "",
    IsRouteLine, "",
    TopLevelNavItemsOpenLine
  ]

  /** The lines after the navigation items; the final empty line is the text's trailing newline. */
  const FooterLines: seq<string> := [
    "] as const;", "",
    TopLevelNavTypeLine, "",
    TopLevelNavFnLine, "",
    IsTopLevelNavHeadLine,
    IsTopLevelNavBodyLine,
    ""
  ]

  /** One list entry: a tab, the entry in double quotes, a comma. */
  function EntryLine(entry: string): (line: string)
    ensures '\n' !in entry ==> '\n' !in line
    ensures |line| == |entry| + 4 && line[..2] == "\t\"" && line[|line| - 2..] == "\","
    ensures line[2..|line| - 2] == entry
  {
    "\t\"" + entry + "\","
  }

  /** The block spliced in for a list: its entry lines joined with newlines. */
  function EntryBlock(entries: seq<string>): string {
    Join(Map(EntryLine, entries), '\n')
  }

  /** The lines an entry block occupies: one per entry, or a single empty line for no entries. */
  function EntryLines(entries: seq<string>): (lines: seq<string>)
    ensures |lines| >= 1
    ensures entries == [] ==> lines == [""]
    ensures entries != [] ==> |lines| == |entries| && forall i | 0 <= i < |entries| :: lines[i] == EntryLine(entries[i])
  {
    if entries == [] then [""] else Map(EntryLine, entries)
  }

  lemma EntryBlockIsJoinedLines(entries: seq<string>)
    ensures EntryBlock(entries) == Join(EntryLines(entries), '\n')
  {
  }

  /** The lines of several groups, one group after another. */
  function Flat(groups: seq<seq<string>>): seq<string> {
    if groups == [] then [] else groups[0] + Flat(groups[1..])
  }

  /** The template in groups of lines: the fixed lines, with each list's block as one
      (possibly multi-line) string. */
  function TemplateSections(routePaths: seq<string>, routePatterns: seq<string>, navItems: seq<string>): seq<seq<string>> {
    [HeaderLines, [EntryBlock(routePatterns)], PatternsToRoutesLines, [EntryBlock(routePaths)],
     RoutesToNavLines, [EntryBlock(navItems)], FooterLines]
  }

  /** The template's lines with each block kept as one string. */
  function TemplateLines(routePaths: seq<string>, routePatterns: seq<string>, navItems: seq<string>): seq<string> {
    Flat(TemplateSections(routePaths, routePatterns, navItems))
  }

  /** The template literal (which opens with a newline) after `.trimStart()`:
      the trim removes exactly that newline, leaving the template's lines joined
      with newlines, which start with the header comment. */
  function TemplateText(routePaths: seq<string>, routePatterns: seq<string>, navItems: seq<string>): (text: string)
    ensures text == Join(TemplateLines(routePaths, routePatterns, navItems), '\n')
  {
    var lines := TemplateLines(routePaths, routePatterns, navItems);
    var body := Join(lines, '\n');
    assert body != [] && body[0] == '/' by {
      assert lines[0] == CommentLine;
      assert CommentLine[0] == '/';
      JoinStartsWithFirst(lines, '\n');
    }
    TrimStartDropsNewline(body);
    TrimLeft("\n" + body, IsWhitespace)
  }

  /** `.trimStart()` of a newline followed by text that starts with a visible character drops the newline only. */
  lemma TrimStartDropsNewline(body: string)
    requires body != [] && body[0] == '/'
    ensures TrimLeft("\n" + body, IsWhitespace) == body
  {
    var literal := "\n" + body;
    assert literal[0] == '\n' && literal[1] == '/';
    TrimLeftAfter(literal, IsWhitespace, 1);
    assert literal[1..] == body;
  }

  /** `generateTypeScriptTemplate`: gathers the navigation items from the route paths and fills the template. */
  method GenerateTypeScriptTemplate(routePaths: seq<string>, routePatterns: seq<string>) returns (text: string)
    ensures text == TemplateText(routePaths, routePatterns, Sorted(TopLevelNavSet(routePaths)))
  {
    var topLevelNavItems := GatherTopLevelNav(routePaths);
    var lines := TemplateLines(routePaths, routePatterns, topLevelNavItems);
    text := TrimLeft("\n" + Join(lines, '\n'), IsWhitespace);
  }

  /** Joining starts with the first part's first character. */
  lemma {:induction false} JoinStartsWithFirst(parts: seq<string>, sep: char)
    requires |parts| >= 1 && parts[0] != []
    ensures Join(parts, sep) != [] && Join(parts, sep)[0] == parts[0][0]
  {
  }

  /** Two lists of non-empty groups whose groups join pairwise to the same text
      join, once flattened, to the same text. */
  lemma {:induction false} JoinFlat(g: seq<seq<string>>, h: seq<seq<string>>, sep: char)
    requires |g| == |h| >= 1
    requires forall i | 0 <= i < |g| :: |g[i]| >= 1 && |h[i]| >= 1 && Join(g[i], sep) == Join(h[i], sep)
    ensures |Flat(g)| >= 1 && |Flat(h)| >= 1
    ensures Join(Flat(g), sep) == Join(Flat(h), sep)
  {
    if |g| == 1 {
      assert g[1..] == [] && h[1..] == [];
      assert Flat(g) == g[0] && Flat(h) == h[0];
    } else {
      JoinFlat(g[1..], h[1..], sep);
      JoinAppend(g[0], Flat(g[1..]), sep);
      JoinAppend(h[0], Flat(h[1..]), sep);
    }
  }

  /** The lines of groups none of whose lines holds `c` hold no `c`. */
  lemma {:induction false} FlatKeepsOut(groups: seq<seq<string>>, c: char)
    requires forall i | 0 <= i < |groups| :: forall line | line in groups[i] :: c !in line
    ensures forall line | line in Flat(groups) :: c !in line
  {
    if groups != [] {
      FlatKeepsOut(groups[1..], c);
    }
  }

  // Each long fixed line holds no newline, checked piece by piece.

  lemma CommentLineSingleLine() ensures '\n' !in CommentLine {}
  lemma OpenLinesSingleLine()
    ensures '\n' !in RoutePatternsOpenLine && '\n' !in TopLevelNavItemsOpenLine
  {}
  lemma RoutePatternTypeLineSingleLine() ensures '\n' !in RoutePatternTypeLine {}
  lemma RoutePatternFnLineSingleLine() ensures '\n' !in RoutePatternFnLine {}
  lemma IsRoutePatternHeadLineSingleLine() ensures '\n' !in IsRoutePatternHeadLine {}
  lemma IsRoutePatternBodyLineSingleLine() ensures '\n' !in IsRoutePatternBodyLine {}
  lemma RouteTypeLineSingleLine() ensures '\n' !in RouteTypeLine {}
  lemma RouteFnLineSingleLine() ensures '\n' !in RouteFnLine {}
  lemma IsRouteLineSingleLine() ensures '\n' !in IsRouteLine {}
  lemma TopLevelNavTypeLineSingleLine() ensures '\n' !in TopLevelNavTypeLine {}
  lemma TopLevelNavFnLineSingleLine() ensures '\n' !in TopLevelNavFnLine {}
  lemma IsTopLevelNavHeadLineSingleLine() ensures '\n' !in IsTopLevelNavHeadLine {}
  lemma IsTopLevelNavBodyLineSingleLine() ensures '\n' !in IsTopLevelNavBodyLine {}

  /** The fixed lines hold no newline. */
  lemma HeaderLinesSingleLine()
    ensures forall p | p in HeaderLines :: '\n' !in p
  {
    CommentLineSingleLine();
    OpenLinesSingleLine();
  }

  lemma PatternsToRoutesLinesSingleLine()
    ensures forall p | p in PatternsToRoutesLines :: '\n' !in p
  {
    RoutePatternTypeLineSingleLine();
    RoutePatternFnLineSingleLine();
    IsRoutePatternHeadLineSingleLine();
    IsRoutePatternBodyLineSingleLine();
  }

  lemma RoutesToNavLinesSingleLine()
    ensures forall p | p in RoutesToNavLines :: '\n' !in p
  {
    RouteTypeLineSingleLine();
    RouteFnLineSingleLine();
    IsRouteLineSingleLine();
    OpenLinesSingleLine();
  }

  lemma FooterLinesSingleLine()
    ensures forall p | p in FooterLines :: '\n' !in p
  {
    TopLevelNavTypeLineSingleLine();
    TopLevelNavFnLineSingleLine();
    IsTopLevelNavHeadLineSingleLine();
    IsTopLevelNavBodyLineSingleLine();
  }

  /** A list whose entries hold no newline occupies lines that hold no newline. */
  lemma EntryLinesSingleLine(entries: seq<string>)
    requires forall e | e in entries :: '\n' !in e
    ensures forall p | p in EntryLines(entries) :: '\n' !in p
  {
    forall p | p in EntryLines(entries) ensures '\n' !in p {
      if entries != [] {
        var i :| 0 <= i < |entries| && Map(EntryLine, entries)[i] == p;
        assert entries[i] in entries;
      }
    }
  }

  /** The template in groups of lines, with each list spliced in line by line. */
  function AllSections(routePaths: seq<string>, routePatterns: seq<string>, navItems: seq<string>): seq<seq<string>> {
    [HeaderLines, EntryLines(routePatterns), PatternsToRoutesLines, EntryLines(routePaths),
     RoutesToNavLines, EntryLines(navItems), FooterLines]
  }

  /** The template's lines with every list spliced in line by line. */
  function AllLines(routePaths: seq<string>, routePatterns: seq<string>, navItems: seq<string>): seq<string> {
    Flat(AllSections(routePaths, routePatterns, navItems))
  }

  /** The generated text is the fixed lines and one line per entry, joined with newlines. */
  lemma TemplateTextIsAllLines(routePaths: seq<string>, routePatterns: seq<string>, navItems: seq<string>)
    ensures TemplateText(routePaths, routePatterns, navItems) == Join(AllLines(routePaths, routePatterns, navItems), '\n')
  {
    var g := TemplateSections(routePaths, routePatterns, navItems);
    var h := AllSections(routePaths, routePatterns, navItems);
    forall i | 0 <= i < |g| ensures |g[i]| >= 1 && |h[i]| >= 1 && Join(g[i], '\n') == Join(h[i], '\n') {
      if i == 1 {
        EntryBlockIsJoinedLines(routePatterns);
      } else if i == 3 {
        EntryBlockIsJoinedLines(routePaths);
      } else if i == 5 {
        EntryBlockIsJoinedLines(navItems);
      }
    }
    JoinFlat(g, h, '\n');
  }

  /** No line of the template holds a newline when no entry does. */
  lemma AllLinesSingleLine(routePaths: seq<string>, routePatterns: seq<string>, navItems: seq<string>)
    requires forall e | e in routePaths :: '\n' !in e
    requires forall e | e in routePatterns :: '\n' !in e
    requires forall e | e in navItems :: '\n' !in e
    ensures |AllLines(routePaths, routePatterns, navItems)| >= 1
    ensures forall p | p in AllLines(routePaths, routePatterns, navItems) :: '\n' !in p
  {
    HeaderLinesSingleLine();
    PatternsToRoutesLinesSingleLine();
    RoutesToNavLinesSingleLine();
    FooterLinesSingleLine();
    EntryLinesSingleLine(routePatterns);
    EntryLinesSingleLine(routePaths);
    EntryLinesSingleLine(navItems);
    FlatKeepsOut(AllSections(routePaths, routePatterns, navItems), '\n');
  }

  /** The generated text, read line by line: the fixed lines, then one line per
      route pattern, the fixed lines, one line per route path, the fixed lines,
      one line per navigation item and the closing lines; an empty list leaves
      one empty line. */
  lemma TemplateTextLines(routePaths: seq<string>, routePatterns: seq<string>, navItems: seq<string>)
    requires forall e | e in routePaths :: '\n' !in e
    requires forall e | e in routePatterns :: '\n' !in e
    requires forall e | e in navItems :: '\n' !in e
    ensures Split(TemplateText(routePaths, routePatterns, navItems), '\n') == AllLines(routePaths, routePatterns, navItems)
  {
    TemplateTextIsAllLines(routePaths, routePatterns, navItems);
    AllLinesSingleLine(routePaths, routePatterns, navItems);
    SplitJoin(AllLines(routePaths, routePatterns, navItems), '\n');
  }
}
