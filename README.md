# Docs-route generator, modelled in Dafny

The documentation site generates a TypeScript module of its routes from the
page files of its Remix app, in `apps/www/scripts/gen-docs-routes/script.ts`.
Each page file is named in the Remix flat-route convention:

- the name is a list of `.`-separated tokens;
- `$name` is a dynamic parameter;
- a token that starts with `_` is pathless;
- `_index` marks an index page.

The script turns each base name into two strings. The **route path** writes a
dynamic token as `{name}`, as in `/foo/{bar}/baz`. The **route pattern** writes
it as `:name`, as in `/foo/:bar/baz`. It collects both kinds into sets that start
with the root `/` and sorts them. From the route paths it derives the sorted
**top-level navigation items**, `/` followed by the first segment. Finally it
fills a TypeScript template with the three lists.

The project has four modules:

- `JsText` (`jstext.dfy`): the JavaScript string and array builtins the script
  uses (`trim`, the anchored slash-removing `replace`, `split`, `join`, `map`,
  `filter`), each with its properties.
- `JsSort` (`jssort.dfy`): the default `Array.prototype.sort` on strings, as
  strict lexicographic order on characters. `Sorted(s)` is the one strictly
  sorted list of a set's elements. `SortSet`, a loop that fills a list by
  insertion, is proved equal to it.
- `GenDocsRoutes` (`gen_docs_routes.dfy`): the parser, the slash trimmers,
  the two formatters and the navigation item as functions. `processRoutes`
  (with `getInitialRouteSets`) and `gatherTopLevelNav` are methods whose loops
  fill sets, as the script's `forEach` loops do.
- `TypeScriptTemplate` (`template.dfy`): the generated text as the template's
  lines joined with newlines, with one `\t"<entry>",` line per list entry.

A fifth module, `RouteExamples` (`route_examples.dfy`), works the convention
through typical base names. The names are arbitrary tokens, not fixed strings:
a nested page `a.b`, a section index `a._index`, the root `_index`, a pathless
prefix and an index token in the middle.

For example, the base names `components.button`, `components._index` and
`_index` give the three routes `/`, `/components/button` and `/components`
(`RouteExamples.SectionSiteRoutePaths`). A base name with a dynamic token, such
as `components.$name.props`, gives the route path `/components/{name}/props` and
the route pattern `/components/:name/props` (`RouteExamples.DynamicBasenameRoute`).

The input of `ProcessRoutes` is the list of base names that
`path.basename(filepath, ".tsx")` returns for the globbed files. The `.trim()`
the script applies to each of them is part of the model.

## Model

| member | source | states |
|---|---|---|
| `JsText.Trim` | apps/www/scripts/gen-docs-routes/script.ts:55 | `String.prototype.trim`: the result is no longer than the input and neither starts nor ends with ECMAScript whitespace |
| `JsText.TrimSlice` | apps/www/scripts/gen-docs-routes/script.ts:55 | the trim is one stretch `s[i..j]` of the input, and every character before `i` and from `j` on is whitespace |
| `JsText.TrimFixedPoint` | apps/www/scripts/gen-docs-routes/script.ts:76 | a string that neither starts nor ends with whitespace is left unchanged by `trim` |
| `JsText.TrimIdempotent` | apps/www/scripts/gen-docs-routes/script.ts:76 | trimming twice is trimming once |
| `JsText.TrimKeepsOut` | apps/www/scripts/gen-docs-routes/script.ts:55 | trimming never introduces a character, such as `.` or `/`, that the input lacks |
| `JsText.TrimLeft` | apps/www/scripts/gen-docs-routes/script.ts:183 | removing a leading run leaves a suffix of the input that does not start with a removed character |
| `JsText.TrimLeftDropsOnly` | apps/www/scripts/gen-docs-routes/script.ts:183 | only characters of the removed kind are taken off the front |
| `JsText.TrimLeftAfter` | apps/www/scripts/gen-docs-routes/script.ts:183 | when the first `k` characters are of the removed kind and the next is not, exactly those `k` go |
| `JsText.TrimRight` | apps/www/scripts/gen-docs-routes/script.ts:191 | removing a trailing run leaves a prefix of the input that does not end with a removed character |
| `JsText.TrimRightDropsOnly` | apps/www/scripts/gen-docs-routes/script.ts:191 | only characters of the removed kind are taken off the back |
| `JsText.TrimRightBefore` | apps/www/scripts/gen-docs-routes/script.ts:191 | when the characters from `k` on are of the removed kind and the one before is not, exactly those go |
| `JsText.Split` | apps/www/scripts/gen-docs-routes/script.ts:54 | `split` returns at least one piece and no piece holds the separator |
| `JsText.JoinSplit` | apps/www/scripts/gen-docs-routes/script.ts:54 | joining the pieces of a split with the separator gives the input back |
| `JsText.SplitJoin` | apps/www/scripts/gen-docs-routes/script.ts:85 | splitting pieces without the separator after joining them gives the pieces back |
| `JsText.SplitNoSeparator` | apps/www/scripts/gen-docs-routes/script.ts:54 | a string without the separator splits into itself alone |
| `JsText.SplitAtFirst` | apps/www/scripts/gen-docs-routes/script.ts:54 | a split cuts at the first separator and goes on with the rest |
| `JsText.SplitKeepsOut` | apps/www/scripts/gen-docs-routes/script.ts:54 | splitting never introduces a character, such as `/`, that the input lacks |
| `JsText.Join` | apps/www/scripts/gen-docs-routes/script.ts:85 | `join`: no parts give the empty string, and the text starts with the first part |
| `JsText.JoinAppend` | apps/www/scripts/gen-docs-routes/script.ts:85 | joining two non-empty lists of pieces is joining each and putting one separator between |
| `JsText.JoinThree` | apps/www/scripts/gen-docs-routes/script.ts:85 | three pieces join to the pieces with a separator between each pair |
| `JsText.JoinEnds` | apps/www/scripts/gen-docs-routes/script.ts:85 | non-empty pieces without the separator join to a text that neither starts nor ends with it |
| `JsText.Map` | apps/www/scripts/gen-docs-routes/script.ts:55 | `map` keeps the length and applies the function at every index |
| `JsText.Filter` | apps/www/scripts/gen-docs-routes/script.ts:56 | `filter` keeps exactly the elements the predicate accepts |
| `JsText.FilterAppend` | apps/www/scripts/gen-docs-routes/script.ts:56-67 | filtering a concatenation is filtering each half and concatenating: every accepted element stays, as often as it occurs, in its place |
| `JsText.FilterCount` | apps/www/scripts/gen-docs-routes/script.ts:56-67 | each accepted element occurs in the result exactly as often as in the input; a rejected one does not occur |
| `JsText.FilterIsSubsequence` | apps/www/scripts/gen-docs-routes/script.ts:56-57 | `filter` keeps the surviving elements in their order |
| `JsText.FilterKeepsAll` | apps/www/scripts/gen-docs-routes/script.ts:77 | a filter that accepts every element changes nothing |
| `JsText.SubsequenceTransitive` | apps/www/scripts/gen-docs-routes/script.ts:56-57 | two filters in a row still keep the original order |
| `JsSort.Less` | apps/www/scripts/gen-docs-routes/script.ts:29 | a proper prefix sorts before the longer string, and nothing sorts before the empty string |
| `JsSort.LessIrreflexive` | apps/www/scripts/gen-docs-routes/script.ts:29 | no string sorts before itself |
| `JsSort.LessTransitive` | apps/www/scripts/gen-docs-routes/script.ts:29 | the sort order is transitive |
| `JsSort.LessTotal` | apps/www/scripts/gen-docs-routes/script.ts:29 | any two distinct strings are ordered one way or the other |
| `JsSort.LessAsymmetric` | apps/www/scripts/gen-docs-routes/script.ts:29 | two strings never sort before each other |
| `JsSort.Insert` | apps/www/scripts/gen-docs-routes/script.ts:29 | inserting a new element into a strictly sorted list keeps it strictly sorted and adds exactly that element |
| `JsSort.Sorted` | apps/www/scripts/gen-docs-routes/script.ts:29-30 | `Array.from(set).sort()`: a strictly sorted list holding exactly the set's elements |
| `JsSort.SortedUnique` | apps/www/scripts/gen-docs-routes/script.ts:29-30 | two strictly sorted lists with the same elements are equal, so the sorted output does not depend on the set's insertion order |
| `JsSort.SortSet` | apps/www/scripts/gen-docs-routes/script.ts:29-30 | the sort loop returns `Sorted(s)`: strictly sorted, free of duplicates, exactly the set's elements |
| `GenDocsRoutes.IsRouteToken` | apps/www/scripts/gen-docs-routes/script.ts:57-67 | a token is kept exactly when it does not start with `_`; the `_index` test is subsumed by the pathless test |
| `GenDocsRoutes.TrimmedParts` | apps/www/scripts/gen-docs-routes/script.ts:53-55 | every trimmed `.`-part holds no `.` and has no whitespace at either end |
| `GenDocsRoutes.ParseSegmentsFromFilename` | apps/www/scripts/gen-docs-routes/script.ts:52-68 | no segment is empty, starts with `_`, holds `.`, or starts or ends with whitespace |
| `GenDocsRoutes.ParsedSegmentsAreKeptParts` | apps/www/scripts/gen-docs-routes/script.ts:53-67 | a string is a segment if and only if it is a trimmed part that is non-empty and does not start with `_` |
| `GenDocsRoutes.ParsedSegmentsInOrder` | apps/www/scripts/gen-docs-routes/script.ts:53-57 | the segments are a subsequence of the trimmed parts: their relative order is kept |
| `GenDocsRoutes.ParsedSegmentsCount` | apps/www/scripts/gen-docs-routes/script.ts:53-67 | each trimmed part that is non-empty and does not start with `_` is a segment as often as it occurs among the parts; `docs.docs` keeps both |
| `GenDocsRoutes.IndexNeverSegment` | apps/www/scripts/gen-docs-routes/script.ts:59-61 | `_index` is never a segment |
| `GenDocsRoutes.TrimLeadingSlashes` | apps/www/scripts/gen-docs-routes/script.ts:183 | the result is a suffix of the input that does not start with `/` |
| `GenDocsRoutes.LeadingSlashesRemoved` | apps/www/scripts/gen-docs-routes/script.ts:183 | only `/` characters are removed from the front |
| `GenDocsRoutes.TrimTrailingSlashes` | apps/www/scripts/gen-docs-routes/script.ts:191 | the result is a prefix of the input that does not end with `/` |
| `GenDocsRoutes.TrailingSlashesRemoved` | apps/www/scripts/gen-docs-routes/script.ts:191 | only `/` characters are removed from the back |
| `GenDocsRoutes.TrimSlashes` | apps/www/scripts/gen-docs-routes/script.ts:173-175 | the result neither starts nor ends with `/`; a non-empty string without a slash at either end is returned unchanged |
| `GenDocsRoutes.TrimSlashesSlice` | apps/www/scripts/gen-docs-routes/script.ts:173-175 | the result is one stretch `value[i..j]` of the input, and every character before `i` and from `j` on is `/` |
| `GenDocsRoutes.TrimSlashesIdempotent` | apps/www/scripts/gen-docs-routes/script.ts:173-175 | trimming slashes twice is trimming them once |
| `GenDocsRoutes.TrimLeadingSlashExample` | apps/www/scripts/gen-docs-routes/script.ts:180 | `"/foo/bar"` loses its leading slash |
| `GenDocsRoutes.TrimLeadingSlashesExample` | apps/www/scripts/gen-docs-routes/script.ts:181 | `"/////foo/bar"` becomes `"foo/bar"` |
| `GenDocsRoutes.TrimTrailingSlashExample` | apps/www/scripts/gen-docs-routes/script.ts:188 | `"/foo/bar/"` becomes `"/foo/bar"` |
| `GenDocsRoutes.TrimTrailingSlashesExample` | apps/www/scripts/gen-docs-routes/script.ts:189 | `"/foo/bar/////"` becomes `"/foo/bar"` |
| `GenDocsRoutes.CleanSegments` | apps/www/scripts/gen-docs-routes/script.ts:76-77 | every segment left after the trim-and-drop clean-up is non-empty with no whitespace at either end |
| `GenDocsRoutes.CleanSegmentOrigin` | apps/www/scripts/gen-docs-routes/script.ts:76-77 | every segment left after the formatter's clean-up is the non-empty trim of an input segment |
| `GenDocsRoutes.AllBlankCleansToEmpty` | apps/www/scripts/gen-docs-routes/script.ts:76-77 | segments that all trim to empty leave nothing after the clean-up |
| `GenDocsRoutes.RenderPathSegment` | apps/www/scripts/gen-docs-routes/script.ts:78-84 | a segment not starting with `$` is unchanged; `$x` becomes `{x}`: one character longer, `{` first, `}` last and `x` between |
| `GenDocsRoutes.RenderPatternSegment` | apps/www/scripts/gen-docs-routes/script.ts:99-105 | a segment not starting with `$` is unchanged; in `$x` only the leading `$` is replaced, by `:` |
| `GenDocsRoutes.FormatSegments` | apps/www/scripts/gen-docs-routes/script.ts:75-88 | the formatter pipeline returns a route with exactly one leading `/` and no trailing `/` unless it is `/`; segments that all trim to empty give `/` |
| `GenDocsRoutes.FormatRoutePathFromSegments` | apps/www/scripts/gen-docs-routes/script.ts:74-89 | the route path is well formed (one leading `/`, no trailing `/` unless it is `/`), and is `/` for a list that is empty or whose segments all trim to empty |
| `GenDocsRoutes.FormatRoutePatternFromSegments` | apps/www/scripts/gen-docs-routes/script.ts:95-110 | the same for the route pattern |
| `GenDocsRoutes.CleanSegmentsOfTidy` | apps/www/scripts/gen-docs-routes/script.ts:76-77 | the clean-up changes nothing on non-empty segments without surrounding whitespace |
| `GenDocsRoutes.CleanSegmentsOfParsed` | apps/www/scripts/gen-docs-routes/script.ts:76-77 | the clean-up changes nothing on the parser's output |
| `GenDocsRoutes.ParsedSegmentsSlashFree` | apps/www/scripts/gen-docs-routes/script.ts:18-20 | a base name without `/`, as `path.basename` returns, trims and parses to segments without `/` |
| `GenDocsRoutes.CleanSegmentsSlashFree` | apps/www/scripts/gen-docs-routes/script.ts:76-77 | slash-free segments stay slash-free and non-empty after the clean-up |
| `GenDocsRoutes.RenderedPartsSlashFree` | apps/www/scripts/gen-docs-routes/script.ts:78-84 | the rendered clean segments are non-empty and slash-free |
| `GenDocsRoutes.FormatSegmentsRoundTrip` | apps/www/scripts/gen-docs-routes/script.ts:85-88 | for slash-free segments the slash trimming never fires: the route is `/` and the rendered segments joined with `/`, and splitting it after the leading `/` gives them back |
| `GenDocsRoutes.RenderKeepsSlashFree` | apps/www/scripts/gen-docs-routes/script.ts:78-84 | both renderings keep a non-empty, slash-free segment non-empty and slash-free |
| `GenDocsRoutes.PathRendererKeepsSlashFree` | apps/www/scripts/gen-docs-routes/script.ts:78-84 | the same for the path renderer passed as a function value |
| `GenDocsRoutes.PatternRendererKeepsSlashFree` | apps/www/scripts/gen-docs-routes/script.ts:99-105 | the same for the pattern renderer passed as a function value |
| `GenDocsRoutes.FormattedPathPieces` | apps/www/scripts/gen-docs-routes/script.ts:78-84 | the route path has one piece per clean segment; `$x` becomes `{x}` with only the leading `$` replaced, and any other segment is unchanged |
| `GenDocsRoutes.FormattedPatternPieces` | apps/www/scripts/gen-docs-routes/script.ts:99-105 | the route pattern has one piece per clean segment; `$x` becomes `:x`, and any other segment is unchanged |
| `GenDocsRoutes.StaticPathEqualsPattern` | apps/www/scripts/gen-docs-routes/script.ts:74-110 | without a dynamic segment the route path and the route pattern are equal |
| `GenDocsRoutes.DynamicPathPiece` | apps/www/scripts/gen-docs-routes/script.ts:78-84 | the route path's piece for a dynamic clean segment starts with `{` |
| `GenDocsRoutes.DynamicPatternPiece` | apps/www/scripts/gen-docs-routes/script.ts:99-105 | the route pattern's piece for a dynamic clean segment starts with `:` |
| `GenDocsRoutes.DynamicPathDiffersFromPattern` | apps/www/scripts/gen-docs-routes/script.ts:78-84 | a dynamic segment makes the route path and the route pattern differ |
| `GenDocsRoutes.PathEqualsPatternIffStatic` | apps/www/scripts/gen-docs-routes/script.ts:74-110 | for slash-free segments, path and pattern are equal if and only if no segment is dynamic |
| `GenDocsRoutes.TidyPathEqualsPatternIffStatic` | apps/www/scripts/gen-docs-routes/script.ts:74-110 | for tidy, slash-free segments, path and pattern are equal if and only if no segment starts with `$` |
| `GenDocsRoutes.FormatEmptyExample` | apps/www/scripts/gen-docs-routes/script.ts:88 | no segments give the root route for both formatters |
| `GenDocsRoutes.FormatTidySegments` | apps/www/scripts/gen-docs-routes/script.ts:75-88 | tidy, slash-free segments format to `/` and their renderings joined with `/` |
| `GenDocsRoutes.FormatThreeSegments` | apps/www/scripts/gen-docs-routes/script.ts:75-88 | three tidy, slash-free segments format to `/a'/b'/c'` with each segment rendered |
| `GenDocsRoutes.ExampleSegmentsTidy` | apps/www/scripts/gen-docs-routes/script.ts:72 | the documented example's segments are tidy and slash-free |
| `GenDocsRoutes.FormatRoutePathExample` | apps/www/scripts/gen-docs-routes/script.ts:72 | `["foo", "$bar", "baz"]` gives the route path `/foo/{bar}/baz` |
| `GenDocsRoutes.FormatRoutePatternExample` | apps/www/scripts/gen-docs-routes/script.ts:93 | `["foo", "$bar", "baz"]` gives the route pattern `/foo/:bar/baz` |
| `GenDocsRoutes.TopLevelNav` | apps/www/scripts/gen-docs-routes/script.ts:161-163 | a navigation item starts with `/` and holds no further `/` |
| `GenDocsRoutes.TopLevelNavOfRoot` | apps/www/scripts/gen-docs-routes/script.ts:161-163 | the root route's navigation item is `/` |
| `GenDocsRoutes.TopLevelNavOfJoined` | apps/www/scripts/gen-docs-routes/script.ts:161-163 | the item of `/` and slash-free parts joined with `/` is `/` and the first part |
| `GenDocsRoutes.TopLevelNavOfRoutePath` | apps/www/scripts/gen-docs-routes/script.ts:161-163 | the item of a formatted route path is `/` and its first rendered segment, or `/` when there is none |
| `GenDocsRoutes.TopLevelNavIdempotent` | apps/www/scripts/gen-docs-routes/script.ts:161-163 | a navigation item is its own navigation item |
| `GenDocsRoutes.ImageStep` | apps/www/scripts/gen-docs-routes/script.ts:160-164 | visiting one more element adds exactly its value to the set |
| `GenDocsRoutes.ImageHasEvery` | apps/www/scripts/gen-docs-routes/script.ts:17-27 | the set holds the value of every visited element |
| `GenDocsRoutes.ImageAll` | apps/www/scripts/gen-docs-routes/script.ts:17-27 | every value in the set has a property that all values have |
| `GenDocsRoutes.GatherTopLevelNav` | apps/www/scripts/gen-docs-routes/script.ts:158-168 | returns the sorted set of the route paths' items: strictly sorted, holding every route's item, each starting with `/` and holding no further `/` |
| `GenDocsRoutes.RoutePathOf` | apps/www/scripts/gen-docs-routes/script.ts:18-22 | a base name's route path is well formed |
| `GenDocsRoutes.RoutePatternOf` | apps/www/scripts/gen-docs-routes/script.ts:18-23 | a base name's route pattern is well formed |
| `GenDocsRoutes.RoutePathOfPieces` | apps/www/scripts/gen-docs-routes/script.ts:18-22 | a base name without `/` has the route path `/` when no segment survives the parser; otherwise the path has one piece per parsed segment, `$x` written `{x}` and any other segment unchanged |
| `GenDocsRoutes.RoutePatternOfPieces` | apps/www/scripts/gen-docs-routes/script.ts:18-23 | the same for the route pattern, with `$x` written `:x` |
| `GenDocsRoutes.RoutePathEqualsPatternIffStatic` | apps/www/scripts/gen-docs-routes/script.ts:18-23 | a base name without `/` has equal route path and route pattern if and only if none of its parsed segments is dynamic |
| `GenDocsRoutes.TopLevelNavOfRoutePathOf` | apps/www/scripts/gen-docs-routes/script.ts:18-22 | the navigation item of a base name's route path is `/` and its first rendered segment, or `/` when no segment survives |
| `GenDocsRoutes.RoutePathSetContents` | apps/www/scripts/gen-docs-routes/script.ts:15-27 | the path set holds `/` and every file's route path, and only well-formed routes |
| `GenDocsRoutes.RoutePatternSetContents` | apps/www/scripts/gen-docs-routes/script.ts:15-27 | the pattern set holds `/` and every file's route pattern, and only well-formed routes |
| `GenDocsRoutes.RoutePathSetStep` | apps/www/scripts/gen-docs-routes/script.ts:25 | adding the next file's route path to the set of the files so far gives the set of one more file |
| `GenDocsRoutes.RoutePatternSetStep` | apps/www/scripts/gen-docs-routes/script.ts:26 | adding the next file's route pattern to the set of the files so far gives the set of one more file |
| `GenDocsRoutes.ProcessFile` | apps/www/scripts/gen-docs-routes/script.ts:18-23 | the per-file callback yields the base name's route path and route pattern |
| `GenDocsRoutes.CollectRouteSets` | apps/www/scripts/gen-docs-routes/script.ts:15-27 | the sets seeded with `/` (lines 38-47) end up as `{"/"}` plus the route path, or pattern, of every file |
| `GenDocsRoutes.ProcessRoutes` | apps/www/scripts/gen-docs-routes/script.ts:9-33 | both lists are the sorted sets: they hold `/` even for no files, are strictly sorted, hold every file's route and only well-formed routes |
| `TypeScriptTemplate.EntryLine` | apps/www/scripts/gen-docs-routes/script.ts:122 | an entry line is a tab, the entry in double quotes and a comma; it holds no newline when the entry holds none |
| `TypeScriptTemplate.EntryLines` | apps/www/scripts/gen-docs-routes/script.ts:122 | a list occupies a single empty line when it is empty, and otherwise one line per entry, the `i`-th being the entry line of the `i`-th entry |
| `TypeScriptTemplate.EntryBlockIsJoinedLines` | apps/www/scripts/gen-docs-routes/script.ts:122 | the spliced block is the list's lines joined with newlines |
| `TypeScriptTemplate.GenerateTypeScriptTemplate` | apps/www/scripts/gen-docs-routes/script.ts:115-153 | the text is the template filled with the route patterns, the route paths and the sorted navigation items of the route paths |
| `TypeScriptTemplate.JoinStartsWithFirst` | apps/www/scripts/gen-docs-routes/script.ts:118-119 | the joined lines start with the first line's first character |
| `TypeScriptTemplate.TemplateText` | apps/www/scripts/gen-docs-routes/script.ts:118-152 | `.trimStart()` removes exactly the template literal's leading newline: the text is the template's lines joined with newlines |
| `TypeScriptTemplate.TrimStartDropsNewline` | apps/www/scripts/gen-docs-routes/script.ts:118-119 | `.trimStart()` of the template literal, a newline followed by the `//` comment, removes the newline and nothing else |
| `TypeScriptTemplate.JoinFlat` | apps/www/scripts/gen-docs-routes/script.ts:118-152 | groups of lines that join pairwise to the same text join to the same text once flattened |
| `TypeScriptTemplate.FlatKeepsOut` | apps/www/scripts/gen-docs-routes/script.ts:118-152 | flattening groups whose lines lack a character gives lines that lack it |
| `TypeScriptTemplate.HeaderLinesSingleLine` | apps/www/scripts/gen-docs-routes/script.ts:119-121 | the fixed lines before the route patterns hold no newline |
| `TypeScriptTemplate.PatternsToRoutesLinesSingleLine` | apps/www/scripts/gen-docs-routes/script.ts:123-131 | the fixed lines between the patterns and the paths hold no newline |
| `TypeScriptTemplate.RoutesToNavLinesSingleLine` | apps/www/scripts/gen-docs-routes/script.ts:133-141 | the fixed lines between the paths and the navigation items hold no newline |
| `TypeScriptTemplate.FooterLinesSingleLine` | apps/www/scripts/gen-docs-routes/script.ts:143-152 | the closing fixed lines hold no newline |
| `TypeScriptTemplate.EntryLinesSingleLine` | apps/www/scripts/gen-docs-routes/script.ts:122 | entries without newlines give lines without newlines |
| `TypeScriptTemplate.TemplateTextIsAllLines` | apps/www/scripts/gen-docs-routes/script.ts:118-152 | the text is the fixed lines and one line per entry, in list order, joined with newlines |
| `TypeScriptTemplate.AllLinesSingleLine` | apps/www/scripts/gen-docs-routes/script.ts:118-152 | no line of the template holds a newline when no entry does |
| `TypeScriptTemplate.TemplateTextLines` | apps/www/scripts/gen-docs-routes/script.ts:118-152 | read line by line, the text is the fixed lines with one `\t"<entry>",` line per entry of each list in order, or one empty line for an empty list |
| `RouteExamples.ParseJoinedParts` | apps/www/scripts/gen-docs-routes/script.ts:53-67 | a base name of tidy, dot-free parts parses to the parts the token filter keeps |
| `RouteExamples.MapFixed` | apps/www/scripts/gen-docs-routes/script.ts:78-84 | rendering that fixes every segment leaves the list unchanged |
| `RouteExamples.FormatStaticPath` | apps/www/scripts/gen-docs-routes/script.ts:74-89 | static segments format to `/` and the segments joined with `/` |
| `RouteExamples.FormatStaticPattern` | apps/www/scripts/gen-docs-routes/script.ts:95-110 | static segments give the same route pattern |
| `RouteExamples.JoinTidy` | apps/www/scripts/gen-docs-routes/script.ts:18 | parts without surrounding whitespace join to a base name that `.trim()` leaves alone |
| `RouteExamples.TidyBasenameIsTrimmed` | apps/www/scripts/gen-docs-routes/script.ts:18 | a base name of parts without surrounding whitespace is left alone by `.trim()` |
| `RouteExamples.TidyBasenameSegments` | apps/www/scripts/gen-docs-routes/script.ts:18-20 | a base name of tidy, dot-free parts, static or dynamic, parses after `.trim()` to the parts the token filter keeps |
| `RouteExamples.StaticBasenameRoute` | apps/www/scripts/gen-docs-routes/script.ts:18-23 | a base name of static parts is served at `/` and its kept parts joined with `/`, as path and as pattern |
| `RouteExamples.FilterOne` | apps/www/scripts/gen-docs-routes/script.ts:57-67 | filtering a single token keeps it exactly when the filter accepts it |
| `RouteExamples.FilterTwo` | apps/www/scripts/gen-docs-routes/script.ts:57-67 | filtering two tokens filters each on its own |
| `RouteExamples.FilterThree` | apps/www/scripts/gen-docs-routes/script.ts:57-67 | filtering three tokens filters each on its own |
| `RouteExamples.RootAndImageOfThree` | apps/www/scripts/gen-docs-routes/script.ts:15-27 | three files add their three routes to the root |
| `RouteExamples.RootAndImageOfThreeWithRoot` | apps/www/scripts/gen-docs-routes/script.ts:43-44 | a file whose route is `/` adds nothing to the seeded root |
| `RouteExamples.IndexTokenIsStatic` | apps/www/scripts/gen-docs-routes/script.ts:59-61 | `_index` is a static token that is never a route segment |
| `RouteExamples.IndexTokenInTheMiddle` | apps/www/scripts/gen-docs-routes/script.ts:59-61 | `a._index.b` parses to `[a, b]` |
| `RouteExamples.PathlessPrefix` | apps/www/scripts/gen-docs-routes/script.ts:63-65 | a pathless prefix `l.a` parses to `[a]` |
| `RouteExamples.RouteTokenBasenameSegments` | apps/www/scripts/gen-docs-routes/script.ts:18-20 | a base name of tidy, dot-free route tokens parses after `.trim()` to exactly those tokens |
| `RouteExamples.DynamicTokenIsSegment` | apps/www/scripts/gen-docs-routes/script.ts:57-67 | `$p` is a tidy route token without `.` or `/`, dynamic, with `p` after the `$` |
| `RouteExamples.DynamicMiddleSegments` | apps/www/scripts/gen-docs-routes/script.ts:18-20 | `a.d.b` with a dynamic token `d` parses to `[a, d, b]` |
| `RouteExamples.DynamicMiddlePath` | apps/www/scripts/gen-docs-routes/script.ts:18-22 | `a.d.b` with a dynamic token `d` has the route path `/a/{..}/b`, the braces around `d` without its `$` |
| `RouteExamples.DynamicMiddlePattern` | apps/www/scripts/gen-docs-routes/script.ts:18-23 | `a.d.b` with a dynamic token `d` has the route pattern `/a/:../b`, `d` without its `$` |
| `RouteExamples.DynamicBasenameRoute` | apps/www/scripts/gen-docs-routes/script.ts:17-23 | `a.$p.b` has the route path `/a/{p}/b` and the route pattern `/a/:p/b` |
| `RouteExamples.NestedPageRoute` | apps/www/scripts/gen-docs-routes/script.ts:17-23 | `a.b` is the page at `/a/b`, as path and as pattern |
| `RouteExamples.SectionIndexRoute` | apps/www/scripts/gen-docs-routes/script.ts:17-23 | `a._index` is the page at `/a` |
| `RouteExamples.RootIndexRoute` | apps/www/scripts/gen-docs-routes/script.ts:17-23 | `_index` is the root page `/` |
| `RouteExamples.SectionSiteRoutePaths` | apps/www/scripts/gen-docs-routes/script.ts:15-27 | the files `a.b`, `a._index` and `_index` give the route paths `{"/", "/a/b", "/a"}` |
| `RouteExamples.SectionSiteRoutePatterns` | apps/www/scripts/gen-docs-routes/script.ts:15-27 | the same files give the same route patterns |

## Left out

- File discovery: the `glob` call (script.ts lines 12-13), the async wrapper and `path.basename(filepath, ".tsx")` (line 18) are I/O and a Node library call. `ProcessRoutes` takes the base names directly.
- `ProcessRoutes` does not model file-order effects, because it returns sets sorted by value. `JsSort.SortedUnique` shows that the order in which files are visited cannot change the result.
- `getInitialRouteSets` (lines 38-47) is not a separate member. Its seeding of both sets with `/` is the first statement of `GenDocsRoutes.CollectRouteSets`.
- `JsSort.Sorted`: JavaScript's default sort compares UTF-16 code units. The model compares Unicode scalar values, which order the same way except when comparing a character above U+FFFF with one in U+E000..U+FFFF.
- `GenDocsRoutes.TrimSlashes`: the `string | undefined` parameter and the `value || ""` fallback are not modelled. Every caller passes a string.
- `JsText.Trim`: `IsWhitespace` lists the ECMAScript WhiteSpace and LineTerminator code points. No Unicode database lies behind it.
- `TypeScriptTemplate.TemplateTextLines` requires entries without newlines. A route made from a base name with a line break would span several lines of the text, and the statement is about lines.
- `TypeScriptTemplate.EntryLine`: entries are spliced in as they are, without escaping, exactly as the template literal does.
- The route examples are stated for arbitrary page tokens `a` and `b`, and `components` and `button` are instances. The exceptions are the formatters' documented examples and the slash-trimming examples, which are stated on the literal strings.
- `RouteExamples.DynamicBasenameRoute` requires a parameter name `p` without `.` or `/` that does not end in whitespace. Otherwise the split or the trims change the token, and the route does not hold `p` verbatim.
- The React code-block components, the `cva` styling tables, the documentation pages and the barrel file are user interface and library wrappers, and are not part of this model.
