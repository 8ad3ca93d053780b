# dirtreeist: a verified model of the `dirtree` block renderer

Dirtreeist is an Obsidian plugin. It turns a fenced `dirtree` code block into
one or more plain-text directory trees, using the generator from the
`@k4a_l/dirtreeist` package. It then shows those trees with syntax colouring.
The colouring is the part modelled here (main.ts):

- The trees are joined with a blank line between consecutive trees.
- The joined text is split at line feeds.
- Each line is matched against a fixed regular expression. The expression
  separates the tree-drawing *connector* (`│ ┃ |`, ideographic space and
  space, then `├ └ ┣ ┗ +`, then `─ ━ -`) from the *rest*.
- The rest is split at the first ` — ` (space, em dash, space) into a *name*
  and an *annotation*.
- The name counts as a directory when its first non-`\s` character is `/`.
- Each non-empty segment is wrapped in a `<span>` with class
  `dirtree-connector`, `dirtree-dir`, `dirtree-file` or `dirtree-annotation`.
  Its text goes through `escapeHtml`.
- A line the expression cannot match is only escaped.
- The rendered lines are joined with line feeds again.

The plugin's settings form a second, smaller piece: the defaults, and
loading, which copies the stored record over the defaults.

Modules:

- `Wrappers` (wrappers.dfy): `Option`.
- `Strings` (strings.dfy): the JavaScript string operations the renderer
  uses, over `seq<char>`: `indexOf`, `split("\n")` and `join`.
- `Escape` (escape.dfy): `escapeHtml` as the three replace-all passes it is.
  A one-pass reference definition sits beside it, together with the entity
  decoding a browser applies.
- `LineRender` (line.dfy): the regular expression as an explicit greedy
  scanner, the annotation split, the `\s` trim, the spans, and a line's
  markup. Tag stripping (the text a reader sees) is used to state the round
  trip.
- `BlockRender` (block.dfy): the `reduce` join of the trees and the
  split/map/join pipeline. Holds the whole-block round trip.
- `Settings` (settings.dfy): `DEFAULT_SETTINGS`, the `Object.assign` overlay,
  and the plugin class reduced to its `settings` field.

The expression at main.ts:47 admits spaces only in its first class, before
the branch characters. So in the line `├── /src` the connector is `├──` and the
name is ` /src`, with the space. That name still renders as a directory,
because leading whitespace is trimmed before the `/` test
(`LineRender.BranchLineSplit`).

## Model

| member | source | states |
|---|---|---|
| Escape.ReplaceAllConcat | main.ts:6 | one global `replace` pass of a character distributes over concatenation |
| Escape.ReplaceAllAbsent | main.ts:6 | a pass whose character does not occur leaves the text unchanged |
| Escape.ReplaceAllWithout | main.ts:6 | a pass adds no character that its replacement lacks, and removes its own character when the replacement lacks it |
| Escape.EscapeHtml | main.ts:5-6 | the escaped text contains no `<` and no `>` |
| Escape.EscapeHtmlIsByChar | main.ts:5-6 | the three successive passes (`&` first) equal escaping each character on its own, so an `&amp;` made by the first pass is never escaped again |
| Escape.EscapeHtmlConcat | main.ts:5-6 | escaping distributes over concatenation |
| Escape.EscapeRoundTrip | main.ts:5-6 | decoding the three entities undoes the escaping exactly, for every string |
| Escape.EscapeNewline | main.ts:5-6 | the escaped text holds a line feed exactly when the text does |
| Strings.IndexOf | main.ts:54 | `indexOf` gives -1 exactly when the pattern does not occur; otherwise it gives an index where the pattern occurs, with no occurrence before it |
| Strings.Split | main.ts:44 | `split("\n")` gives at least one piece, and no piece contains a line feed |
| Strings.JoinSnoc | main.ts:84 | joining with one more piece appends the separator and that piece |
| Strings.ConcatJoin | main.ts:82 | `join("")` of two runs of pieces is the join of the first run followed by that of the second |
| Strings.JoinSplit | main.ts:43-84 | joining the pieces of a split with line feeds gives back the original text |
| Strings.SplitJoin | main.ts:43-84 | splitting lines that hold no line feed, once joined with line feeds, gives back exactly those lines |
| Strings.SplitAtNewline | main.ts:44 | splitting around a line feed gives the pieces of each side |
| BlockRender.ReduceFromJoin | main.ts:39-41 | continuing the `reduce` (`ReduceFrom`) at index `i`, with the first `i` trees joined by blank lines as the accumulator, gives all trees joined by blank lines |
| BlockRender.JoinTreesIsJoin | main.ts:39-41 | `JoinTrees`, the `reduce` with no initial value and its `index !== 0` separator gives `r[0] + "\n\n" + r[1] + …`; needs at least one tree, as `reduce` does |
| BlockRender.TreesSeparatedByBlankLine | main.ts:39-41 | the lines of the joined text are those of all trees but the last, one empty line, then the lines of the last tree |
| BlockRender.TwoTrees | main.ts:39-41 | two one-line trees give the lines: first tree, empty line, second tree |
| BlockRender.RenderLinesShape | main.ts:43-84 | `RenderLines`, the `map`, rendering line by line keeps the number of lines, adds no line feed to any line, and leaves an empty line empty |
| BlockRender.RenderBlockLines | main.ts:43-84 | for `RenderBlock` (split, map, join), splitting the block's markup at line feeds gives exactly the input lines, each rendered: as many output lines as input lines, with line `i` the rendering of line `i` |
| BlockRender.StripRenderedLines | main.ts:43-84 | with the tags removed, the block's markup is the escaped plain text |
| BlockRender.RenderBlockRoundTrip | main.ts:43-84 | the text a reader sees in the block's markup (tags removed, entities decoded) is exactly the plain text |
| BlockRender.RenderRoundTrip | main.ts:39-84 | for `Render` of the generator's trees, the visible text is the trees joined by blank lines, with nothing lost, added or reordered |
| LineRender.RunEnd | main.ts:47 | a greedy `[…]*` run ends at the first character outside its class, and every character it covers is in the class |
| LineRender.MatchLine | main.ts:46-52 | the match fails exactly when the line contains `\n`, `\r`, U+2028 or U+2029, since `.` without flags matches none of them; on success, connector followed by rest is the whole line |
| LineRender.MatchIffLanguage | main.ts:46-49 | the match succeeds exactly when the line is in the pattern's language: some prefix is in the connector language and the rest after it holds no `\n`, `\r`, U+2028 or U+2029, the characters `.` does not match |
| LineRender.ConnectorHasNoTerminator | main.ts:47 | a prefix in the connector language holds no line terminator, since none of the three classes contains one |
| LineRender.MatchLineGreedy | main.ts:47 | the connector (`ConnectorLength` characters: three greedy runs, one per class) is in the language of the three classes, and it is the longest prefix that is |
| LineRender.SplitAnnotation | main.ts:54-63 | name followed by annotation is the rest, and the split is at the first ` — `. If the delimiter occurs, the annotation starts with it. Otherwise the annotation is empty and the name is the whole rest |
| LineRender.NameHasNoDelimiter | main.ts:54-63 | the name never contains the delimiter |
| LineRender.TrimStart | main.ts:65 | the trimmed name is a suffix of the name; everything removed is `\s` whitespace; what remains does not start with whitespace |
| LineRender.TrimStartAt | main.ts:65 | when every character before index `i` is `\s` whitespace and the one at `i` is not, trimming leaves exactly the text from `i` on |
| LineRender.IsDirectoryNameIff | main.ts:65-66 | a name is a directory exactly when some character is `/` and every character before it is `\s` whitespace |
| LineRender.IndentedSlashIsDirectory | main.ts:65-66 | the name ` /src` is a directory name: the space is trimmed, then `/` starts the rest |
| LineRender.BranchLineSplit | main.ts:47-66 | the line `├── /src` matches with connector `├──` and rest ` /src`, and that name goes in a `dir` span |
| LineRender.BlankNameIsFile | main.ts:65-66 | a name made only of whitespace (or empty) is a file |
| LineRender.LineParts | main.ts:68-80 | the parts are those of `SegmentsOf`: at most three, in the order connector, name, annotation, none empty; a connector part holds exactly the connector, a name part exactly the name, in the `dir` span when the name is a directory name (`NameKind`) and the `file` span otherwise, an annotation part exactly the annotation; each of the three segments has its part exactly when it is non-empty; the parts' texts concatenate to connector + rest |
| LineRender.SegmentsShape | main.ts:68-80 | pushing each non-empty segment in turn into its span gives parts of that shape |
| LineRender.SegmentsTexts | main.ts:68-80 | the pushed parts' texts, in order, are connector + name + annotation |
| LineRender.OpenTagBody | main.ts:71-79 | the class attribute text holds no `<`, `>` or line feed, so the tag closes where the markup says |
| LineRender.StripTagsSpan | main.ts:71-79 | each span template (`SpanMarkup`) is tags around the escaped segment text: removing the tags leaves exactly that text |
| LineRender.RenderLineSpans | main.ts:45-83 | `RenderLine` of a matched line (`RenderMatch`) is the connector's span, then the name's `dir` or `file` span, then the annotation's span, each present exactly when its segment is non-empty |
| LineRender.RenderLineFallback | main.ts:49 | a line the expression cannot match renders as its escaped text, which holds no tag |
| LineRender.EmptyLineRendersEmpty | main.ts:68-82 | an empty line matches with empty connector and rest, pushes no span, and renders as the empty string |
| LineRender.StripTagsSpans | main.ts:68-82 | with the tags removed, the joined spans are the escaped segment texts in order |
| LineRender.StripRenderedLine | main.ts:45-83 | with the tags removed, a line's markup is the escaped line, on both the match and the fallback paths |
| LineRender.RenderLineRoundTrip | main.ts:45-83 | the text a reader sees in a line's markup is exactly the line |
| LineRender.RenderLineNoNewline | main.ts:45-83 | a line without a line feed renders to markup without one, so the final join keeps the line count |
| Settings.Assign | main.ts:94-98 | `Object.assign` with one source: each key the source has wins, each other key keeps the target's value; a complete target stays complete |
| Settings.Stored | main.ts:101-103 | the record `saveData` is given has every key |
| Settings.LoadedSettings | main.ts:93-99 | over `DefaultSettings`, each field present in the loaded data wins and each absent field takes its default (`normal`, `false`, `true`, `2`); with no data file, the result is the defaults |
| Settings.LoadNoKeys | main.ts:18-23 | a data file with no keys loads as `DefaultSettings` (`normal`, `false`, `true`, `2`), as a missing one does |
| Settings.LoadAfterSave | main.ts:93-103 | what `saveSettings` writes, `loadSettings` reads back unchanged |
| Settings.LoadSaveLoad | main.ts:93-103 | after one load, saving and loading again changes nothing |
| Settings.Dirtreeist.LoadSettings | main.ts:93-99 | the field becomes the overlay of the loaded data on the defaults |
| Settings.Dirtreeist.SaveSettings | main.ts:101-103 | the record written has every key and reads back as the current settings |

## Left out

- The plugin lifecycle and the DOM (`onload`, `registerMarkdownCodeBlockProcessor`, `createEl`, `addClasses`, `innerHTML`). They are host-framework calls. The model stops at the markup string assigned to `innerHTML`.
- The tree generator `dirtreeist(source, settings)`. It lives in another package, so its output is a parameter (`trees`).
- `loadData` and `saveData` (asynchronous file I/O). The loaded record is a parameter, and `saveSettings` returns the record it would write.
- The settings tab (`DirtreeistSettingTab.display`), its widgets and its `onChange` handlers, including `Number(value)` for the space size. These are UI wiring.
- Settings.LoadedSettings: stored data is modelled as the four known keys, each present or absent. A key of the wrong type is not modelled, and neither is an unknown key, which `Object.assign` would also copy onto the settings object. The space size is an unbounded integer, not a JavaScript number.
- Characters: JavaScript strings are UTF-16 code units, while the model's characters are Unicode scalar values. Every character the renderer tests is in the Basic Multilingual Plane, so the scanner, the trim and the split behave the same. String lengths of non-BMP text would differ.
- LineRender.TextContent: the browser's HTML parsing is stated only as far as this markup needs: tags are removed and the three entities the escaping produces are decoded. A browser also turns a carriage return (alone or before a line feed) into a line feed and drops NUL characters. The fallback path (main.ts:49) emits lines that contain `\r`, so the round-trip lemmas hold for `TextContent` as defined here, not for what a browser displays for such lines.
