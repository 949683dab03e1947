# Proofs about an editor's base library

This project models the algorithms of `src/cs/base/common` that carry state or
cross several functions, and proves what they promise. Each cluster has a
specification (functions and predicates over values) and, where the program
works step by step, a class or a method with loops that is proved against it.
What the specifications themselves say is then pinned by results that name none
of their functions: the layout of a formatted document, the points of a match,
percent-encoding, the tokens of JSON, where a path leads, the digest of `abc`.

`dafny verify dfyconfig.toml` checks the whole project.

| cluster | files | program |
|---|---|---|
| SHA-1 over UTF-16 strings fed in pieces | `Utf`, `Bits32`, `Sha1Spec`, `Hex`, `StringSha1`, `Sha1Abc` | `hash.ts` |
| fuzzy matching of completions | `FuzzySpec`, `FuzzyPoints`, `FuzzyMatcher` | `filters.ts` |
| fuzzy scoring of queries | `FuzzyScorer`, `FuzzyScorerPoints` | `fuzzyScorer.ts` |
| posix paths | `PathSpec`, `Path`, `PathMeaning` | `path.ts` |
| the reactive graph | `ReactiveNet`, `Reactive` | `observable.ts` |
| the fault-tolerant JSON scanner and parsers | `JsonScan`, `JsonScanner`, `JsonLexical`, `JsonNumber`, `JsonSyntax`, `JsonFaults`, `JsonGrammar`, `JsonBrackets`, `JsonVisitor`, `JsonFold`, `JsonValue`, `JsonParse`, `JsonTree` | `json.ts` |
| formatting JSON | `JsonLex`, `JsonWords`, `JsonFormatSpec`, `JsonFormatMeaning`, `JsonReformat`, `JsonLayout`, `JsonFormatter` | `jsonFormatter.ts` |
| editing JSON | `JsonCut`, `JsonEdit`, `JsonQuote`, `JsonUpdate`, `JsonHole`, `JsonSetProperty`, `JsonShape`, `JsonLonely`, `JsonPropertyEdit`, `JsonExamples`, `JsonScalars` | `jsonEdit.ts` |
| sharing equal parts of a JSON schema | `SchemaSpec`, `SchemaCompressor`, `SchemaMeaning` | `jsonSchema.ts` |
| URIs | `UriPercent`, `UriCoding`, `UriDecoding`, `Uri`, `UriForm`, `UriRoundTrip`, `UriExamples` | `uri.ts` |
| searching bytes, comparing sorted arrays | `BinaryIndexOf`, `SortedDiff` | `buffer.ts`, `arrays.ts` |

`CodeUnits` and `Wrappers` hold the types that the clusters share. A JavaScript
string is a sequence of UTF-16 code units. Numbers are integers; the hasher's
words, which the program only uses under 32-bit operators, are `bv32`.

What the environment does comes in as a parameter or as a small specification:
the lower-case forms of the strings to be matched, `toLowerCase` in URIs, the
working directory, the comparison of `sortedDiff`, the sorted list of edits
that `applyEdits` goes through, the length of a schema's JSON text,
`encodeURIComponent` and `decodeURIComponent` (by UTF-8 of RFC 3629), and the
text that `JSON.stringify` returns.

## Findings

Properties that one might expect of the code and that fail, each with a
concrete input and, for all inputs, with the exact condition under which it
holds:

- Removing the only property of an object by `setProperty` leaves a text that
  no longer parses without errors if a trailing comma stands behind the
  property (jsonEdit.ts, lines 48-63), although the trailing comma itself is
  accepted. `JsonExamples.LonelyPropertyStays` shows it for `{"a":1,}`;
  `JsonPropertyEdit.SetProperty` states that the removal succeeds exactly when
  the property is not `LonelyAt`, for every readable text and path.
- `URI.parse(u.toString())` is not `u` if the path begins with an upper-case
  drive letter, if the host is not lower case, or if the text from the
  authority's last colon on holds a delimiter or an escape that decodes
  (uri.ts, lines 656-726). `UriExamples.UpperDriveIsLost` and
  `UriExamples.UnsafePortIsLost` show it for `file:///C:` and for the authority
  `a:/`; `UriRoundTrip.RoundTrip` states that these are all the cases, and
  `UriRoundTrip.PlainPortIsSafe` that a port without any of `/ ? # %` is not one.
- A block comment that consists of the last two units of a text makes the
  scanner's position one larger than the text (json.ts, lines 447-469);
  `JsonScan.ScanLength` states that no other token does.

## Model

| member | source | states |
|---|---|---|
| StringSha1.HashPieces | src/cs/base/common/hash.ts:130-324 | However a UTF-16 string is cut into `update` calls, also inside a surrogate pair, the digest is SHA-1 of the UTF-8 of the whole string with lone surrogates as U+FFFD, while the bit length stays below 2^53 |
| StringSha1.Sha1.Update | src/cs/base/common/hash.ts:155-209 | The object accounts for everything fed so far except a trailing high surrogate, which waits; no store leaves the 67 bytes of the buffer |
| StringSha1.Sha1.Push | src/cs/base/common/hash.ts:211-239 | The bytes of one code point join the hashed and buffered message, also when they straddle the end of a block |
| StringSha1.Sha1.Step | src/cs/base/common/hash.ts:274-323 | One block is compressed as sections 6.1.2 and 4.1.1 of FIPS 180-4 say |
| StringSha1.Sha1.WrapUp | src/cs/base/common/hash.ts:256-272 | With one or two final blocks, the chaining value becomes SHA-1 of the padded message of section 5.1.1 |
| StringSha1.Sha1.Digest | src/cs/base/common/hash.ts:241-254 | The digest of everything fed; a second call gives it again |
| StringSha1.HashShort | src/cs/base/common/hash.ts:75-85 | The synchronous branch of `hashAsync` is SHA-1 of the UTF-8 of its input |
| StringSha1.HexStateInjective | src/cs/base/common/hash.ts:253-254 | Equal digests come from equal chaining values: the 40 digits lose nothing |
| Sha1Abc.AbcDigest | src/cs/base/common/hash.ts:274-323 | The text `abc`, in whatever pieces, is printed as a9993e364706816aba3e25717850c26c9cd0d89d: padding, schedule, round functions, constants and initial value at once |
| Sha1Abc.ConstantsAreRoots | src/cs/base/common/hash.ts:296-308 | The four round constants are the integer parts of 2^30 times the square roots of 2, 3, 5 and 10 |
| Hex.HexRoundTrip | src/cs/base/common/hash.ts:117-128 | A word is printed as eight digits that read back as the word |
| Utf.MessageRoundTrip | src/cs/base/common/hash.ts:176-226 | The bytes that are hashed decode, by the strict decoder of section 3 of RFC 3629, to the text's scalar values: different texts are not hashed as the same message |
| Utf.Utf8RoundTrip | src/cs/base/common/hash.ts:211-226 | The encoder is inverted by the strict decoder on every sequence of scalar values |
| Utf.Utf8Examples | src/cs/base/common/hash.ts:176-226 | The bytes of code points from section 7 of RFC 3629, and of the replacement for a lone surrogate |
| Bits32.LeftRotateIsRotL | src/cs/base/common/hash.ts:104-113 | The shift-and-mask form of `leftRotate` is the circular shift of FIPS 180-4 for the distances it is called with |
| Bits32.MajorityIsMaj | src/cs/base/common/hash.ts:302-304 | The or-form of the majority function equals the exclusive-or form of the standard |
| FuzzyMatcher.Matcher.FuzzyScore | src/cs/base/common/filters.ts:155-271 | Whatever earlier calls left in the shared tables, the result is the one that depends on the arguments only; there is one exactly when some embedding of the pattern tail in the word tail exists that begins at a strong place (aligned, a hump, a first separator, behind a separator or white space), or at any place where the first match may be weak |
| FuzzyMatcher.Matcher.FillCell | src/cs/base/common/filters.ts:180-219 | One round of the inner loop writes the cell of the recurrence, reads only cells written in this call, and its last branch, the throw, is dead |
| FuzzyMatcher.Matcher.WalkBack | src/cs/base/common/filters.ts:229-263 | The walk over the arrows, override included, pushes the positions of the specification |
| FuzzyMatcher.Matcher.IsPatternInWord | src/cs/base/common/filters.ts:142-153 | True exactly on subsequences, and then the table holds the leftmost embedding |
| FuzzyMatcher.Matcher.FillInMaxWordMatchPos | src/cs/base/common/filters.ts:273-283 | The table holds the rightmost embedding |
| FuzzySpec.SolvableIffEmbeds | src/cs/base/common/filters.ts:142-165 | The greedy test succeeds exactly when an embedding of the pattern exists |
| FuzzySpec.AnswerEmbeds | src/cs/base/common/filters.ts:226-271 | Every result holds one position for each pattern unit, strictly decreasing, each a true match, also where the walk overrides the arrows |
| FuzzySpec.TakenMatches | src/cs/base/common/filters.ts:234-253 | The column taken in a row, by arrow or by override, is a match from which the walk stays inside the filled band |
| FuzzyPoints.StrongExactly | src/cs/base/common/filters.ts:299-311 | A call has a strong first match exactly if an embedding begins at an aligned unit, at an upper-case unit not behind another one, at a first separator, or behind a separator or white space |
| FuzzyPoints.PointsOfMatch | src/cs/base/common/filters.ts:285-332 | What a match earns by the kind of its place: 7 or 5 by equal case when aligned or a hump, 5 at or behind a separator, 1 elsewhere; -3 or -5 for a late first match, 2 for a new run at a gap place, 1 for going on elsewhere, -3 or -5 for the last unit |
| FuzzyPoints.CellPoints | src/cs/base/common/filters.ts:193-218 | A diagonal cell is the cell in front of it and the points of its match; a left one is its neighbour, five less if that is a match |
| FuzzyPoints.CellIsBest | src/cs/base/common/filters.ts:193-218 | No cell is worse than any of the three ways to it; a match is taken only if it beats every gap, a short gap only if it beats a long one |
| FuzzyPoints.AnswerPoints | src/cs/base/common/filters.ts:229-271 | The score of the last cell, less the columns by which the last match is too far right, and two more for a full match |
| FuzzyPoints.OneUnit | src/cs/base/common/filters.ts:155-271 | A pattern of one unit scores the points of the match found, less five for a rest of the word, less how far right it is |
| FuzzyPoints.HumpOfFooBar | src/cs/base/common/filters.ts:155-271 | `b` in `fooBar` is found at position 3, strong, with score -6 |
| FuzzyPoints.FirstOfTwo | src/cs/base/common/filters.ts:155-271 | `b` in `aB_bx` is found at position 1: of equally good matches the first |
| FuzzyMatcher.CreateMatches | src/cs/base/common/filters.ts:334-351 | The ranges are sorted, disjoint, do not touch, and cover exactly the positions of the score |
| FuzzyMatcher.Matcher.MatchesFuzzy2 | src/cs/base/common/filters.ts:353-356 | Ranges exactly when the pattern embeds in the word; they cover the positions of the answer, which are an embedding |
| FuzzyScorer.ScoreFuzzy | src/cs/base/common/fuzzyScorer.ts:19-31 | The score is positive exactly when the non-empty query embeds in the target (as a whole where contiguity is demanded); then the positions are an embedding, else there are none |
| FuzzyScorer.DoScoreFuzzy | src/cs/base/common/fuzzyScorer.ts:33-81 | The flat tables hold the recurrence, and the walk back returns an embedding exactly when the score is positive |
| FuzzyScorer.PositiveIffEmbeds | src/cs/base/common/fuzzyScorer.ts:44-62 | The score of a query prefix in a target prefix is positive exactly when the one embeds in the other |
| FuzzyScorer.ContiguousIffOccurs | src/cs/base/common/fuzzyScorer.ts:52-56 | With contiguity demanded, an embedding exists exactly when the lower-case query occurs in the target |
| FuzzyScorerPoints.CellPoints | src/cs/base/common/fuzzyScorer.ts:44-109 | A cell takes a match where that is at least as good as its left neighbour; a match earns one, one more for equal case, six for each of the first three matches of the run in front and three for each further one, and by its place eight at the start, five or four behind a separator, two at a capital outside a run |
| FuzzyScorerPoints.OneUnit | src/cs/base/common/fuzzyScorer.ts:33-109 | A query of one unit scores what the best of its matches earns |
| Path.NormalizeString | src/cs/base/common/path.ts:98-164 | The one-pass automaton computes the reduction of the segments by a stack |
| PathSpec.NormalIdempotent | src/cs/base/common/path.ts:1189-1214 | Normalizing a path twice is normalizing it once |
| PathMeaning.NormalLeads | src/cs/base/common/path.ts:1189-1214 | From every directory the normalized path leads where the path leads, one segment after the other, `..` above the root included; it is absolute and ends in a slash just as the path does, but for the root |
| Path.Normalize | src/cs/base/common/path.ts:1189-1214 | `posix.normalize` keeps a leading and a trailing slash around the reduced segments |
| Path.Resolve | src/cs/base/common/path.ts:1152-1187 | The last absolute argument and those behind it, or the working directory and all of them, reduced as one path |
| PathSpec.ResolvedCanonical | src/cs/base/common/path.ts:1176-1186 | A resolved path is a slash and segments of which none is empty, `.` or `..` |
| PathMeaning.ResolvedLeads | src/cs/base/common/path.ts:1152-1187 | The resolved path leads where changing directory to the working directory and then to each argument in turn leads |
| Path.RelativePath | src/cs/base/common/path.ts:1242-1313 | The comparison by code units and the count of slashes give: one `..` for every segment below the deepest common directory, then the rest of the target |
| PathSpec.RelativeResolves | src/cs/base/common/path.ts:1242-1313 | Resolving the relative path from its source leads to the target, for all paths |
| Path.RelativeThenResolve | src/cs/base/common/path.ts:1152-1313 | The same for the two programs, run one after the other |
| Reactive.ReactiveGraph.Set | src/cs/base/common/observable.ts:95-102 | When an outermost `set` returns, every edge is known at both ends and every live autorun has last run on the current values, with dependencies that change from run to run and nodes that are shared |
| Reactive.ReactiveGraph.NotifyObservers | src/cs/base/common/observable.ts:22-30 | Calling the observers as they were when the round began brings every live autorun above them up to date, although nodes unsubscribe and subscribe again meanwhile |
| Reactive.ReactiveGraph.Get | src/cs/base/common/observable.ts:121-123 | `get` returns the value of the derivation on the current values and leaves the graph settled |
| Reactive.ReactiveGraph.Recompute | src/cs/base/common/observable.ts:157-173 | A recomputed derivation depends on exactly what its computation read |
| Reactive.ReactiveGraph.Autorun | src/cs/base/common/observable.ts:189-191 | A new autorun has run on the current values, and the graph stays settled |
| Reactive.ReactiveGraph.Dispose | src/cs/base/common/observable.ts:193-202 | A disposed autorun observes nothing, and the graph stays settled |
| Reactive.ReactiveGraph.Run | src/cs/base/common/observable.ts:222-250 | An autorun that is neither disposed nor running ends with its dependencies being what its runner read |
| ReactiveNet.FirstHitStable | src/cs/base/common/observable.ts:95-173 | The first read of a node that a changed value reaches is read again under the new value: what the notification relies on |
| BinaryIndexOf.BinaryIndexOf | src/cs/base/common/buffer.ts:207-249 | For every needle and offset the search ends and returns the least match at or after the offset, or -1, also where the byte table wraps and where the first comparison is behind the needle |
| SortedDiff.SortedDiff | src/cs/base/common/arrays.ts:217-267 | The splices are in order, none is empty, no two touch, and applying them gives an array that agrees with the second one |
| SortedDiff.DiffApplies | src/cs/base/common/arrays.ts:217-267 | Where ties are equal, applying the splices gives exactly the second array |
| SortedDiff.PushSplice | src/cs/base/common/arrays.ts:220-233 | Merging a splice into its neighbour changes nothing about the effect of the list |
| SortedDiff.Delta | src/cs/base/common/arrays.ts:273-284 | For arrays sorted by a total order whose ties are equal, the two multiset differences |
| JsonScanner.Scanner.ScanNext | src/cs/base/common/json.ts:365-520 | The scanner object recognises one token of the text from its position on |
| JsonScan.ScanLength | src/cs/base/common/json.ts:447-469 | A token ends inside the text exactly if it is not a bare block comment opener at the end, which overshoots by one |
| JsonLexical.KindByFirstUnit | src/cs/base/common/json.ts:365-520 | Which units begin braces, brackets, colons, commas, strings and numbers, and nothing else does |
| JsonLexical.NamesAreFound | src/cs/base/common/json.ts:500-516 | `true`, `false` and `null` in front of a delimiter are the three names |
| JsonLexical.StringIsContents | src/cs/base/common/json.ts:210-363 | A string scanned without an error is what stands up to the next quote that is not escaped, with the value that section 7 of RFC 8259 gives it |
| JsonLexical.ContentsAreString | src/cs/base/common/json.ts:210-363 | Every string of that section is scanned without an error, to its end and to its value |
| JsonNumber.TokenIsNumber | src/cs/base/common/json.ts:1167-1177 | A number token is a number of section 6 of RFC 8259 exactly when it does not end in a dot: when `JSON.parse` accepts it |
| JsonScalars.NumberIsToken | src/cs/base/common/json.ts:244-283 | Every number of section 6 of RFC 8259 is one token |
| JsonVisitor.Visit | src/cs/base/common/json.ts:1069-1309 | On every text the recursive descent ends and makes the calls of the specification, errors and comments included |
| JsonVisitor.Visitor.HandleError | src/cs/base/common/json.ts:1138-1152 | Skipping after an error consumes tokens up to the first one of the given kinds |
| JsonFaults.ItemMistakes | src/cs/base/common/json.ts:1248-1270 | In an array a value without a comma in front gives CommaExpected at it, and reading goes on behind it |
| JsonFaults.ItemCommaMistakes | src/cs/base/common/json.ts:1248-1270 | In an array a comma without a value in front gives ValueExpected at it |
| JsonFaults.ArrayEndMistakes | src/cs/base/common/json.ts:1248-1278 | An array that the text ends gives CloseBracketExpected at the end |
| JsonFaults.PropertyMistakes | src/cs/base/common/json.ts:1197-1246 | In an object a property without a comma in front gives CommaExpected at its name |
| JsonFaults.NoNameMistakes | src/cs/base/common/json.ts:1197-1246 | In an object what is no string gives PropertyNameExpected, and the comma or brace behind it ValueExpected |
| JsonFaults.NoColonMistakes | src/cs/base/common/json.ts:1197-1214 | What follows a name in place of a colon gives ColonExpected and is skipped |
| JsonFaults.NoValueMistakes | src/cs/base/common/json.ts:1197-1214 | A comma or brace behind a colon gives ValueExpected at it |
| JsonFaults.DocumentMistakes | src/cs/base/common/json.ts:1280-1309 | More than one value gives EndOfFileExpected, none at all ValueExpected unless that is allowed |
| JsonFaults.TwoItems | src/cs/base/common/json.ts:1069-1309 | `[a b]` gives CommaExpected at b, and no other error |
| JsonBrackets.VisitBalanced | src/cs/base/common/json.ts:1069-1309 | On any text every end event closes the container begun last, and nothing stays open |
| JsonGrammar.ErrorFreeIffDocument | src/cs/base/common/json.ts:1069-1309 | `visit` reports no error exactly on the texts of the grammar, and on empty ones where these are allowed |
| JsonGrammar.VisitDocument | src/cs/base/common/json.ts:1069-1309 | On a text of the grammar the calls are those of its tree |
| JsonParse.ParseReturnsToRoot | src/cs/base/common/json.ts:846-890 | On any text the stack of parents never underflows and ends at the artificial root |
| JsonParse.ParsedDocument | src/cs/base/common/json.ts:846-890 | A text of the grammar parses to the value its tree denotes |
| JsonScalars.NamesParse | src/cs/base/common/json.ts:846-890 | The texts `true`, `false` and `null` parse to what they say |
| JsonScalars.StringParses | src/cs/base/common/json.ts:846-890 | A string of section 7 of RFC 8259 between quotes parses to its value |
| JsonScalars.NumberParses | src/cs/base/common/json.ts:846-890 | A number of section 6 of RFC 8259 parses to itself |
| JsonParse.Parse | src/cs/base/common/json.ts:846-890 | `parse` is total; its errors are those of `visit`, and there are none exactly on documents and on allowed empty texts |
| JsonTree.TreeNeverUnderflows | src/cs/base/common/json.ts:896-956 | On any text the tree builder never climbs above its artificial root |
| JsonTree.TreeOfDocument | src/cs/base/common/json.ts:896-956 | A text of the grammar gives the nodes of its tree, with their offsets and lengths |
| JsonTree.ParseTree | src/cs/base/common/json.ts:896-956 | `parseTree` is total, and reports no error exactly on documents and on allowed empty texts |
| JsonTree.BuildersAgree | src/cs/base/common/json.ts:846-1039 | On every text parsed without errors, under any options, the value of the tree is the parsed value; there is neither exactly for an allowed empty text |
| JsonTree.DocumentNested | src/cs/base/common/json.ts:896-956 | The ranges of a document's nodes nest in their parents, and siblings are ordered and disjoint |
| JsonTree.FindNodeAtOffset | src/cs/base/common/json.ts:1041-1063 | On nested nodes, the innermost node that contains the offset, or nothing if the root does not |
| JsonFormatter.Format | src/cs/base/common/jsonFormatter.ts:56-208 | `format` emits the edits of the specification, for the whole text or a range; on any text they lie inside it, in order and without overlap |
| JsonFormatSpec.EditsInOrder | src/cs/base/common/jsonFormatter.ts:111-208 | The edits of any text lie in the document, are in order and do not overlap |
| JsonLex.TokenOfPrefix | src/cs/base/common/jsonFormatter.ts:125-206 | A token depends on nothing behind the unit that follows it, so that white space between tokens may be replaced |
| JsonLex.Concat | src/cs/base/common/jsonFormatter.ts:125-206 | Two clean texts that do not grow together put their tokens one after the other |
| JsonWords.DocumentByWords | src/cs/base/common/json.ts:846-890 | A clean text with the tokens of a tree is a document with that tree, members and items in their order, and with its value, wherever its tokens stand |
| JsonFormatMeaning.FormatKeepsTokens | src/cs/base/common/jsonFormatter.ts:56-208 | Formatting a text without comments, unknown symbols and scan errors, or some of its lines, keeps its sequence of tokens |
| JsonFormatMeaning.RoundsRelay | src/cs/base/common/jsonFormatter.ts:125-206 | The edits turn the text into one whose gaps are what the decisions of the loop say |
| JsonReformat.FormattedIsStable | src/cs/base/common/jsonFormatter.ts:56-208 | Formatting a well-formed document that has been formatted yields no edits |
| JsonLayout.DocumentIsLaidOut | src/cs/base/common/jsonFormatter.ts:56-208 | Formatting a well-formed document without comments gives its tokens with, between two of them, nothing in an empty pair of brackets, a line break and the indentation of the nesting depth behind an opening bracket or a comma and in front of a closing one, a blank behind a colon, and nothing elsewhere; the line break is the first one of the text, the indentation a tab or the given number of blanks, four by default |
| JsonLayout.LinesOfRange | src/cs/base/common/jsonFormatter.ts:62-76 | A range stands for the lines that it touches, and their indentation is that of the first one in whole levels |
| JsonEdit.WithFormatting | src/cs/base/common/jsonEdit.ts:122-151 | One edit that lies in the text and does what the given edit and then all formatting edits do |
| JsonEdit.PeelLast | src/cs/base/common/jsonEdit.ts:140-147 | Of edits in order the last one may be applied first, one after the other |
| JsonEdit.ApplyEdits | src/cs/base/common/jsonEdit.ts:157-176 | Edits in sorted order take effect exactly if they lie in the text without overlap, and then as all of them at once |
| JsonEdit.MergedKeepsTokens | src/cs/base/common/jsonEdit.ts:122-151 | The merged edit of a change to a clean text keeps the tokens of the changed text |
| JsonQuote.QuoteRoundTrip | src/cs/base/common/json.ts:285-363 | A string quoted as in section 7 of RFC 8259 is one token, whatever follows, and its value is the string |
| JsonQuote.QuotedUnit | src/cs/base/common/jsonEdit.ts:24-66 | How each unit is quoted: seven by a letter or themselves behind a backslash, other control units and lone surrogates by four digits, the rest unchanged |
| JsonUpdate.ValueReplaced | src/cs/base/common/jsonEdit.ts:64-67 | Replacing a node at a path of keys sets the path in the value and changes nothing else |
| JsonUpdate.SetInParent | src/cs/base/common/jsonEdit.ts:21-33 | Setting a missing path is putting one member, with the missing parents around the value, into the deepest existing parent |
| JsonSetProperty.WrappedDenotes | src/cs/base/common/jsonEdit.ts:24-29 | The text of an object around a value denotes the object around the value |
| JsonSetProperty.DenotesParsed | src/cs/base/common/jsonEdit.ts:40-66 | What stands for the result of `JSON.stringify` parses to the value |
| JsonSetProperty.BecomesParsed | src/cs/base/common/jsonEdit.ts:41-84 | A text that has become another document parses to the old value with just one place set |
| JsonSetProperty.ReplacedValue | src/cs/base/common/jsonEdit.ts:64-67 | Writing over the text of a node replaces the node |
| JsonSetProperty.InsertedMember | src/cs/base/common/jsonEdit.ts:72-83 | Writing a property and a comma behind the first k properties adds the member in that place |
| JsonSetProperty.RemovedLater | src/cs/base/common/jsonEdit.ts:51-63 | Cutting from the end of the previous property to the end of a property removes it |
| JsonSetProperty.RemovedFirst | src/cs/base/common/jsonEdit.ts:55-63 | Cutting from the brace to the next property removes the first one, unless a comma stays alone |
| JsonShape.SetPlaces | src/cs/base/common/jsonEdit.ts:64-83 | A document that differs from another one by setting a member of one object has the same keys in the same order if the key was there, else the new key behind them or at the given index; every other member of that object and everything outside it is alike |
| JsonShape.RemovalPlaces | src/cs/base/common/jsonEdit.ts:48-63 | Removing a member leaves the other keys in their order, and everything else alike |
| JsonPropertyEdit.LocateNode | src/cs/base/common/json.ts:961-991 | Searching the nodes of a document by keys finds what the document has at that path |
| JsonPropertyEdit.FindNodeAtLocation | src/cs/base/common/json.ts:961-991 | The loop over the path follows the first property with each name |
| JsonPropertyEdit.SetProperty | src/cs/base/common/jsonEdit.ts:14-120 | For a path of keys and a text without comments that parses without errors (or is empty) and has unique keys: the formatted edit makes `parse` give the old value with exactly that path set, missing parents created, or removed exactly when no comma stays alone; a parent that is no object is the error. In the new document an overwritten key keeps its place, a new one stands behind the others or at the index asked for, the others keep their order, and everything outside the deepest existing parent is alike |
| JsonExamples.LonelyPropertyStays | src/cs/base/common/jsonEdit.ts:48-63 | A concrete text whose only property cannot be removed cleanly |
| SchemaSpec.ExpandRewrite | src/cs/base/common/jsonSchema.ts:231-245 | Expanding the references of a rewritten part gives the part back |
| SchemaSpec.PointersResolve | src/cs/base/common/jsonSchema.ts:251-258 | In the assembled output each generated pointer resolves to its definition |
| SchemaMeaning.ReferenceDerefs | src/cs/base/common/jsonSchema.ts:240-258 | The text under `$ref`, read as a JSON pointer into the assembled output, finds the definition |
| SchemaSpec.SettledStays | src/cs/base/common/jsonSchema.ts:247-255 | Numbers given while later definitions are written change nothing about what is already written |
| SchemaCompressor.Compressor.TraverseNodes | src/cs/base/common/jsonSchema.ts:195-216 | The traversal finds a repetition exactly if the schema, unfolded along its schema keywords, repeats a sub-schema of 30 or more characters |
| SchemaMeaning.CollectedAreSubSchemas | src/cs/base/common/jsonSchema.ts:317-327 | A round of the traversal adds exactly the objects under the ten keywords that hold a schema, among those under the six that hold several by name and the four that hold a list, and under `items` |
| SchemaCompressor.Compressor.VisitSchemas | src/cs/base/common/jsonSchema.ts:195-215 | An object joins the group of its text and stops the descent exactly if the text was met before |
| SchemaCompressor.Compressor.StringifyValue | src/cs/base/common/jsonSchema.ts:231-245 | The replacer writes references for exactly the repeated objects, numbering them as it goes |
| SchemaCompressor.Compressor.WriteDefinitions | src/cs/base/common/jsonSchema.ts:251-255 | The loop over the growing list ends, and writes every definition that is referred to |
| SchemaCompressor.Compressor.GetCompressedContent | src/cs/base/common/jsonSchema.ts:188-260 | Definitions are made exactly if a sub-schema of 30 or more characters is repeated; expanding the generated references gives back the schema, if it holds no reference to the fresh name itself |
| SchemaCompressor.FreshName | src/cs/base/common/jsonSchema.ts:223-226 | The name of the definitions is the shortest of `$defs`, `$defs_`, ... that is no key of the schema |
| SchemaCompressor.RoundStep | src/cs/base/common/jsonSchema.ts:262-330 | A round of the traversal comes by one node and puts only its smaller parts on the stack, so that it ends |
| UriCoding.EncodeURIComponentFast | src/cs/base/common/uri.ts:541-603 | The encoder that writes piecewise and delays the native one equals the encoder by code points; it throws exactly on a lone surrogate, and else keeps what section 2.3 of RFC 3986 leaves unreserved or `isPath` or `isAuthority` exempts, and writes every other code point as the upper-case escapes of its UTF-8 bytes |
| UriPercent.ShownUnits | src/cs/base/common/uri.ts:541-603 | Every unit of an encoded component is unreserved, exempt, or part of an escape |
| UriPercent.ShownOnce | src/cs/base/common/uri.ts:541-603 | These rules leave only one text for given code points |
| UriDecoding.RenderDecodes | src/cs/base/common/uri.ts:728-747 | A text of plain units and escaped scalar values decodes to what it means, though runs of escapes are decoded as a whole |
| UriDecoding.DecodeEncode | src/cs/base/common/uri.ts:541-747 | `percentDecode` undoes the encoder on every text that it can encode |
| Uri.CreatedIsValidated | src/cs/base/common/uri.ts:15-73 | What the constructor accepts is valid, and creating it again from its components changes nothing |
| UriForm.CreatedExactly | src/cs/base/common/uri.ts:11-73 | Which scheme and path a URI gets from the constructor, and which of the four complaints comes first |
| Uri.EncodeURIComponentMinimal | src/cs/base/common/uri.ts:605-621 | The copy made only where one is needed is the text with `#` and `?` escaped |
| Uri.FormatAuthorityPart | src/cs/base/common/uri.ts:671-695 | User, password, host and port are printed each by its own rule, split at the first `@` and at the last colons |
| Uri.AsFormatted | src/cs/base/common/uri.ts:656-726 | The printed form is the concatenation of the encoded components, or the encoder's error |
| UriForm.PrintedForm | src/cs/base/common/uri.ts:656-726 | `toString` gives the components in their order, each behind its delimiter and percent-encoded by its own exemptions, the host in lower case, a port as it is, a drive letter lowered |
| UriForm.SplitExactly | src/cs/base/common/uri.ts:84-84 | Any text is taken apart as appendix B of RFC 3986 does; the fragment ends at a line break |
| UriExamples.FileExample | src/cs/base/common/uri.ts:656-726 | The file `/a b` is printed as `file:///a%20b` |
| Uri.Uri.ToString | src/cs/base/common/uri.ts:467-477 | The remembered form never differs from a new one |
| UriRoundTrip.RoundTrip | src/cs/base/common/uri.ts:271-284 | Parsing what `toString` prints gives the URI back exactly when the host is lower case, its port safe, and no drive letter upper case |
| UriRoundTrip.RoundTripOfSafePort | src/cs/base/common/uri.ts:271-284 | The same for any `toLowerCase`, where the lower-case host has a safe port |
| UriRoundTrip.PlainPortIsSafe | src/cs/base/common/uri.ts:687-694 | A port without any of `/ ? # %` is safe |
| UriRoundTrip.DecodeLength | src/cs/base/common/uri.ts:728-747 | Decoding makes a text shorter or leaves it as it is |
| UriExamples.UpperDriveIsLost | src/cs/base/common/uri.ts:696-711 | A concrete valid URI that is not given back because of its drive letter |
| UriExamples.UnsafePortIsLost | src/cs/base/common/uri.ts:687-694 | A concrete valid URI that is not given back because of its port |

## Left out

- JsonPropertyEdit.SetProperty: paths with numeric segments (array insertion and removal, jsonEdit.ts, lines 85-116), texts with comments and objects with duplicate keys are not covered; of the array branch it is known that removing the last item of `[1,2]` leaves `[12]`.
- JsonReformat.FormattedIsStable: speaks of formatting a whole document without comments; a range of lines depends on the indentation that the lines already have, and comments can lose their line break.
- JsonFormatMeaning.FormatKeepsTokens: texts with comments are not covered, because a line comment between a key and its colon swallows what follows.
- StringSha1.Sha1.Update: after `digest` only memory safety is stated, as the hash of what is fed then is not promised.
- StringSha1.HashPieces: 8 times the number of bytes stays below 2^53, where the program's arithmetic is exact; strings of 250 or more units and `crypto.subtle` are not part of this model.
- FuzzyMatcher.Matcher.FuzzyScore: the lower-case forms are arguments of the same lengths; forms of another length are not covered.
- Reactive.ReactiveGraph.Set: callbacks read, finitely often, nodes that existed before them, and neither set values nor throw nor dispose; the objects are numbers with their fields in maps, so aliasing of JavaScript references is not modelled; disposable stores, `constObservable` and `recomputeInitiallyAndOnChange` are left out.
- Path.RelativePath: the working directory is absolute; the win32 functions are left out as they add cases but no harder idea.
- JsonParse.Parse: numbers stay lexemes and objects are maps, so the order of keys in a value (that of a document is, in `JsonShape`) and the special key `__proto__` are not modelled; the visitor's calls are recorded and replayed.
- JsonTree.ParseTree: the parent pointers of nodes are not modelled; a node is attached to its parent when it ends.
- JsonScanner.Scanner.ScanNext: the value of a comment token is kept by the class but not specified.
- SchemaCompressor.Compressor.GetCompressedContent: the output is a tree with definitions, not its text; two schemas have the same text exactly if they are equal up to identity; cycles are excluded, as `JSON.stringify` throws on them.
- UriRoundTrip.RoundTrip: `toLowerCase` keeps the length of the host; without that only hosts with a safe lower-case port are covered.
- SortedDiff.SortedDiff: the comparison returns an integer, never NaN.
- `getLocation`, `getNodePath`, `stripComments`, `toFormattedString`: not part of this model.
- `fsPath`, `URI.file`, `URI.with`, `joinPath`, `revive` and the win32 parts of `uri.ts`: not part of this model.
- Quickselect, binary search, linked lists, emitters, event streams, layout arithmetic and everything under `src/cs/base/browser`: textbook structures or wrappers of browser interfaces.
