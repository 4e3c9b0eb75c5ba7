# profiprog config-injection placeholder engine, in Dafny

This project models the placeholder engine of profiprog's config-injection
library and the servlet and GWT helpers built on it, and proves what they
promise.

- **VariableParser (trunk).** The scanner finds `$name`, `${name}`,
  `${name:default}` and `$$` references. It counts braces, so `${${a}${b}}`
  is one reference.
- **VariableResolver 1.4.** It replaces every reference the scanner finds.
  A name is resolved recursively through an ordered chain of variable
  sources. A trace of the names being resolved detects circular
  definitions.
- **VariableResolver 1.2.** This is the older, regular-expression based
  resolver. It has no nesting and no defaults, and an unresolved bare
  `$name` stays in the text.
- **MapParser 1.0.** It reads a `k:v, k2:v2` literal into an
  insertion-ordered map, honouring quotes and backslash escapes.
- **UriRelatedConfiguration (ppgwt 1.0).** It holds include and exclude
  lists of Ant path patterns.
- **CacheControlFilter (servlet-utils 1.1).** It sets configured response
  headers, after expanding `{name:params}` placeholders, on the first path
  pattern that matches.
- **ConfigurableLinksInterceptor (servlet-utils trunk and 1.1).** It builds
  `<a>` links from configuration variables.
- **GwtModuleInterceptor (ppgwt trunk).** It puts the first matching GWT
  module into the model.

Each piece keeps the form of its source:

- Code that loops over builders, cursors, arrays and maps becomes classes
  and methods with loop invariants.
- Each such method is proved equal to a specification function: for
  example, `Scan` for `find()`, `ResolvedText` for `resolveStringValue`,
  `ParsedMap` for `parseMap`, `Expanded` for `explandPlaceholders` and
  `Rendered` for `LinkData.toString`.
- The properties are then proved as lemmas about those functions.

Resolution is a partial, recursive process in the source; it ends only
because of the trace. In the model, `ResolvedText`, `ResolvedFrom` and
`ResolvedValue` terminate on a measure that shrinks with every name
pushed: the strings not yet on the trace among the slices of the text and
of the source values. `VariableSources.PushShrinks` states the shrinking.

Exceptions become `Result` values (`ResolveError`):

- `Missing property <name>`;
- `Circular substitution a <- b* <- ... <- b`;
- a source's own exception.

The thread-local trace becomes a value passed along, pushed around every
nested lookup.

Three points of the code that are easy to misread:

- In 1.4 the cycle trace is keyed on the raw name as written
  (`VariableResolver.java` line 114). It is not keyed on the resolved name.
- In 1.4 the default is resolved only when the raw value is absent
  (line 119).
- `${}` is a reference with the empty name. It is not literal text.

## Model

| member | source | states |
|---|---|---|
| JavaText.IndexOf | project/config-injection/trunk/src/main/java/com/profiprog/configinject/VariableParser.java:18 | the result is -1 or a position at or after `from` holding `c` |
| JavaText.IndexOfSpec | project/config-injection/trunk/src/main/java/com/profiprog/configinject/VariableParser.java:18 | the result is -1 exactly when no `c` lies at or after `from`; otherwise no `c` lies between `from` and it, so it is the first one |
| JavaText.Trim | project/config-injection/tags/config-injection-1.0/src/main/java/com/profiprog/configinject/util/MapParser.java:12 | the result is no longer than the input and neither starts nor ends with a character up to U+0020 |
| JavaText.TrimSpec | project/config-injection/tags/config-injection-1.0/src/main/java/com/profiprog/configinject/util/MapParser.java:12 | the result is a slice of the input with only characters up to U+0020 cut from either end |
| JavaText.TrimUntouched | project/config-injection/tags/config-injection-1.0/src/main/java/com/profiprog/configinject/util/MapParser.java:22 | a text with no trimmable character at either end is its own trim |
| JavaText.TrimBlank | project/config-injection/tags/config-injection-1.0/src/main/java/com/profiprog/configinject/util/MapParser.java:13 | a text of blanks trims to the empty text |
| JavaText.Tokenize | project/ppgwt/tags/ppgwt-1.0/server/src/main/java/com/profiprog/gwt/conf/UriRelatedConfiguration.java:41-50 | StringTokenizer's tokens: non-empty, free of the delimiters, in order |
| JavaText.TokenizeWord | project/ppgwt/tags/ppgwt-1.0/server/src/main/java/com/profiprog/gwt/conf/UriRelatedConfiguration.java:41-50 | a single token without delimiters tokenizes to itself |
| JavaText.TokenizeSplits | project/ppgwt/tags/ppgwt-1.0/server/src/main/java/com/profiprog/gwt/conf/UriRelatedConfiguration.java:41-50 | tokenizing two texts joined by a delimiter gives the tokens of the first, then those of the second |
| JavaText.SplitCommaPaddedJoin | project/servlet-utils/trunk/src/main/java/com/profiprog/servlet/spring/ConfigurableLinksInterceptor.java:145 | splitting on `\s*,\s*` a comma join of ids without commas and blanks at their ends gives back the ids |
| JavaText.CommaPiecesOfJoin | project/servlet-utils/trunk/src/main/java/com/profiprog/servlet/spring/ConfigurableLinksInterceptor.java:145 | the pieces between the commas of a join are the joined ids |
| JavaText.SplitIdListExample | project/servlet-utils/trunk/src/main/java/com/profiprog/servlet/spring/ConfigurableLinksInterceptor.java:28-29 | the documented list `contact,help,about` splits into its three ids |
| JavaText.DropTrailingEmpty | project/servlet-utils/trunk/src/main/java/com/profiprog/servlet/spring/ConfigurableLinksInterceptor.java:145 | String.split drops trailing empty strings and only those: a prefix, ending in a non-empty string, of which everything dropped is empty |
| Builders.TextBuilder.Append | project/config-injection/tags/config-injection-1.4/src/main/java/com/profiprog/configinject/VariableResolver.java:69-81 | appending adds the text at the end of what the builder holds |
| LinkedMaps.LinkedMap.Put | project/config-injection/tags/config-injection-1.0/src/main/java/com/profiprog/configinject/util/MapParser.java:30 | put maps the key to the new value, keeps the old keys in their order as a prefix and adds at most the new key at the end |
| LinkedMaps.PutValid | project/config-injection/tags/config-injection-1.0/src/main/java/com/profiprog/configinject/util/MapParser.java:30 | put keeps every key once and exactly the keys that have a value |
| LinkedMaps.Empty | project/config-injection/tags/config-injection-1.0/src/main/java/com/profiprog/configinject/util/MapParser.java:11 | a new LinkedHashMap holds no key |
| LinkedMaps.PutAllAppend | project/config-injection/tags/config-injection-1.0/src/main/java/com/profiprog/configinject/util/MapParser.java:16-31 | putting two runs of entries is putting the first, then the second |
| LinkedMaps.PutAllValid | project/config-injection/tags/config-injection-1.0/src/main/java/com/profiprog/configinject/util/MapParser.java:16-31 | any run of puts keeps the map well formed and keeps the keys already there at the front, in order |
| LinkedMaps.PutAllKeys | project/config-injection/tags/config-injection-1.0/src/main/java/com/profiprog/configinject/util/MapParser.java:16-31 | a key is present afterwards exactly when it was before or some entry has it |
| LinkedMaps.PutAllLastWins | project/config-injection/tags/config-injection-1.0/src/main/java/com/profiprog/configinject/util/MapParser.java:30 | the value of a key is the one of the last entry with that key |
| LinkedMaps.PutAllUntouched | project/config-injection/tags/config-injection-1.0/src/main/java/com/profiprog/configinject/util/MapParser.java:30 | a key no entry has keeps its value |
| VariableParsing.NameEndSpec | project/config-injection/trunk/src/main/java/com/profiprog/configinject/VariableParser.java:56-63 | the end of the maximal run of name characters from `from`: all before it are name characters, the one at it is not |
| VariableParsing.RelevantCharSpec | project/config-injection/trunk/src/main/java/com/profiprog/configinject/VariableParser.java:65-75 | -1 exactly when no position in [from, limit) holds `c` with the braces opened since `from` closed; otherwise the first such position |
| VariableParsing.MatchAt | project/config-injection/trunk/src/main/java/com/profiprog/configinject/VariableParser.java:17-52 | a match at `$` starts there, is at least two characters long and lies in the text |
| VariableParsing.MatchAtSpelling | project/config-injection/trunk/src/main/java/com/profiprog/configinject/VariableParser.java:23-51 | a match is `${name}` or `${name:default}` cut at the first unnested `}` and `:`, or `$$` with name `$`, or `$` and a maximal non-empty run of name characters; a `$` at the end of the text or before any other character is no match |
| VariableParsing.MatchAtSlices | project/config-injection/trunk/src/main/java/com/profiprog/configinject/VariableParser.java:31-36 | the name and the default of a match are both slices of the text between its braces |
| VariableParsing.EscapedDollarsExample | project/config-injection/tags/config-injection-1.4/src/test/java/com/profiprog/configinject/VariableParserTest.java:104-110 | `$$$$` is two matches of the name `$`, each of length 2, and nothing follows them |
| VariableParsing.NestedBracesExample | project/config-injection/tags/config-injection-1.4/src/test/java/com/profiprog/configinject/VariableParserTest.java:96-98 | `${1${${${3}}2}}` is one reference over the whole text, named `1${${${3}}2}`, without a default: inner braces keep the inner `}` from closing it |
| VariableParsing.MatchAtBracedLetter | project/config-injection/trunk/src/main/java/com/profiprog/configinject/VariableParser.java:25-39 | `${c}` with a one-character name is a reference of that name, length 4, without a default |
| VariableParsing.ScanSpec | project/config-injection/trunk/src/main/java/com/profiprog/configinject/VariableParser.java:16-54 | the match find() returns is the first `$` at or after the search position that starts a reference; none when no `$` after it starts one |
| VariableParsing.ScanFindsFirst | project/config-injection/trunk/src/main/java/com/profiprog/configinject/VariableParser.java:16-54 | the first reference after a position is the one find() returns (uniqueness) |
| VariableParsing.ScanFindsNothing | project/config-injection/trunk/src/main/java/com/profiprog/configinject/VariableParser.java:16-54 | with no reference left, find() returns false |
| VariableParsing.ScanStep | project/config-injection/trunk/src/main/java/com/profiprog/configinject/VariableParser.java:18-48 | the first `$` either starts the match, or the search resumes right after it |
| VariableParsing.SubstituteDefinitions | project/config-injection/trunk/src/main/java/com/profiprog/configinject/VariableParser.java:77-99 | replacing every match by its own definition rebuilds the text: the appended pieces cover it exactly |
| VariableParsing.VariableParser.constructor | project/config-injection/trunk/src/main/java/com/profiprog/configinject/VariableParser.java:12-14 | a parser on the text, with nothing found and nothing appended |
| VariableParsing.VariableParser.Find | project/config-injection/trunk/src/main/java/com/profiprog/configinject/VariableParser.java:16-54 | the next match is Scan from right after the current one (or after a skipped `$`); false, and the cursor exhausted, when there is none |
| VariableParsing.VariableParser.ReadReference | project/config-injection/trunk/src/main/java/com/profiprog/configinject/VariableParser.java:21-51 | true exactly when the `$` under the cursor starts a reference, with the name, default and length MatchAt gives |
| VariableParsing.VariableParser.ReadBracedReference | project/config-injection/trunk/src/main/java/com/profiprog/configinject/VariableParser.java:25-41 | for a `${` under the cursor: true exactly when a relevant `}` closes it, with the name, default and length MatchAt gives; otherwise nothing read is kept |
| VariableParsing.VariableParser.FindFirstNonValidNameCharacter | project/config-injection/trunk/src/main/java/com/profiprog/configinject/VariableParser.java:56-59 | the loop returns NameEnd |
| VariableParsing.VariableParser.FindRelevantChar | project/config-injection/trunk/src/main/java/com/profiprog/configinject/VariableParser.java:65-75 | the brace-counting loop returns RelevantChar |
| VariableParsing.VariableParser.AppendReplacement | project/config-injection/trunk/src/main/java/com/profiprog/configinject/VariableParser.java:87-90 | the builder gains the text since the last match and the replacement; the output now reaches the end of this match |
| VariableParsing.VariableParser.AppendTail | project/config-injection/trunk/src/main/java/com/profiprog/configinject/VariableParser.java:92-95 | the builder gains the rest of the text, which is then fully appended |
| VariableParsing.ReplaceByDefinitions | project/config-injection/trunk/src/main/java/com/profiprog/configinject/VariableParser.java:77-99 | the find/appendReplacement/appendTail loop with each match's definition gives the input back |
| VariableSources.RawValue | project/config-injection/tags/config-injection-1.4/src/main/java/com/profiprog/configinject/VariableResolver.java:100-106 | null exactly when every source is a map without the name; a value found is the value of the first source that has the name |
| VariableSources.FirstSourceWins | project/config-injection/tags/config-injection-1.4/src/main/java/com/profiprog/configinject/VariableResolver.java:100-106 | the first source that knows a name shadows every later one |
| VariableSources.UnknownNameFallsThrough | project/config-injection/tags/config-injection-1.4/src/main/java/com/profiprog/configinject/VariableResolver.java:100-106 | a source that does not know the name is passed over |
| VariableSources.TracePathAppend | project/config-injection/tags/config-injection-1.4/src/main/java/com/profiprog/configinject/VariableResolver.java:84-93 | the circular message lists the trace oldest first, each name starred when it is the repeated one |
| VariableSources.CircularExample | project/config-injection/tags/config-injection-1.4/src/test/java/com/profiprog/configinject/VariableResolverTest.java:47-56 | the trace a, b, c, d, e meeting b again gives `Circular substitution a <- b* <- c <- d <- e <- b` |
| VariableSources.CircularSubstitutionError | project/config-injection/tags/config-injection-1.4/src/main/java/com/profiprog/configinject/VariableResolver.java:84-93 | the builder loop gives the error carrying CircularMessage(trace, key) |
| VariableSources.PushShrinks | project/config-injection/tags/config-injection-1.4/src/main/java/com/profiprog/configinject/VariableResolver.java:113-115 | pushing a name not on the trace strictly shrinks what resolution may still visit: resolution always ends |
| BulkResolution.ResolvedItemsPointwise | project/config-injection/tags/config-injection-1.4/src/main/java/com/profiprog/configinject/VariableResolver.java:151-155 | resolveItems succeeds exactly when every item resolves, and then item i of the result is item i resolved; otherwise the error is that of an item |
| BulkResolution.ResolvedValues | project/config-injection/tags/config-injection-1.4/src/main/java/com/profiprog/configinject/VariableResolver.java:131-138 | the resolved map has the keys of the input and each value resolved |
| ResolverV14.ResolvedFromStep | project/config-injection/tags/config-injection-1.4/src/main/java/com/profiprog/configinject/VariableResolver.java:70-78 | a reference contributes the text before it, then its value; a missing value is `Missing property <name>` and an error ends the resolution |
| ResolverV14.ResolvedTextUnfold | project/config-injection/tags/config-injection-1.4/src/main/java/com/profiprog/configinject/VariableResolver.java:63-67 | a text with no reference comes back unchanged; any other is resolved from its start |
| ResolverV14.VariableResolver.constructor | project/config-injection/tags/config-injection-1.4/src/main/java/com/profiprog/configinject/VariableResolver.java:35-37 | the resolver holds the source chain in order |
| ResolverV14.VariableResolver.GetRawValue | project/config-injection/tags/config-injection-1.4/src/main/java/com/profiprog/configinject/VariableResolver.java:100-106 | the loop over the sources returns RawValue |
| ResolverV14.VariableResolver.ResolveStringValue | project/config-injection/tags/config-injection-1.4/src/main/java/com/profiprog/configinject/VariableResolver.java:63-82 | null stays null; otherwise the do/while over the parser's matches gives ResolvedText |
| ResolverV14.VariableResolver.ReplaceReferences | project/config-injection/tags/config-injection-1.4/src/main/java/com/profiprog/configinject/VariableResolver.java:70-79 | the do/while leaves the builder holding its old content followed by ResolvedFrom from the parser's position, or stops with the error |
| ResolverV14.VariableResolver.ReplaceOne | project/config-injection/tags/config-injection-1.4/src/main/java/com/profiprog/configinject/VariableResolver.java:71-76 | one turn: the error that ends ResolvedFrom, or the builder extended by the text before the reference and its value |
| ResolverV14.VariableResolver.ReferenceValue | project/config-injection/tags/config-injection-1.4/src/main/java/com/profiprog/configinject/VariableResolver.java:74 | `$` for the name `$`, else resolveValue(name, default) |
| ResolverV14.VariableResolver.ResolveValue | project/config-injection/tags/config-injection-1.4/src/main/java/com/profiprog/configinject/VariableResolver.java:112-124 | the circular error when the raw name is on the trace; otherwise ResolvedValue, with the name pushed for the nested resolution |
| ResolverV14.VariableResolver.ResolveTopLevel | project/config-injection/tags/config-injection-1.4/src/main/java/com/profiprog/configinject/VariableResolver.java:63-82 | resolveStringValue from outside any resolution: ResolvedText with an empty trace |
| ResolverV14.VariableResolver.ResolveValues | project/config-injection/tags/config-injection-1.4/src/main/java/com/profiprog/configinject/VariableResolver.java:131-138 | succeeds exactly when every value resolves, and then gives the same keys with each value resolved; otherwise an error of some value |
| ResolverV14.VariableResolver.ResolveAndReplaceValues | project/config-injection/tags/config-injection-1.4/src/main/java/com/profiprog/configinject/VariableResolver.java:140-144 | the keys stay; without failure every value is replaced by its resolution; a failure is one value's error |
| ResolverV14.VariableResolver.ResolveItems | project/config-injection/tags/config-injection-1.4/src/main/java/com/profiprog/configinject/VariableResolver.java:151-155 | the loop gives ResolvedItems: item i resolved, or the first failure |
| ResolverV14.VariableResolver.ResolveAndReplaceItems | project/config-injection/tags/config-injection-1.4/src/main/java/com/profiprog/configinject/VariableResolver.java:157-163 | the collection is replaced by the resolved items when all resolve and is left as it was otherwise |
| ResolverV14Properties.NoDollarUnchanged | project/config-injection/tags/config-injection-1.4/src/main/java/com/profiprog/configinject/VariableResolver.java:66-67 | a text without `$` is returned unchanged |
| ResolverV14Properties.BareReference | project/config-injection/trunk/src/main/java/com/profiprog/configinject/VariableParser.java:47-51 | `$name` with a non-empty run of name characters is one reference spanning the text |
| ResolverV14Properties.BareReferenceResolves | project/config-injection/tags/config-injection-1.4/src/main/java/com/profiprog/configinject/VariableResolver.java:74-76 | `$name` alone resolves to its name's value, and is `Missing property name` when it has none |
| ResolverV14Properties.PlainNameUsesRawValue | project/config-injection/tags/config-injection-1.4/src/main/java/com/profiprog/configinject/VariableResolver.java:113-119 | a name not on the trace is looked up as it is, and its raw value is resolved with the name on the trace |
| ResolverV14Properties.PlainNameUsesDefault | project/config-injection/tags/config-injection-1.4/src/main/java/com/profiprog/configinject/VariableResolver.java:118-119 | without a raw value the default is resolved instead; without a default the value is null |
| ResolverV14Properties.SourceFailurePropagates | project/config-injection/tags/config-injection-1.4/src/test/java/com/profiprog/configinject/VariableResolverTest.java:27-38 | a source that throws ends the resolution with its own exception |
| ResolverV14Properties.SelfReferenceIsCircular | project/config-injection/tags/config-injection-1.4/src/main/java/com/profiprog/configinject/VariableResolver.java:114 | `$a` with `a` defined as `$a` fails with `Circular substitution a* <- a` |
| ResolverV14Properties.FailingRawValue | project/config-injection/tags/config-injection-1.4/src/main/java/com/profiprog/configinject/VariableResolver.java:112-119 | when the first reference names a plain name not on the trace whose raw value fails to resolve, the whole text fails with that same error |
| ResolverV14Properties.CircularChainExample | project/config-injection/tags/config-injection-1.4/src/test/java/com/profiprog/configinject/VariableResolverTest.java:47-56 | resolving `$a` over a = `a$b`, b = `b${c}b`, c = `$d`, d = `${e}d`, e = `$b` fails with `Circular substitution a <- b* <- c <- d <- e <- b` |
| ResolverV14Properties.ScanSkipsLiteral | project/config-injection/trunk/src/main/java/com/profiprog/configinject/VariableParser.java:17-19 | the scan skips `$`-free text up to the first `$` that starts a reference |
| ResolverV14Properties.DollarExample | project/config-injection/tags/config-injection-1.4/src/test/java/com/profiprog/configinject/VariableResolverTest.java:11-19 | `${$}var $$var $var $` with var=val resolves to `$var $var val $` |
| ResolverV14Properties.MissingPropertyExample | project/config-injection/tags/config-injection-1.4/src/test/java/com/profiprog/configinject/VariableResolverTest.java:40-45 | with no source, `${a}` fails with `Missing property a` |
| ReferencePattern.RunEndSpec | project/config-injection/tags/config-injection-1.2/src/main/java/com/profiprog/configinject/VariableResolver.java:40 | the end of the possessive run of `[\w\-\.]` characters: all before it match the class, the one at it does not |
| ReferencePattern.PatternAt | project/config-injection/tags/config-injection-1.2/src/main/java/com/profiprog/configinject/VariableResolver.java:45-49 | a match at `$` starts there, is at least two characters long and lies in the text |
| ReferencePattern.PatternAtSpelling | project/config-injection/tags/config-injection-1.2/src/main/java/com/profiprog/configinject/VariableResolver.java:45-49 | a match is `$$`, `$` and a maximal non-empty run of name characters, or `${`, such a run and `}`; a name other than `$` never holds `$`, `{` or `}` |
| ReferencePattern.BracedDollarIsLiteral | project/config-injection/tags/config-injection-1.2/src/main/java/com/profiprog/configinject/VariableResolver.java:45-49 | `${$}` is no match, at neither of its `$` |
| ReferencePattern.FindMatchSpec | project/config-injection/tags/config-injection-1.2/src/main/java/com/profiprog/configinject/VariableResolver.java:91 | Matcher.find: the leftmost match at or after the search position, none when no position starts one |
| ReferencePattern.FindMatchFirst | project/config-injection/tags/config-injection-1.2/src/main/java/com/profiprog/configinject/VariableResolver.java:91 | the leftmost match is unique |
| ReferencePattern.FindMatchNone | project/config-injection/tags/config-injection-1.2/src/main/java/com/profiprog/configinject/VariableResolver.java:91 | with no match left, find fails |
| ReferencePattern.ReplaceCharAppend | project/config-injection/tags/config-injection-1.2/src/main/java/com/profiprog/configinject/VariableResolver.java:100 | String.replace of one character distributes over concatenation |
| ReferencePattern.EscapeRoundTrip | project/config-injection/tags/config-injection-1.2/src/main/java/com/profiprog/configinject/VariableResolver.java:100 | the value escaped with `\\` and `\$` is read back by appendReplacement as the value itself: values are inserted verbatim |
| ReferencePattern.Matcher.constructor | project/config-injection/tags/config-injection-1.2/src/main/java/com/profiprog/configinject/VariableResolver.java:89 | a matcher on the text, nothing found and nothing appended |
| ReferencePattern.Matcher.Find | project/config-injection/tags/config-injection-1.2/src/main/java/com/profiprog/configinject/VariableResolver.java:91 | the next match is FindMatch from after the last one; false when none is left |
| ReferencePattern.Matcher.AppendReplacement | project/config-injection/tags/config-injection-1.2/src/main/java/com/profiprog/configinject/VariableResolver.java:100 | the builder gains the text since the last append and the replacement as appendReplacement reads it |
| ReferencePattern.Matcher.AppendTail | project/config-injection/tags/config-injection-1.2/src/main/java/com/profiprog/configinject/VariableResolver.java:102 | the builder gains the rest of the text |
| ResolverV12.RawValueOrWithin | project/config-injection/tags/config-injection-1.2/src/main/java/com/profiprog/configinject/VariableResolver.java:147-153 | getRawValue returns a source's value or the default |
| ResolverV12.NoDollarUnchanged | project/config-injection/tags/config-injection-1.2/src/main/java/com/profiprog/configinject/VariableResolver.java:86 | a text without `$` comes back unchanged |
| ResolverV12.ResolvedFromStep | project/config-injection/tags/config-injection-1.2/src/main/java/com/profiprog/configinject/VariableResolver.java:91-101 | a match contributes the text before it and its value; a bare name without value stays as written; a braced one is `Missing property`; an error ends the resolution |
| ResolverV12.VariableResolver.constructor | project/config-injection/tags/config-injection-1.2/src/main/java/com/profiprog/configinject/VariableResolver.java:56-58 | the resolver holds the source chain in order |
| ResolverV12.VariableResolver.GetRawValue | project/config-injection/tags/config-injection-1.2/src/main/java/com/profiprog/configinject/VariableResolver.java:147-153 | the loop over the sources: the first non-null answer, else the default |
| ResolverV12.VariableResolver.ResolveStringValue | project/config-injection/tags/config-injection-1.2/src/main/java/com/profiprog/configinject/VariableResolver.java:84-105 | null stays null, a `$`-free text is returned as it is, any other goes through the Matcher loop: ResolvedNullable |
| ResolverV12.VariableResolver.ReplaceMatches | project/config-injection/tags/config-injection-1.2/src/main/java/com/profiprog/configinject/VariableResolver.java:91-102 | the while(find) loop and appendTail leave the builder holding its content, the text not yet appended and ResolvedFrom from the search position |
| ResolverV12.VariableResolver.ReplaceOne | project/config-injection/tags/config-injection-1.2/src/main/java/com/profiprog/configinject/VariableResolver.java:92-100 | one turn: the name from group 1 or 2, its value, then appendReplacement of the escaped value; an unresolved bare name is left for the next append |
| ResolverV12.VariableResolver.ResolveValueWithTracing | project/config-injection/tags/config-injection-1.2/src/main/java/com/profiprog/configinject/VariableResolver.java:115-125 | the circular error when the name is on the trace, otherwise resolveValue with the name pushed |
| ResolverV12.VariableResolver.ResolveValue | project/config-injection/tags/config-injection-1.2/src/main/java/com/profiprog/configinject/VariableResolver.java:159-161 | resolveStringValue(getRawValue(resolveStringValue(name), default)) |
| ResolverV12.VariableResolver.ResolveTopLevel | project/config-injection/tags/config-injection-1.2/src/main/java/com/profiprog/configinject/VariableResolver.java:84-105 | resolveStringValue from outside any resolution |
| ResolverV12.VariableResolver.ResolveValues | project/config-injection/tags/config-injection-1.2/src/main/java/com/profiprog/configinject/VariableResolver.java:168-175 | succeeds exactly when every value resolves, and then gives the same keys with each value resolved |
| ResolverV12.VariableResolver.ResolveAndReplaceValues | project/config-injection/tags/config-injection-1.2/src/main/java/com/profiprog/configinject/VariableResolver.java:177-181 | the keys stay; without failure every value is replaced by its resolution |
| ResolverV12.VariableResolver.ResolveItems | project/config-injection/tags/config-injection-1.2/src/main/java/com/profiprog/configinject/VariableResolver.java:188-192 | item i resolved, or the first failure |
| ResolverV12.VariableResolver.ResolveAndReplaceItems | project/config-injection/tags/config-injection-1.2/src/main/java/com/profiprog/configinject/VariableResolver.java:194-200 | the collection is replaced only when every item resolves |
| ResolverV12Properties.FindMatchSkip | project/config-injection/tags/config-injection-1.2/src/main/java/com/profiprog/configinject/VariableResolver.java:91 | with no match in between, searching from earlier finds the same match |
| ResolverV12Properties.BareMatch | project/config-injection/tags/config-injection-1.2/src/main/java/com/profiprog/configinject/VariableResolver.java:46 | `$name` is one bare match spanning the text |
| ResolverV12Properties.BracedMatch | project/config-injection/tags/config-injection-1.2/src/main/java/com/profiprog/configinject/VariableResolver.java:48 | `${name}` is one braced match spanning the text |
| ResolverV12Properties.BareReferenceResolves | project/config-injection/tags/config-injection-1.2/src/main/java/com/profiprog/configinject/VariableResolver.java:95-100 | a bare `$name` with a value is that value |
| ResolverV12Properties.BareUnresolvedStaysLiteral | project/config-injection/tags/config-injection-1.2/src/main/java/com/profiprog/configinject/VariableResolver.java:96-98 | a bare `$name` without value stays in the text as written |
| ResolverV12Properties.BracedUnresolvedIsMissing | project/config-injection/tags/config-injection-1.2/src/main/java/com/profiprog/configinject/VariableResolver.java:96-97 | `${name}` without value fails with `Missing property name` |
| ResolverV12Properties.PlainNameLookup | project/config-injection/tags/config-injection-1.2/src/main/java/com/profiprog/configinject/VariableResolver.java:159-161 | a `$`-free name is looked up as it is, and its raw value or else the default is resolved; with neither the value is null |
| ResolverV12Properties.TracedLookup | project/config-injection/tags/config-injection-1.2/src/main/java/com/profiprog/configinject/VariableResolver.java:115-125 | a name on the trace is the circular error; any other is resolved with itself pushed |
| ResolverV12Properties.SelfReferenceIsCircular | project/config-injection/tags/config-injection-1.2/src/main/java/com/profiprog/configinject/VariableResolver.java:117 | `$a` with `a` defined as `$a` fails with `Circular substitution a* <- a` |
| ResolverV12Properties.MissingPropertyExample | project/config-injection/tags/config-injection-1.2/src/main/java/com/profiprog/configinject/VariableResolver.java:96-98 | with no source, `${a}` is `Missing property a` and `$a` stays as it is |
| ResolverV12Properties.DollarExample | project/config-injection/trunk/src/test/java/com/profiprog/configinject/VariableResolverTest.java:11-19 | `${$}var $$var $var $` with var=val resolves to `${$}var $var val $` |
| ResolverV12Properties.BareMissingAcrossVersions | project/config-injection/tags/config-injection-1.4/src/main/java/com/profiprog/configinject/VariableResolver.java:74-75 | an unresolvable bare `$a` stays in 1.2 and is a missing property in 1.4 |
| MapParsing.RunAppend | project/config-injection/tags/config-injection-1.0/src/main/java/com/profiprog/configinject/util/MapParser.java:65-87 | the quote/escape flags after two texts are those after the first, carried through the second |
| MapParsing.QuotedIndexOf | project/config-injection/tags/config-injection-1.0/src/main/java/com/profiprog/configinject/util/MapParser.java:62-89 | the first position after `from` holding `ch` outside quotes and not escaped, or the length |
| MapParsing.QuotedIndexOfUnique | project/config-injection/tags/config-injection-1.0/src/main/java/com/profiprog/configinject/util/MapParser.java:62-89 | that position is the only one with those properties |
| MapParsing.UnquotedIndexOf | project/config-injection/tags/config-injection-1.0/src/main/java/com/profiprog/configinject/util/MapParser.java:62-89 | the loop with its inQuotes and ignoreChar flags returns QuotedIndexOf |
| MapParsing.StripQuotes | project/config-injection/tags/config-injection-1.0/src/main/java/com/profiprog/configinject/util/MapParser.java:41-45 | one pair of matching quotes around a text of two or more characters is removed, anything else is kept |
| MapParsing.UnescapeUpTo | project/config-injection/tags/config-injection-1.0/src/main/java/com/profiprog/configinject/util/MapParser.java:47-57 | text without a backslash is copied unchanged |
| MapParsing.UnescapeAt | project/config-injection/tags/config-injection-1.0/src/main/java/com/profiprog/configinject/util/MapParser.java:51-55 | a backslash stands for the character after it |
| MapParsing.Clean | project/config-injection/tags/config-injection-1.0/src/main/java/com/profiprog/configinject/util/MapParser.java:35-60 | null stays null; otherwise trimmed, unquoted and unescaped (the corrected escape loop, see Findings) |
| MapParsing.RemoveEscapes | project/config-injection/tags/config-injection-1.0/src/main/java/com/profiprog/configinject/util/MapParser.java:47-59 | the escape removal gives Unescape (corrected) |
| MapParsing.EscapeLoop | project/config-injection/tags/config-injection-1.0/src/main/java/com/profiprog/configinject/util/MapParser.java:50-57 | the do/while from the first backslash gives Unescape (corrected) |
| MapParsing.TrailingBackslash | project/config-injection/tags/config-injection-1.0/src/main/java/com/profiprog/configinject/util/MapParser.java:48 | a final backslash with nothing after it to escape stays (corrected; as written it stays only when it is the first backslash, see Findings) |
| MapParsing.ParseEntry | project/config-injection/tags/config-injection-1.0/src/main/java/com/profiprog/configinject/util/MapParser.java:25-28 | the key and the value (null without an unquoted `:`) of one entry |
| MapParsing.PutEntry | project/config-injection/tags/config-injection-1.0/src/main/java/com/profiprog/configinject/util/MapParser.java:17-30 | the entry between two separators is put into the map unless it is empty or blank |
| MapParsing.ParseMap | project/config-injection/tags/config-injection-1.0/src/main/java/com/profiprog/configinject/util/MapParser.java:10-33 | the do/while over the entries gives ParsedMap: every non-blank entry put in order into an empty LinkedHashMap |
| MapParsing.ParsedMapValid | project/config-injection/tags/config-injection-1.0/src/main/java/com/profiprog/configinject/util/MapParser.java:10-33 | the parsed map is well formed |
| MapParsing.ParsedMapKeys | project/config-injection/tags/config-injection-1.0/src/main/java/com/profiprog/configinject/util/MapParser.java:10-33 | a key is in the parsed map exactly when some entry has it |
| MapParsing.ParsedMapLastWins | project/config-injection/tags/config-injection-1.0/src/test/java/com/profiprog/configinject/util/MapParserTest.java:20 | a key maps to the value of the last entry that has it |
| MapParsing.UnescapeRoundTrip | project/config-injection/tags/config-injection-1.0/src/main/java/com/profiprog/configinject/util/MapParser.java:47-59 | removing the escapes (corrected) gives back any escaped text |
| MapParsing.AsWrittenKeepsEscape | project/config-injection/tags/config-injection-1.0/src/main/java/com/profiprog/configinject/util/MapParser.java:47-59 | as written, the escaped text of `\,` (`\\\,`) comes back as `\\,`, not `\,`; the corrected removal gives `\,` |
| MapParsing.UnescapeEscapedThen | project/config-injection/tags/config-injection-1.0/src/main/java/com/profiprog/configinject/util/MapParser.java:50-57 | removing the escapes (corrected) from escaped text followed by anything gives the original text, then the rest unescaped on its own |
| MapParsing.TrailingBackslashAfterEscapes | project/config-injection/tags/config-injection-1.0/src/main/java/com/profiprog/configinject/util/MapParser.java:48 | removing the escapes (corrected) from escaped text followed by a lone backslash gives the text and keeps that backslash |
| MapParsing.AsWrittenDropsTrailing | project/config-injection/tags/config-injection-1.0/src/main/java/com/profiprog/configinject/util/MapParser.java:47-57 | as written, `b\,c\` (escaped `b,c`, then a backslash) cleans to `b,c`, dropping the backslash, while `bc\` stays `bc\`; the corrected removal keeps the backslash in both |
| MapParsing.CleanedEscaped | project/config-injection/tags/config-injection-1.0/src/main/java/com/profiprog/configinject/util/MapParser.java:35-60 | clean gives back an escaped text that has no blank at either end |
| MapParsing.EscapedEntrySeparators | project/config-injection/tags/config-injection-1.0/src/main/java/com/profiprog/configinject/util/MapParser.java:19-25 | in an escaped key and value joined by `:`, the comma scan runs to the end and the colon scan stops at the joining `:` |
| MapParsing.ParseEscapedEntry | project/config-injection/tags/config-injection-1.0/src/main/java/com/profiprog/configinject/util/MapParser.java:10-33 | an escaped key and value without blanks at their ends parse back to the map holding that key with that value |
| MapParsing.EscapedCommaExample | project/config-injection/tags/config-injection-1.0/src/test/java/com/profiprog/configinject/util/MapParserTest.java:38 | `a:45\,0` parses to a=`45,0` |
| MapParsing.BlankInputIsEmpty | project/config-injection/tags/config-injection-1.0/src/test/java/com/profiprog/configinject/util/MapParserTest.java:11-15 | a text of separators and blanks parses to the empty map |
| UriConfiguration.WithLeadingSlash | project/ppgwt/tags/ppgwt-1.0/server/src/main/java/com/profiprog/gwt/conf/UriRelatedConfiguration.java:54-55 | the pattern starts with `/`; one that did is unchanged, any other gains one `/` |
| UriConfiguration.ValidatedPatterns | project/ppgwt/tags/ppgwt-1.0/server/src/main/java/com/profiprog/gwt/conf/UriRelatedConfiguration.java:52-57 | every validated pattern starts with `/`; one that did is unchanged, any other gains exactly one `/` |
| UriConfiguration.ValidatedIdempotent | project/ppgwt/tags/ppgwt-1.0/server/src/main/java/com/profiprog/gwt/conf/UriRelatedConfiguration.java:52-57 | validating twice is validating once |
| UriConfiguration.ValidatedAppend | project/ppgwt/tags/ppgwt-1.0/server/src/main/java/com/profiprog/gwt/conf/UriRelatedConfiguration.java:25 | validating two lists and joining them is validating the joined list |
| UriConfiguration.UriRelatedConfiguration.MatchesUri | project/ppgwt/tags/ppgwt-1.0/server/src/main/java/com/profiprog/gwt/conf/UriRelatedConfiguration.java:59-61 | true exactly when the include list (or its absence) admits the URI and the exclude list does not exclude it |
| UriConfiguration.UriRelatedConfiguration.Includes | project/ppgwt/tags/ppgwt-1.0/server/src/main/java/com/profiprog/gwt/conf/UriRelatedConfiguration.java:63-68 | true without an include list, else exactly when some include pattern matches the URI |
| UriConfiguration.UriRelatedConfiguration.Excludes | project/ppgwt/tags/ppgwt-1.0/server/src/main/java/com/profiprog/gwt/conf/UriRelatedConfiguration.java:70-75 | false without an exclude list, else true exactly when some exclude pattern matches the URI |
| UriConfiguration.JoinedListMatches | project/ppgwt/tags/ppgwt-1.0/server/src/main/java/com/profiprog/gwt/conf/UriRelatedConfiguration.java:63-75 | a joined list includes (excludes) a URI exactly when one of the two lists does |
| UriConfiguration.EmptyListMatchesNothing | project/ppgwt/tags/ppgwt-1.0/server/src/main/java/com/profiprog/gwt/conf/UriRelatedConfiguration.java:63-75 | an empty list includes and excludes nothing; no include list includes everything, no exclude list excludes nothing |
| UriConfiguration.Split | project/ppgwt/tags/ppgwt-1.0/server/src/main/java/com/profiprog/gwt/conf/UriRelatedConfiguration.java:41-50 | a new array holding the StringTokenizer tokens in order |
| UriConfiguration.ValidatePathPatterns | project/ppgwt/tags/ppgwt-1.0/server/src/main/java/com/profiprog/gwt/conf/UriRelatedConfiguration.java:52-57 | in place, the array becomes its validated patterns |
| UriConfiguration.MergeArrays | project/ppgwt/tags/ppgwt-1.0/server/src/main/java/com/profiprog/gwt/conf/UriRelatedConfiguration.java:77-84 | a new array of both lengths, the first then the second, null being empty |
| UriConfiguration.UriRelatedConfiguration.constructor | project/ppgwt/tags/ppgwt-1.0/server/src/main/java/com/profiprog/gwt/conf/UriRelatedConfiguration.java:16 | no list set |
| UriConfiguration.UriRelatedConfiguration.FromVariables | project/ppgwt/tags/ppgwt-1.0/server/src/main/java/com/profiprog/gwt/conf/UriRelatedConfiguration.java:18-21 | the lists are the validated tokens of `<base>.includes` and `<base>.excludes`, each defaulting to the empty text |
| UriConfiguration.UriRelatedConfiguration.SetIncludeList | project/ppgwt/tags/ppgwt-1.0/server/src/main/java/com/profiprog/gwt/conf/UriRelatedConfiguration.java:23-26 | the patterns are validated in place; the first list is kept as the same array, a later one appended to the earlier patterns in a new array; the exclude list is untouched |
| UriConfiguration.UriRelatedConfiguration.SetIncludes | project/ppgwt/tags/ppgwt-1.0/server/src/main/java/com/profiprog/gwt/conf/UriRelatedConfiguration.java:28-30 | the include list becomes (or is extended by) the validated tokens of the text |
| UriConfiguration.UriRelatedConfiguration.SetExcludeList | project/ppgwt/tags/ppgwt-1.0/server/src/main/java/com/profiprog/gwt/conf/UriRelatedConfiguration.java:32-35 | as SetIncludeList, for the exclude list |
| UriConfiguration.UriRelatedConfiguration.SetExcludes | project/ppgwt/tags/ppgwt-1.0/server/src/main/java/com/profiprog/gwt/conf/UriRelatedConfiguration.java:37-39 | as SetIncludes, for the exclude list |
| UriConfiguration.TwoIncludeTexts | project/ppgwt/tags/ppgwt-1.0/server/src/main/java/com/profiprog/gwt/conf/UriRelatedConfiguration.java:25 | setting two include texts one after the other holds the patterns of setting them joined by a blank |
| CacheControl.HeaderLineSplit | project/servlet-utils/tags/servlet-utils-1.1/src/main/java/com/profiprog/servlet/filter/CacheControlFilter.java:75-82 | a line with a `:` gives its trimmed name and value around the first `:` |
| CacheControl.HeaderLineWithoutColon | project/servlet-utils/tags/servlet-utils-1.1/src/main/java/com/profiprog/servlet/filter/CacheControlFilter.java:76-79 | a line without `:` gives no header |
| CacheControl.HeaderMapLastWins | project/servlet-utils/tags/servlet-utils-1.1/src/main/java/com/profiprog/servlet/filter/CacheControlFilter.java:72-83 | a header's value is the one of the last line naming it |
| CacheControl.HeaderMapNames | project/servlet-utils/tags/servlet-utils-1.1/src/main/java/com/profiprog/servlet/filter/CacheControlFilter.java:72-83 | a name is in the parsed block exactly when some line gives it |
| CacheControl.ParseHeaders | project/servlet-utils/tags/servlet-utils-1.1/src/main/java/com/profiprog/servlet/filter/CacheControlFilter.java:69-85 | the loop gives HeaderMap: each line's entry put in order |
| CacheControl.PatternEntriesShape | project/servlet-utils/tags/servlet-utils-1.1/src/main/java/com/profiprog/servlet/filter/CacheControlFilter.java:46-51 | every registered pattern starts with `/` and carries its parameter's headers |
| CacheControl.NormalizedPatternSpec | project/servlet-utils/tags/servlet-utils-1.1/src/main/java/com/profiprog/servlet/filter/CacheControlFilter.java:47-49 | an absolute pattern is registered as it is, any other gains one `/` |
| CacheControl.InitEntriesStep | project/servlet-utils/tags/servlet-utils-1.1/src/main/java/com/profiprog/servlet/filter/CacheControlFilter.java:42-52 | the parameters register their patterns one after the other, in enumeration order |
| CacheControl.WordEndSpec | project/servlet-utils/tags/servlet-utils-1.1/src/main/java/com/profiprog/servlet/filter/CacheControlFilter.java:33 | the end of the run of `\w` characters: all before it are word characters, the one at it is not |
| CacheControl.PlaceholderAt | project/servlet-utils/tags/servlet-utils-1.1/src/main/java/com/profiprog/servlet/filter/CacheControlFilter.java:33 | a placeholder match starts at the position and ends inside the value |
| CacheControl.PlaceholderSpelling | project/servlet-utils/tags/servlet-utils-1.1/src/main/java/com/profiprog/servlet/filter/CacheControlFilter.java:33 | a match is `{`, a non-empty name of word characters, optionally `:` and params without `}`, then `}` |
| CacheControl.FindPlaceholder | project/servlet-utils/tags/servlet-utils-1.1/src/main/java/com/profiprog/servlet/filter/CacheControlFilter.java:114-115 | Matcher.find: the placeholder at the first position where one starts, none when there is none |
| CacheControl.NoPlaceholderUnchanged | project/servlet-utils/tags/servlet-utils-1.1/src/main/java/com/profiprog/servlet/filter/CacheControlFilter.java:115 | a value without a placeholder is returned unchanged |
| CacheControl.ExpandedNullIff | project/servlet-utils/tags/servlet-utils-1.1/src/main/java/com/profiprog/servlet/filter/CacheControlFilter.java:117-131 | the expanded value is null exactly when one of its placeholders has no evaluator or its evaluator fails |
| CacheControl.ExpandedBySpelling | project/servlet-utils/tags/servlet-utils-1.1/src/main/java/com/profiprog/servlet/filter/CacheControlFilter.java:117-134 | evaluators giving each placeholder its own spelling give back the value |
| CacheControl.FirstMatch | project/servlet-utils/tags/servlet-utils-1.1/src/main/java/com/profiprog/servlet/filter/CacheControlFilter.java:95-101 | the first pattern in registration order that matches, none when none does |
| CacheControl.HttpResponse.SetHeader | project/servlet-utils/tags/servlet-utils-1.1/src/main/java/com/profiprog/servlet/filter/CacheControlFilter.java:109 | setHeader replaces any earlier value of the header |
| CacheControl.FilterChain.DoFilter | project/servlet-utils/tags/servlet-utils-1.1/src/main/java/com/profiprog/servlet/filter/CacheControlFilter.java:102 | the chain is invoked once more |
| CacheControl.CacheControlFilter.constructor | project/servlet-utils/tags/servlet-utils-1.1/src/main/java/com/profiprog/servlet/filter/CacheControlFilter.java:35-36 | no pattern and no evaluator |
| CacheControl.CacheControlFilter.Init | project/servlet-utils/tags/servlet-utils-1.1/src/main/java/com/profiprog/servlet/filter/CacheControlFilter.java:39-67 | every parameter's patterns are put with their headers in order, then `dateTimeOffset` is registered |
| CacheControl.CacheControlFilter.RegisterParameter | project/servlet-utils/tags/servlet-utils-1.1/src/main/java/com/profiprog/servlet/filter/CacheControlFilter.java:43-51 | the patterns of one parameter put with the headers of its value |
| CacheControl.CacheControlFilter.RegisterPattern | project/servlet-utils/tags/servlet-utils-1.1/src/main/java/com/profiprog/servlet/filter/CacheControlFilter.java:47-50 | one token trimmed, skipped when empty, made absolute, then put |
| CacheControl.CacheControlFilter.DoFilter | project/servlet-utils/tags/servlet-utils-1.1/src/main/java/com/profiprog/servlet/filter/CacheControlFilter.java:88-103 | the headers of the first matching pattern are applied to the response, none when none matches; the chain is invoked in any case |
| CacheControl.CacheControlFilter.ApplyHeadersToResponse | project/servlet-utils/tags/servlet-utils-1.1/src/main/java/com/profiprog/servlet/filter/CacheControlFilter.java:105-111 | the response gains every header whose expanded value is not null, with that value |
| CacheControl.CacheControlFilter.ExplandPlaceholders | project/servlet-utils/tags/servlet-utils-1.1/src/main/java/com/profiprog/servlet/filter/CacheControlFilter.java:113-135 | the do/while over the matches gives Expanded: each placeholder replaced by its value, null when one cannot be evaluated |
| Links.NewLink | project/servlet-utils/trunk/src/main/java/com/profiprog/servlet/spring/ConfigurableLinksInterceptor.java:74-77 | a new LinkData holds `href` then the null key, with the url and the text |
| Links.LinkData.constructor | project/servlet-utils/trunk/src/main/java/com/profiprog/servlet/spring/ConfigurableLinksInterceptor.java:74-77 | the entries of a new LinkData |
| Links.LinkData.Put | project/servlet-utils/trunk/src/main/java/com/profiprog/servlet/spring/ConfigurableLinksInterceptor.java:159 | LinkedHashMap.put on the entries |
| Links.LinkData.ToString | project/servlet-utils/trunk/src/main/java/com/profiprog/servlet/spring/ConfigurableLinksInterceptor.java:80-92 | the loop over the entries gives Rendered |
| Links.LinkData.AppendAttribute | project/servlet-utils/trunk/src/main/java/com/profiprog/servlet/spring/ConfigurableLinksInterceptor.java:87-88 | one entry appends ` key="value"`, nothing when either is null |
| Links.BuildLink | project/servlet-utils/trunk/src/main/java/com/profiprog/servlet/spring/ConfigurableLinksInterceptor.java:153-160 | a new LinkData holding the url, the text and each optional attribute that has a value: LinkOf |
| Links.LoadLinkList | project/servlet-utils/trunk/src/main/java/com/profiprog/servlet/spring/ConfigurableLinksInterceptor.java:141-164 | the loop gives LoadedLinks: a link for each listed id that is not empty and has a url |
| Links.PutNewRendered | project/servlet-utils/trunk/src/main/java/com/profiprog/servlet/spring/ConfigurableLinksInterceptor.java:80-92 | a new key appends its own rendering |
| Links.WithAttributesShape | project/servlet-utils/trunk/src/main/java/com/profiprog/servlet/spring/ConfigurableLinksInterceptor.java:156-160 | the optional attributes keep the link well formed and its text, and add only their own keys |
| Links.WithAttributesRendered | project/servlet-utils/trunk/src/main/java/com/profiprog/servlet/spring/ConfigurableLinksInterceptor.java:156-160 | attributes new to the link render after its entries, in order, each only when it has a value |
| Links.OptionalAttributesDistinct | project/servlet-utils/trunk/src/main/java/com/profiprog/servlet/spring/ConfigurableLinksInterceptor.java:101 | the six optional names are distinct and none is `href` |
| Links.LinkOfRendered | project/servlet-utils/trunk/src/main/java/com/profiprog/servlet/spring/ConfigurableLinksInterceptor.java:80-92 | a loaded link renders as `<a href="url"`, the attributes that have values in the order class, id, style, tabindex, title, target, `>`, the text, `</a>` |
| Links.NewLinkRendered | project/servlet-utils/trunk/src/main/java/com/profiprog/servlet/spring/ConfigurableLinksInterceptor.java:74-77 | a new LinkData renders its href alone |
| Links.NoAttributeValues | project/servlet-utils/trunk/src/main/java/com/profiprog/servlet/spring/ConfigurableLinksInterceptor.java:158-159 | attributes without values render nothing |
| Links.LinksOfIds | project/servlet-utils/trunk/src/main/java/com/profiprog/servlet/spring/ConfigurableLinksInterceptor.java:145-162 | one link per linked id, in order, each built from that id's url |
| Links.LinkedIdsMember | project/servlet-utils/trunk/src/main/java/com/profiprog/servlet/spring/ConfigurableLinksInterceptor.java:146-151 | an id gets a link exactly when it is listed, not empty and has a url |
| Links.LinkedIdsAppend | project/servlet-utils/trunk/src/main/java/com/profiprog/servlet/spring/ConfigurableLinksInterceptor.java:145 | the links keep the order of the ids |
| Links.ContactExample | project/servlet-utils/trunk/src/main/java/com/profiprog/servlet/spring/ConfigurableLinksInterceptor.java:32-33 | a contact with only a url renders as `<a href="http://domain.name/contact">contact</a>` |
| Links.HelpExample | project/servlet-utils/trunk/src/main/java/com/profiprog/servlet/spring/ConfigurableLinksInterceptor.java:36-39 | a help link with a target renders as `<a href="url" target="_blank">help</a>` |
| Links.ModelAndView.constructor | project/servlet-utils/trunk/src/main/java/com/profiprog/servlet/spring/ConfigurableLinksInterceptor.java:171-175 | an empty model |
| LinksTrunk.ConfigurableLinksInterceptor.constructor | project/servlet-utils/trunk/src/main/java/com/profiprog/servlet/spring/ConfigurableLinksInterceptor.java:111-113 | the base name `externalLinks`, caching on, no resolver, no links |
| LinksTrunk.ConfigurableLinksInterceptor.WithBasename | project/servlet-utils/trunk/src/main/java/com/profiprog/servlet/spring/ConfigurableLinksInterceptor.java:132-134 | the given base name, caching on, no resolver, no links |
| LinksTrunk.ConfigurableLinksInterceptor.SetVariableResolver | project/servlet-utils/trunk/src/main/java/com/profiprog/servlet/spring/ConfigurableLinksInterceptor.java:116-118 | sets the resolver, nothing else |
| LinksTrunk.ConfigurableLinksInterceptor.SetCacheOn | project/servlet-utils/trunk/src/main/java/com/profiprog/servlet/spring/ConfigurableLinksInterceptor.java:120-122 | sets the flag, nothing else |
| LinksTrunk.ConfigurableLinksInterceptor.SetPropertyBasename | project/servlet-utils/trunk/src/main/java/com/profiprog/servlet/spring/ConfigurableLinksInterceptor.java:124-126 | sets the base name, nothing else |
| LinksTrunk.ConfigurableLinksInterceptor.LoadLinks | project/servlet-utils/trunk/src/main/java/com/profiprog/servlet/spring/ConfigurableLinksInterceptor.java:141-164 | the links of the ids listed under the base name |
| LinksTrunk.ConfigurableLinksInterceptor.AfterPropertiesSet | project/servlet-utils/trunk/src/main/java/com/profiprog/servlet/spring/ConfigurableLinksInterceptor.java:137-139 | the links are loaded once when caching, untouched otherwise |
| LinksTrunk.ConfigurableLinksInterceptor.PostHandle | project/servlet-utils/trunk/src/main/java/com/profiprog/servlet/spring/ConfigurableLinksInterceptor.java:171-175 | the model maps the base name to the cached links, or freshly loaded ones without caching; nothing without a model |
| LinksTrunk.ConfigurableLinksInterceptor.OnPropertyFileChanged | project/servlet-utils/trunk/src/main/java/com/profiprog/servlet/spring/ConfigurableLinksInterceptor.java:178-182 | the cached links are reloaded; without caching nothing changes |
| LinksV11.ConfigurableLinksInterceptor.constructor | project/servlet-utils/tags/servlet-utils-1.1/src/main/java/com/profiprog/servlet/spring/ConfigurableLinksInterceptor.java:107-109 | the base name `externalLinks`, no links |
| LinksV11.ConfigurableLinksInterceptor.WithBasename | project/servlet-utils/tags/servlet-utils-1.1/src/main/java/com/profiprog/servlet/spring/ConfigurableLinksInterceptor.java:111-113 | the given base name, no links |
| LinksV11.ConfigurableLinksInterceptor.LoadLinks | project/servlet-utils/tags/servlet-utils-1.1/src/main/java/com/profiprog/servlet/spring/ConfigurableLinksInterceptor.java:116-139 | the list is replaced by the links the resolver describes |
| LinksV11.ConfigurableLinksInterceptor.PostHandle | project/servlet-utils/tags/servlet-utils-1.1/src/main/java/com/profiprog/servlet/spring/ConfigurableLinksInterceptor.java:146-150 | the model maps the base name to the current links; nothing without a model |
| LinksV11.ConfigurableLinksInterceptor.OnPropertyFileChanged | project/servlet-utils/tags/servlet-utils-1.1/src/main/java/com/profiprog/servlet/spring/ConfigurableLinksInterceptor.java:153-156 | the links are reloaded from the event's resolver |
| GwtModules.ResolvedRequestUri | project/ppgwt/trunk/server/src/main/java/com/profiprog/gwt/GwtModuleInterceptor.java:87-98 | the context-relative path, without `;jsessionid=<id>` at its end exactly when a session exists and the path ends with it; nothing else is removed |
| GwtModules.LexAsymmetric | project/ppgwt/trunk/server/src/main/java/com/profiprog/gwt/GwtModuleInterceptor.java:59 | name order is irreflexive and asymmetric |
| GwtModules.LexTotal | project/ppgwt/trunk/server/src/main/java/com/profiprog/gwt/GwtModuleInterceptor.java:59 | two different names are ordered one way or the other |
| GwtModules.LexTransitive | project/ppgwt/trunk/server/src/main/java/com/profiprog/gwt/GwtModuleInterceptor.java:59 | name order is transitive |
| GwtModules.LeastUnique | project/ppgwt/trunk/server/src/main/java/com/profiprog/gwt/GwtModuleInterceptor.java:68 | a set of names has one first name |
| GwtModules.MatchingModules | project/ppgwt/trunk/server/src/main/java/com/profiprog/gwt/GwtModuleInterceptor.java:59-63 | a module name is collected exactly when the module's rules match the URI |
| GwtModules.SubstVariables | project/ppgwt/trunk/server/src/main/java/com/profiprog/gwt/GwtModuleInterceptor.java:113-115 | without a resolver the url is kept as it is |
| GwtModules.SubstitutedUrls | project/ppgwt/trunk/server/src/main/java/com/profiprog/gwt/GwtModuleInterceptor.java:107 | one substituted url per js-API |
| GwtModules.PreparedJsApis | project/ppgwt/trunk/server/src/main/java/com/profiprog/gwt/GwtModuleInterceptor.java:100-111 | null exactly when the module has no js-APIs |
| GwtModules.MatchingApisMember | project/ppgwt/trunk/server/src/main/java/com/profiprog/gwt/GwtModuleInterceptor.java:105-106 | a js-API is kept exactly when it is listed and its rules match |
| GwtModules.MatchingApisAppend | project/ppgwt/trunk/server/src/main/java/com/profiprog/gwt/GwtModuleInterceptor.java:105-109 | the kept js-APIs keep the collection's order |
| GwtModules.UnresolvedUrls | project/ppgwt/trunk/server/src/main/java/com/profiprog/gwt/GwtModuleInterceptor.java:100-115 | without a resolver the prepared list holds the urls of the matching js-APIs, in order |
| GwtModules.GwtModuleBean.constructor | project/ppgwt/trunk/server/src/main/java/com/profiprog/gwt/GwtModuleInterceptor.java:123 | a new bean with nothing set |
| GwtModules.ModelAndView.constructor | project/ppgwt/trunk/server/src/main/java/com/profiprog/gwt/GwtModuleInterceptor.java:81 | an empty model |
| GwtModules.GwtModuleInterceptor.constructor | project/ppgwt/trunk/server/src/main/java/com/profiprog/gwt/GwtModuleInterceptor.java:31-37 | no module, no bean, no resolver, no preload manager |
| GwtModules.GwtModuleInterceptor.SetModules | project/ppgwt/trunk/server/src/main/java/com/profiprog/gwt/GwtModuleInterceptor.java:40-42 | sets the modules, nothing else |
| GwtModules.GwtModuleInterceptor.SetVariables | project/ppgwt/trunk/server/src/main/java/com/profiprog/gwt/GwtModuleInterceptor.java:45-47 | sets the resolver, nothing else |
| GwtModules.GwtModuleInterceptor.SetPreloadManager | project/ppgwt/trunk/server/src/main/java/com/profiprog/gwt/GwtModuleInterceptor.java:50-52 | sets the preload manager, nothing else |
| GwtModules.GwtModuleInterceptor.SetGwtModuleBean | project/ppgwt/trunk/server/src/main/java/com/profiprog/gwt/GwtModuleInterceptor.java:118-120 | sets the injected bean, nothing else |
| GwtModules.GwtModuleInterceptor.GetGwtModuleBean | project/ppgwt/trunk/server/src/main/java/com/profiprog/gwt/GwtModuleInterceptor.java:122-124 | the injected bean, or a fresh one when none was injected |
| GwtModules.GwtModuleInterceptor.MatchingModuleNames | project/ppgwt/trunk/server/src/main/java/com/profiprog/gwt/GwtModuleInterceptor.java:59-63 | the loop collects MatchingModules |
| GwtModules.GwtModuleInterceptor.PrepareJsApis | project/ppgwt/trunk/server/src/main/java/com/profiprog/gwt/GwtModuleInterceptor.java:100-111 | the loop gives PreparedJsApis |
| GwtModules.GwtModuleInterceptor.PostHandle | project/ppgwt/trunk/server/src/main/java/com/profiprog/gwt/GwtModuleInterceptor.java:55-85 | without a match the model is untouched; otherwise `gwtModule` is the bean (injected or fresh) with the context path, the first matching name in name order, its prepared js-APIs and the preload values when a preload manager is set |
| GwtModules.FirstName | project/ppgwt/trunk/server/src/main/java/com/profiprog/gwt/GwtModuleInterceptor.java:68 | the first name of a non-empty set in name order |

## Left out

- I/O and logging. This covers the slf4j warnings, the filter's `exclude-patterns` lookup (its result is discarded), and file watching and reloading. `onPropertyFileChanged` is modelled only as the reload it triggers.
- VariableResolver's constructor initialisation of `InicializableVariableSource`s (`initStatus`), `setVariableSourceChangeHandler`, `asSource` and the deprecated `replaceVariables` are not part of this model. Sources are a fixed chain: finite maps, or sources whose every lookup throws.
- The thread-local trace and concurrency: the trace is passed as a value. This matches the push/pop discipline of the `finally` blocks.
- The StringBuffer overloads of VariableParser's `appendReplacement`/`appendTail` are not part of this model. They advance `endIndex` by `+=` rather than `=`. Only the StringBuilder pair, which the resolver calls, is modelled.
- `Character.isJavaIdentifierPart` is modelled on U+0000..U+009F. Higher code points count as non-name characters.
- `String.compareTo`, as used by the TreeSet of module names, is modelled on whole characters. The TreeSet becomes a set plus a least-element scan (`FirstName`).
- The order of `HashMap` iteration is unspecified. `ResolveValues` and `ResolveAndReplaceValues` state their failure as "an error of some value". `ApplyHeadersToResponse` states only the resulting header map.
- Java `null` elements inside collections are not modelled. Null is modelled only where the source tests it: raw values, defaults, LinkData keys and values, module beans, js-API lists and urls, and the ModelAndView.
- Exceptions thrown by `resolveValue` inside the links interceptors, by a GWT `StringValueResolver` and by a `GwtPreloadManager` are not part of this model. These are opaque functions.
- CacheControl.CacheControlFilter.ExplandPlaceholders: a throwing evaluator is folded into an evaluator returning null, which the source treats the same way. `$` and `\` inside an evaluator's result, which `Matcher.appendReplacement` would interpret, are not modelled. The replacement is taken literally.
- The `dateTimeOffset` evaluator reads the clock and formats a date, so it is a parameter of `Init`.
- AntPathMatcher is a parameter (`PathMatcher`) of the URI and path matching.
- CacheControl.CacheControlFilter.DoFilter requires the context path to be no longer than the request URI, as the `substring` call assumes (the source throws otherwise).
- GwtModules.GwtModuleInterceptor.PostHandle requires the same whenever a model is given. GwtModules.ResolvedRequestUri requires it too.
- LinksTrunk.ConfigurableLinksInterceptor.LoadLinks requires a resolver to have been injected. The source dereferences the field and throws otherwise.
- The Java `assert` in `postHandle` of both interceptors is not modelled: assertions are off by default.
- `Collections.unmodifiableList`/`unmodifiableMap` wrappers are not modelled. Links are values (`seq<Link>`), so the list the model publishes cannot be changed through the model either. Sharing between the cached list and the model is not captured.
- Links.Variables: `resolveValue(name, default)` is an opaque function returning a non-null string. Its own resolution is the resolver modelled above; the link module does not re-derive it.
- Links.HelpExample takes the documented help url as a parameter rather than as the literal `javascript:` text.
- `setIncludes`/`setExcludes` with a null text, where StringTokenizer throws, are not modelled. A caller aliasing an array after `setIncludeList` is captured only as far as the ensures about `paths` go.
- The nested 1.4 example `$a ${${a}${b}} ${${b1}:${c}}` is not proved as a concrete lemma. The general step and unfolding lemmas cover it.
- ResolverV14Properties.DollarExample and its 1.2 counterpart, and ResolverV14Properties.CircularChainExample, are proved for the source chains of the tests given as finite maps. `MapVariableSource`'s own parsing of `"var:val"` and `"a:a$b, b:b${c}b, ..."` is not part of this model.

- UriConfiguration.UriRelatedConfiguration.FromVariables: `resolveValue` is a parameter that always returns a string. The `Missing property`, `Circular substitution` and source exceptions that `VariableResolver.resolveValue` can throw, and that this constructor passes on, are not modelled.
- ResolverV14.VariableResolver.ResolveAndReplaceItems and its 1.2 counterpart model the collection as a list. With a `Set`, `clear()` then `addAll` of the resolved items would merge items that resolve to the same text. That merging is not modelled.
- TrailingBackslash, and through it Clean, RemoveEscapes, EscapeLoop, ParseEntry, PutEntry and ParseMap, follow the corrected escape removal. A final backslash that comes after an earlier escape is kept (`k:b\c\` gives the value `bc\`), where the source drops it (`bc`). See the second Findings row.
- ParseEntry: keys and values are cleaned by the corrected escape removal, so they differ from the source's in the two cases of the Findings table.
- PutEntry: puts the entry the corrected escape removal gives, with the same two differences.

## Findings

| source | as written | input that shows it | evidently intended | confidence | as-written member | corrected member |
|---|---|---|---|---|---|---|
| project/config-injection/tags/config-injection-1.0/src/main/java/com/profiprog/configinject/util/MapParser.java:47-59 | after an escape, the next backslash is searched for from the escaped character itself, so an escaped backslash (`\\`) ends the removal of escapes | `\\\,` (escaped backslash, escaped comma) cleans to `\\,` | every backslash escapes the next character: `\\\,` cleans to `\,`, and any escaped text cleans back to itself | medium, not executed | MapParsing.AsWrittenKeepsEscape | MapParsing.UnescapeRoundTrip |
| project/config-injection/tags/config-injection-1.0/src/main/java/com/profiprog/configinject/util/MapParser.java:47-57 | a final backslash is kept when it is the first backslash (line 48 returns the text as it is), but after an earlier escape the loop appends nothing for it and it is dropped | `b\,c\` (escaped `b,c`, then a backslash) cleans to `b,c`, while `bc\` stays `bc\` | a final backslash with nothing to escape stays, as line 48 keeps it, wherever it comes: `b\,c\` cleans to `b,c\` | low, not executed | MapParsing.AsWrittenDropsTrailing | MapParsing.TrailingBackslashAfterEscapes |

The model's `Clean`, `ParsedMap` and `ParseEscapedEntry` use the corrected
escape removal. `UnescapeAsWritten` keeps the loop as written.
