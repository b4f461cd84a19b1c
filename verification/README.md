# JSONArray of json-lib, modelled in Dafny

This project models `net.sf.json.JSONArray`, the array type of json-lib, and
proves properties of the model. A `JSONArray` is an ordered, resizable list of
slots. A slot holds a string, a boolean, a number, a character, a
`JSONFunction`, a nested array, an object, the `JSONNull` sentinel, or an
object in its "null object" state. In the model an array is a
`seq<JsonValue>`, and every operation is a pure function or a short method
over it. Every `JSONException` the class throws becomes a `Failure` that names
the throw.

The model covers:

- **Reading** (`Access`): `opt`, `get`, `getBoolean`, `optBoolean`,
  `getString`, `optString`, `getJSONArray`, `optJSONArray`, `getJSONObject`
  and `optJSONObject`.
- **Writing** (`Mutation`): `add`, which every append goes through,
  `put(JSON)`, `put(String, ...)`, `put(int, Object, ...)` and
  `put(int, String, ...)`. Writing past the end pads the array with
  `JSONNull` before the value is appended, and a value refused at that point
  leaves the padding in place; the indexed `put`s therefore return the array
  as the call leaves it together with what it threw.
- **Building** (`Conversion`, `ConversionLaws`):
  - the `add` / `put(int, Object)` type dispatch and the `fromObject`
    dispatch;
  - the collection, `Object[]`, primitive-array, enum and copy constructors;
  - the lenient parser of the `JSONArray(JSONTokener, ...)` constructor,
    including the brace-balanced scan of function bodies.
- **The grammar** (`ParserLaws`): a printer for array texts with elided slots
  and a proof that the parser reads every printed text back. Worked texts pin
  down comma elision (`[1,,4]`, `[,1]`), the absorbed trailing separator
  (`[1,]`) and the error cases.
- **Shape** (`Dimensions`): `getDimensions` / `processArrayDimensions`,
  proved equal to an independent level-by-level maximum of array lengths.
- **Text** (`Serialize`, `Text`): `join`, `toString()` and
  `toString(indentFactor, indent)`, with the `int` overflow of
  `indent + indentFactor` and the leading-space quirk of the multi-line
  layout. The string helpers `trim`, `StringUtils.split` and
  `equalsIgnoreCase` are modelled too.
- **Leaving JSON** (`Reverse`): `toList`, stated slot by slot and proved
  invertible on arrays without objects whose null slots are exactly the ones
  `JSONUtils.isNull` accepts, and `toJSONObject`.

The collaborators whose code is not part of this model are fields of the
`Env` datatype, each an arbitrary total function, and no proof assumes
anything about them:

- `JSONUtils`: `mayBeJSON`, `isFunction`, `isFunctionHeader`,
  `getFunctionParams`, `transformNumber`, `isObject`, `isNull` and
  `valueToString`;
- `JSONSerializer.toJSON`;
- `JSONObject.fromObject` and `JSONObject.toBean`;
- the character lexing of `JSONTokener`;
- `toString` of slot classes.

The parser reads an abstract token sequence instead of characters:

- `Sym(c)` is one raw character.
- `Val(l)` is one value that the tokenizer has already lexed.
- A nested array is not pre-lexed. Its `[` is a `Sym`, and the parser recurses
  on it, as the tokenizer does by calling back into the constructor.

Where the library's behaviour differs from its own description, the model
follows the code:

- Only a `,` in value position inserts `JSONNull`. A `;` there is handed to
  the tokenizer. After an element, `,` and `;` act alike.
- `put(String, excludes, ...)` parses JSON-looking text without the
  `excludes` it was given.
- The `int[]` constructor skips `transformNumber`, which the `byte[]`,
  `short[]` and `long[]` constructors and `add` apply.
- The `char[]` constructor stores `Character` slots, where `add` would store
  strings.
- With two or more slots, `toString(indentFactor, indent)` puts `indent`
  spaces before the opening bracket as well as before the closing one.
- `toList` passes `Character` slots through unchanged. It asks
  `JSONUtils.isNull` before looking at a slot's class, so whatever `isNull`
  accepts becomes Java `null`; a slot it refuses that is no array, no kept
  kind and no `JSONObject` fails the `(JSONObject)` cast.

## Model

| member | source | states |
|---|---|---|
| Access.Opt | src/main/jdk15/net/sf/json/JSONArray.java:1026-1029 | answers `null` exactly when `index < 0` or `index >= length()`, and otherwise returns the stored slot |
| Access.Get | src/main/jdk15/net/sf/json/JSONArray.java:844-851 | succeeds exactly for `0 <= index < length()` with the stored slot, the `JSONNull` sentinel included; fails with "not found" for that index otherwise |
| Access.GetOptAgree | src/main/jdk15/net/sf/json/JSONArray.java:844-851 | `get` fails exactly where `opt` answers `null`, and otherwise both return the same slot |
| Access.GetBoolean | src/main/jdk15/net/sf/json/JSONArray.java:862-873 | succeeds exactly when the slot exists and denotes a truth value (the boxed boolean, or a string equal to `"true"`/`"false"` ignoring case), and the result is the value it denotes; the errors are "not a Boolean" in range and "not found" outside |
| Access.DenotesExclusive | src/main/jdk15/net/sf/json/JSONArray.java:865-870 | no slot denotes both `true` and `false`, so testing `false` first decides nothing |
| Access.OptBoolean | src/main/jdk15/net/sf/json/JSONArray.java:1053-1061 | returns `getBoolean`'s result when it succeeds and the default on every failure |
| Access.OptBooleanReadsSlot | src/main/jdk15/net/sf/json/JSONArray.java:1039-1061 | a slot denoting `b` reads as `b` whatever the default; an out-of-range index or a non-boolean slot gives the default |
| Access.BooleanSpellings | src/main/jdk15/net/sf/json/JSONArray.java:865-872 | `"TRUE"`, `"fAlSe"` and `"falſe"` (long s) are accepted; `"yes"` and the number 1 are "not a Boolean"; index 0 of `[]` is "not found" |
| Access.SlotText | src/main/jdk15/net/sf/json/JSONArray.java:964-967 | the `toString()` of a slot: a string is itself, a character its one-letter string, a boolean `"true"`/`"false"` |
| Access.GetString | src/main/jdk15/net/sf/json/JSONArray.java:964-967 | succeeds exactly in range, fails with "not found" outside, and returns a string slot unchanged |
| Access.OptString | src/main/jdk15/net/sf/json/JSONArray.java:1207-1211 | the default outside the array; a string slot unchanged |
| Access.OptStringAgrees | src/main/jdk15/net/sf/json/JSONArray.java:1194-1211 | `optString` is `getString` with "not found" replaced by the default |
| Access.GetJsonArray | src/main/jdk15/net/sf/json/JSONArray.java:917-924 | succeeds exactly when the slot is a nested array and returns its elements; the errors are "not a JSONArray" in range and "not found" outside |
| Access.OptJsonArray | src/main/jdk15/net/sf/json/JSONArray.java:1134-1138 | the nested array at `index`, or `null` for any other slot and outside |
| Access.GetJsonObject | src/main/jdk15/net/sf/json/JSONArray.java:934-941 | succeeds exactly on an object slot (the null object included); the errors are "not a JSONObject" in range and "not found" outside |
| Access.OptJsonObject | src/main/jdk15/net/sf/json/JSONArray.java:1148-1152 | the object at `index`, or `null` |
| Access.TypedReadersAgree | src/main/jdk15/net/sf/json/JSONArray.java:917-1152 | each typed `opt` reader answers `null` exactly where the matching typed `get` reader fails, and otherwise both return the same value |
| Mutation.Add | src/main/jdk15/net/sf/json/JSONArray.java:1956-1999 | succeeds exactly when the dispatch accepts the value; the length grows by one and every earlier slot is unchanged; a failure is the dispatch's error |
| Mutation.PutJson | src/main/jdk15/net/sf/json/JSONArray.java:1646-1650 | appends the `JSON` value unconverted; the length grows by one and the earlier slots are unchanged |
| Mutation.StringSlot | src/main/jdk15/net/sf/json/JSONArray.java:1784-1794 | a `null` string is stored as `""`; text that `mayBeJSON` accepts is stored as its parse; any other text as itself |
| Mutation.PutString | src/main/jdk15/net/sf/json/JSONArray.java:1784-1794 | appends exactly the string slot, parsed without the caller's `excludes`; the length grows by one and the earlier slots are unchanged; a failed parse is the call's error |
| Mutation.Padded | src/main/jdk15/net/sf/json/JSONArray.java:1556-1558 | the array extended to length `n`: the old slots first, then `JSONNull` in every new slot |
| Mutation.PadLoop | src/main/jdk15/net/sf/json/JSONArray.java:1556-1558 | the loop that appends `JSONNull` until the length reaches `index` produces exactly the padded array |
| Mutation.PutAt | src/main/jdk15/net/sf/json/JSONArray.java:1512-1560 | a negative index is "not found" and changes nothing; in range the call succeeds exactly when the replace dispatch accepts the value, and a refusal leaves the array unchanged; beyond the end it succeeds exactly when `add` accepts the value, and a refusal leaves the array padded with `JSONNull` up to `index` |
| Mutation.PutStringAt | src/main/jdk15/net/sf/json/JSONArray.java:1617-1638 | a negative index is "not found"; in range the string slot is parsed with the given `excludes` and a failed parse changes nothing; beyond the end it is parsed without them and a failed parse leaves the `JSONNull` padding |
| Mutation.AddThenGet | src/main/jdk15/net/sf/json/JSONArray.java:1956-1999 | after an append, `get` of the old length returns what the dispatch made of the value, and every other index reads as before |
| Mutation.AddMatchesPut | src/main/jdk15/net/sf/json/JSONArray.java:1518-1554 | for values other than numbers and annotations, an in-range `put(int, Object)` succeeds and stores what `add` appends |
| Mutation.PutAtInRange | src/main/jdk15/net/sf/json/JSONArray.java:1518-1554 | a successful in-range `put(int, Object)` keeps the length, stores the converted value at `index`, and changes no other slot |
| Mutation.PutAtBeyondEnd | src/main/jdk15/net/sf/json/JSONArray.java:1555-1560 | beyond the end, whether or not the value is accepted, old slots are unchanged and the gap reads as `JSONNull`; on success the length becomes `index + 1` and the last slot holds what `add` stores, on failure the padded length `index` remains |
| Mutation.AnnotationPastEnd | src/main/jdk15/net/sf/json/JSONArray.java:1555-1559 | `put(5, annotation)` on an empty array throws "Unsupported type" and leaves five `JSONNull` slots behind |
| Mutation.PutStringAtShape | src/main/jdk15/net/sf/json/JSONArray.java:1617-1636 | the same length, frame and gap facts for `put(int, String)`, with the string slot at `index` on success and the padding kept on failure |
| Conversion.Convert | src/main/jdk15/net/sf/json/JSONArray.java:1956-1999 | the element the dispatch stores: an annotation is refused when appending; a `JSON` value is kept; a class or enum becomes a string; functions and booleans are kept; arrays, collections and tokeners become nested arrays of matching length |
| Conversion.ObjectOrNull | src/main/jdk15/net/sf/json/JSONArray.java:1990-1995 | a null object from `JSONObject.fromObject` becomes `JSONNull`, and any other object is stored; failures pass through |
| Conversion.ConvertAll | src/main/jdk15/net/sf/json/JSONArray.java:607-616 | the collection constructor applies `add` to each element; on success the array has one slot per element |
| Conversion.PrimitiveElements | src/main/jdk15/net/sf/json/JSONArray.java:565-595 | the `boolean[]`, `byte[]`, `char[]`, `int[]`, `long[]` and `short[]` constructors store one slot per element |
| Conversion.FromObject | src/main/jdk15/net/sf/json/JSONArray.java:281-335 | `fromObject` copies the elements of a `JSONArray`; builds one slot per element of a collection or `Object[]`; stores the primitive elements; refuses an annotation; gives `[name]` for an enum; parses a `String`, `JSONString` or `JSONTokener` with the tokener constructor; wraps a boolean, number, `null`, function or non-array `JSON` value in the one slot `add` makes (or fails with `add`'s error); hands any other object to the `isObject` branch |
| Conversion.ObjectElement | src/main/jdk15/net/sf/json/JSONArray.java:329-334 | an object `isObject` rejects is unsupported; otherwise the result is one slot holding an object or the null object |
| Conversion.AfterElement | src/main/jdk15/net/sf/json/JSONArray.java:757-770 | after an element: `,` or `;` followed by `]` closes the array; `,` or `;` alone continues; `]` closes; anything else is unexpected. Every position it returns lies beyond the element |
| Conversion.ScanBody | src/main/jdk15/net/sf/json/JSONArray.java:730-745 | the raw function-body scan collects characters while tracking brace depth, and stops at depth zero, at `'\0'` or at the end of input (or at a pre-lexed value token, see "## Left out") |
| Conversion.FunctionLiteral | src/main/jdk15/net/sf/json/JSONArray.java:724-755 | a function literal is produced only when the scanned braces balance; it is a `JSONFunction` whose parameters are the header's split parameter text; unbalanced braces are the "Unbalanced" syntax error at the end of the scan |
| Conversion.ParseArray | src/main/jdk15/net/sf/json/JSONArray.java:705-715 | on success the constructor stops after its closing `]`, within the input |
| Conversion.ReadElement | src/main/jdk15/net/sf/json/JSONArray.java:716-755 | reading one element never moves backwards and stays within the input |
| Conversion.ParseElements | src/main/jdk15/net/sf/json/JSONArray.java:715-771 | each turn of the `for (;;)` loop strictly advances on success |
| ConversionLaws.ModesAgree | src/main/jdk15/net/sf/json/JSONArray.java:1518-1554 | `add` and in-range `put(int, Object)` store the same element for every value except numbers and annotations |
| ConversionLaws.ModesDiffer | src/main/jdk15/net/sf/json/JSONArray.java:1979-1988 | only `add` applies `transformNumber` to a number; only `add` refuses an annotation, which `put` hands to `JSONObject.fromObject` |
| ConversionLaws.ConvertAllElementwise | src/main/jdk15/net/sf/json/JSONArray.java:800-807 | the `Object[]` and collection constructors succeed exactly when `add` accepts every element; slot `i` is what `add` makes of element `i`; a failure is the first refused element's error |
| ConversionLaws.PrimitivesAsAdded | src/main/jdk15/net/sf/json/JSONArray.java:565-584 | the `boolean[]`, `byte[]`, `short[]` and `long[]` constructors store exactly what `add` would store for each boxed element |
| ConversionLaws.IntsNotNormalised | src/main/jdk15/net/sf/json/JSONArray.java:675-679 | the `int[]` constructor stores the raw numbers, where `add` of the same boxed values would apply `transformNumber` |
| ConversionLaws.CharsStayCharacters | src/main/jdk15/net/sf/json/JSONArray.java:591-595 | the `char[]` constructor stores `Character` slots, where `add` stores a one-letter string |
| ConversionLaws.ScalarsWrapped | src/main/jdk15/net/sf/json/JSONArray.java:321-324 | `fromObject` of a boolean is the one-slot array holding it, and of a number the one-slot array holding its `transformNumber` normalisation |
| ParserLaws.ParsePrinted | src/main/jdk15/net/sf/json/JSONArray.java:705-772 | the constructor reads every printed array text, elided slots included, back to the elements it stands for, and stops right after its `]` |
| ParserLaws.ParseItemsPrinted | src/main/jdk15/net/sf/json/JSONArray.java:715-771 | the loop reads a printed element list: each empty slot yields `JSONNull`, except an empty slot at the end, which the trailing-separator check absorbs |
| ParserLaws.ReadFirst | src/main/jdk15/net/sf/json/JSONArray.java:716-723 | the first element of a printed list is read as the value it stands for; an empty slot reads as `JSONNull` without consuming the `,` |
| ParserLaws.ParseTokensPrinted | src/main/jdk15/net/sf/json/JSONArray.java:705-772 | a printed array text parses to its elements, whatever follows it |
| ParserLaws.FromObjectReadsPrinted | src/main/jdk15/net/sf/json/JSONArray.java:284-293 | `fromObject` of a `String`, a `JSONString` or a `JSONTokener` holding a printed array text yields the printed elements, each elided one as `JSONNull` |
| ParserLaws.AcceptedStartsWithBracket | src/main/jdk15/net/sf/json/JSONArray.java:708-710 | every accepted text starts, after blanks, with `[` |
| ParserLaws.RefusedWithoutBracket | src/main/jdk15/net/sf/json/JSONArray.java:708-710 | a text whose first non-blank token is not `[` is refused at that token |
| ParserLaws.MissingSeparator | src/main/jdk15/net/sf/json/JSONArray.java:768-769 | after an element, any token other than `,`, `;` or `]` is "Expected a ',' or ']'", reported at that token |
| ParserLaws.SemicolonIsComma | src/main/jdk15/net/sf/json/JSONArray.java:759-765 | after an element, `;` behaves exactly as `,` |
| ParserLaws.ElidedMiddle | src/main/jdk15/net/sf/json/JSONArray.java:716-719 | `[1,,4]` parses to three elements with `JSONNull` in the middle |
| ParserLaws.ElidedFirst | src/main/jdk15/net/sf/json/JSONArray.java:716-719 | `[,1]` parses to `JSONNull` followed by 1 |
| ParserLaws.TrailingSeparator | src/main/jdk15/net/sf/json/JSONArray.java:759-763 | `[1,]` parses to the single element 1 |
| ParserLaws.EmptyText | src/main/jdk15/net/sf/json/JSONArray.java:711-713 | `[ ]` is the empty array |
| ParserLaws.NoSeparator | src/main/jdk15/net/sf/json/JSONArray.java:768-769 | `[1 4]` is refused at the `4` |
| ParserLaws.UnclosedFunction | src/main/jdk15/net/sf/json/JSONArray.java:746-748 | a function body whose braces do not balance before the end of input is a syntax error |
| ParserLaws.SplitParams | src/main/jdk15/net/sf/json/JSONArray.java:753-754 | the parameter text `a,,b` splits into `a` and `b`, with no empty part |
| ParserLaws.ScanRest | src/main/jdk15/net/sf/json/JSONArray.java:730-745 | the body scan, entered anywhere inside a literal whose braces keep the outer brace open, collects the rest of the body and the closing brace and stops right after it at depth zero |
| ParserLaws.FunctionLiteralRead | src/main/jdk15/net/sf/json/JSONArray.java:724-755 | for every header and every literal `{body}` whose body keeps the outer brace open, the result is the `JSONFunction` with the header's split parameters and the trimmed body, and reading resumes right after the `}` |
| ParserLaws.BalancedLiteral | src/main/jdk15/net/sf/json/JSONArray.java:724-755 | a balanced body `{ x}` is read up to its closing brace, stripped of the outer braces and trimmed |
| ParserLaws.FunctionElement | src/main/jdk15/net/sf/json/JSONArray.java:722-755 | an array text holding a function header and a balanced body parses to one `JSONFunction` with the split parameters and the trimmed body |
| ParserLaws.FunctionArray | src/main/jdk15/net/sf/json/JSONArray.java:705-772 | every array text holding one function header and such a literal parses to that single `JSONFunction` |
| ParserLaws.FunctionArrayAt | src/main/jdk15/net/sf/json/JSONArray.java:705-772 | the same for any token text laid out as `[`, header, literal, `]` |
| Text.Trim | src/main/jdk15/net/sf/json/JSONArray.java:751-752 | `trim` drops only blanks, from both ends, and leaves a text that neither starts nor ends with a blank |
| Text.Split | src/main/jdk15/net/sf/json/JSONArray.java:753-754 | `StringUtils.split` yields non-empty parts free of the separator |
| Text.JoinWithAppend | src/main/jdk15/net/sf/json/JSONArray.java:1001-1006 | joining two non-empty lists puts exactly one separator at the seam |
| Text.JoinWithLength | src/main/jdk15/net/sf/json/JSONArray.java:1001-1006 | the joined text is as long as the parts plus one separator between each pair of neighbours |
| Text.JoinLoop | src/main/jdk15/net/sf/json/JSONArray.java:996-1008 | the `join` loop (separator before every part but the first) computes the joined text |
| Text.Spaces | src/main/jdk15/net/sf/json/JSONArray.java:1892-1894 | `n` spaces, and none for `n <= 0` |
| Dimensions.Process | src/main/jdk15/net/sf/json/JSONArray.java:527-543 | the walk always records a length at the current depth |
| Dimensions.GetDimensions | src/main/jdk15/net/sf/json/JSONArray.java:381-396 | the result always has at least one level |
| Dimensions.ProcessMerges | src/main/jdk15/net/sf/json/JSONArray.java:527-543 | the accumulating walk merges the array's depth profile into `dims` from `index` on |
| Dimensions.DimensionsAreProfile | src/main/jdk15/net/sf/json/JSONArray.java:381-396 | `getDimensions` is `[0]` for an empty array and the depth profile otherwise |
| Dimensions.ProfileIsLevelMax | src/main/jdk15/net/sf/json/JSONArray.java:527-543 | level `d` of the profile exists exactly when some array sits at depth `d`, and then it is the largest length among all arrays at that depth |
| Dimensions.DimensionsAreLevelMaxima | src/main/jdk15/net/sf/json/JSONArray.java:381-396 | the number of levels is the nesting depth plus one, and each level is the largest array length at that depth, over the whole tree |
| Dimensions.DimensionsFlat | src/main/jdk15/net/sf/json/JSONArray.java:381-396 | `[[1,2],[3]]` has dimensions `[2, 2]` |
| Dimensions.DimensionsRagged | src/main/jdk15/net/sf/json/JSONArray.java:381-396 | `[[],[[1]]]` has dimensions `[2, 1, 1]`: the deeper level comes from the second branch, not the first path |
| Serialize.RenderAll | src/main/jdk15/net/sf/json/JSONArray.java:1001-1006 | rendering succeeds exactly when every slot renders, and text `i` is slot `i`'s rendering |
| Serialize.Join | src/main/jdk15/net/sf/json/JSONArray.java:996-1008 | `join` succeeds exactly when every slot renders |
| Serialize.JoinSeam | src/main/jdk15/net/sf/json/JSONArray.java:996-1008 | the separator sits exactly between neighbouring slots: the joined text is the prefix's text, `sep`, then the rest's text, at every seam |
| Serialize.JoinLength | src/main/jdk15/net/sf/json/JSONArray.java:996-1008 | the joined text is as long as the slot texts plus `length() - 1` separators |
| Serialize.ToString | src/main/jdk15/net/sf/json/JSONArray.java:1837-1845 | `toString()` is non-null exactly when `join(",")` succeeds, and then starts with `[` and ends with `]` |
| Serialize.ToStringAppend | src/main/jdk15/net/sf/json/JSONArray.java:1837-1845 | appending a slot to a non-empty array inserts `,` and its text before the closing bracket |
| Serialize.ToStringSmall | src/main/jdk15/net/sf/json/JSONArray.java:1837-1845 | the empty array prints as `[]`; a single slot prints between brackets |
| Serialize.Int32Add | src/main/jdk15/net/sf/json/JSONArray.java:1886 | `indent + indentFactor` as a Java `int`: the sum wrapped into the 32-bit range |
| Serialize.RenderIndentedAll | src/main/jdk15/net/sf/json/JSONArray.java:1888-1896 | the indented rendering succeeds exactly when every slot renders, one text per slot |
| Serialize.ToStringIndented | src/main/jdk15/net/sf/json/JSONArray.java:1875-1907 | the library's append-and-insert procedure produces the layout `Indented` defines: `[]` when empty; one slot on one line; otherwise one slot per line, with the leading-space quirk |
| Serialize.IndentedLines | src/main/jdk15/net/sf/json/JSONArray.java:1886-1896 | the element loop joins the indented slot lines with `,` and a newline, and fails with the first failing slot's error |
| Serialize.AppendSpaces | src/main/jdk15/net/sf/json/JSONArray.java:1898-1900 | the append loop adds exactly `Spaces(n)` |
| Serialize.PrependSpaces | src/main/jdk15/net/sf/json/JSONArray.java:1901-1903 | the insert-at-front loop puts exactly `Spaces(n)` before the buffer |
| Serialize.FirstIndentedFailure | src/main/jdk15/net/sf/json/JSONArray.java:1888-1896 | the indented rendering fails with the error of the first slot that cannot be rendered |
| Serialize.IndentedLayout | src/main/jdk15/net/sf/json/JSONArray.java:1886-1905 | with two or more slots the text starts with `indent` spaces, `[` and a newline, and ends with a newline, `indent` spaces and `]` |
| Serialize.IndentOverflow | src/main/jdk15/net/sf/json/JSONArray.java:1886 | when `indent + indentFactor` overflows, the sum is negative and the slot lines get no indentation |
| Reverse.ToList | src/main/jdk15/net/sf/json/JSONArray.java:487-514 | `toList` succeeds exactly when every slot converts, and then holds one element per slot in order: `null` where `isNull` accepts, the slot itself for strings, booleans, numbers, characters and functions, the nested list `toList` makes of a nested array, and the bean `toBean` builds from an object; a failure is the first failing slot's error |
| Reverse.Item | src/main/jdk15/net/sf/json/JSONArray.java:491-511 | the element made of one slot: `null` when `isNull` accepts it; otherwise the nested list of an array, the slot itself for the kept kinds, `toBean`'s result or error for an object or null object, and the cast failure for a refused `JSONNull` |
| Reverse.BeanFreeConverts | src/main/jdk15/net/sf/json/JSONArray.java:487-514 | an array that never reaches the bean builder (only slots `isNull` accepts, kept kinds and such nested arrays) converts whatever the bean builder does |
| Reverse.ToListRoundTrip | src/main/jdk15/net/sf/json/JSONArray.java:487-514 | for every array without objects or null objects, where `isNull` accepts exactly the `JSONNull` slots, reading the list back gives the array again |
| Reverse.BeanFailurePropagates | src/main/jdk15/net/sf/json/JSONArray.java:505-510 | a failing `toBean` on an object slot that `isNull` refuses, after slots that never reach the bean builder, makes the whole conversion fail with that error |
| Reverse.RefusedNullFailsCast | src/main/jdk15/net/sf/json/JSONArray.java:493-509 | a `JSONNull` slot that `isNull` refuses fails the `(JSONObject)` cast |
| Reverse.ToJsonObject | src/main/jdk15/net/sf/json/JSONArray.java:1814-1824 | `null` exactly when `names` is `null` or empty or the array is empty; otherwise one `put` per name, pairing `names.getString(i)` with `opt(i)` |
| Reverse.ToJsonObjectPairs | src/main/jdk15/net/sf/json/JSONArray.java:1814-1824 | names beyond the array's length are paired with `null`, names in range with the slot, and string names are used verbatim |

## Left out

- Floating-point paths are not modelled: the `double[]` and `float[]` constructors, `put(double)`, `put(int, double)`, `testValidity`, and `getDouble`, `getInt`, `getLong`, `optDouble`, `optInt` and `optLong` with their `Double.parseDouble` fallbacks. Numbers are unbounded integers.
- `write(Writer)` is not modelled. It is character output and performs the same walk as `toString()`.
- `toArray` is not modelled, because it builds typed Java arrays by reflection.
- `iterator()`, `length()`, `isEmpty()` and `isArray()` are not modelled separately. `length()` is `|a|`; the others expose the list or are constants.
- The convenience overloads are not modelled separately: `put(boolean)`, `put(int)`, `put(long)`, `put(Collection)`, `put(Map)`, `put(Object)`, their indexed forms, `fromArray`, `fromCollection`, `fromJSONString`, `fromString`, `toList(jsonArray[, objectClass])`, `toString(indentFactor)`, `optBoolean(index)` and `optString(index)`. Each only boxes its argument or supplies a default before calling a modelled operation.
- `JSONObject.put` is not modelled. `Reverse.ToJsonObject` returns the key/value pairs in the order they are put, but a `null` value removing a key and a repeated key overwriting are `JSONObject`'s behaviour.
- The tokenizer's character lexing is not modelled: quotes, escapes, comments, bare words and number syntax. The parser reads pre-lexed values, and a `;` in value position becomes the tokenizer's "missing value" error.
- Conversion.ScanBody: the scan also stops when it meets a pre-lexed value token. The raw `x.next()` loop has no such case; it arises only because the model mixes pre-lexed values with raw characters. Inside a body such a stop gives the "Unbalanced" error, and before the first character it gives the empty-body error.
- `back()` at the very end of input is modelled as a no-op that keeps returning the end marker.
- The aliasing of the copy constructor is not modelled. It shares element references with its source, and the model only states that the copy has the same elements.
- Conversion.Convert: its contract states the dispatch facts the laws need, not every branch; the JSON-looking-string and bean branches return whatever the collaborators return.
- Dimensions.GetDimensions: the result is an `int[]` of boxed lengths; the model keeps unbounded integers.

