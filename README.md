# ggen-convert, modelled in Dafny

ggen-convert has two halves:

- **Code generator.** A ggen plugin reads `+gen:convert` directives in Go packages and generates functions that convert between the structs of an "api" package and those of another package. It pairs fields by name and delegates to custom conversion functions where they exist.
- **Runtime registry** (package `conversion`). A `Scheme` maps a pair of pointer (or slice-of-pointer) types to a registered conversion function. `Convert`, `ConvertTo` and `ConvertChain` dispatch a list of arguments to these functions.

This project models the decision logic of both halves and proves what it promises:

- the registry's lifecycle (building → ready), its validation rules, execution order and panics;
- the parsing of the package-scope and per-type directives;
- the classification of custom functions into modes 1–3 and the derivation of type pairs;
- the table of conversion pairs, with its ownership and duplicate errors, and the precedence of custom functions over generated pairs;
- the deterministic ordering of api objects;
- the field lists of the Type, Create and Update modes;
- the per-field strategy the template chooses;
- the two path and name predicates of `plugin/util.go`.

Go's `reflect` and `go/types` objects are replaced by small datatypes:

- **`SchemeSpec.RType`**: a reflected type.
- **`SchemeSpec.Item`**: an argument, which is a value (address and type), a `func()` or a `func() error`.
- **`GoTypes.Type`**: named, pointer, slice, basic, struct and other types. Named types are resolved through a `Universe` of declarations.
- **`GoTypes.Var`**: a field or parameter.

Registered conversion functions are opaque. A `Runner` parameter says what each call returns.

Modules and what they model:

- `Util`: `plugin/util.go`.
- `Directives`, `TypeNames`, `Pairs`, `Fields`, `Table` and `Ordering`: `plugin/plugin.go`.
- `Render`: `plugin/template.go`.
- `SchemeSpec`, `Conversion`, `SchemeProps` and `SchemeScenarios`: `conversion/`.
- `Strs`: the pieces of Go's `strings` package the code calls.
- `GoTypes`: the type-checker objects.

Code that works by updating state is modelled with classes and methods:

- `Conversion.Scheme`;
- `Table.Generator`, which holds the `convPairs` table and the notes on functions;
- `Render.Renderer`, which holds `lastComment` and the `cacheApplicable` map.

Loops are modelled as loops: the validation scans, the execution loops, `Build`, `validateEquality`, `matchField`, `contains`, the field-list loops, `prepareListObject` (with an in-place sort of an array) and `prepareConverts`. Each loop method is proved equal to a specification function. The properties are proved about those functions.

Three behaviours of the code a reader may not expect, modelled as written:

- **No-arrow directives.** `parseConvertDirective` rejects empty entries only in the `to -> api` form. A list without `->` keeps its empty entries (`Directives.ConvertDirective`).
- **`validateEquality`.** It compares by membership, not as a permutation, so a repeated entry can stand for a missing one (`Directives.EqualityRepeatedEntry`).
- **Broadcast validation.** It also checks the last value against itself, so broadcasting needs a registered self-pair (`SchemeProps.BroadcastNeedsSelfPair`).

## Model

| member | source | states |
|---|---|---|
| Util.HasBaseIffSegmentTail | plugin/util.go:15-18 | hasBase(p, t) holds exactly when p == t, or p ends with t and the character before that suffix is '/'. The index it reads is always in bounds. |
| Util.HasBaseOfJoin | plugin/util.go:15-18 | A path always has the base of its last segments after a '/'. |
| Util.HasBaseExamples | plugin/util_test.go:10-14 | These are the test cases. The full path, "hello/world" and "world" match "example.com/hello/world"; "orld" and "/world" do not. |
| Util.HasPrefixCamelIff | plugin/util.go:20-25 | hasPrefixCamel(s, pre) holds exactly when s is longer than pre, starts with it, and the next character is not an ASCII lower-case letter. |
| Util.HasPrefixCamelExamples | plugin/util.go:20-25 | "Null" and "Nullable" are refused for the prefix "Null"; "NullString" is accepted. |
| Directives.TrimAll | plugin/plugin.go:452-455 | Each entry of the array is trimmed in place; the array equals the trimmed list. |
| Directives.TrimAllNonEmpty | plugin/plugin.go:466-481 | It succeeds exactly when no trimmed entry is empty, and then the array holds the trimmed entries. |
| Directives.TrimmedList | plugin/plugin.go:452-455 | A comma-separated list is split, then trimmed entry by entry. |
| Directives.TrimmedNonEmptyList | plugin/plugin.go:466-481 | Same as TrimmedList, but fails exactly when some trimmed entry is empty. |
| Directives.ParseConvertDirective | plugin/plugin.go:449-483 | The result equals ConvertDirective. Without "->", the trimmed list is both lists. With "->", there must be exactly two parts (left = to-packages, right = api-packages) and no empty entry, else an invalid-directive error. |
| Directives.ParseList | plugin/plugin.go:451-456 | Joining package paths (no comma, no surrounding space) with "," and parsing back gives the same list, with no arrow. |
| Directives.ListDirectiveRoundTrip | plugin/plugin.go:451-456 | `a, b` round-trips: the parsed api and to lists are both the written list. |
| Directives.ArrowDirectiveRoundTrip | plugin/plugin.go:459-482 | `to -> api` round-trips: the parser gives back (api, to). |
| Directives.SplitArrow | plugin/plugin.go:459-463 | Two arrow-free sides joined by "->" split back into exactly those two parts. |
| Directives.FirstDuplicated | plugin/plugin.go:424-436 | Gives the first entry of the first list that occurs twice or more in the second. Every earlier entry occurs at most once. |
| Directives.CountIn | plugin/plugin.go:424-437 | The count of entries found equals the list length exactly when every entry occurs in the other list. |
| Directives.MarkFound | plugin/plugin.go:427-434 | One inner loop. It reports a duplicate exactly when the entry occurs twice in the second list; otherwise it adds one to the count when the entry occurs there. Other flags are unchanged. |
| Directives.ValidateEquality | plugin/plugin.go:420-438 | The result equals Equality: different lengths give false; the first entry occurring twice in the second list is a duplicated-package error; otherwise true exactly when every entry occurs in the second list. |
| Directives.DuplicatedAt | plugin/plugin.go:424-436 | The duplicated-package error names the first such entry of the first list. |
| Directives.EqualityIff | plugin/plugin.go:420-438 | The lists are reported equal exactly when they have the same length and every entry of the first occurs exactly once in the second. |
| Directives.EqualityOfReordering | plugin/plugin.go:420-438 | Any reordering of a list of distinct packages is reported equal. |
| Directives.EqualityRepeatedEntry | plugin/plugin.go:420-438 | ["a","a"] is reported equal to ["a","b"]: a repeated entry stands for a missing one. |
| TypeNames.FirstParen | plugin/plugin.go:501 | Gives the position of the first '(' (or the end), with no '(' before it. |
| TypeNames.NameExtra | plugin/plugin.go:501 | Splits a string into the name group and the optional parenthesised group, when it splits. |
| TypeNames.SearchSound | plugin/plugin.go:501 | A match found by the search satisfies reTypeName's groups. |
| TypeNames.SearchGreedy | plugin/plugin.go:501 | The search finds a match whose path group is at least as long as any other match's. |
| TypeNames.MatchTypeNameSpec | plugin/plugin.go:501-504 | The match is a real match of reTypeName. Any string that matches is matched, with the longest path group (the leftmost-greedy preference of `.+\.`), and the match is determined by its path. |
| TypeNames.PathEndsInDot | plugin/plugin.go:501 | A non-empty path group ends in '.'. |
| TypeNames.MatchWithoutDot | plugin/plugin.go:501-509 | A name without a dot matches with an empty path. |
| TypeNames.MatchQualified | plugin/plugin.go:501-512 | `path.Name` matches with path group "path." and name group Name. |
| TypeNames.Matching | plugin/plugin.go:536-547 | The candidates are api packages whose path has the written path as its base. |
| TypeNames.MatchingPrefix | plugin/plugin.go:536-547 | Scanning more packages never finds fewer candidates. |
| TypeNames.FindPackage | plugin/plugin.go:536-551 | The result equals PackageFor: exactly one package whose path has the written path as its base, else an ambiguous or not-found error. |
| TypeNames.ParseTypeName | plugin/plugin.go:503-557 | The result equals TypeName. The error order follows the source: no match; an identifier that does not match reName; a bare name that is invalid or has no single api package; the package lookup; an invalid name. |
| TypeNames.TypeNameSound | plugin/plugin.go:503-557 | An accepted type name names an object of an api package, and its name and every identifier match reName. |
| TypeNames.TypeNameBare | plugin/plugin.go:524-533 | A bare name is taken from the one api package; with more or fewer packages it is a must-provide-path error. |
| TypeNames.TypeNameQualified | plugin/plugin.go:536-556 | `path.Name` resolves to the api package found for path, or fails with that lookup's error. |
| TypeNames.ParenthesisedList | plugin/plugin.go:513-522 | An identifier list written as `(id1,id2)` is split back into the same identifiers. |
| TypeNames.TypeNameWithoutPath | plugin/plugin.go:509-533 | Any unqualified match resolves in the single api package, with its identifiers. |
| TypeNames.TypeNameIdentifiers | plugin/plugin.go:503-557 | `Name(id1,id2)` parses to Name in the one api package with exactly those identifiers. |
| TypeNames.JoinFree | plugin/plugin.go:513-522 | Joining strings that do not contain a character gives a string without it. |
| TypeNames.ParseWithMode | plugin/plugin.go:487-499 | The result equals WithMode: an unknown command is not a directive; identifiers on a type or create directive are an invalid-extra-option error. |
| TypeNames.WithModeSound | plugin/plugin.go:487-499 | An accepted directive has the command's mode and names a type of an api package; only update directives carry identifiers. |
| TypeNames.WithModeIdentifiers | plugin/plugin.go:487-499 | `Name(ids)` is kept with its identifiers in update mode and refused in type and create mode. |
| GoTypes.SameSymmetric | plugin/plugin.go:868-900 | Go's type identity on named and basic types is symmetric. |
| GoTypes.KindOf | plugin/template.go:164 | The Kind() that renderSimpleConversion compares: `byte` has the kind of `uint8`, `rune` that of `int32`, and every other basic type is its own kind. |
| GoTypes.StructOf | plugin/plugin.go:440-447 | validateStruct gives the fields of the struct underlying a type name. |
| GoTypes.SkipPointer | plugin/plugin.go:860-866 | A pointer type gives its element; any other type is unchanged. |
| Pairs.ConvertFuncShape | plugin/plugin.go:386-409 | A recognised function has mode 1-3, at least one parameter, and converts from its first parameter. |
| Pairs.ConvertFuncShapeIff | plugin/plugin.go:386-418 | Exactly three shapes are recognised: (1 param, 1 result) is mode 1 from param0 to result0; (2, 0) converts into param1; (2, 1) with param1 and the result pointers to the same type is mode 3. |
| Pairs.PointerToNamed | plugin/plugin.go:918-925 | Gives N exactly when the type is `*N` for a named N. |
| Pairs.SliceToPointerNamed | plugin/plugin.go:902-916 | Gives N exactly when the type (through a named slice type) is `[]*N`. |
| Pairs.PointerPair | plugin/plugin.go:944-961 | The pair is valid exactly when both types are pointers to named types, and is then (A, B) for `*A`, `*B`; otherwise it is the zero pair. |
| Pairs.SlicePair | plugin/plugin.go:927-942 | The pair is valid exactly when both types are `[]*A`, `[]*B` (also through a named slice type), and it is then (A, B); otherwise it is the zero pair. |
| Pairs.NamedPair | plugin/plugin.go:963-974 | The pair is valid exactly when both types are named, and then holds them. |
| Pairs.NamedPairSwap | plugin/plugin.go:963-974 | The pair in the other direction is the swapped pair. |
| Pairs.SliceAndPointerExclusive | plugin/template.go:100-124 | A slice pair and a pointer pair are never both valid, so trying the slice pair first decides nothing by order. |
| Pairs.CompatibleSymmetric | plugin/plugin.go:868-900 | validateCompatible does not depend on the direction. |
| Pairs.CompatibleSameElement | plugin/plugin.go:868-900 | The same named or basic type is compatible with itself, also behind a pointer, a slice or a slice of pointers. |
| Pairs.IncompatiblePairsDiffer | plugin/plugin.go:868-900 | After the compatibility check fails, a valid pointer or slice pair relates two different named types. |
| Fields.MatchOf | plugin/plugin.go:992-1000 | Gives no match exactly when no field has the name; otherwise a field with that name. |
| Fields.MatchField | plugin/plugin.go:992-1000 | matchField returns MatchOf: the first field of the same name, or none. |
| Fields.Contains | plugin/plugin.go:983-990 | contains is true exactly when the item is in the list. |
| Fields.FirstEmbedding | plugin/plugin.go:842-858 | Gives none exactly when no field embeds the target type (through a pointer too); otherwise such a field. |
| Fields.EmbeddingOf | plugin/plugin.go:842-858 | At most one side is given: an embedded input field holding the output type, or else an embedded output field holding the input type. |
| Fields.FindEmbedding | plugin/plugin.go:843-857 | The inner loop of validateEmbedded returns the first embedding field. |
| Fields.ValidateEmbedded | plugin/plugin.go:842-858 | Input fields are checked first; the result equals EmbeddingOf. |
| Fields.TypeFieldList | plugin/plugin.go:734-748 | The field list is never longer than the output fields. |
| Fields.GenerateConvertTypeImpl | plugin/plugin.go:731-748 | The loop computes TypeFields: the embedding, and the field list in output-field order. |
| Fields.TypeFieldListPairs | plugin/plugin.go:734-748 | Each entry pairs an output field with the first input field of the same name. |
| Fields.TypeFieldListAll | plugin/plugin.go:734-748 | Without an embedded output field, every output field is listed in order. |
| Fields.TypeFieldListDropsEmbedded | plugin/plugin.go:736-745 | Only the embedded output field without a name match is dropped. |
| Fields.Without | plugin/plugin.go:734-748 | Removes the element, and is no longer than the list. |
| Fields.WithoutSnoc | plugin/plugin.go:734-748 | Removing from a list extended by one removes from the prefix, then keeps or drops the new element. |
| Fields.TypeFieldsEmbeddedArg | plugin/plugin.go:746-748 | An embedded input field empties the whole list. |
| Fields.CreatedUpToStep | plugin/plugin.go:763-770 | One loop step of generateCreate lists the next output field with its match. |
| Fields.GenerateCreate | plugin/plugin.go:759-770 | Create mode lists every output field in order, each with the first input field of the same name. |
| Fields.IdentCount | plugin/plugin.go:783-797 | The number of output fields marked as identifiers is at most the number of fields. |
| Fields.GenerateUpdate | plugin/plugin.go:779-800 | Update mode fails with identifier-not-found exactly when the marked fields do not number the identifiers. Otherwise it lists every output field in order with its match, marking exactly those named by an identifier. |
| Fields.NameSet | plugin/plugin.go:780-800 | Gives the set of field names. |
| Fields.IdentCountNames | plugin/plugin.go:780-800 | With distinct field names, the marked count is the number of names that are identifiers. |
| Fields.LastNameFresh | plugin/plugin.go:780-800 | In a struct with distinct field names, the last name is not among the earlier ones. |
| Fields.AddOneCount | plugin/plugin.go:780-800 | Adding a fresh name adds one to the intersection exactly when it is an identifier. |
| Fields.UpdateSucceedsIff | plugin/plugin.go:780-800 | With distinct names and identifiers, Update succeeds exactly when every identifier names an output field. |
| Fields.DistinctCard | plugin/plugin.go:780-800 | A list of distinct identifiers has as many elements as its set. |
| Fields.RepeatedIdentifierFails | plugin/plugin.go:780-800 | An identifier written twice always fails. |
| Table.StepClaims | plugin/plugin.go:70-83 | One step claims every api package with every to-package. |
| Table.BuildPkgPairs | plugin/plugin.go:68-84 | The nested loops compute PkgPairsOf: a pair is filed both ways and a pair filed before is a multiple-packages error. |
| Table.PkgPairsErrPersists | plugin/plugin.go:68-84 | The first error ends the loop. |
| Table.PkgPairsOfIff | plugin/plugin.go:68-84 | Building succeeds exactly when no claim's pair was filed earlier in either direction. The filed keys are then exactly the claimed pairs, both ways. |
| Table.PkgPairsOfOk | plugin/plugin.go:68-84 | The success half of PkgPairsOfIff. |
| Table.PkgPairsOfKeys | plugin/plugin.go:68-84 | The key half of PkgPairsOfIff. |
| Table.EmptyStepsClaimNothing | plugin/plugin.go:68-84 | Steps with no packages claim nothing, so the package pairs stay empty. |
| Table.EmptyStepsPackage | plugin/plugin.go:69-83 | Steps with no packages in one generating package claim nothing. |
| Table.ConvInUse | plugin/plugin.go:598-618 | The result is true exactly when some directive relates the pair's two types, in either direction. |
| Table.InUseSwap | plugin/plugin.go:598-618 | Whether a pair is in use does not depend on its direction. |
| Table.CollectErrPersists | plugin/plugin.go:87-148 | The first error of the collection loop is the result. |
| Table.CollectOneTable | plugin/plugin.go:88-146 | One function adds exactly its entry, to a pair not yet in the table; skipped and ignored functions change nothing. |
| Table.CustomEntriesStep | plugin/plugin.go:142-146 | Filing one more function keeps every entry under its own pair, with its mode, made by some function. |
| Table.CollectedTable | plugin/plugin.go:86-148 | After a successful collection every filed function is in the table, under its own pair and with its mode, and no entry has a generated package yet. |
| Table.CollectedDistinct | plugin/plugin.go:129-133 | No two filed functions share a pair, because a second one is a duplicated-conversion error. |
| Table.Generator.constructor | plugin/plugin.go:86 | Starts with an empty table and no notes. |
| Table.Generator.CollectCustomFuncs | plugin/plugin.go:86-148 | The loop over the generating packages' functions computes CollectAll: an ownership or duplicate error, or the table and the notes on ignored and custom functions. |
| Table.GenHead | plugin/plugin.go:640-661 | A Type-mode directive asks for two pairs, and any other directive none. |
| Table.GenPairsAt | plugin/plugin.go:640-661 | The pairs asked by directive j come before those of the later directives. |
| Table.FileAllAppend | plugin/plugin.go:640-661 | Filing a concatenation files the first part, then the second. |
| Table.FileAllTwo | plugin/plugin.go:640-661 | Filing two pairs files the first, then the second. |
| Table.PrepareStep | plugin/plugin.go:640-661 | One directive files its own pairs first, then the rest. |
| Table.ListPairsAt | plugin/plugin.go:640-661 | The pairs of listed object i come before those of the later objects. |
| Table.AskedCons | plugin/plugin.go:640-661 | A pair is asked for by a list exactly when it is asked by the head or the rest. |
| Table.Generator.PrepareConverts | plugin/plugin.go:640-661 | The table becomes FileAll over both directions of every Type-mode directive of the listed objects, in order. |
| Table.FileAllSpec | plugin/plugin.go:640-661 | prepareConverts adds exactly the pairs asked for and never replaces a custom function (its function and mode are kept). New entries have no function, and every pair asked for gets a generated package; other entries are untouched. |
| Table.FileAllLastWins | plugin/plugin.go:640-661 | A pair's package is that of the last directive asking for it. |
| Table.GenPairsBoth | plugin/plugin.go:649-658 | Every Type-mode directive asks for both directions between its type and the api type. |
| Ordering.ObjLessIrreflexive | plugin/plugin.go:628-636 | The order of objects (package path, then name) is irreflexive. |
| Ordering.ObjLessAsymmetric | plugin/plugin.go:628-636 | The order is asymmetric. |
| Ordering.ObjLessTrichotomy | plugin/plugin.go:628-636 | Any two distinct objects are ordered. |
| Ordering.ObjLessTransitive | plugin/plugin.go:628-636 | The order is transitive. |
| Ordering.EqualNeighbours | plugin/plugin.go:620-638 | Two equal neighbours mean that an element occurs twice. |
| Ordering.DistinctAdjacentSorted | plugin/plugin.go:620-638 | A sorted list without repeats is strictly sorted. |
| Ordering.OneLater | plugin/plugin.go:620-638 | Two strictly sorted lists with the same elements and the same head share their later elements. |
| Ordering.FirstNotAfter | plugin/plugin.go:620-638 | The head of a strictly sorted list is not after any of its elements. |
| Ordering.StrictlySortedUnique | plugin/plugin.go:620-638 | Two strictly sorted lists of the same objects are equal, so the object order is deterministic. |
| Ordering.SortObjects | plugin/plugin.go:628-636 | The array is sorted and a permutation of the input. |
| Ordering.CollectSelected | plugin/plugin.go:621-626 | Collects exactly the objects with at least one directive, once each. |
| Ordering.PrepareListObject | plugin/plugin.go:620-638 | The list holds exactly the objects with at least one directive, strictly sorted by package path and then by name. |
| Ordering.AskedAppend | plugin/plugin.go:640-661 | A pair is asked for by a concatenation exactly when one part asks for it. |
| Ordering.ListPairsAsk | plugin/plugin.go:640-661 | A pair asked by one listed object is asked by the whole list. |
| Ordering.AllPairsAsk | plugin/plugin.go:150-153 | A pair asked in one generating package is asked overall. |
| Ordering.PreparedTable | plugin/plugin.go:150-153 | After preparation, both directions of every Type-mode directive of every listed object are in the table with a generated package. Every entry filed before keeps its function and mode. |
| Ordering.AllPairsSnoc | plugin/plugin.go:150-153 | Preparing one more package appends its pairs. |
| Ordering.PrepareAllStep | plugin/plugin.go:150-153 | One more package continues the same filing. |
| Ordering.ListsPreparedSnoc | plugin/plugin.go:150-153 | A new prepared list keeps every list sorted and holding exactly its package's objects. |
| Ordering.PrepareAll | plugin/plugin.go:150-153 | Each package's list is prepared, and the table is every package's pairs filed in package order. |
| Render.BasicOf | plugin/template.go:210-216 | Gives the basic kind exactly when the type stands for a basic type. |
| Render.SimpleConversionOf | plugin/template.go:159-175 | A basic conversion exists exactly when both types stand for basic types of the same kind or two numeric kinds, and it converts into the output type. |
| Render.Delegate | plugin/template.go:126-157 | Delegating panics ("no generated conversion package") exactly when the pair has no generated package. Otherwise it calls that package's function, in the plural (one-argument) form for slices. |
| Render.PairUsed | plugin/template.go:100-124 | The slice pair is preferred to the pointer pair. |
| Render.CustomOf | plugin/template.go:100-124 | There is no custom conversion exactly when the chosen pair is invalid or not in the table. Otherwise it delegates to that pair's entry, the slice pair before the pointer pair. |
| Render.Converted | plugin/template.go:55-66 | The custom conversion is tried first, then the basic conversion, else "types do not match" keeping the output field. |
| Render.FieldValue | plugin/template.go:47-67 | No input field gives "no change"; compatible types are assigned; otherwise the conversion steps run. The kept field is always the output field. |
| Render.FieldApply | plugin/template.go:69-98 | Identifier fields always keep the output field. "Apply change" is chosen exactly for an incompatible field of a "Null*" type with an Apply method. |
| Render.FieldApplyAsValue | plugin/template.go:69-98 | For a field that is not an identifier and not of an Apply type, Update mode picks what renderFieldValue picks, except that a simple assignment reads `arg.<output field name>`. |
| Render.BasicFields | plugin/template.go:159-175 | Incompatible fields of basic types convert exactly when the kinds agree or both are numeric. |
| Render.NumericFieldsConvert | plugin/template.go:159-175 | Two fields of different numeric kinds give a simple conversion. |
| Render.BasicSlicesDoNotMatch | plugin/plugin.go:868-900 | Slices of two different basic types are not compatible, make no pair and are not basic, so the output field is kept ("types do not match"). |
| Render.ByteAndUint8 | plugin/template.go:159-167 | `byte` into `uint8` is a simple conversion, since the kinds agree; `[]byte` into `[]uint8` keeps the output field, since the element types are different objects. |
| Render.PanicOnlyForUnaskedCustomPairs | plugin/template.go:126-157 | After preparation, only a custom function's pair that no Type-mode directive asked for can reach the "no generated conversion package" panic. |
| Render.AskedPairsDelegate | plugin/template.go:100-157 | A field whose pair was asked for by a directive delegates without panic. |
| Render.EmbeddedConvert | plugin/template.go:238-264 | No embedding gives nothing; both sides panic. The input side copies the whole field (dereferenced for a pointer), and the output side assigns the whole value (allocated for a pointer). |
| Render.ValidatedEmbeddingCopies | plugin/template.go:238-264 | The embedding validateEmbedded gives never reaches the panic. |
| Render.Renderer.constructor | plugin/template.go:218 | Starts with an empty cache and no comment. |
| Render.Renderer.CheckApplicable | plugin/template.go:218-236 | The result is true exactly for a "Null*" type with an Apply method. A cached answer is reused; true answers and prefix failures are cached; a "Null*" type without Apply is not cached. |
| Render.Renderer.RenderCustomConversion | plugin/template.go:100-124 | The result equals CustomOf; the comment is cleared only when a conversion is found. |
| Render.Renderer.RenderSimpleConversion | plugin/template.go:159-175 | The result equals SimpleConversionOf; the comment is set only when a conversion is found. |
| Render.Renderer.RenderConverted | plugin/template.go:55-66 | The result equals Converted, with its comment. |
| Render.Renderer.RenderFieldValue | plugin/template.go:47-67 | The result equals FieldValue, with its comment. |
| Render.Renderer.RenderFieldApply | plugin/template.go:69-98 | The result equals FieldApply, with its comment; the cache stays valid. |
| SchemeSpec.GetTypePairShapes | conversion/scheme.go:217-252 | Only two shapes give a key: two pointers give (false, elem, elem), and a slice of pointers with a pointer to a slice of pointers gives (true, …). Two slices are the pointer-to-slice error. |
| SchemeSpec.GetTypePairInjective | conversion/scheme.go:217-252 | Different argument shapes never share a key. |
| SchemeSpec.GetConversion | conversion/scheme.go:208-215 | Gives the registered function of the pair's key; a missing entry is not registered, and a bad shape is an error. |
| SchemeSpec.Values | conversion/scheme.go:112-206 | The non-function items, in order. |
| SchemeSpec.ValuesAppend | conversion/scheme.go:112-206 | The values of a concatenation are the concatenated values. |
| SchemeSpec.ValuesStep | conversion/scheme.go:167-206 | One loop step sees the next value or skips a function. |
| SchemeSpec.LastNonFunc | conversion/scheme.go:156-165 | There is no last value exactly when there are no values. |
| SchemeSpec.BroadcastPairs | conversion/scheme.go:167-183 | One pair per value, the last one included. |
| SchemeSpec.ChainPairs | conversion/scheme.go:185-206 | One pair per adjacent pair of values. |
| SchemeSpec.FirstMiss | conversion/scheme.go:167-206 | Gives the first pair without a function; every earlier pair has one. |
| SchemeSpec.FoundUpToStep | conversion/scheme.go:167-206 | The scan extends over a pair with a function. |
| SchemeSpec.FirstMissAt | conversion/scheme.go:167-206 | The position where the scan stops is the first miss. |
| SchemeSpec.Scan | conversion/scheme.go:167-206 | The recorded pair has both sides or neither, and a positive count records one. |
| SchemeSpec.ThenThen | conversion/scheme.go:112-154 | Prefixing two traces is prefixing their concatenation. |
| Conversion.Scheme.constructor | conversion/scheme.go:22-26 | NewScheme: an empty table, not ready. |
| Conversion.Scheme.Register | conversion/scheme.go:28-37 | It panics when ready and panics on a bad shape (table unchanged in both cases). Otherwise it binds the key to the function, overwriting an earlier binding and leaving every other entry unchanged. |
| Conversion.Scheme.EnsureReady | conversion/scheme.go:39-43 | It panics exactly when the scheme is not ready. |
| Conversion.Scheme.ValidateConvertTo | conversion/scheme.go:167-183 | The loop computes ValidateTo. |
| Conversion.Scheme.ValidateConvertChain | conversion/scheme.go:185-206 | The loop computes ValidateChain. |
| Conversion.Scheme.RunConvertTo | conversion/scheme.go:112-132 | The loop computes ExecTo. |
| Conversion.Scheme.RunConvertChain | conversion/scheme.go:134-154 | The loop computes ExecChain. |
| Conversion.Scheme.Convert | conversion/scheme.go:74-110 | The result equals ConvertSpec. |
| Conversion.Scheme.ConvertTo | conversion/scheme.go:52-59 | The result equals ConvertToSpec: ready check, broadcast validation, panic on count 0, then broadcast. |
| Conversion.Scheme.ConvertChain | conversion/scheme.go:61-68 | The result equals ConvertChainSpec: ready check, broadcast validation (as written), panic on count 0, then the chain. |
| Conversion.GetLastNonFunc | conversion/scheme.go:156-165 | The scan from the end gives the last value. |
| Conversion.Build | conversion/conversion.go:3-10 | A fresh scheme gets every registration in order and is then ready. The only panic is a bad shape, which is exactly the first bad shape of the registrations. No registration is too late. |
| Conversion.RegisterEach | conversion/conversion.go:5-7 | One registration function's calls, in order, on a scheme that is not ready. |
| Conversion.BindStops | conversion/conversion.go:5-7 | A panic during one registration function is the panic of the whole Build. |
| Conversion.FlattenSplit | conversion/conversion.go:5-7 | The calls of all functions are those before, of, and after function i. |
| Conversion.BindErrPersists | conversion/conversion.go:5-7 | Nothing runs after the first panic. |
| SchemeProps.BroadcastValidation | conversion/scheme.go:167-183 | Broadcast validates exactly when there is a value and every value, the last included, has a function into the last. The count is then the number of values and the first pair is (first, last). |
| SchemeProps.BroadcastNeedsSelfPair | conversion/scheme.go:167-183 | Without a function from the last value into itself, broadcast never validates. |
| SchemeProps.ChainValidation | conversion/scheme.go:185-206 | The chain validates exactly when there are two or more values and each has a function into the next. The count is then the number of links and the first pair is the first two values. |
| SchemeProps.ValuesTail | conversion/scheme.go:112-154 | The values of a list are its head (unless a function) and the values of its tail. |
| SchemeProps.ExecToNoPanic | conversion/scheme.go:112-132 | When every value has a function into the last, broadcast execution never panics. |
| SchemeProps.ExecToStep | conversion/scheme.go:112-132 | One item more does not make broadcast panic when its pair is registered. |
| SchemeProps.BroadcastValidatedRuns | conversion/scheme.go:52-59 | After a successful broadcast validation, execution never panics. |
| SchemeProps.LinkedTail | conversion/scheme.go:134-154 | A linked chain stays linked without its head. |
| SchemeProps.LinkedStep | conversion/scheme.go:134-154 | In a linked chain the previous value has a function into the next. |
| SchemeProps.ExecChainNoPanic | conversion/scheme.go:134-154 | When every link is registered, chain execution never panics. |
| SchemeProps.ChainValidatedRuns | conversion/scheme.go:134-154 | After a successful chain validation, chain execution never panics. |
| SchemeProps.ThenKeepsStop | conversion/scheme.go:112-154 | A successful call before a run keeps its stop-at-first-error shape. |
| SchemeProps.ExecToStopsAtFirstError | conversion/scheme.go:112-132 | Broadcast stops at the first error, of a `func() error` item or a conversion, and returns it unchanged. Nothing is called after it. |
| SchemeProps.ExecChainStopsAtFirstError | conversion/scheme.go:134-154 | The chain stops at the first error and returns it unchanged. |
| SchemeProps.ConversionsThen | conversion/scheme.go:112-154 | The calls of a prefixed run are the prefix's, then the run's. |
| SchemeProps.BroadcastOrder | conversion/scheme.go:112-132 | A successful broadcast converts each value into the last, left to right, and calls every function item in order. |
| SchemeProps.ChainPairsCons | conversion/scheme.go:185-206 | The links of a longer chain are the first link, then the rest. |
| SchemeProps.ChainOrder | conversion/scheme.go:134-154 | A successful chain converts each value into the next, left to right, and calls every function item in order. |
| SchemeProps.NotReadyPanics | conversion/scheme.go:39-43 | Convert, ConvertTo and ConvertChain panic "not ready" before the scheme is ready, calling nothing. |
| SchemeProps.ConvertPair | conversion/scheme.go:77-84 | With two items, Convert calls the one registered function and returns its result unchanged; a missing function panics, and so do two types with no key (the invalid-pair panic of getTypePair). |
| SchemeProps.ConvertDispatch | conversion/scheme.go:86-109 | Other lengths: neither rule gives a no-conversion panic and both over several pairs an ambiguous one. Otherwise the chain runs when it validates, else broadcast, and neither panics. |
| SchemeProps.ConvertChainValidatedRuns | conversion/scheme.go:61-68 | The corrected ConvertChain runs exactly the chains whose every link is registered, without panic; otherwise it panics before any call. |
| SchemeProps.BindLaterWins | conversion/conversion.go:5-7 | When two registrations bind the same pair, the later one wins. |
| SchemeProps.BindLeavesOthers | conversion/scheme.go:36 | A pair no registration binds keeps its entry. |
| SchemeProps.RegisterAfterBuild | conversion/conversion.go:8 | Any Register on a scheme returned by Build panics "register too late". |
| SchemeScenarios.ValuesOfThree | conversion/scheme.go:156-165 | Three values are all values, and the last is the third. |
| SchemeScenarios.ThreeWithoutSelfPairChains | conversion/scheme.go:86-109 | a→b, b→c and a→c without c→c: Convert chains, without panic. |
| SchemeScenarios.ChainLinks | conversion/scheme.go:185-206 | With a→b and b→c registered, the chain validates with count 2 and first pair (a, b). |
| SchemeScenarios.ThreeWithSelfPairIsAmbiguous | conversion/scheme.go:98-100 | Adding c→c makes both rules validate over several pairs, so Convert panics as ambiguous. |
| SchemeScenarios.ConvertChainRefusesRegisteredChain | conversion/scheme.go:61-68 | As written, ConvertChain refuses a chain whose links a→b, b→c are all registered. |
| SchemeScenarios.ConvertChainCallsMissingLink | conversion/scheme.go:61-68 | As written, with a→c, b→c and c→c registered, ConvertChain(a, b, c) passes validation and then calls the unregistered a→b (a nil function). |
| SchemeScenarios.ConvertChainValidatedAccepts | conversion/scheme.go:61-68 | The corrected ConvertChain runs the registered chain without panic. |
| SchemeScenarios.ConvertChainValidatedRejects | conversion/scheme.go:61-68 | The corrected ConvertChain refuses the chain with a missing link before calling anything. |

## Left out

- cmd/ggen-convert/ggen.go: command-line plumbing.
- plugin/template.tpl.go and every template execution, generateComments, `w`, includeBaseConversion and includeCustomConversion: these produce text. The model stops at the strategy chosen for each field (Render.Strategy). The generated expression strings are not built, including the `Convert_A_B` names, the printer's package aliases and `plural`.
- renderZero, renderFieldName and renderLastComment: renderZero is unused because its callers are commented out, and the other two only read values.
- The ggen engine and the go/types and go/packages calls (package lookup, objects, directives, the printer): replaced by the GoTypes datatypes and by sequences of candidates and directives given as parameters.
- preparePackage, generatePackageStep, parseDirectives and generateConverts: they drive the engine. generatePackageStep never fills a step's package lists (plugin/plugin.go:280-384). Table.EmptyStepsClaimNothing states what follows from that.
- Logging (`ll`), and the concurrent use of a ready scheme.
- reflect in conversion/scheme.go: types are RType values. Argument identity is an Item value (an address and a type). The bodies of registered functions are opaque; a Runner parameter gives their results.
- Panics are not Go panics. Each is an outcome value (Fault, or Panicked in a Run); the panic message text is not modelled.
- Render.BasicOf: checkBasicType's unwrapping loop is one Underlying step, because go/types never gives a named type as an underlying type.
- Ordering.CollectSelected: Go's map iteration order is an arbitrary choice (`:|`). Only the multiset of the objects it yields is stated.
- Ordering.SortObjects: an insertion sort stands in for sort.Slice. Only the result is stated (sorted, a permutation), which is all the source relies on.
- Ordering.PrepareListObject: an object map's key is taken to be the object itself, as generatePackageStep builds it.
- Strs: strings.TrimSpace trims ASCII white space only. Strings are compared by code point; on valid UTF-8 this is the byte order of Go's `<`, and a Dafny string cannot hold invalid UTF-8, where the two differ.
- Fields: a struct field is compared by value where the source compares `*types.Var` pointers. Fields of one struct with equal name, type and embedding are not distinguished.
- GoTypes.Same: type identity is `==` on types.Type values. Named types compare by declaration and basic types by their object, so `byte` and `rune` differ from `uint8` and `int32` although `Kind()` gives the same kind for them (GoTypes.KindOf); pointer, slice and struct literals are never equal to another type.
- validateStruct's error for a type that is not a struct is not modelled. The functions that need a struct require GoTypes.IsStruct instead.

## Findings

| source | as written | input that shows it | evidently intended | confidence | as-written member | corrected member |
|---|---|---|---|---|---|---|
| conversion/scheme.go:63 | ConvertChain validates its arguments with the broadcast rule (validateConvertTo), then executes them as a chain | Registered a→b and b→c, called with (a, b, c): refused although every link exists. Registered a→c, b→c and c→c: accepted, then the missing a→b is looked up and a nil function is called | validate with the chain rule (validateConvertChain) | not executed | SchemeScenarios.ConvertChainRefusesRegisteredChain, SchemeScenarios.ConvertChainCallsMissingLink | SchemeSpec.ConvertChainValidated, with SchemeProps.ConvertChainValidatedRuns, SchemeScenarios.ConvertChainValidatedAccepts and SchemeScenarios.ConvertChainValidatedRejects |
