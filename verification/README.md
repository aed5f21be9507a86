# Verified model of the jso library

jso is a JSON library in C: values, a parser and an encoder, JSON Pointer, and a streaming
JSON Schema validator. This project models its algorithms in Dafny and proves what they
promise. Two cores are modelled in layers.

**The streaming schema validator** (`src/schema`). An instance arrives as events. The validator
keeps one flat stack of positions, cut into layers by sentinels; a forward pass over a layer pushes
the composition children of every position behind it, and a backward pass pushes results up through
parent links and flags.

- `Schemas.dfy` says what a compiled Draft 4 schema means (`Accepts`), without positions or events, with
  numbers and strings read as the library reads them.
- `Verdicts.dfy` is a recursive function, `Verdict`, that says what the machine computes, on every
  schema and every instance.
- `ValidationStack.dfy` to `ValidationStream.dfy` are the imperative machine; `Validation.dfy` drives it
  with the events of an instance. Every position that was on the top layer ends with its verdict, and
  the layers below are as they were except for parents that fail rightly.
- `Judgements.dfy` takes flags and order away: it gives the verdict on any schema by the verdicts on its
  parts, nested without limit.
- `Meaning.dfy` proves that the verdict is the meaning: for all array-free instances, and for all
  instances when no position that is applied to an array has `anyOf`, `oneOf`, `not` or `$ref`.
- `ArrayStarts.dfy` treats the rest. At the start of an array the four keywords are judged before any
  item has been seen, and what is judged then is kept. For any schema with whatever other keywords, over
  supported subschemas, it says what the validator answers on an array and exactly when that is the
  meaning; the keywords alone are special cases. `WrongOnArrays` gives an instance for each.
- `SchemaParser.dfy` splits untyped and type-list schemas into virtual typed subschemas. The compiled schema
  means what the document means, and the validator computes for it what the document gives when it is read
  as the validator judges arrays (`Meets` with the readings `Library` and `Streamed`).
- `StreamedMeaning.dfy` says when those two readings give the same. `Readings.dfy` and `StandardMeaning.dfy`
  say where Draft 4 reads values otherwise and when that makes no difference. `StandardDocuments.dfy`
  says which Draft 4 documents parse, and which others.
- `Validation.ParseAndValidate` puts all of this together: it gives the result for every document and every
  instance.
- `TypeKeywords.dfy` says the `type` keyword and lists of distinct names once more, name by name.
- `BreadthFirst.dfy` describes the order of an expanded layer.

**Binary to decimal conversion** (`src/jso_dg_dtoa.c`, 32-bit words with a 64-bit accumulator).
`Words.dfy` gives word sequences their value; `Bigint.dfy`, `BigintShifts.dfy`, `PowersOfFive.dfy` and
`QuotientStep.dfy` are the multi-word operations over arrays; `DigitGeneration.dfy` has the two digit
loops, proved against `Decimals.dfy`: the shortest digits in a rounding interval and the closest among
them, and rounding to a number of digits with ties to even. `DoubleDigits.dfy` shows that doubles always
get the closest of the shortest, and that these are read back as the same double.

Smaller cores stand alone: the hash table (`HashTable.dfy`), structural equality
(`ValueEquality.dfy`), the linked array (`LinkedArray.dfy`), the encoder with a reader of RFC 8259 text
(`Encoder.dfy`, `JsonText.dfy`, `StrictText.dfy`, `NumberText.dfy`; `TextLayout.dfy` says what the text looks
like, apart from the functions that write it), the builder (`Builder.dfy`) and JSON Pointer
(`JsonPointer.dfy`; `PointerMeaning.dfy` says what pointers mean by replacement, form and path, and
`PointerIndices.dfy` what RFC 6901 makes of them).

Conventions: pointers into arrays are indices. The program keeps raw `parent` and `last_separator`
pointers while `jso_realloc` may move the stack (`src/schema/jso_schema_validation_stack.c:60-78`), so
once the stack has grown the theorems speak of the positions at those indices and not of what the old
pointers point to. Doubles are real numbers without NaN; an integer is a number written without fraction
and exponent, a double any other. A character of a string stands for one byte. Regular
expressions are functions from strings to booleans. Shifts and masks of machine words are written with
division, remainder and multiplication, and `|` of disjoint bits as addition. `dafny verify dfyconfig.toml`
checks the project.

Where code and documentation differ, the model follows the code:

- `array_start` judges `$ref`, `not`, `anyOf` and `oneOf` before any item has been seen
  (`ArrayStarts.RightOnArray` says when that is harmless).
- Integers and doubles of the same value are different for `enum` and `uniqueItems`; Draft 4 compares
  numbers by value (`Readings.EnumAgrees`, `Readings.UniqueAgrees`).
- A double without a fraction, such as 1.0, is an integer; for Draft 4 a number written with a fraction
  is none (`StandardMeanings.TypeAgrees`).
- `minLength` and `maxLength` count bytes; Draft 4 counts characters (`Readings.LengthAgrees`).
- The parser takes only integers for `multipleOf`, so that it refuses `{"multipleOf": 0.5}`, and it parses
  the bounds of an untyped schema for integers too, so that it refuses `{"minimum": 1.5}` without a `type`.
  Draft 4 allows both (`StandardDocuments.DocumentsParse`).
- The parser takes `{"enum": []}` and, because it compares by its own equality, `{"enum": [1, 1.0]}`, and it
  does not look at the keywords of types that a document does not ask for. Draft 4 wants `enum` nonempty
  and unique and all keywords in order (`StandardDocuments.ParsedAreDocuments`). What Draft 4 wants is
  taken from section 5 of its validation document; the meta-schema also asks for nonempty `type` and `items`
  arrays.
- In a JSON Pointer `strtol` reads the index of an array item. RFC 6901 allows "0" and digits without a
  leading zero. The library also takes the empty token (item 0), leading white space (" 1"), a sign ("+1",
  "-0") and leading zeros ("01"), and clamps what does not fit a `long`, which no array in memory reaches
  (`PointerIndices.DeviatingTokens`, `PointerIndices.ResolvesAsRfc`).
- The encoder copies control characters without a short escape into strings; RFC 8259 does not allow
  them there (`StrictTexts.StrictReadBack`).
- In the shortest digits the comparison of a remainder without words against a zero difference reports
  "less".

The digit loop on its own, from arbitrary integers, has one case in which it does not choose the closest
decimal of its length: a quotient between 9 and 9.5 whose interval ends exactly at 10 is rounded to 10 even
when 9 is in the interval (`AwkwardNine`; `DoubleDigits.AwkwardExample`). No double leads there
(`DoubleDigits.NeverAwkward`).

## Model

| member | source | states |
|---|---|---|
| Validation.ParseAndValidate | src/schema/jso_schema_validation.c:77-95 | For every document and instance: a result exactly when the document parses, valid exactly when the instance meets the document with arrays judged at their start; that is the meaning of the document where the start judges rightly, in particular without arrays, without the four keywords, or when none of them meets an array, and then the meaning of Draft 4 where no value is read otherwise |
| Validation.Validate | src/schema/jso_schema_validation.c:77-95 | The result on a fresh stream is the verdict of the schema, and the Draft 4 meaning whenever schema and instance are supported |
| Validation.ValidateInstance | src/schema/jso_schema_validation.c:27-75 | Driving one value through the machine removes exactly the top layer, leaves every position of it with its verdict, and of the positions below keeps schema, parent and type; one changes there only by failing, and only for a rejecting position pushed on its behalf |
| Validation.ValidateArray | src/schema/jso_schema_validation.c:31-49 | After start and all items every position of the layer is at the stage that has seen all items |
| Validation.ValidateObject | src/schema/jso_schema_validation.c:50-72 | After start and all members every position of the layer is at the stage that has seen all members |
| Meaning.VerdictIsMeaning | src/schema/jso_schema_validation_result.c:30-112 | For every compiled schema and supported instance, flags, skipped siblings, final results and reverse order give exactly the recursive meaning |
| Meaning.ArrayFreeIsSupported | src/schema/jso_schema_validation_stream.c:59-83 | Without arrays every schema is supported, all compositions included |
| Meaning.StraightIsSupported | src/schema/jso_schema_validation_stream.c:135-184 | A schema without `anyOf`, `oneOf`, `not` and `$ref` is supported on every instance, arrays and objects nested without limit |
| Judgements.VerdictByParts | src/schema/jso_schema_validation_stream.c:135-184 | The verdict on any compiled schema and instance by the verdicts on its parts, nested without limit: all other keywords hold, and the four keywords by the parts in the end or, on arrays, by what does not fail at the start |
| Judgements.EarlyByParts | src/schema/jso_schema_validation_stream.c:143-161 | A schema is ruled out at the start of an array by its type, an `allOf` entry that is, a `not` that is not, or two `oneOf` entries that are not |
| Judgements.CompositionsByParts | src/schema/jso_schema_validation_common.c:36-64 | Reading `any_of_valid`, `one_of_valid` and `type_valid` at the end decides all composition keywords of a schema at once |
| Judgements.OnesMeans | src/schema/jso_schema_validation_result.c:83-96 | The count of accepting `oneOf` children stays at the base when none accepts and is one above it exactly when one does |
| Judgements.OwnByParts | src/schema/jso_schema_validation_value.c:45-73 | The schema's own keywords hold as judged by running counts exactly when they hold of the complete value |
| ArrayStarts.JudgedOnArray | src/schema/jso_schema_validation_stream.c:157-161 | What the validator answers for any schema on an array, whatever keywords it combines: all others hold, and the four keywords by their counts at the start and at the end |
| ArrayStarts.RightOnArray | src/schema/jso_schema_validation_stream.c:157-161 | That answer is right exactly when another keyword fails anyway or the judgement at the start and the meaning of the four keywords come out the same |
| Judgements.AnyByParts | src/schema/jso_schema_validation_result.c:78-82 | `any_of_valid` is set in the end exactly when an alternative accepts or, on arrays, does not fail at the start |
| Judgements.OnesByParts | src/schema/jso_schema_validation_result.c:83-96 | The count of `oneOf` is one in the end exactly when one alternative accepts or, on arrays, when one does not fail at the start and none accepts |
| ArrayStarts.RefOnArray | src/schema/jso_schema_validation_stream.c:157-161 | On an array `$ref` is accepted exactly when its target does not fail at the start; that is right exactly when such a target then accepts the array |
| ArrayStarts.NotOnArray | src/schema/jso_schema_validation_stream.c:157-161 | On an array `not` is accepted exactly when its schema fails at the start, and when that is right |
| ArrayStarts.AnyOfOnArray | src/schema/jso_schema_validation_stream.c:157-161 | On an array `anyOf` is accepted exactly when some alternative does not fail at the start, and when that is right |
| ArrayStarts.OneOfOnArray | src/schema/jso_schema_validation_stream.c:157-161 | On an array `oneOf` is accepted exactly when one alternative does not fail at the start and none accepts in the end, and when that is right |
| ArrayStarts.WrongOnArrays | src/schema/jso_schema_validation_stream.c:157-161 | The array [0] and the schema of string arrays make each of the four keywords answer wrongly |
| Verdicts.NotEarlyRejects | src/schema/jso_schema_validation_stream.c:157-161 | What is ruled out at the start of an array is never accepted at its end |
| Verdicts.UnsoundFromStart | src/schema/jso_schema_validation_result.c:36-38 | Once a child's report rules a schema out, no later report changes that |
| BreadthFirstLayers.LayerIsBreadthFirst | src/schema/jso_schema_validation_composition.c:77-143 | An expanded layer is exactly the breadth-first traversal of the composition trees of its starting positions, each visited once, every parent below its children |
| ValidationCompositions.WeightDrops | src/schema/jso_schema_validation_stack.c:175-187 | The pass that pushes while it iterates ends: a visited position weighs more than the children it is replaced by |
| ValidationCompositions.CompositionPush | src/schema/jso_schema_validation_composition.c:77-143 | Exactly the children of the position are pushed, in keyword order, a reference keeping all others away |
| ValidationCompositions.ExpandNext | src/schema/jso_schema_validation_composition.c:77-143 | Expanding the next position keeps the layer a flattened forest with consecutive blocks of children |
| ValidationResults.Propagate | src/schema/jso_schema_validation_result.c:30-112 | The new stack after a result is reported: which fields of parent and child change, for each composition, and nothing behind a final parent |
| ValidationResults.Report | src/schema/jso_schema_validation_result.c:30-112 | A report keeps the parent's flags equal to the tally of all reports so far, also when the child was skipped because `anyOf` is satisfied |
| ValidationResults.EarlyReport | src/schema/jso_schema_validation_result.c:30-112 | The same at the start of an array, where no item has been seen |
| ValidationStacks.ValidationStack.PushBasic | src/schema/jso_schema_validation_stack.c:90-107 | The new top position, the kept positions below, the layer invariant across growth |
| ValidationStacks.ValidationStack.PushComposed | src/schema/jso_schema_validation_stack.c:109-129 | The same for a composition child with its parent index |
| ValidationStacks.ValidationStack.PushSeparator | src/schema/jso_schema_validation_stack.c:131-146 | A sentinel chained to the previous one; depth grows by one |
| ValidationStacks.ValidationStack.LayerRemove | src/schema/jso_schema_validation_stack.c:212-221 | Size, depth and last separator are those of the enclosing layer |
| ValidationStacks.ValidationStack.ResizeIfNeeded | src/schema/jso_schema_validation_stack.c:60-78 | Growth keeps all positions |
| ValidationStacks.ValidationStack.IteratorNext | src/schema/jso_schema_validation_stack.c:175-187 | The forward iterator stops at the end of the stack and at a sentinel |
| ValidationStacks.ValidationStack.ReverseIteratorNext | src/schema/jso_schema_validation_stack.c:197-210 | The backward iterator visits the positions of the layer and stops at its start |
| ValidationStreams.ObjectStart | src/schema/jso_schema_validation_stream.c:59-83 | The layer is expanded and every position is at the stage before the first member |
| ValidationStreams.ObjectKey | src/schema/jso_schema_validation_stream.c:85-118 | A new layer holds exactly the subschemas that active positions apply to the member; positions that do not admit it have failed |
| ValidationStreams.ArrayStart | src/schema/jso_schema_validation_stream.c:135-184 | The layer is expanded, the early judgement has been propagated exactly, and a new layer holds the schemas of the first item |
| ValidationStreams.ArrayAppend | src/schema/jso_schema_validation_stream.c:186-217 | After an item the layer has advanced by one stage and the layer above holds the schemas of the next item |
| ValidationStreams.ArrayEnd | src/schema/jso_schema_validation_stream.c:219-225 | The layer above the array's layer is dropped |
| ValidationStreams.Value | src/schema/jso_schema_validation_stream.c:227-279 | Judging a value from the last position down leaves every starting position with its verdict and removes the layer |
| ValidationObjects.ObjectKey | src/schema/jso_schema_validation_object.c:37-182 | Pushes exactly the subschemas that govern the key, or fails when the key is forbidden or one too many |
| ValidationObjects.ObjectValue | src/schema/jso_schema_validation_object.c:209-276 | `minProperties` and `required` of the complete object |
| ValidationArrays.ArrayStart | src/schema/jso_schema_validation_array.c:59-83 | Pushes the schema of the first item |
| ValidationArrays.ArrayAppend | src/schema/jso_schema_validation_array.c:85-137 | Fails when the item is one too many or an extra one, else pushes the schema of the next item |
| ValidationArrays.ArrayValue | src/schema/jso_schema_validation_array.c:139-168 | `minItems` and `uniqueItems` of the complete array |
| ValidationValues.CommonValue | src/schema/jso_schema_validation_common.c:31-96 | Valid exactly when the flags satisfy the composition keywords and the value is enumerated |
| ValidationValues.ValidateValue | src/schema/jso_schema_validation_value.c:45-73 | Valid exactly when flags, enumeration, type and the keywords checked at the end all hold; a type reason exactly on another type |
| SchemaParsers.ParseValue | src/schema/jso_schema_value_parser.c:320-384 | Parses exactly the documents whose keywords of the parsed types are in order; then the compiled schema accepts exactly the instances that meet the document, and the validator's verdict on it is the document's with arrays judged at their start |
| SchemaParsers.ParseMixedType | src/schema/jso_schema_value_parser.c:266-304 | Splitting an untyped schema into the seven types, with empty ones dropped, preserves meaning |
| SchemaParsers.ParseTypeList | src/schema/jso_schema_value_parser.c:336-384 | Splitting a type list preserves meaning; names must be known and distinct |
| TypeKeywords.SingleTypeMeans | src/schema/jso_schema_value_parser.c:208-258 | A single type name accepts exactly the values that fit it, name by name for the seven, and no value for any other name |
| TypeKeywords.TypeListMeans | src/schema/jso_schema_value_parser.c:336-384 | A list of type names accepts exactly the values that fit one of its names |
| TypeKeywords.ArrayName | src/schema/jso_schema_validation_stream.c:143-161 | The start of an array leaves exactly the single name "array" open |
| TypeKeywords.SingleTypeParses | src/schema/jso_schema_value_parser.c:208-258 | A document with a single type parses exactly when the name is one of the seven |
| TypeKeywords.TypeListParses | src/schema/jso_schema_value_parser.c:336-384 | A document with a type list parses exactly when all names are among the seven and none is listed more than once |
| TypeKeywords.RequiredParses | src/schema/jso_schema_value_parser.c:173-206 | A document with `required` parses exactly when the list is not empty and lists no name more than once |
| TypeKeywords.RequiredMeans | src/schema/jso_schema_validation_object.c:260-272 | `required` accepts exactly the objects with a member under each of its names |
| SchemaParsers.ParseType | src/schema/jso_schema_value_parser.c:41-216 | The data of one type mean its keywords, and an empty value restricts no instance of its type |
| SchemaParsers.ParseArray | src/schema/jso_schema_value_parser.c:147-171 | `items`, `additionalItems` and the counts, with their subschemas parsed |
| SchemaParsers.ParseObject | src/schema/jso_schema_value_parser.c:173-206 | Properties, patterns and additional properties with their subschemas; `required` nonempty and unique |
| SchemaParsers.ParseCommon | src/schema/jso_schema_value_init.c:100-110 | `enum` unique, nonempty `allOf`, `anyOf` and `oneOf`, and `not` |
| SchemaParsers.CoversMeans | src/schema/jso_schema_value_parser.c:282-295 | The typed subschemas that apply to an instance accept it exactly when it meets the keywords of its own type |
| SchemaParsers.ListMeans | src/schema/jso_schema_validation_result.c:60-72 | For a type list: some listed type applies and the applicable ones accept exactly when the type is listed and the keywords are met |
| StreamedMeanings.StreamedIsMeant | src/schema/jso_schema_validation_stream.c:157-161 | Where the judgement at the start of every array that a document is applied to comes out as the keywords mean, the validator answers with the meaning of the document |
| StreamedMeanings.SupportedIsRight | src/schema/jso_schema_validation_stream.c:157-161 | That is so when no document with `anyOf`, `oneOf`, `not` or `$ref` is applied to an array |
| StreamedMeanings.ArrayFreeIsSupportedRaw | src/schema/jso_schema_validation_stream.c:59-83 | It is so without arrays, for every document |
| StreamedMeanings.StraightIsSupportedRaw | src/schema/jso_schema_validation_stream.c:135-184 | It is so for documents without the four keywords, on every instance |
| StandardDocuments.DocumentsParse | src/schema/jso_schema_value_parser.c:51-121 | A Draft 4 document parses exactly when no `multipleOf` that is parsed has a fraction and no bound that is parsed for integers has one, at any depth |
| StandardDocuments.ParsedAreDocuments | src/schema/jso_schema_value_init.c:100-110 | A document that parses is one of Draft 4 exactly when its enumerations are nonempty and free of doubled numbers and the keywords that the parser passes over are in order |
| StandardDocuments.ParsesByParts | src/schema/jso_schema_value_parser.c:320-384 | What parses, keyword by keyword |
| StandardDocuments.FractionRefused | src/schema/jso_schema_keyword_scalar.c:107-118 | `{"multipleOf": 0.5}` is refused |
| StandardDocuments.UntypedBoundRefused | src/schema/jso_schema_value_parser.c:61-62 | `{"minimum": 1.5}` is refused, with the type number it is not |
| StandardDocuments.EmptyEnumTaken | src/schema/jso_schema_value_init.c:100-101 | `{"enum": []}` is taken |
| StandardDocuments.DoubledEnumTaken | src/schema/jso_schema_value_init.c:100-101 | `{"enum": [1, 1.0]}` is taken |
| StandardDocuments.OtherTypeTaken | src/schema/jso_schema_value_parser.c:336-343 | `{"type": "string", "multipleOf": 0}` is taken |
| Multiples.WholeQuotient | src/schema/jso_schema_validation_scalar.c:160-168 | Having no remainder by an integer is having a whole quotient, the form of the `multipleOf` rule |
| Multiples.IntegralMeans | src/schema/jso_schema_validation_scalar.c:66-79 | The test for a double without a fraction finds exactly the reals that are the value of some integer |
| Readings.EqualsIsSame | src/jso_value.c:119-143 | The library finds two values equal exactly when Draft 4 does and no integer meets a double in matching places |
| Readings.EnumAgrees | src/schema/jso_schema_validation_common.c:66-84 | `enum` decides as in Draft 4 exactly when an equal element is listed or none is mistaken for a different one |
| Readings.UniqueAgrees | src/jso_array.c:196-211 | `uniqueItems` decides as in Draft 4 exactly when two items are equal anyway or no pair is mistaken for different ones |
| Readings.LengthAgrees | src/schema/jso_schema_validation_string.c:38-57 | The length keywords decide as in Draft 4 exactly when no bound between bytes and characters decides |
| Readings.BytesAreCharacters | src/schema/jso_schema_validation_string.c:38-57 | Both lengths are the same exactly when no byte continues a character |
| StandardMeanings.TypeAgrees | src/schema/jso_schema_validation_scalar.c:66-79 | `type` decides as in Draft 4 exactly when no double without a fraction meets a type that asks for integers and not for numbers |
| StandardMeanings.MeetsAsDraft4 | src/schema/jso_schema_value_parser.c:320-384 | Where no keyword of a document reads a value otherwise, at any depth, the document means what it means in Draft 4 |
| StandardMeanings.EnumDeparts | src/jso_value.c:121-123 | 1.0 is not the listed 1 |
| StandardMeanings.IntegerDeparts | src/schema/jso_schema_validation_scalar.c:68-75 | 1.0 is an integer |
| StandardMeanings.UniqueDeparts | src/jso_value.c:121-123 | 1 and 1.0 are different items |
| StandardMeanings.LengthDeparts | src/schema/jso_schema_validation_string.c:48-57 | A character of two bytes is longer than one |
| SchemaParsers.MemberMeans | src/schema/jso_schema_validation_object.c:60-181 | The governing subschemas of a member and the extra-member rule say what the three property keywords say |
| Bigints.Multadd | src/jso_dg_dtoa.c:622-676 | The value is multiplied and added to, over the next size class when the carry needs room; nonzero results stay normalised |
| Bigints.MultaddNext | src/jso_dg_dtoa.c:645-664 | One word step keeps value plus weighted carry exact and fits 64 bits |
| Bigints.S2b | src/jso_dg_dtoa.c:679-714 | The number whose decimal text is the digit string without its point, of whatever width, behind the first digits |
| Bigints.DecimalMeans | src/jso_dg_dtoa.c:703-712 | Reading digit by digit across the point comes to the number that the digits without the point are the decimal text of |
| Bigints.I2b | src/jso_dg_dtoa.c:799-813 | A one-word number |
| Bigints.Increment | src/jso_dg_dtoa.c:1664-1691 | The successor, carried through full words and into a new one |
| Bigints.Successor | src/jso_dg_dtoa.c:1674-1680 | Clearing full words and raising the next one adds one |
| Bigints.Cmp | src/jso_dg_dtoa.c:1044-1075 | The sign is the order of the values; a number without words is below all with words |
| Bigints.FirstDifference | src/jso_dg_dtoa.c:1068-1074 | The topmost different word decides the order |
| Bigints.Diff | src/jso_dg_dtoa.c:1078-1169 | Absolute difference and its sign, normalised |
| Bigints.MinusNext | src/jso_dg_dtoa.c:1123-1133 | One word step of the subtraction in wrapping 64-bit arithmetic keeps the difference exact up to a weighted borrow |
| Bigints.Mult | src/jso_dg_dtoa.c:815-922 | The exact product of any two numbers, also of a number with itself, in a size class that holds all words |
| Bigints.MultFits | src/jso_dg_dtoa.c:860-863 | Each inner step fits 64 bits |
| Bigints.RowNext | src/jso_dg_dtoa.c:853-867 | One inner step keeps the partial product exact up to a weighted carry |
| Bigints.ProductFits | src/jso_dg_dtoa.c:840-845 | The chosen size class holds all words of the product |
| PowersOfFive.Pow5mult | src/jso_dg_dtoa.c:927-981 | The product with five to the k for every k; the cache only grows and every node keeps its power, so earlier calls do not matter |
| PowersOfFive.EnsureNode | src/jso_dg_dtoa.c:940-978 | Node j of the cache holds five to the power 4 times 2 to the j |
| PowersOfFive.Halve | src/jso_dg_dtoa.c:957-979 | A bit of the exponent accounts for one node and the rest for the later ones |
| BigintShifts.Hi0bits | src/jso_dg_dtoa.c:717-748 | The number of leading zero bits of a word |
| BigintShifts.Lshift | src/jso_dg_dtoa.c:984-1041 | The value times a power of two, normalised when nonzero, in a size class with room |
| BigintShifts.LshiftNext | src/jso_dg_dtoa.c:1013-1018 | One shifted word keeps the partial value exact |
| BigintShifts.Rshift | src/jso_dg_dtoa.c:1699-1728 | The value divided by a power of two, rounded down, in place and normalised |
| BigintShifts.RshiftNext | src/jso_dg_dtoa.c:1715-1718 | One shifted word keeps the partial quotient exact |
| BigintShifts.AnyOn | src/jso_dg_dtoa.c:1732-1758 | Whether the remainder by a power of two is nonzero |
| BigintShifts.Dshift | src/jso_dg_dtoa.c:2131-2140 | The shift that, with the one already due, brings the number between two bounds that leave four leading zero bits in its top word |
| QuotientSteps.Quorem | src/jso_dg_dtoa.c:2143-2264 | The exact quotient digit, the remainder left in place and normalised |
| QuotientSteps.Estimate | src/jso_dg_dtoa.c:2168-2172 | The top-word estimate is never too big and at most one too small |
| QuotientSteps.TakeNext | src/jso_dg_dtoa.c:2186-2192 | One word step of the multiply-and-subtract pass is exact up to a weighted borrow and carry |
| QuotientSteps.TakeEnds | src/jso_dg_dtoa.c:2183-2213 | Neither pass ends with a borrow or a carry |
| QuotientSteps.DropZeros | src/jso_dg_dtoa.c:2214-2219 | Leading zero words are dropped; zero may be left without words |
| DigitGeneration.ShortestDigits | src/jso_dg_dtoa.c:4222-4309 | The loop of mode 0 ends with a decimal in the rounding interval, none with fewer digits is in it, it is the closest of its length in it if and only if the operands are not in the one awkward case, the last digit is not zero, and the exponent grows only for a rounded 9 as first digit |
| DigitGeneration.Decide | src/jso_dg_dtoa.c:4223-4298 | One pass: digit and remainder, and why the pass ends, in terms of the remainder and the distances to the ends |
| DigitGeneration.RulesOut | src/jso_dg_dtoa.c:4298-4307 | Going on means that no decimal with the digits so far is in the interval |
| DigitGeneration.NineIsFirst | src/jso_dg_dtoa.c:4286-4291 | Rounding up a 9 happens on the first digit only |
| DigitGeneration.FixedDigits | src/jso_dg_dtoa.c:4310-4355 | The quotient rounded to the given number of digits, ties to even, without trailing zeros, the exponent raised exactly when the rounded number is the next power of ten |
| DigitGeneration.Roundoff | src/jso_dg_dtoa.c:4340-4348 | One unit is added to the last digit; only nines become a one with a raised exponent |
| DigitGeneration.TrimZeros | src/jso_dg_dtoa.c:4349-4355 | Trailing zeros are dropped and nothing else |
| DigitGeneration.RoundedBy | src/jso_dg_dtoa.c:4332-4339 | Comparing twice the remainder, with the last digit on a tie, is rounding half to even |
| Decimals.HalfEvenIsNearest | src/jso_dg_dtoa.c:4332-4339 | What half-even rounding gives is at least as near as any other integer, and is even when another one is as near |
| DigitGeneration.ScaleOperands | src/jso_dg_dtoa.c:4171-4185 | After scaling the divisor has four leading zero bits and both operands have grown by the same extra power of two |
| DigitGeneration.ClosestDigit | src/jso_dg_dtoa.c:4277-4296 | The neighbour that twice the remainder points to is the closest decimal of the interval |
| DoubleDigits.NeverAwkward | src/jso_dg_dtoa.c:4110-4220 | Operands made from a double are never in the awkward case |
| DoubleDigits.DoublesGetTheClosest | src/jso_dg_dtoa.c:4222-4309 | The shortest digits of a double are the closest decimal of their length in the rounding interval |
| DoubleDigits.ShortestReadsBack | src/jso_dg_dtoa.c:3690-3691 | The shortest digits of a double are read back as this double when rounding to the nearest, ties to even, and no decimal with fewer digits is, whatever its magnitude |
| DoubleDigits.AwkwardExample | src/jso_dg_dtoa.c:4237-4247 | 37/4 in the interval from 9 to 10 becomes 10, which is not the closest |
| Decimals.ClosestOfItsLength | src/jso_dg_dtoa.c:4222-4309 | The closest among decimals with as many fraction digits is the closest among all with as many significant digits |
| Decimals.IntervalMeans | src/jso_dg_dtoa.c:3690-3691 | A decimal is in the rounding interval exactly when the number between its neighbours is nearer to it than every other, or as near and even |
| Decimals.FewerDigitsMiss | src/jso_dg_dtoa.c:4222-4309 | No decimal of any magnitude with fewer significant digits is in the interval |
| HashTables.HashTable.Set | src/jso_ht.c:156-183 | The table refines an insertion-ordered map: a known key keeps its place and gets the value, a new key goes to the end; the load stays within three quarters |
| HashTables.HashTable.Get | src/jso_ht.c:185-198 | Agrees with the ordered map |
| HashTables.HashTable.Has | src/jso_ht.c:200-212 | Agrees with the ordered map |
| HashTables.HashTable.Resize | src/jso_ht.c:147-154 | Contents and order are kept; success exactly when the capacity does not shrink |
| HashTables.HashTable.AdjustCapacity | src/jso_ht.c:79-106 | Rehashing along the links keeps contents and order |
| HashTables.HashTable.Clone | src/jso_ht.c:235-244 | All entries are put into the other table in order; an empty one becomes a copy with the same entries in the same order |
| HashTables.PutAllThenLookup | src/jso_ht.c:235-244 | After all entries have been put into a map, each of their keys is found with their value, other keys as before, and the old keys come first in their old order |
| HashTables.PutAllAppends | src/jso_ht.c:235-244 | Behind the old entries come exactly those with new keys, in their own order |
| HashTables.PutAllIntoEmpty | src/jso_ht.c:235-244 | Entries with different keys put into an empty map are all of it, in their order |
| HashTables.HashTable.Scan | src/jso_ht.h:62-75 | The slot scan that stops at the count visits each entry exactly once |
| HashTables.FindEntry | src/jso_ht.c:65-77 | The search ends at the key or at a free slot, with only other keys before it |
| HashTables.FoundMeans | src/jso_ht.c:65-77 | A search ends at a used slot exactly when the map has the key |
| HashTables.Vacancy | src/jso_ht.c:156-163 | There is always a free slot, so every search ends |
| HashTables.InsertOk | src/jso_ht.c:164-182 | Filling the slot where the search ended keeps every other key reachable and adds the entry at the end |
| HashTables.UpdateOk | src/jso_ht.c:175-182 | Overwriting the slot keeps order and reachability |
| HashTables.PutThenLookup | src/jso_ht.c:156-198 | The last value stored is found, other keys and the order of old ones are as before |
| ValueEquality.ValueEquals | src/jso_value.c:119-143 | Structural equality of two values |
| ValueEquality.ArrayEquals | src/jso_array.c:163-179 | Same length and equal items |
| ValueEquality.ObjectEquals | src/jso_object.c:111-130 | Same size, and every key found with an equal value |
| ValueEquality.IsUnique | src/jso_array.c:196-211 | No two positions hold equal values |
| ValueEquality.Reflexive | src/jso_value.c:119-143 | Every well-formed value equals itself |
| ValueEquality.Symmetric | src/jso_object.c:111-130 | Equality is symmetric, by counting keys |
| ValueEquality.Transitive | src/jso_value.c:119-143 | Equality is transitive |
| ValueEquality.OrderIrrelevant | src/jso_object.c:111-130 | The order of object members does not matter |
| ValueEquality.UniqueBothWays | src/jso_array.c:196-211 | Comparing only later positions misses no equal pair |
| LinkedArrays.LinkedArray.Append | src/jso_array.c:77-92 | The value goes to the end of the list |
| LinkedArrays.LinkedArray.Push | src/jso_array.c:95-107 | The value goes to the front of the list |
| LinkedArrays.LinkedArray.Pop | src/jso_array.c:110-122 | The first value is dropped, and an empty list fails |
| LinkedArrays.LinkedArray.Index | src/jso_array.c:125-138 | The value at the position, or failure outside |
| NumberTexts.EncodeInt | src/jso_encoder.c:96-121 | The decimal text of every integer above the smallest one |
| NumberTexts.NatTextValue | src/jso_encoder.c:110-114 | The digits denote the number and have no superfluous zero |
| NumberTexts.TextValueMeans | src/jso_encoder.c:110-114 | The value of digits counts every digit by its position |
| Encoders.EncodeWhole | src/jso_encoder.c:295-301 | A reader recovers the value from compact and pretty output and consumes all of it; without white space outside strings every output is the compact one, and pretty output is the compact one laid out on lines |
| Encoders.Encoder.Encode | src/jso_encoder.c:269-293 | Appends the text of the value and restores the depth |
| Encoders.Encoder.EncodeString | src/jso_encoder.c:144-192 | Appends the quoted and escaped string |
| Encoders.Encoder.EncodeArray | src/jso_encoder.c:194-224 | Appends brackets, commas and separators around the items |
| Encoders.Encoder.EncodeObject | src/jso_encoder.c:226-260 | Appends braces, keys, separators and values |
| JsonTexts.ReadBack | src/jso_encoder.c:269-293 | The reader recovers every encodable value in front of any delimited rest |
| StrictTexts.StrictReadBack | src/jso_encoder.c:144-192 | A strict RFC 8259 reader recovers the output exactly when no string or key holds a control character other than the five with an escape |
| JsonTexts.ReadStringBack | src/jso_encoder.c:144-192 | The reader undoes the escapes of any string |
| JsonTexts.PrettySqueezes | src/jso_encoder.c:50-94 | Pretty and compact text differ only in white space outside strings |
| TextLayouts.PrettyMeans | src/jso_encoder.c:50-94 | Pretty text is compact text with a line break in front of every element and closing bracket, four blanks for every open bracket behind it, one blank behind every colon, and nothing in empty brackets |
| TextLayouts.CompactMeans | src/jso_encoder.c:194-293 | Compact text, kind by kind: the three words, the digits behind their sign, the quoted string, and the elements with commas between them in brackets or braces, keys with a colon |
| TextLayouts.StringMeans | src/jso_encoder.c:144-192 | A string is quoted with eight replacements made one after the other: the backslash, the quotation mark, the slash, and the five control characters with a short escape |
| Builders.Build | src/jso_builder.c:111-365 | Replaying the events of any document rebuilds it and leaves nothing open |
| Builders.AddTree | src/jso_builder.c:211-240 | The events of one element add exactly its value to the open container and change no older container |
| Builders.Builder.Start | src/jso_builder.c:32-48 | A root container opens only when nothing is open; otherwise nothing changes |
| Builders.Builder.Add | src/jso_builder.c:121-192 | A scalar goes into the open container of the right kind; otherwise nothing changes |
| Builders.Builder.AddStart | src/jso_builder.c:194-229 | A nested container is stored in the open one, by reference, and is then the open one |
| Builders.Builder.EndContainer | src/jso_builder.c:231-240 | The container below is open again; an end of the wrong kind changes nothing |
| Builders.TreeStays | src/jso_builder.c:211-229 | A finished container is not changed by what is built later |
| JsonPointers.Compile | src/pointer/jso_pointer.c:78-135 | Succeeds exactly on strings that start with a slash and whose every tilde is followed by 0 or 1, with the decoded parts as tokens |
| JsonPointers.CreateToken | src/pointer/jso_pointer.c:28-76 | The cursor loop decodes one part, or refuses a bad escape |
| JsonPointers.CompilesWhen | src/pointer/jso_pointer.c:78-135 | A compiled pointer printed again is the original string |
| JsonPointers.PrintThenCompile | src/pointer/jso_pointer.c:78-135 | Any nonempty list of tokens survives escaping, printing and compiling |
| PointerMeanings.DecodeMeans | src/pointer/jso_pointer.c:28-76 | A decoded token is its part with `~1` replaced by a slash first and `~0` by a tilde then, the order of RFC 6901, section 4 |
| PointerMeanings.PrintMeans | src/pointer/jso_pointer.c:78-135 | Printed tokens stand in their order, each behind a slash, with the tilde replaced by `~0` first and the slash by `~1` then |
| JsonPointers.Resolve | src/pointer/jso_pointer.c:205-208 | A well-formed pointer is searched for token by token |
| JsonPointers.PrintedPathResolves | src/pointer/jso_pointer.c:151-203 | The pointer printed for any path below the root resolves to the value at that path |
| JsonPointers.FoundSomewhere | src/pointer/jso_pointer.c:151-203 | A search finds something exactly when it takes a path, and what it finds lies there |
| PointerMeanings.FormIsRead | src/jso_string.h:230-239 | White space, a sign that may be missing and digits are read as the number that they denote, cut off at the ends of 64 bits |
| PointerMeanings.ReadHasForm | src/jso_string.h:230-239 | Nothing else is read as a number but the empty token, which is zero |
| PointerMeanings.SearchFinds | src/pointer/jso_pointer.c:151-203 | A search finds a value exactly when a path leads to it whose every step the token selects: a member by its name, an item by the number that the token denotes |
| PointerMeanings.SearchMisses | src/pointer/jso_pointer.c:167-175 | A search ends with an invalid index exactly when the tokens so far lead to an array and the next one, not empty, has no form of a number; all other failures are values not found |
| PointerMeanings.StepMeans | src/pointer/jso_pointer.c:157-189 | One step of a path leads to the member of the name, or to the item in its place |
| PointerIndices.StepAgrees | src/pointer/jso_pointer.c:169-189 | A token takes the item that RFC 6901 selects exactly when it is an array index that fits, or no number, negative or past the end |
| PointerIndices.ClearMeans | src/pointer/jso_pointer.c:169-189 | A token is clear for an array exactly when it is an index of the RFC that fits or selects no item |
| PointerIndices.PathsAgree | src/pointer/jso_pointer.c:151-203 | Along any tokens the library takes the path that the RFC selects exactly when each token is clear for its array, or both take none |
| PointerIndices.ResolvesAsRfc | src/pointer/jso_pointer.c:205-208 | A search ends as the RFC says exactly when it fails or every token is clear for the array that it meets |
| PointerIndices.RfcIndexMeans | src/pointer/jso_pointer.c:169-189 | The array indices of the RFC are exactly the decimal texts of the natural numbers |
| PointerIndices.PrintedPathSelected | src/pointer/jso_pointer.c:151-203 | The RFC selects every existing path by the tokens printed for it |
| PointerIndices.DeviatingTokens | src/jso_string.h:230-239 | The tokens taken for an item without being an index: the empty one, and numbers behind white space, a sign or a zero |
| PointerIndices.DeviatingPointer | src/pointer/jso_pointer.c:169-189 | For each of them the compiled pointer finds an item where the RFC finds none |
| PointerIndices.DeviatingExamples | src/jso_string.h:230-239 | "", "01", "+1", " 1" and "-0" are such tokens |

## Left out

- Validation.Validate: schemas are compiled values; `dependencies`, which the code applies without looking at the trigger key, boolean schemas and the other Draft 6 keywords are not part of them.
- StreamedMeanings.StreamedIsMeant: one way only, because wrong judgements of two keywords may cancel out in the whole; the result itself is given for all documents and instances.
- SchemaParsers.ParseValue: keywords come with their JSON types already checked, regular expressions already compiled, and references already resolved to acyclic targets; URI handling, `default`, `title`, `description` and `definitions` are not modelled.
- ValidationStacks.ValidationStack.PushBasic: allocation failure, and with it every error return of the validator, is not modelled.
- ValidationValues.ValidateValue: numbers are exact, so that the rounding of `fmod` and of large integers converted to double is not modelled; error messages and the error state of the schema are left out.
- Bigints.Multadd: a number without any word takes no addend, because the loop of the code would write a word that the count does not cover; allocation never fails, freed numbers are not reused, and word counts are unbounded; operands are non-negative.
- Bigints.Increment: a number without any word is not incremented, for the same reason.
- Bigints.Diff: operands have at least one word, because the loop of the code runs at least once.
- BigintShifts.Lshift: a number without any word is not shifted to the left, because the loop of the code runs at least once.
- DigitGeneration.ShortestDigits: starts from integers with the quotient between 1 and 10; the estimate of the exponent, the floating-point shortcut, small integers and rounding modes other than to nearest are left out.
- DoubleDigits.ShortestReadsBack: reading is rounding to the nearest double; the code that reads decimals is not part of this model.
- DigitGeneration.FixedDigits: the case of no digits at all, and the special cases of modes 3 and 5 that lead to it, are left out.
- HashTables.HashTable.Resize: the product of size and reciprocal load is exact, as it is in double arithmetic for sizes that fit memory.
- HashTables.HashTable.Set: the hash is any function of the key; the FNV-1a hash itself, reference counts and allocation failure are left out.
- NumberTexts.EncodeInt: the smallest integer, whose negation overflows, is excluded.
- Encoders.Encoder.Encode: doubles are excluded, because their text comes from the C library, and so is the smallest integer; write failures are left out.
- Encoders.EncodeWhole: the same values are excluded.
- Encoders.Encoder.EncodeArray: the same values are excluded.
- Encoders.Encoder.EncodeObject: the same values are excluded.
- StandardMeanings.MeetsAsDraft4: one way only for whole documents, whose keywords may differ and still agree together; each keyword has its exact condition.
- JsonTexts.ReadBack: the reader takes no numbers with a fraction or an exponent and no surrogate escapes; the encoder writes none.
- Builders.Builder.Add: the six methods that add scalars differ only in the value they make and are one method here.
- JsonPointers.Resolve: error messages are left out; a negative index ends as not found, as the later error overwrites the earlier one.
- Decimal to binary conversion (`strtod`), hexadecimal input, and all floating-point arithmetic of `jso_dg_dtoa.c`.
- The scanner, the grammar and the parser hooks, input and output, the command line, and memory management.
