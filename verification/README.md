# Verified models of llama.cpp's common algorithms, two converters and the chat app's text streaming

This project models seven parts of the repository in Dafny and proves what they promise.

- `grammar/` compiles JSON schemas to grammars. A grammar text is a sequence of lexemes; it has a parser, an abstract
  syntax and a language (the least interpretation of its rule names). The converter is a class that fills a rule map
  step by step. The texts of a schema (`Schemas.Valid`) are defined without rules, rule names or the order in which
  rules are made, in two senses: `Specified` is what a schema stands for, and `Emitted` is that with the clauses
  replaced for which the code writes something else: the keys of additional members, lists whose minimum is above
  their maximum, and the 16 digits to which integers with one bound are limited. The central contract says that the
  root derives exactly the texts of the emitted sense for every supported schema, and those of the specified sense
  where the clauses do not occur (`SchemaGrammar.Convert`); `grammar/AdditionalKeys.dfy` and
  `Repetition.RepetitionExact` say exactly where the clauses differ. What the built-in types mean is a parameter;
  `grammar/BuiltinTexts.dfy` says it of the shipped ones without grammars. Which built-in names a conversion uses and
  which of them it takes for rules of its own is a function of the schema (`Naming.After`).
- `speculative/` has the draft side (a token list that mirrors the cache through clearing, shifting and appending), the
  target side (drafts are checked without loss) and the ring buffer of recent tokens.
- `convert/` has low-rank adapters that stand for a product of matrices, the permutation of attention heads, and the
  merging of expert tensors.
- `ngram/` has the n-gram cache: counting, merging, saving and loading, drafting.
- `log/` has the log as a protocol of producers, worker and pauses, and the growing ring that implements it.
- `base64/` has the base64 codec of RFC 4648, sections 4 and 5.
- `tokens/` has the longest common run of tokens, byte-pair splitting, and UTF-8 text that arrives in pieces.

`common/` has options, results and a fact about sets for all of these.

Code that works by steps on state is modelled by classes and methods with loops, each proved against a specification
function or relation whose properties are lemmas. `dafny verify dfyconfig.toml` checks the whole project.

## What the proofs say about the code itself

- Integer bounds: with two bounds the emitted grammar is exact for all bounds with `min <= max` except one minimum.
  Negating `-INT_MAX` gives `INT_MAX`, which stands for "no maximum", so for that minimum 16-digit numerals are
  accepted. With a minimum alone it is exact, up to 16 digits, if and only if the minimum is negative or all its
  digits but the first and the last are at least 2: with 100 the text `19` is accepted, because the leading zero of
  the rest `00` is dropped (`IntBounds.ZeroInside`), and with 215 the text `2000` is refused (`IntBounds.OneInside`).
  With a maximum alone it is exact if and only if the maximum is not negative, or its numeral has several digits,
  begins with 1 and has inner digits of at least 2: with -5 the text `-00` is accepted (`MinMaxInt.IntegerRule`,
  `IntBounds.ExactBounds`). For exact bounds, the grammar of an integer schema derives the numeral of an integer if
  and only if it meets the keywords (`IntegerGrammars.ConvertInteger`). With a negative minimum and a maximum of at
  least 0 the text `-0` is accepted as 0.
- Excluded keys: with the empty name as the only excluded one, `_not_strings` accepts just that name. In all other
  cases no excluded name is accepted (`NotStrings.ExcludedNames`). Beginnings of excluded names are rejected as well.
- Dashes in excluded keys: a dash in a class reads as a range. The rule is exact if and only if, wherever some names go
  on with a dash and others with a greater character, some go on with a comma and some with a full stop, too
  (`NotStrings.Exclude`, `NotStrings.SafeNames`). With `a-x` and `ab` the new key `aB` is rejected
  (`NotStrings.DashedKey`); `a-b` alone does no harm.
- Keys of additional members: the closing class of `_not_strings` excludes the quote and the next characters of the
  declared names, but neither the backslash nor control characters, and asks for string characters behind it only. A key
  accepted by the rule is a string that spells no declared name if and only if, where it leaves the names, it goes on
  with a plain character or with a backslash that begins an escape (`AdditionalKeys.AcceptedIsMeant`). Conversely a
  string that spells no declared name is accepted, dashes being safe, if and only if it begins no declared name and,
  where it leaves the names with a backslash, string characters follow that backslash
  (`AdditionalKeys.MeantIsAccepted`). With the property `a` declared and other members allowed, the text `{"\":1}`,
  whose key is no string, is accepted, and the valid text `{"\\":1}` is refused (`AdditionalKeys.KeyInputs`).
- List lengths: the rule for between `minItems` and `maxItems` items is exact if and only if the minimum is not above
  the maximum; otherwise it accepts lists of `minItems` items (`Repetition.RepetitionExact`, `Repetition.ThreeToOne`).
- `build_repetition` with a separator and a maximum of 0 writes a repetition `{n,-1}` that cannot be read
  (`Repetition.ReadableUnlessNone`).
- Rule names: a rule takes the name of a built-in one exactly if its escaped name is built in, not there yet, and the
  body another one (`Converter.SchemaConverter.AddRule`). Names of letters, digits and dashes take none
  (`Naming.NameCharsAreHarmless`). A name that is taken does no harm as long as no built-in rule of the grammar depends
  on it (`SchemaGrammar.Convert`). Where one does, and no schema that took a name may accept both 0 and 1, the built-in
  rules do not all mean what they mean on their own (`TakenNames.KeptExactIff`); an enumeration of all integral parts,
  say, would do no harm. With the constant `true` as property `integral part` and an integer `n`, the text
  `{"n":true}` is accepted (`TakenNames.TakenName`).
- Odd property names: at the root, the schema of a property without a name takes the rule name `root`, so the grammar is
  that of the property's schema (`OddNames.NamelessProperty`); everywhere else such a name does no harm. The name `*`
  stands for "any other property": an optional member of that name is accepted twice, too
  (`OddNames.StarProperty`). Conversion is right for all other plain names, and for these if `Schemas.RootNames` and
  `Schemas.GoodName` hold (`SchemaGrammar.Convert`).
- Log: a pause comes to its end exactly if a slot of the ring is free besides the one for the end marker
  (`LogProtocol.PauseEndsWithSpareSlot`); otherwise the worker waits for ever. A resume that finds
  the worker of an unfinished pause ends the program, and nothing else does (`LogProtocol.RunAborts`); the messages
  printed up to then still begin the accepted ones (`LogProtocol.EveryRun`).
- UTF-8: the check also lets overlong units and units for values above the last code point pass
  (`Utf8.UnitsThatAreEncodings` says which units are encodings).
- `common_lcs` is documented as a longest common subsequence; it computes the longest common contiguous run, and that
  is what is proved.

## Model

| member | source | states |
|---|---|---|
| Gbnf.ShowThenParse | cpp/llama.cpp/src/llama-grammar.cpp:323-511 | reading a written rule body gives back its syntax tree: precedence and grouping in emitted text are right |
| Gbnf.ParseShow | cpp/llama.cpp/src/llama-grammar.cpp:340-505 | one symbol is read back whatever follows it; a repetition applies to the symbol before it |
| Rules.LangFixpoint | cpp/llama.cpp/common/json-schema-to-grammar.cpp:984-990 | a rule name derives exactly what its body produces |
| Rules.LangStable | cpp/llama.cpp/common/json-schema-to-grammar.cpp:355-369 | adding rules to a grammar whose references are defined changes no language of the rules already there |
| Decimal.LeIsNumeric | cpp/llama.cpp/common/json-schema-to-grammar.cpp:111-148 | comparing equally long digit strings digit by digit is comparing their values |
| Decimal.CanonicalUnique | cpp/llama.cpp/common/json-schema-to-grammar.cpp:151-163 | a numeral without leading zeros is the decimal text of its value |
| IntRange.UniformRange | cpp/llama.cpp/common/json-schema-to-grammar.cpp:111-157 | the emitted symbols accept exactly the digit strings between two equally long bounds |
| IntRange.Branches | cpp/llama.cpp/common/json-schema-to-grammar.cpp:124-153 | the alternatives for bounds that start differently accept exactly the strings between them |
| IntRange.ByLength | cpp/llama.cpp/common/json-schema-to-grammar.cpp:183-194 | the digit-count loop accepts exactly the numerals of the range, one length after the other |
| MinMaxInt.BuildMinMaxInt | cpp/llama.cpp/common/json-schema-to-grammar.cpp:83-265 | for any bounds the alternatives accept exactly the numerals of at most 16 digits of the integers that keep them, if and only if the bounds are exact; it fails exactly where the source throws |
| MinMaxInt.IntegerRule | cpp/llama.cpp/common/json-schema-to-grammar.cpp:83-265 | the text for one or two bounds reads back, and accepts exactly those numerals if and only if the bounds are exact |
| MinMaxInt.MinOnly | cpp/llama.cpp/common/json-schema-to-grammar.cpp:200-236 | a minimum alone: at the beginning of a numeral exact if and only if its inner digits are at least 2; behind other digits, where leading zeros are allowed, if and only if all digits but the last are |
| MinMaxInt.MaxOnly | cpp/llama.cpp/common/json-schema-to-grammar.cpp:238-252 | a maximum alone: exact if and only if it is not negative, or its numeral has several digits, begins with 1 and has inner digits of at least 2 |
| IntBounds.LongExact | cpp/llama.cpp/common/json-schema-to-grammar.cpp:216-233 | what follows the first digit of a long minimum decides whether its alternatives are exact |
| IntBounds.ZeroInside | cpp/llama.cpp/common/json-schema-to-grammar.cpp:216-233 | with a zero behind the first digit of a longer minimum, a numeral below the minimum is accepted |
| IntBounds.OneInside | cpp/llama.cpp/common/json-schema-to-grammar.cpp:216-233 | with a one behind the first digit of a longer minimum, a numeral above the minimum is refused |
| IntBounds.BoundInputs | cpp/llama.cpp/common/json-schema-to-grammar.cpp:200-252 | 25 is exact as a minimum alone, 100 and 215 are not; -15 is exact as a maximum alone, -5 is not |
| IntRange.RangeOfTexts | cpp/llama.cpp/common/json-schema-to-grammar.cpp:159-194 | accepted texts have values in the range, and the canonical numeral of every integer of the range is one |
| IntRange.LastLength | cpp/llama.cpp/common/json-schema-to-grammar.cpp:183-194 | numerals shorter than the maximum and those of its length up to it make up the range |
| Repetition.RepetitionReads | cpp/llama.cpp/common/json-schema-to-grammar.cpp:16-38 | the text of a repetition reads back as the intended symbols |
| Repetition.RepetitionUnrolls | cpp/llama.cpp/common/json-schema-to-grammar.cpp:16-38 | those symbols accept exactly the separated lists of as many items as the parser makes copies |
| Repetition.RepetitionMeans | cpp/llama.cpp/common/json-schema-to-grammar.cpp:16-38 | with a minimum not above the maximum, exactly the lists of between min and max items with a separator between neighbours |
| Repetition.RepetitionExact | cpp/llama.cpp/common/json-schema-to-grammar.cpp:16-38 | that is so if and only if the minimum is not above the maximum |
| Repetition.ThreeToOne | cpp/llama.cpp/common/json-schema-to-grammar.cpp:16-38 | from three to one item, a list of three is accepted |
| Repetition.ReadableUnlessNone | cpp/llama.cpp/common/json-schema-to-grammar.cpp:33-37 | with a separator the text can be read if and only if the maximum is not 0 |
| NotStrings.BuildTrie | cpp/llama.cpp/common/json-schema-to-grammar.cpp:582-600 | the trie of the excluded names, for names in ASCII |
| NotStrings.TrieOfNames | cpp/llama.cpp/common/json-schema-to-grammar.cpp:589-595 | paths of the trie are the beginnings of names, ends are the names |
| KeyClasses.RejectClass | cpp/llama.cpp/common/json-schema-to-grammar.cpp:627-632 | the closing class of a node reads back: it excludes the quote, the characters written, and what a dash among them spans |
| KeyClasses.UnsafeDash | cpp/llama.cpp/common/json-schema-to-grammar.cpp:627-632 | an unsafe dash excludes a character that was not written |
| NotStrings.VisitTrie | cpp/llama.cpp/common/json-schema-to-grammar.cpp:605-632 | the alternatives of a node accept exactly the texts that leave the trie below it, classes taken as they read |
| NotStrings.LeavesIsFresh | cpp/llama.cpp/common/json-schema-to-grammar.cpp:605-632 | leaving the trie is diverging from every name or running past one that begins no other |
| NotStrings.Exclude | cpp/llama.cpp/common/json-schema-to-grammar.cpp:580-640 | the rule reads back; it accepts exactly the quoted keys that leave the names, with white space behind them, if and only if all dashes are safe |
| NotStrings.SafeNames | cpp/llama.cpp/common/json-schema-to-grammar.cpp:605-632 | dashes are safe exactly if names that go on with a dash and with a greater character go on with a comma and a full stop, too |
| NotStrings.DashedKey | cpp/llama.cpp/common/json-schema-to-grammar.cpp:605-632 | with `a-x` and `ab` excluded, the key `aB` leaves the names and is rejected |
| NotStrings.DashInputs | cpp/llama.cpp/common/json-schema-to-grammar.cpp:605-632 | the dash of `a-x` is unsafe beside `ab`; the one of `a-b` alone is safe |
| NotStrings.PlainKeys | cpp/llama.cpp/common/json-schema-to-grammar.cpp:570-640 | a key is accepted if and only if it begins no excluded name; the empty key, if the empty name is not excluded |
| NotStrings.ExcludedNames | cpp/llama.cpp/common/json-schema-to-grammar.cpp:570-640 | no excluded name is accepted, if and only if some excluded name is not empty |
| Primitives.CharClassMeans | cpp/llama.cpp/common/json-schema-to-grammar.cpp:284-284 | the class of plain string characters excludes exactly the quote, the backslash, DEL and control characters |
| BuiltinTexts.BlankIs | cpp/llama.cpp/common/json-schema-to-grammar.cpp:267-267 | white space is nothing, a blank, or one or two line ends and at most 20 blanks and tabs |
| BuiltinTexts.BooleanIs | cpp/llama.cpp/common/json-schema-to-grammar.cpp:275-275 | the texts of `boolean` are the words true and false with white space behind them |
| BuiltinTexts.NullIs | cpp/llama.cpp/common/json-schema-to-grammar.cpp:286-286 | the text of `null` is that word with white space behind it |
| BuiltinTexts.IntegerIs | cpp/llama.cpp/common/json-schema-to-grammar.cpp:276-279 | an `integer` is an optional minus sign and a numeral without leading zeros of at most 16 digits, and white space |
| BuiltinTexts.NumberIs | cpp/llama.cpp/common/json-schema-to-grammar.cpp:276-278 | a `number` has in addition an optional fraction of 1 to 16 digits and an optional exponent |
| BuiltinTexts.CharIs | cpp/llama.cpp/common/json-schema-to-grammar.cpp:284-284 | a `char` is a plain character, a backslash and one of seven characters, or a backslash, u and four hexadecimal digits |
| BuiltinTexts.StringIs | cpp/llama.cpp/common/json-schema-to-grammar.cpp:285-285 | a `string` is a quoted sequence of such characters, and white space |
| BuiltinTexts.ValueIs | cpp/llama.cpp/common/json-schema-to-grammar.cpp:280-280 | a `value` is an object, an array, a string, a number, a truth value or null |
| BuiltinTexts.ArrayIs | cpp/llama.cpp/common/json-schema-to-grammar.cpp:282-282 | an `array` is any number of values joined by commas, in brackets |
| BuiltinTexts.ObjectIs | cpp/llama.cpp/common/json-schema-to-grammar.cpp:281-281 | an `object` is any number of pairs of a string and a value joined by commas, in braces |
| BuiltinTexts.UuidIs | cpp/llama.cpp/common/json-schema-to-grammar.cpp:283-283 | a `uuid` has 8, 4, 4, 4 and 12 hexadecimal digits with dashes between them, in quotes, and white space |
| Primitives.BuiltinOk | cpp/llama.cpp/common/json-schema-to-grammar.cpp:267-287 | every built-in body has a text that reads back as it |
| Primitives.DepsCover | cpp/llama.cpp/common/json-schema-to-grammar.cpp:274-287 | the dependency lists name every rule a built-in body refers to |
| Shapes.RefListMeans | cpp/llama.cpp/common/json-schema-to-grammar.cpp:691-697 | references joined by commas accept exactly one text of each rule in order, joined by commas |
| Shapes.FirstThenRest | cpp/llama.cpp/common/json-schema-to-grammar.cpp:709-728 | a name and a rule for the rest accept the lists that begin with that name |
| Shapes.OptionalThenRest | cpp/llama.cpp/common/json-schema-to-grammar.cpp:709-728 | an optional name and a rule for the rest accept the in-order selections behind other members |
| Shapes.InnerBoth | cpp/llama.cpp/common/json-schema-to-grammar.cpp:691-737 | required members and then optional ones are joined with one comma between neighbours |
| Shapes.InnerIsMembers | cpp/llama.cpp/common/json-schema-to-grammar.cpp:692-742 | lists of rule names and lists of properties describe the same object members |
| Naming.NameCharsAreHarmless | cpp/llama.cpp/common/json-schema-to-grammar.cpp:298-308 | with property names of letters, digits and dashes no made-up rule name takes a built-in one |
| Schemas.EscRun | cpp/llama.cpp/common/json-schema-to-grammar.cpp:308-356 | in rule names every run of other characters becomes one dash |
| Schemas.EscApart | cpp/llama.cpp/common/json-schema-to-grammar.cpp:308-356 | what stands in front of a name character and from it on is treated apart |
| Naming.ValidAgree | cpp/llama.cpp/common/json-schema-to-grammar.cpp:838-973 | what a schema stands for depends only on the built-in rules that it is made with |
| Converter.SchemaConverter.AddRule | cpp/llama.cpp/common/json-schema-to-grammar.cpp:355-369 | the rule is stored under the answered name; no name that had another body is rebound; built-in rules keep their bodies exactly if the name is not built in, or is there already, or the body is the built-in one |
| Growth.AddKeepsInv | cpp/llama.cpp/common/json-schema-to-grammar.cpp:355-369 | a further rule keeps: all bodies read, all references are defined, built-in names have their bodies or are recorded as taken, taken ones derive the texts of their schemas |
| Growth.TakeKeepsInv | cpp/llama.cpp/common/json-schema-to-grammar.cpp:355-369 | so does a rule that takes a built-in name |
| Growth.KeysEverywhere | cpp/llama.cpp/common/json-schema-to-grammar.cpp:745-762 | white space, string characters and strings mean in every grammar what they mean on their own |
| SchemaGrammar.KeptMeanTheSame | cpp/llama.cpp/common/json-schema-to-grammar.cpp:745-762 | so does every built-in rule that kept its name, if none depends on a taken one |
| Converter.SchemaConverter.AddPrimitive | cpp/llama.cpp/common/json-schema-to-grammar.cpp:745-762 | a built-in rule is added with all rules it refers to; besides the answered name only built-in ones are added, and nothing else changes |
| Converter.SchemaConverter.VisitProperty | cpp/llama.cpp/common/json-schema-to-grammar.cpp:662-671 | the rule of a property derives exactly its quoted name, a colon and a text of its schema |
| Converter.SchemaConverter.VisitAdditional | cpp/llama.cpp/common/json-schema-to-grammar.cpp:679-690 | the rule for additional members derives exactly a text of the emitted class of keys, a colon and an admissible value; which of those keys are strings say AdditionalKeys.AcceptedIsMeant and MeantIsAccepted |
| Converter.SchemaConverter.RecursiveRefs | cpp/llama.cpp/common/json-schema-to-grammar.cpp:706-728 | the references for a list of optional names accept the in-order selections that begin with the first, or follow other members |
| Converter.SchemaConverter.OptionalAlternatives | cpp/llama.cpp/common/json-schema-to-grammar.cpp:730-738 | the alternatives together accept every non-empty in-order selection |
| Converter.SchemaConverter.BuildObjectRule | cpp/llama.cpp/common/json-schema-to-grammar.cpp:652-743 | the object rule accepts exactly the objects: required members in order, a selection of the optional ones in order, additional ones with keys of the emitted class, one comma between neighbours |
| Converter.SchemaConverter.VisitInteger | cpp/llama.cpp/common/json-schema-to-grammar.cpp:945-962 | with bounds for which the text is exact, the rule derives exactly the numerals of the integers that meet the keywords, of at most 16 digits if only one bound is given, and white space |
| Converter.SchemaConverter.VisitList | cpp/llama.cpp/common/json-schema-to-grammar.cpp:925-931 | the rule derives exactly the arrays with as many items as the parser makes of the two bounds: between minItems and maxItems, or minItems if that is more |
| Converter.SchemaConverter.VisitTuple | cpp/llama.cpp/common/json-schema-to-grammar.cpp:915-924 | the rule derives exactly the arrays with one text for each item schema |
| Converter.SchemaConverter.VisitAnyOf | cpp/llama.cpp/common/json-schema-to-grammar.cpp:371-378 | the rule derives exactly what one of the alternatives allows |
| Converter.SchemaConverter.Visit | cpp/llama.cpp/common/json-schema-to-grammar.cpp:838-973 | the answered rule derives exactly the texts of the schema in the emitted sense, with the built-in rules as they are in the grammar; all rules read, all references are defined, earlier rules keep their bodies, and the built-in names are used and taken as foretold |
| SchemaGrammar.PrimitivesAreGood | cpp/llama.cpp/common/json-schema-to-grammar.cpp:267-306 | the shipped built-in rules have what the converter relies on |
| SchemaGrammar.Convert | cpp/llama.cpp/common/json-schema-to-grammar.cpp:993-1023 | the root derives exactly the texts of the schema in the emitted sense; a built-in rule has its body exactly if its name was not taken; if no built-in rule depends on a taken name, the built-in types mean what they mean on their own, and a settled schema gives exactly the texts it stands for |
| SchemaGrammar.ConvertShipped | cpp/llama.cpp/common/json-schema-to-grammar.cpp:993-1023 | the same for the shipped built-in rules and plain names |
| IntegerGrammars.ConvertInteger | cpp/llama.cpp/common/json-schema-to-grammar.cpp:945-962 | the grammar of an integer schema derives the numeral of v if and only if v meets `minimum`, or if that is absent `exclusiveMinimum`, and the same above |
| SchemaGrammar.SettledIsMeant | cpp/llama.cpp/common/json-schema-to-grammar.cpp:838-973 | both senses agree on schemas in which no object with declared properties allows others and no list has its minimum above its maximum |
| AdditionalKeys.AcceptedIsMeant | cpp/llama.cpp/common/json-schema-to-grammar.cpp:605-632 | a key that the rule accepts is a string that spells no declared name if and only if it goes on as a string where it leaves the names |
| AdditionalKeys.MeantIsAccepted | cpp/llama.cpp/common/json-schema-to-grammar.cpp:605-632 | a string that spells no declared name is accepted if and only if it begins none and has string characters behind the backslash with which it leaves them, if it does |
| AdditionalKeys.LoneCharacter | cpp/llama.cpp/common/json-schema-to-grammar.cpp:627-632 | any one character that is neither plain nor a quote is accepted as a key and is none |
| AdditionalKeys.EscapedBackslashRefused | cpp/llama.cpp/common/json-schema-to-grammar.cpp:627-632 | the string of one escaped backslash is refused |
| AdditionalKeys.ObjectByKey | cpp/llama.cpp/common/json-schema-to-grammar.cpp:652-743 | in either sense, an object of one further member with a key that is not plain and an admissible value is accepted if and only if its key is |
| AdditionalKeys.KeyInputs | cpp/llama.cpp/common/json-schema-to-grammar.cpp:652-743 | a converted schema whose grammar accepts a text that the schema does not allow, and refuses one that it allows |
| DeclaredKeys.AdditionalKeysAreNew | cpp/llama.cpp/common/json-schema-to-grammar.cpp:679-690 | no member accepted as additional begins with a declared name in quotes |
| DeclaredKeys.DeclaredOnce | cpp/llama.cpp/common/json-schema-to-grammar.cpp:652-743 | an accepted object has each declared key at most once in its plain spelling, a required one exactly once |
| TakenNames.KeptExactIff | cpp/llama.cpp/common/json-schema-to-grammar.cpp:355-369 | if no schema that took a name may accept both 0 and 1, as its form and the built-in kinds in it tell: the built-in rules kept mean what they mean on their own if and only if none depends on a taken name |
| TakenNames.TakenName | cpp/llama.cpp/common/json-schema-to-grammar.cpp:355-369 | the grammar of a schema with a property `integral part` accepts a text that the schema does not allow |
| OddNames.NamelessProperty | cpp/llama.cpp/common/json-schema-to-grammar.cpp:662-676 | with a property without a name at the root, the root derives what the property's schema emits, whatever is written for the object |
| OddNames.StarProperty | cpp/llama.cpp/common/json-schema-to-grammar.cpp:706-738 | an optional member named `*` is accepted alone and twice |
| NumberTexts.TenthsNumber | cpp/llama.cpp/common/json-schema-to-grammar.cpp:275-280 | where integral parts are digits and 0 is one, 0 followed by a full stop and a digit is a number if and only if the digit is a decimal part |
| Draft.Speculative.FindReuse | cpp/llama.cpp/common/speculative.cpp:154-169 | the first longest allowed stretch of the old prompt that begins the window |
| Draft.Speculative.KeepOnly | cpp/llama.cpp/common/speculative.cpp:194-205 | removing and shifting cache entries leaves exactly the kept stretch at the positions from 0 on |
| Draft.Speculative.FeedPrompt | cpp/llama.cpp/common/speculative.cpp:208-223 | the batch puts the rest of the window at its positions, none of them taken |
| Draft.Speculative.Continue | cpp/llama.cpp/common/speculative.cpp:240-275 | the draft loop gives the greedy continuation and keeps cache and prompt alike |
| Draft.Speculative.GenDraft | cpp/llama.cpp/common/speculative.cpp:137-278 | the cache holds exactly the prompt afterwards; the window is as much of the end of the target prompt as fits beside the draft; the old draft is passed back exactly if the best reusable stretch is followed by the last token, otherwise the draft is new and greedy; lengths stay in their limits |
| Draft.Speculative.GenDrafts | cpp/llama.cpp/common/speculative.cpp:137-278 | over any sequence of calls with any prompts the cache goes on mirroring the prompt, neither grows beyond the context, and no draft is longer than asked for |
| Draft.WindowIs | cpp/llama.cpp/common/speculative.cpp:150-152 | the window is the whole target prompt if it fits, and its last tokens otherwise |
| Draft.GreedyAt | cpp/llama.cpp/common/speculative.cpp:240-275 | every drafted token is the model's first choice behind those before it, all but the last likely enough, and the draft ends only for a reason |
| Draft.FrontMoved | cpp/llama.cpp/common/speculative.cpp:194-199 | removing the front and shifting the rest gives the cache of the shortened prompt |
| Draft.PutBehind | cpp/llama.cpp/common/speculative.cpp:208-223 | decoding consecutive positions behind a prompt gives the cache of the longer prompt |
| RingBuffers.RingBuffer.PushBack | cpp/llama.cpp/common/sampling.cpp:43-52 | the buffer holds the last `capacity` elements of everything pushed |
| RingBuffers.RingBuffer.PopFront | cpp/llama.cpp/common/sampling.cpp:54-62 | takes the oldest element, or fails on the empty buffer |
| RingBuffers.RingBuffer.Rat | cpp/llama.cpp/common/sampling.cpp:64-69 | the i-th element counted from the newest, or failure |
| RingBuffers.RingBuffer.ToVector | cpp/llama.cpp/common/sampling.cpp:71-78 | the elements, oldest first |
| RingBuffers.LastNStep | cpp/llama.cpp/common/sampling.cpp:43-52 | keeping the last n at every step is keeping the last n of everything |
| Sampling.Sampler.Sample | cpp/llama.cpp/common/sampling.cpp:338-382 | the token and state of grammar first, or of a late check with resampling |
| Sampling.Sampler.Accept | cpp/llama.cpp/common/sampling.cpp:300-308 | the grammar takes the token if asked to, the chain takes it, and the recent tokens are the last `capacity` of all |
| Sampling.Sampler.SampleAndAcceptN | cpp/llama.cpp/common/sampling.cpp:384-412 | tokens and state are those of plain decoding whatever was drafted; 1 to draft + 1 tokens, all but the last as drafted |
| Sampling.Sampler.Rounds | cpp/llama.cpp/common/sampling.cpp:384-421 | the same over any number of rounds with drafts made up in any way |
| Sampling.SampledIsAllowed | cpp/llama.cpp/common/sampling.cpp:338-382 | grammar first or late: the sampled token is a candidate that the grammar allows, whenever it allows any |
| Sampling.DecodingKeepsTo | cpp/llama.cpp/common/sampling.cpp:338-412 | over decoding of any length every token is one that the grammar allows behind the tokens before it, grammar and recent tokens have taken all of them in order |
| Sampling.RepeatConcat | cpp/llama.cpp/common/sampling.cpp:384-412 | decoding m tokens and then n is decoding m + n |
| Sampling.LateCheckIsEnough | cpp/llama.cpp/common/sampling.cpp:345-381 | for any chain that keeps its pick when the grammar allows it, the late check gives the tokens of the early one |
| GreedyChains.GreedyIsStable | cpp/llama.cpp/common/sampling.cpp:345-381 | chains that keep the order of the candidates and pick the best one are such, so for them the late check always gives token and state of the early one |
| GreedyChains.BestAllowedIsSampled | cpp/llama.cpp/common/sampling.cpp:338-382 | grammar first or late, the token is the first of the best candidates that the grammar allows |
| GreedyChains.GreedyFilters | cpp/llama.cpp/common/sampling.cpp:338-382 | such samplers select what has not been ruled out, so decoding with them keeps to the grammar |
| Tensors.SourceInjective | cpp/llama.cpp/convert_lora_to_gguf.py:161-178 | an exchange of axes takes no row twice |
| Tensors.SourceOnto | cpp/llama.cpp/convert_lora_to_gguf.py:161-178 | and takes every row |
| Lora.ReshapeIsReshape | cpp/llama.cpp/convert_lora_to_gguf.py:129-153 | reshaping the pair is defined exactly if reshaping the product is, and is the same |
| Lora.ReshapeKeepsRows | cpp/llama.cpp/convert_lora_to_gguf.py:129-153 | a reshaped tensor has its rows in their order and the shape that was spelled out |
| Lora.ReshapeFindsShape | cpp/llama.cpp/convert_lora_to_gguf.py:137-142 | every shape that fits is found when one entry is left out |
| Lora.PermuteIsPermute | cpp/llama.cpp/convert_lora_to_gguf.py:161-181 | permuting the axes of the pair is permuting those of the product |
| Lora.PermuteMeans | cpp/llama.cpp/convert_lora_to_gguf.py:161-172 | on a tensor: defined exactly for permutations that keep the last axis and for the exchange of two axes; axes may be counted from the end |
| Lora.PermutedAt | cpp/llama.cpp/convert_lora_to_gguf.py:161-172 | axis k of the result is axis dims[k] of the tensor, entry by entry |
| Lora.ProductOfTransposed | cpp/llama.cpp/convert_lora_to_gguf.py:168-169 | exchanging and transposing the factors transposes the product |
| Lora.DotUnit | cpp/llama.cpp/convert_lora_to_gguf.py:39-44 | the product of a unit row is a row of A |
| Lora.DotLinear | cpp/llama.cpp/convert_lora_to_gguf.py:39-44 | the product is linear in the rows of B |
| Lora.SliceIsSlice | cpp/llama.cpp/convert_lora_to_gguf.py:66-111 | row slices and row-and-column slices of the pair are those of the product, entry by entry: the positions from the lower bound in steps below the upper one; defined exactly for positive steps |
| Lora.SelectedPositions | cpp/llama.cpp/convert_lora_to_gguf.py:66-76 | a slice selects, in ascending order, the positions between its bounds that are a number of steps from the lower one; bounds count from the end if negative and stop at both ends |
| Lora.EllipsisIsFullSlice | cpp/llama.cpp/convert_lora_to_gguf.py:77-95 | missing entries and an ellipsis before or behind a slice mean full slices |
| Lora.CatIsCat | cpp/llama.cpp/convert_lora_to_gguf.py:205-220 | concatenating pairs with one A concatenates the products; other pairs are refused |
| Lora.RowOfCat | cpp/llama.cpp/convert_lora_to_gguf.py:205-220 | row p of the i-th product stands behind all rows of those before it |
| HeadPermutation.AdapterHeads | cpp/llama.cpp/convert_hf_to_gguf.py:1622-1628 | permuting the heads of an adapter is defined exactly if that of its product is, and stands for the permuted product |
| HeadPermutation.HeadsInterleave | cpp/llama.cpp/convert_hf_to_gguf.py:1622-1628 | defined exactly if the rows divide into heads of two halves; element j of half i of head a goes to place 2j + i |
| HeadPermutation.HeadsBijective | cpp/llama.cpp/convert_hf_to_gguf.py:1622-1628 | every row appears exactly once in the result |
| Experts.NameInjective | cpp/llama.cpp/convert_hf_to_gguf.py:1658-1659 | different experts and tensors of a block have different names |
| Experts.MergedNameInjective | cpp/llama.cpp/convert_hf_to_gguf.py:1666-1666 | the stacked tensors of all blocks have different names |
| Experts.ExpertMerger.ModifyTensors | cpp/llama.cpp/convert_hf_to_gguf.py:1632-1673 | a tensor is passed on, buffered, or completes its block, whose three stacks then leave in order; missing names raise |
| Experts.ExpertMerger.NoneLeft | cpp/llama.cpp/convert_hf_to_gguf.py:1706-1713 | the final check passes exactly if no buffer holds a tensor |
| Experts.CompleteByCount | cpp/llama.cpp/convert_hf_to_gguf.py:1651-1651 | 3 n different tensors of n experts are all of them |
| ExpertRun.ArriveAll | cpp/llama.cpp/convert_hf_to_gguf.py:1641-1713 | for any order of arrival the blocks leave in the order in which they become complete, each complete block with its three ordered stacks exactly once, and the final check passes exactly if no block is left half done |
| ExpertRun.CompleteEarlier | cpp/llama.cpp/convert_hf_to_gguf.py:1651-1673 | of two blocks the one that leaves first is complete at a time when the other one is not |
| ExpertRun.OutputOfBuffer | cpp/llama.cpp/convert_hf_to_gguf.py:1654-1671 | a full buffer gives the three tensors in the order of the experts |
| ExpertRun.OutputAt | cpp/llama.cpp/convert_hf_to_gguf.py:1654-1671 | output 3 i + w is tensor w of the i-th block to leave, under its name, with the tensors of the experts as they arrived in the order of the experts |
| NgramCache.Cache.Update | cpp/llama.cpp/common/ngram-cache.cpp:12-52 | with the exact cache of the input without its newest tokens, however many are said to be new, the exact cache of the whole input |
| NgramCache.Cache.Feed | cpp/llama.cpp/common/ngram-cache.cpp:12-52 | any chunks appended one after the other give the cache of one full pass |
| NgramCache.ExactIsUnique | cpp/llama.cpp/common/ngram-cache.cpp:12-52 | there is only one exact cache of an input |
| NgramCache.ExactCounts | cpp/llama.cpp/common/ngram-cache.h:24-28 | each count is the number of positions where those words are followed by that token; null padding keeps the sizes apart |
| NgramCache.OnlyWords | cpp/llama.cpp/common/ngram-cache.h:24-28 | every n-gram of the cache is a padded one of a size in range |
| NgramCache.Cache.Merge | cpp/llama.cpp/common/ngram-cache.cpp:261-286 | the pointwise sum, whatever the order of the hash maps |
| NgramCache.SumIsPointwise | cpp/llama.cpp/common/ngram-cache.cpp:261-286 | merging adds the counts of every n-gram and token |
| NgramCache.SumCommutes | cpp/llama.cpp/common/ngram-cache.cpp:261-286 | merging is commutative |
| NgramCache.SumAssociates | cpp/llama.cpp/common/ngram-cache.cpp:261-286 | merging is associative |
| NgramCache.SumPositive | cpp/llama.cpp/common/ngram-cache.cpp:261-286 | merging keeps parts non-empty and counts positive |
| NgramFile.Save | cpp/llama.cpp/common/ngram-cache.cpp:200-221 | the file spells the cache's items in some order |
| NgramFile.Load | cpp/llama.cpp/common/ngram-cache.cpp:223-259 | what the words of a file stand for, or an abort |
| NgramFile.SavedLoads | cpp/llama.cpp/common/ngram-cache.cpp:200-259 | whatever the order of the items, loading them gives the cache they stand for |
| NgramFile.SaveAndLoad | cpp/llama.cpp/common/ngram-cache.cpp:200-259 | loading undoes saving |
| NgramFile.ItemLayout | cpp/llama.cpp/common/ngram-cache.cpp:202-218 | an item is the n-gram, the number of tokens, and then each token with its count |
| NgramDraft.Scan | cpp/llama.cpp/common/ngram-cache.cpp:115-133 | the heaviest token and the number of samples, whatever the order of the map |
| NgramDraft.TryOne | cpp/llama.cpp/common/ngram-cache.cpp:66-95 | a token that meets the limits, or a reason why none is drafted |
| NgramDraft.TryPrimary | cpp/llama.cpp/common/ngram-cache.cpp:98-144 | the longest n-gram with a proposal decides |
| NgramDraft.Draft | cpp/llama.cpp/common/ngram-cache.cpp:146-198 | keeps its start, stays in its limit, every token is proposed by the caches in their order, and it ends early only if none proposes |
| NgramDraft.ProposedIsBacked | cpp/llama.cpp/common/ngram-cache.cpp:59-144 | a proposed token follows an n-gram at the end of the text with counts that meet the limits, and no other token counts for more, one that the static cache knows a hundred times its count there; the context cache comes before the dynamic one, longer n-grams before shorter ones, and all before are silent |
| NgramDraft.NothingIsProposed | cpp/llama.cpp/common/ngram-cache.cpp:59-198 | when nothing is proposed, all three caches are silent |
| NgramDraft.UnknownNeedsMore | cpp/llama.cpp/common/ngram-cache.cpp:121-130 | a token that the static cache does not know is drafted only if it is a hundred times as frequent as those it knows |
| LogProtocol.StepKeeps | cpp/llama.cpp/common/log.cpp:160-293 | every step keeps the protocol's invariant |
| LogProtocol.AcceptedAreHeard | cpp/llama.cpp/common/log.cpp:160-181 | in every run the accepted messages are those of the add steps in front of which the last pause or resume was not a pause, in order |
| LogProtocol.EveryRun | cpp/llama.cpp/common/log.cpp:160-293 | over every interleaving of producers, worker, pauses and resumes the printed messages begin those that were added while the last pause or resume was not a pause, all of them are printed once the worker has stopped, and nothing is lost unless a pause met a full ring or the program ended |
| LogProtocol.AbortsExactly | cpp/llama.cpp/common/log.cpp:238-247 | a step ends the program if and only if it resumes a paused log whose worker has not been joined |
| LogProtocol.RunAborts | cpp/llama.cpp/common/log.cpp:238-293 | a run ends the program if and only if such a resume is among its steps |
| LogProtocol.WorkerEnds | cpp/llama.cpp/common/log.cpp:247-267 | a worker on its way to the end marker prints everything and stops |
| LogProtocol.WorkerGoesOn | cpp/llama.cpp/common/log.cpp:247-267 | it always has a step, and each step brings it nearer |
| LogProtocol.OthersDoNotDisturb | cpp/llama.cpp/common/log.cpp:160-167 | steps of other threads leave a draining log as it is, except for a resume, which ends the program |
| LogProtocol.StuckForEver | cpp/llama.cpp/common/log.cpp:271-293 | without a spare slot the worker never stops |
| LogProtocol.PauseEndsWithSpareSlot | cpp/llama.cpp/common/log.cpp:271-293 | a pause can come to its end if and only if a slot is to spare |
| LogProtocol.PauseCanHang | cpp/llama.cpp/common/log.cpp:109-129 | 255 messages before the worker's first step, and a pause of the initial ring hangs |
| LogRing.Log.Add | cpp/llama.cpp/common/log.cpp:160-236 | one step of the protocol, with the message as it was given; growth keeps all entries in order |
| LogRing.Log.Grow | cpp/llama.cpp/common/log.cpp:211-233 | a full ring is moved to one of twice the size without losing or reordering entries |
| LogRing.Log.Pop | cpp/llama.cpp/common/log.cpp:248-255 | the worker takes the oldest entry |
| LogRing.Log.Pause | cpp/llama.cpp/common/log.cpp:271-288 | the end marker goes behind all entries; a ring it fills looks empty |
| LogRing.Log.HappenAll | cpp/llama.cpp/common/log.cpp:160-293 | any sequence of steps on the ring is a run of the protocol |
| Base64.Encode | cpp/llama.cpp/common/base64.hpp:80-144 | the encoding, four characters for three bytes, padded at the end |
| Base64.EncodedSize | cpp/llama.cpp/common/base64.hpp:338-341 | the encoded length is `required_encode_size` |
| Base64.Decode | cpp/llama.cpp/common/base64.hpp:200-244 | the decoded bytes, or failure |
| Base64.DecodeEncoded | cpp/llama.cpp/common/base64.hpp:80-244 | decoding gives back every byte string, for both alphabets and with detection |
| Base64.DecodedSize | cpp/llama.cpp/common/base64.hpp:322-325 | the decoded length is at most `max_decode_size` |
| Base64.DecodeInPlace | cpp/llama.cpp/common/base64.hpp:294-311 | decoding over the input gives what decoding elsewhere gives |
| Base64.AcceptedTexts | cpp/llama.cpp/common/base64.hpp:200-244 | accepted are exactly the texts in one alphabet with padding only behind them |
| Base64.ValueOfLetter | cpp/llama.cpp/common/base64.hpp:343-393 | every character of an alphabet reads back as its six bits |
| Base64.LetterOfValue | cpp/llama.cpp/common/base64.hpp:80-98 | the characters of both alphabets in the order of RFC 4648; the padding character |
| Base64.LetterWithValue | cpp/llama.cpp/common/base64.hpp:343-393 | only the characters of an alphabet have a value in it |
| Base64.SameBits | cpp/llama.cpp/common/base64.hpp:88-140 | the 24 bits of three bytes are those of the four values |
| CommonRun.CommonLcs | cpp/llama.cpp/common/common.cpp:1650-1697 | the greatest k such that the inputs share a contiguous run of k tokens |
| CommonRun.EndingIsLongest | cpp/llama.cpp/common/common.cpp:1666-1692 | an entry of the table says exactly which runs end there |
| CommonRun.FillRow | cpp/llama.cpp/common/common.cpp:1669-1690 | the two-row table agrees with the full one |
| Bpe.Split | cpp/llama.cpp/convert_hf_to_gguf.py:2169-2184 | parts concatenate to the token, longer ones are keys below the limit, no neighbours can be merged below it, and every merge was the first one of lowest rank |
| Bpe.FindLowest | cpp/llama.cpp/convert_hf_to_gguf.py:2174-2179 | the first pair of lowest rank |
| Bpe.MergesConfluent | cpp/llama.cpp/convert_hf_to_gguf.py:2169-2184 | these merges lead to one result only |
| Utf8.IsValidUtf8 | cpp/gguf.cpp/LLMInference.cpp:96-129 | units one behind the other up to the end or the first zero byte |
| Utf8.ByteRanges | cpp/gguf.cpp/LLMInference.cpp:96-129 | the ranges of the first bytes of units of each size and of further bytes |
| Utf8.UnitsAreValid | cpp/gguf.cpp/LLMInference.cpp:96-129 | every sequence of units passes the check |
| Utf8.ValidIsUnits | cpp/gguf.cpp/LLMInference.cpp:96-129 | text without zero bytes that passes is a sequence of units |
| Utf8.Completion.Receive | cpp/gguf.cpp/LLMInference.cpp:155-174 | the buffered text leaves as soon as it is valid as a whole |
| Utf8.Completion.Complete | cpp/gguf.cpp/LLMInference.cpp:155-174 | emitted text and buffer are all pieces, each emitted text is valid, and the buffer is empty exactly when the whole text is valid |
| Utf8.StreamStep | cpp/gguf.cpp/LLMInference.cpp:155-174 | one piece keeps that |
| Utf8.Text32.AppendUtf8 | cpp/llama.cpp/common/console.cpp:318-336 | the bytes of a code point, or none for a too large value |
| Utf8.EncodedTextIsValid | cpp/llama.cpp/common/console.cpp:318-336 | every concatenation of encodings of non-zero code points passes the check |
| Utf8.OverlongPasses | cpp/gguf.cpp/LLMInference.cpp:96-129 | the two bytes C0 80 pass although they are no encoding |
| Utf8.UnitsThatAreEncodings | cpp/gguf.cpp/LLMInference.cpp:96-129 | a unit that passes is an encoding if and only if it is a shortest one of a code point |

## Left out

- Grammar text is modelled as lexemes, not characters, except inside character classes, which are read character by
  character; escaping of literals is left out, so constants and names with a backslash are excluded.
- Of JSON schema, `$ref`, `allOf`, patterns, string formats, string lengths and lists of types are left out; the JSON
  library's dump of a constant is a given text.
- Gbnf.ShowThenParse: starts from lexemes; spacing between them, quoting and escapes of literals are not modelled.
- Gbnf.ParseShow: the same; one symbol is read back from lexemes.
- Converter.SchemaConverter.Visit: supported schemas only. Lists have a maximum of at least 1, integers have
  bounds for which the text is exact (IntBounds.ExactBounds), literals have no backslash, and names are printable
  without quote and backslash. Where additional members are allowed, names are ASCII without brackets and caret. The
  contract is of the emitted sense; the specified one follows for settled schemas (SchemaGrammar.Convert).
- SchemaGrammar.Convert: the same.
- SchemaGrammar.ConvertShipped: the same.
- Converter.SchemaConverter.VisitList: a maximum of 0, for which the text cannot be read
  (Repetition.ReadableUnlessNone), is left out.
- Converter.SchemaConverter.VisitInteger: bounds for which the text is not exact are left out here
  (MinMaxInt.IntegerRule has them).
- Converter.SchemaConverter.VisitAdditional: declared names outside ASCII, and names with a bracket or a caret, are left
  out (see NotStrings.Exclude); the contract is of the emitted class of keys.
- Converter.SchemaConverter.BuildObjectRule: the same, where additional members are allowed.
- NotStrings.BuildTrie: names are sequences of ASCII characters; of other names the source puts single bytes into the
  trie.
- NotStrings.VisitTrie: names outside ASCII, whose single bytes do not read back as characters, and names with `]` or
  `^`, for which the source writes classes that close too early or are empty, are left out.
- NotStrings.Exclude: the same; such names are not covered by the condition on dashes.
- TakenNames.KeptExactIff: schemas that may accept both 0 and 1 and took a name are left out; for them it depends on
  all texts of the schema.
- MinMaxInt.BuildMinMaxInt: a minimum above the maximum, for which the source writes classes that run backwards or reads
  behind the end of a text, and a maximum of INT_MIN, whose negation overflows, are left out.
- MinMaxInt.IntegerRule: a minimum above the maximum is left out. The conversion from 64-bit JSON numbers to `int` is
  not modelled; the bounds are given as integers of that type's range.
- Repetition.RepetitionMeans: a negative `minItems` is not modelled; the source writes it into the grammar.
- The trie of excluded names is a value; updating its nodes in place through pointers is not modelled.
- Draft.Speculative.GenDraft: the model and its sampler are one function of the cache and the tokens accepted since
  the reset; decoding is assumed to succeed and batches to fit. Whether a draft passed back is still a good one is not
  stated.
- Draft probabilities are real numbers; rounding is not modelled.
- `ring_buffer::back` is left out: it reads the next slot to be written.
- The target model is a function of the text; evaluating a batch behind every beginning of a draft is assumed to give
  the log-odds of plain decoding.
- Lora.ReshapeIsReshape: for tensors whose last axis is not empty; the number of rows is compared where the source
  compares numbers of elements. Data types and conversion to 32 bits are left out.
- Lora.SliceIsSlice: matrices only; slicing adapters with more axes, and stacking and concatenating them, are left out.
- Lora.EllipsisIsFullSlice: matrices only.
- Lora.CatIsCat: matrices only.
- Sampling.LateCheckIsEnough: that a chain keeps its pick is an assumption here; GreedyChains.GreedyIsStable shows it of
  one class of chains, samplers that draw at random are left out.
- NgramCache.Cache.Update: counts are unbounded integers, and progress output is left out.
- NgramFile.Load: files are sequences of 32-bit words; a file that cannot be opened and bytes that do not fill a word
  are left out.
- NgramDraft.Scan: the product of counts is unbounded where the source multiplies 32-bit integers.
- The log's message formatting, colours, time stamps and files are left out; a message is a text. After a resume that
  ends the program there are no more steps.
- Experts.ExpertMerger.ModifyTensors: stacking gives the list of tensors; how tensor names are mapped is a parameter.
- Utf8.IsValidUtf8: the null pointer, for which the source answers true, is left out.
- The buffer of unfinished text after the end of a generation is not cleared by the source; its use in a next completion
  is left out.
- Chat templates, argument parsing, console display, JNI glue, downloads and the user interface.
