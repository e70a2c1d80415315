# gelo in Dafny

gelo is an embeddable interpreter for a small command language in the
spirit of Tcl. A program is text: lines of commands whose words are
symbols, numbers, `{...}` quotes, `[...]` clauses evaluated in place, and
words with the `@` (splice) and `$` (indirection) sigils. Every value is a
word. The kinds of word are symbols, numbers, booleans, lists, dicts,
quotes, errors and aliens (host commands). Every word can be written as
text and read back.

Code runs in a virtual machine (VM). A VM owns a chain of scopes and a
boundary: it writes below the boundary, and above it works on copies.
Commands come from libraries of builtins for lists, strings, dicts,
control, combinators, logic and types. Many of them read their arguments
through a small argument-specification language such as
`'on|'off name rest*`. Two tools come with the interpreter. `geli` is the
interactive prompt, which splits typed bytes into complete logical lines.
`gelrun` runs literate sources, keeping only the lines that begin with
`>`.

This project models that core as Dafny modules, one per source concern:

- `base.dfy` (Base): bytes, options, byte classes, and the key order used
  for Go maps.
- `words.dfy` (Words): the word datatype with its type names,
  serialisation, copies and equality (src/gelo/types.go, sym.go, bool.go,
  quote.go, list.go, dict.go).
- `escape.dfy` (Escape): the item codec shared by the list and dict
  serialisers (src/gelo/util.go).
- `lists.dfy` (Lists) and `dicts.dfy` (Dicts): list operations and the
  list codec; the mutable dict object and the dict codec
  (src/gelo/list.go, src/gelo/dict.go).
- `errors.dfy` (Errors): error messages and error words
  (src/gelo/error.go).
- `syntax.dfy` (Syntax), `syntaxfacts.dfy` (SyntaxFacts), `parser.dfy`
  (Parser): the parser (src/gelo/parser.go). Syntax gives it as functions
  and SyntaxFacts proves properties of them. Parser is the byte-by-byte
  object, proved to compute what Syntax says.
- `quotes.dfy` (Quotes) and `unparser.dfy` (Unparser): quotes and their
  parse memo (src/gelo/quote.go), and the unparser
  (src/gelo/unparser.go).
- `scopes.dfy` (Scopes) and `machine.dfy` (Machine): scope chains, the
  shared world, and the VM with its namespace operations
  (src/gelo/namespace.go, src/gelo/vm.go).
- `calls.dfy` (Calls) and `interp.dfy` (Interp): the evaluator's pure
  decisions, and the evaluator itself with `eval`, `Invoke*`,
  `PartialEval`, `Do`, `Exec` and `Run` (src/gelo/interpreter.go,
  src/gelo/api.go, src/gelo/vm.go).
- `api.dfy` (Api): the `*OrElse` coercions (src/gelo/api.go).
- `builtins.dfy` (Builtins): the namespace builtins
  (src/gelo/builtins.go).
- `util.dfy` (Util): Go value conversion, the byte buffer and the
  recording reader (src/gelo/util.go).
- `natives.dfy` (Natives): what the command libraries share
  (src/gelo/commands/util.go).
- `listbuilders.dfy` (ListBuilders): the list builders
  (src/gelo/extensions/listbuilder.go, extensions/listbuilder.go).
- Command libraries, one module each:
  - `listcmds.dfy` (ListCmds) and `lsort.dfy` (ListSort):
    src/gelo/commands/list.go.
  - `strcmds.dfy` (StrCmds): src/gelo/commands/string.go.
  - `dictcmds.dfy` (DictCmds): src/gelo/commands/dict.go.
  - `control.dfy` (Control): src/gelo/commands/control.go.
  - `misc.dfy` (Misc): src/gelo/commands/misc.go.
  - `combinators.dfy` (Combinators): both combinator files.
  - `logic.dfy` (Logic): commands/logic.go.
  - `typecmds.dfy` (TypeCmds): commands/types.go.
- `argspec.dfy` (ArgSpec) and `argmatch.dfy` (ArgMatch): the
  argument-specification parser and its matchers (extensions/argparse.go),
  and the commands of commands/argparse.go.
- `geli.dfy` (Geli) and `gelrun.dfy` (Gelrun): the line splitter and
  history helpers of src/tools/geli.go, and the literate filter of
  src/tools/gelrun.go.

Where the Go code updates an object field by field, the model is a class
whose methods are proved against the functions beside them. Examples are
the parser, the argument-spec parser, the VM and its world, the dict
object, the list builders, the byte buffer, and the readers of the two
tools. Where the Go code loops, the model is a method with loop
invariants. The remaining code is functions and lemmas.

Some source behaviour is evidently unintended. In each such case the
model keeps the behaviour as written, with a lemma that exhibits it, and
also gives the intended behaviour with its property proved (see the
Findings section below). Most of the model then uses the intended
version. A few as-written definitions stay in use, so that the commands
built on them behave as the code does:

- `Words.ListEquals`, the list equality as written, inside `Words.Equals`.
  Its users are `Logic.EqualsCmd`, `ListCmds.Positions`, `ListCmds.IndexOf`,
  `ListCmds.Intersection`, `ListCmds.Subseqp`, `Control.FindMatch` and
  `Control.CaseOf`. Two lists of the same length never compare equal there.
- `Lists.UnserializedFrom`, whose symbol case never succeeds. `Api` reads
  lists through it.
- `ArgSpec.Compile`, which refuses a third alternative. `ArgMatch` compiles
  specs with it.
- `Unparser.Unparse` and `Unparser.QuoteText`, which fail on a clause and
  on empty code. No other part of the model uses them.

The intended versions are `Words.ListEqualsIntended`,
`Lists.UnserializedFromIntended`, `ArgSpecIntended.Compile` and
`Unparser.QuoteTextIntended`.

## Model

| member | source | states |
|---|---|---|
| Words.FloatInt | src/gelo/number.go:59-65 | a number converts to an integer exactly when it is not NaN, is whole and does not exceed MaxInt64 |
| Words.Intern | src/gelo/sym.go:32-37 | interning the empty text gives Null; any other text gives an interned symbol holding it |
| Words.ToBool | src/gelo/bool.go:6-11 | the Go truth value becomes the Bool word with that truth value |
| Words.SymbolEquals | src/gelo/sym.go:77-79 | a symbol equals exactly the words whose serialisation is its bytes |
| Words.BoolEquals | src/gelo/bool.go:17-35 | a Bool equals only the Bool of the same truth value and serialises as `true`/`false` |
| Words.QuoteEquals | src/gelo/quote.go:44-73 | quotes, protected or not, are equal exactly when their sources are |
| Words.AlienAndDeferEquals | src/gelo/types.go:58-78 | an alien equals only itself, a defer marker equals every defer marker; their fixed serialisations |
| Words.ErrorEquals | src/gelo/error.go:113-154 | errors are equal exactly when of the same kind with the same message, and serialise as kind prefix plus message |
| Words.EqualsNotSymmetric | src/gelo/sym.go:77-79 | equality is not symmetric: the symbol `true` equals True, True does not equal the symbol |
| Words.NaNNotSelfEqual | src/gelo/number.go:93-99 | a NaN number does not equal itself |
| Words.ListEqualsAsWritten | src/gelo/list.go:201-219 | list equality as written holds exactly for lists of DIFFERENT lengths that agree on their common prefix |
| Words.ListNeverEqualsSameLength | src/gelo/list.go:206-212 | consequently two lists of the same length, a list and itself included, are never equal |
| Words.ListEqualsIntendedPairwise | src/gelo/list.go:201-219 | the intended list equality holds exactly for lists of the same length that agree at every index |
| Words.DictEqualsSameKeys | src/gelo/dict.go:179-197 | equal dicts have the same keys and equal values under every key |
| Words.ListSer | src/gelo/list.go:154-169 | a list serialises as its escaped item serialisations, space separated, between braces |
| Words.CopyProperties | src/gelo/sym.go:67-73 | a copy keeps the serialisation, turns an empty symbol into Null and is idempotent |
| Words.DeepCopySer | src/gelo/list.go:186-199 | a deep copy keeps the serialisation and the variant of every word |
| Words.DeepCopyEqualsLeft | src/gelo/dict.go:207-213 | a deep copy is Equal to exactly the words the original is Equal to |
| Words.DeepCopyIdempotent | src/gelo/list.go:186-199 | deep copying twice is deep copying once |
| Words.IsNullStringIff | src/gelo/sym.go:24-30 | IsNullString holds exactly for the symbols with empty text |
| Words.TypeName | src/gelo/sym.go:57 | every type name is enclosed in stars, as `*SYMBOL*` is |
| Words.Ser | src/gelo/list.go:154-169 | the serialisation of a list or a dict is enclosed in braces |
| Words.Copy | src/gelo/sym.go:67-73 | a copy keeps the serialisation and the type; a copied symbol is dynamic unless it is Null |
| Words.DeepCopy | src/gelo/list.go:186-199 | a deep copy keeps the type |
| Words.Equals | src/gelo/list.go:201-219 | only a symbol can equal a word of another type; every other word equals only words of its own type |
| Words.ListEquals | src/gelo/list.go:201-219 | as written, two lists that compare equal have different lengths |
| Words.ListEqualsIntended | src/gelo/list.go:201-219 | as intended, two lists that compare equal have the same length |
| Words.TypeNameInjective | src/gelo/error.go:113-138 | distinct kinds of word, the two error kinds included, report distinct type names |
| Errors.Render | src/gelo/error.go:185-232 | the rendering written to a fresh buffer is the formatter's result, a crash for an empty nested argument list |
| Errors.RenderWord | src/gelo/error.go:201-214 | a word renders by walking a list's cells, each item's rendering followed by a space; an empty symbol is named |
| Errors.RenderSlice | src/gelo/error.go:175-183 | the loop writes the first rendering, then a space and the next rendering for each further argument |
| Errors.MakeError | src/gelo/error.go:163-169 | an error carries the id of the raising VM, 0 without one, and the formatted arguments as its message |
| Errors.Killed | src/gelo/error.go:91-93 | a killed VM reports a runtime error saying it was killed |
| Errors.FormatSliceJoins | src/gelo/error.go:175-183 | the argument renderings joined by single spaces; a crash exactly for an empty list or a crashing item |
| Errors.ListRendering | src/gelo/error.go:201-207 | a list renders as each item's rendering followed by a space, the empty list as nothing |
| Errors.SpecialRenderings | src/gelo/error.go:185-213 | nil renders `NIL`, empty strings and byte slices `""`, the empty symbol is named, other words render as their serialisation |
| Errors.ArgumentErrorWithoutArgs | src/gelo/error.go:81-89 | with nil arguments the argument error says `no arguments` after `Got:` |
| Errors.EmptyArgumentsCrash | src/gelo/error.go:171-183 | raising with no arguments at all crashes in the formatter |
| Errors.ErrorWord | src/gelo/error.go:113-154 | error words compare by kind and message whatever VM raised them and serialise with their kind's prefix |
| Util.EncodeRune | src/gelo/util.go:216-217 | a code point encodes in one to four bytes, in one byte exactly when it is ASCII |
| Util.AsciiRunes | src/gelo/util.go:216-217 | ASCII code points encode as themselves, one byte each |
| Util.NumberFromGo | src/gelo/number.go:29-53 | Go numbers, and strings, byte slices and words whose text reads as a number, become numbers; nil and other types do not |
| Util.ConvertKnown | src/gelo/util.go:195-257 | conversion fails only on a value of unknown type, alone or inside a slice or map |
| Util.NumberFirst | src/gelo/util.go:197-198 | numbers are tried first: text that reads as a number converts to that number, text kept |
| Util.ConvertStrings | src/gelo/util.go:218-230 | a slice of strings becomes the list of their interned symbols in order, the empty slice the empty list |
| Util.ConvertWords | src/gelo/util.go:231-232 | a slice of words becomes the list `NewListFrom` builds from it |
| Util.ConvertValues | src/gelo/util.go:233-245 | a slice of Go values converts element by element and fails if any element does |
| Util.Buffer.WriteWord | src/gelo/util.go:56-66 | appends a word's serialisation, `NIL` for nil and `{}` for the nil list |
| Util.Buffer.CopyBytes | src/gelo/util.go:68-73 | returns the contents and leaves the buffer empty |
| Util.Buffer.Bytes | src/gelo/util.go:87-91 | returns the contents and leaves the buffer empty |
| Util.Buffer.String | src/gelo/util.go:93-98 | returns the contents, nothing when empty, and leaves the buffer empty |
| Util.Dup | src/gelo/util.go:100-104 | a copy holds the same bytes |
| Util.RecordingReader.Read | src/gelo/util.go:24-31 | passes on what the source yields and appends it to the record unless the read failed |
| Util.NewRecordingReader | src/gelo/util.go:17-22 | a recording reader is returned as it is; any other reader is wrapped with an empty record |
| Util.RecordAll | src/gelo/util.go:24-35 | reading a source to its end through a recorder records exactly the bytes delivered, in order |
| Util.ReadStep | src/gelo/util.go:24-31 | one successful read takes its bytes off the front of what the source has left |
| Api.NumberOrElse | src/gelo/api.go:26-35 | a number as it is, a word whose serialisation reads as a number as that number, otherwise a type mismatch naming `number` |
| Api.QuoteOrElse | src/gelo/api.go:37-43 | quotes only, protected or not; anything else a type mismatch |
| Api.ListOrElse | src/gelo/api.go:45-54 | a list's items, or what a symbol or quote unserialises to; a type mismatch otherwise, a Go panic on a read past the end |
| Api.DictOrElse | src/gelo/api.go:56-65 | a dict's bindings, or what a symbol or quote unserialises to; a type mismatch otherwise |
| Api.BoolOrElse | src/gelo/api.go:83-89 | a Bool's truth value, otherwise a type mismatch naming `bool` |
| Api.SymbolOrElse | src/gelo/api.go:91-97 | a symbol's text; a number is a type mismatch although it prints as text |
| Api.AlienOrElse | src/gelo/api.go:99-105 | the id of an alien, otherwise a type mismatch |
| Api.LiteralOrElse | src/gelo/api.go:112-122 | the text of a symbol or quote, which is its serialisation, otherwise a type mismatch |
| Api.ListOrElseReadsSource | src/gelo/api.go:45-54 | a list serialised into a quote's source reads back item by item as symbols of the same text |
| Api.DictOrElseReadsSource | src/gelo/api.go:56-65 | a dict's entries held as a quote's source read back, each value as the symbol of its text |
| Escape.EscapeItem | src/gelo/util.go:107-131 | the loop writes each special byte after a backslash and quotes the result exactly when the item is empty or holds a blank |
| Escape.EscapedQuotedIff | src/gelo/util.go:123-129 | an encoding starts with a double quote exactly when the item is empty or holds a blank |
| Escape.UnescapeItem | src/gelo/util.go:133-175 | reads one item from `pos` with each escape taking two bytes: the item, the position after it, or failure |
| Escape.UnescapeEscapedWhole | src/gelo/util.go:107-175 | with escapes taking two bytes, `UnescapeItem(EscapeItem(b), 0)` gives back `b` |
| Escape.UnescapeEscaped | src/gelo/util.go:107-175 | the same round trip with the encoding placed after any prefix and followed by a terminator |
| Escape.UnescapeAsWrittenDropsByte | src/gelo/util.go:147-156 | as written, `{x` encodes as `\{x` and reads back as `{`: the byte after an escape is lost |
| Escape.ScanAsWrittenAdvances | src/gelo/util.go:147-173 | the scanner as written never moves back and stays put only at a blank or `}` it stops on |
| Escape.UnescapeAsWrittenAdvances | src/gelo/util.go:133-175 | a read as written moves on unless it stops at once on a blank or `}` |
| Escape.ScanAgreesWithoutEscapes | src/gelo/util.go:147-173 | on text without backslashes the scanner as written and the corrected one agree |
| Escape.UnescapeAdvances | src/gelo/util.go:133-175 | a successful read ends at or after its start and within the input |
| Escape.QuotedBraceIsMalformed | src/gelo/util.go:164-170 | a quoted item meeting `}` before its closing quote is malformed |
| Escape.TrailingBackslashIsMalformed | src/gelo/util.go:148-152 | a trailing backslash makes the item malformed |
| Escape.ScanStopsAtTerminator | src/gelo/util.go:157-166 | an unquoted item ends at the end, a space or `}`; a quoted one just after `"` or at the end |
| Escape.UnterminatedQuoteAccepted | src/gelo/util.go:147-174 | an unterminated quoted item is accepted |
| Escape.SkipBlanksSkipsBlanks | src/gelo/util.go:177-193 | every byte skipped is blank |
| Escape.SlurpWS | src/gelo/util.go:177-193 | returns the first position at or after `pos` that is not blank, the end if there is none |
| ListBuilders.Builder.List | src/gelo/listbuilder.go:18-20 | the chain from `head`, its cells in order |
| ListBuilders.Builder.Push | src/gelo/listbuilder.go:22-35 | appends a cell holding the word, or crashes with the builder unchanged when `head` is set and `tail` nil |
| ListBuilders.Builder.PushFront | src/gelo/listbuilder.go:37-43 | puts a cell first and leaves `tail` as it was, nil on an empty builder |
| ListBuilders.Builder.Extend | src/gelo/listbuilder.go:45-49 | appends a cell for each element of the list, in order, unless the first append crashes |
| ListBuilders.Builder.ExtendFront | src/gelo/listbuilder.go:51-59 | the list's cells come first, followed by the old chain; `tail` untouched |
| ListBuilders.Builder.Destroy | src/gelo/extensions/listbuilder.go:20-22 | clears `head` and `tail` |
| ListBuilders.PushAfterFrontPush | src/gelo/listbuilder.go:22-43 | after `PushFront` on an empty builder, the next `Push` dereferences the nil `tail` |
| ListBuilders.ExtendAfterFrontExtend | src/gelo/listbuilder.go:22-59 | the same crash follows `ExtendFront` of a non-empty list on an empty builder |
| ListBuilders.PushedInOrder | src/gelo/listbuilder.go:22-35 | a builder pushed only at the back holds the pushed words in order and never crashes |
| ListBuilders.CountingBuilder.Len | extensions/listbuilder.go:76-78 | reports the counter, not a count of the cells |
| ListBuilders.CountingBuilder.Push | extensions/listbuilder.go:33-47 | one more cell and one more count, unless the nil `tail` is dereferenced first |
| ListBuilders.CountingBuilder.ExtendFront | extensions/listbuilder.go:64-74 | the list's cells come first, but the count grows by one less than the number of cells added |
| ListBuilders.CountingBuilder.Destroy | extensions/listbuilder.go:23-25 | clears `head` and `tail` and keeps the counter |
| ListBuilders.LenAfterDestroy | extensions/listbuilder.go:23-25 | `Len` still reports the old count after `Destroy` |
| Lists.NewListFrom | src/gelo/list.go:9-20 | the list has the slice's length, its first element as it is and every later element `Copy`'d |
| Lists.CopiedElementsKeepSer | src/gelo/list.go:9-20 | copying the elements keeps the serialisation of the list they form |
| Lists.Slice | src/gelo/list.go:102-118 | an array of the list's length holding its values in order |
| Lists.Len | src/gelo/list.go:120-125 | the number of cells |
| Lists.Map | src/gelo/list.go:127-137 | `f` applied to every value, in order |
| Lists.MapOrApply | src/gelo/list.go:142-150 | Null for the empty list, `f` of the value for a singleton, otherwise the mapped list |
| Lists.AsList | src/gelo/list.go:95-100 | a list is returned as it is, any other word as a singleton |
| Lists.SerList | src/gelo/list.go:154-169 | the loop writes exactly the list's serialisation |
| Lists.CopyList | src/gelo/list.go:171-184 | fresh cells holding the same values |
| Lists.DeepCopyList | src/gelo/list.go:186-199 | fresh cells holding the deep copies of the values |
| Lists.UnserializeList | src/gelo/list.go:40-73 | the loop reads the items as `Unserialized` specifies them, with escapes taking two bytes |
| Lists.UnserializedFrom | src/gelo/list.go:75-92 | a symbol is read with its braces, a quote's source without them, any other word fails |
| Lists.UnserializedFromAsWritten | src/gelo/list.go:75-92 | the same, over the item scanner as written |
| Lists.ListSerRoundTripFailsAsWritten | src/gelo/list.go:40-73 | as written, the list holding the symbol `{x` serialises to `{\{x}` and reads back as `{`, not `{x` |
| Lists.ItemLoopEndsAtEnd | src/gelo/list.go:50-64 | the item loop only ever stops at the end of the input |
| Lists.EncodedNeverUnserializes | src/gelo/list.go:65-67 | with `enc` set, unserialising never succeeds: the closing-brace test indexes one past the end |
| Lists.EncodedExamples | src/gelo/list.go:65-67 | `{}` is rejected and `{` crashes with `enc` set |
| Lists.ItemLoopSymbols | src/gelo/list.go:55-62 | every item read is a dynamic symbol |
| Lists.UnserializedSymbols | src/gelo/list.go:40-73 | a successful read yields dynamic symbols only |
| Lists.BlankIsEmpty | src/gelo/list.go:40-72 | blank input without braces is the empty list |
| Lists.UnserializedIntended | src/gelo/list.go:65-67 | as intended, with `enc` set the items are read only between an opening `{` and a closing `}`; without `enc` it reads as the code does |
| Lists.UnserializedFromIntended | src/gelo/list.go:75-92 | as intended, a symbol is read with its braces by `UnserializedIntended`; any other word reads as the code does |
| Lists.EncodedRoundTripIntended | src/gelo/list.go:65-67 | the symbol holding a list's serialisation reads back as the symbols of its items' serialisations under the intended reader, and never under the code as written |
| Lists.UnserializeJoined | src/gelo/list.go:50-64 | the joined encodings of some items read back as those items, as symbols |
| Lists.ListSerRoundTrip | src/gelo/list.go:40-73 | with escapes taking two bytes, a list's serialisation without braces, as a quote's source, reads back as the symbols of its items' serialisations, a list with the same serialisation |
| Dicts.Dictionary.constructor | src/gelo/dict.go:3-5 | an empty dict with a valid (empty) cache |
| Dicts.Dictionary.StrGet | src/gelo/dict.go:121-127 | the bound value and true, or Null and false for a missing key |
| Dicts.Dictionary.Get | src/gelo/dict.go:117-119 | `StrGet` keyed by the serialisation of the name |
| Dicts.Dictionary.StrSet | src/gelo/dict.go:133-136 | binds the key, keeps every other binding and drops the cached serialisation |
| Dicts.Dictionary.Set | src/gelo/dict.go:129-131 | `StrSet` keyed by the serialisation of the name |
| Dicts.Dictionary.StrDel | src/gelo/dict.go:151-154 | removes the key, keeps every other binding and drops the cache |
| Dicts.Dictionary.Del | src/gelo/dict.go:147-149 | `StrDel` keyed by the serialisation of the name |
| Dicts.Dictionary.Ser | src/gelo/dict.go:156-177 | the dict's serialisation, from the cache when present, which is then cached |
| Dicts.Dictionary.Copy | src/gelo/dict.go:199-205 | a new dict with the same bindings, sharing the values |
| Dicts.Dictionary.DeepCopy | src/gelo/dict.go:207-213 | a new dict binding every key to the deep copy of its value |
| Dicts.Dictionary.Map | src/gelo/dict.go:104-110 | a fresh map with the same bindings |
| Dicts.SerMap | src/gelo/dict.go:160-175 | the serialisation of a map with nothing cached: one escaped `{key value}` entry per key between braces |
| Dicts.WriteEntries | src/gelo/dict.go:160-175 | the serialising loop writes an opening brace, one entry per key in order, a closing brace |
| Dicts.NewDictFrom | src/gelo/dict.go:7-13 | every value is stored as its `Copy` |
| Dicts.ReadEntryAt | src/gelo/dict.go:49-69 | the body of the entry loop reads `{`, a key, a value and `}` as `ReadEntry` specifies |
| Dicts.UnserializeDict | src/gelo/dict.go:25-83 | the loop stores the bindings `Unserialized` specifies, with escapes taking two bytes |
| Dicts.UnserializedFrom | src/gelo/dict.go:85-102 | a symbol is read enclosed in braces, a quote's source without, any other word fails |
| Dicts.UnserializedFromAsWritten | src/gelo/dict.go:85-102 | the same, over the item scanner as written |
| Dicts.StoreBinds | src/gelo/dict.go:49-69 | after the entry loop, the keys read are bound to their values' symbols and every other binding is kept |
| Dicts.ReadWrittenEntry | src/gelo/dict.go:49-69 | the entry written for a key and a value reads back as that key and value |
| Dicts.DictSerRoundTrip | src/gelo/dict.go:25-83 | with escapes taking two bytes, a dict's serialisation unserialises, `enc` set, to its keys bound to the symbols of their values' serialisations, which serialise the same |
| Dicts.DictSourceRoundTrip | src/gelo/dict.go:25-83 | without `enc`, a dict's entries as a quote's source read back the same way |
| Dicts.DictSerRoundTripFailsAsWritten | src/gelo/dict.go:49-69 | as written, the dict binding `{x` to `y` does not read back: the byte after the escaped brace is lost |
| Dicts.EmptyDictSer | src/gelo/dict.go:25-83 | `{}` unserialises, `enc` set, to the empty dict |
| Dicts.EmptyInputs | src/gelo/dict.go:25-43 | blank input without `enc` and `{}` with it are the empty dict; empty input with `enc` indexes past the end |
| Dicts.MissingValue | src/gelo/dict.go:57-69 | an entry whose value is missing binds its key to an empty symbol |
| Dicts.LastDuplicateWins | src/gelo/dict.go:68-69 | a later entry for a key overwrites an earlier one |
| Dicts.MissingClosingBrace | src/gelo/dict.go:70-82 | with `enc`, an input whose closing brace is missing is still accepted |
| Syntax.Start | src/gelo/parser.go:376-381 | the parser starts with nothing read and fuel for two steps per input byte |
| Syntax.Adv | src/gelo/parser.go:61-69 | at the end of input nothing changes; otherwise the next byte is under the cursor and the position moves by one |
| Syntax.Next | src/gelo/parser.go:71-156 | a step records the current byte, moves on and leaves a classified byte under the cursor, always making progress before the end |
| Syntax.WordLiteral | src/gelo/parser.go:197-222 | a bare word is a number exactly when it may start one and the number reader accepts it, keeping its text; otherwise the interned symbol of its text; either way it serialises as its text |
| Syntax.SkipSpaces | src/gelo/parser.go:316 | skipping stops on the first byte that is not a space, at once if there is none |
| Syntax.CommentLoop | src/gelo/parser.go:331-341 | a comment runs to a line end or the end of input, and says which |
| Syntax.ParseLine | src/gelo/parser.go:305-371 | a line parses to well-formed tokens, a clause to at least one token, each step moving forward |
| Syntax.CommentLine | src/gelo/parser.go:329-351 | a line that starts with `#` gives no tokens: the comment runs to the first line end, `;` included, or to the end of input |
| Syntax.Parse | src/gelo/parser.go:373-396 | a script parses to commands that each hold at least one well-formed token, or to the first syntax error |
| Parser.Parser.constructor | src/gelo/parser.go:376-380 | the parser's state is the start state for its input |
| Parser.Parser.Adv | src/gelo/parser.go:61-69 | the new state is `Adv` of the old one |
| Parser.Parser.Next | src/gelo/parser.go:71-156 | the new state, or the syntax error, is what `Next` gives for the old state |
| Parser.Parser.EscapeStep | src/gelo/parser.go:81-128 | the escape branch does what `EscapeStep` specifies |
| Parser.Parser.StarSkip | src/gelo/parser.go:89-104 | the `\*` loop skips blanks as `StarSkip` specifies |
| Parser.Parser.ReadOut | src/gelo/parser.go:158-162 | returns the recorded bytes, stops recording and empties the buffer |
| Parser.Parser.SkipSpaces | src/gelo/parser.go:316 | the loop does what `SkipSpaces` specifies |
| Parser.Parser.RQuote | src/gelo/parser.go:228-268 | moves to the `}` closing the quote as `RQuote` specifies, or fails with its error |
| Parser.Parser.LeadingEscape | src/gelo/parser.go:239-245 | a quote's leading backslash is written with the byte after it starting the body |
| Parser.Parser.QuoteLoop | src/gelo/parser.go:252-267 | the depth-counting loop does what `QuoteLoop` specifies |
| Parser.Parser.ParseQuote | src/gelo/parser.go:270-282 | gives the quote token `ParseQuote` specifies, or its error |
| Parser.Parser.ParseString | src/gelo/parser.go:284-303 | gives the string token `ParseString` specifies, or its error |
| Parser.Parser.StringBody | src/gelo/parser.go:294-302 | the part after a first byte that is not the closing quote, as `StringBody` specifies |
| Parser.Parser.SkipComment | src/gelo/parser.go:331-341 | the comment loop does what `CommentLoop` specifies |
| Parser.Parser.ParseWord | src/gelo/parser.go:164-226 | gives the token `ParseWord` specifies, or its error |
| Parser.Parser.BareWord | src/gelo/parser.go:196-224 | a bare word recorded to the first byte that ends it, tried as a number, as `PlainWord` specifies |
| Parser.Parser.Token | src/gelo/parser.go:359-367 | one token, as `Token` specifies |
| Parser.Parser.ParseLine | src/gelo/parser.go:305-371 | the tokens of a line or clause as `ParseLine` specifies, or its error |
| Parser.Parse | src/gelo/parser.go:373-396 | the commands `Parse` specifies, every one non-empty and well formed, or exactly its syntax error |
| SyntaxFacts.TrailingBackslash | src/gelo/parser.go:81-85 | a step fails exactly when all that is left of the input is one backslash |
| SyntaxFacts.ControlEscape | src/gelo/parser.go:109-113 | in code, `\n`, `\t` and the other control letters become their control byte, as a plain byte |
| SyntaxFacts.LiteralEscape | src/gelo/parser.go:109-114 | in code any other escaped byte is taken as it is, as a plain byte, so `\$` is no sigil |
| SyntaxFacts.StringEscape | src/gelo/parser.go:115-120 | in a string `\"` is a quote that does not end it, and any other escape keeps its backslash |
| SyntaxFacts.QuoteEscape | src/gelo/parser.go:121-125 | in a quote nothing is resolved: every escape, `\*` included, keeps its backslash when recording |
| SyntaxFacts.StarSkipsBlanks | src/gelo/parser.go:89-104 | outside quotes `\*` skips the blanks after it and classifies the first other byte as it stands |
| SyntaxFacts.StarSkipsToEnd | src/gelo/parser.go:91-95 | `\*` followed by blanks only reaches the end of input |
| SyntaxFacts.QuoteLoopVerbatim | src/gelo/parser.go:252-267 | a recorded quote's body is copied byte for byte up to the `}` that closes it |
| SyntaxFacts.RQuoteVerbatim | src/gelo/parser.go:228-268 | the buffer gains exactly the input between the opening `{` and its matching `}` |
| SyntaxFacts.LeadingEscapeVerbatim | src/gelo/parser.go:239-245 | a backslash a quote starts with is kept with the byte it escapes |
| SyntaxFacts.QuoteTextVerbatim | src/gelo/parser.go:270-280 | a quote token's text is the input between its braces, verbatim |
| SyntaxFacts.EmptyQuoteIsNoop | src/gelo/parser.go:270-281 | `{}` is the empty protected quote |
| SyntaxFacts.EmptyQuoteKeepsQuoteMode | src/gelo/parser.go:246-249 | `{}` returns before the escape mode is reset, so the next byte is read in quote mode |
| SyntaxFacts.SymbolUnlessNumeric | src/gelo/parser.go:198-206 | a word whose first byte cannot start a number is an interned symbol whatever the number reader says |
| SyntaxFacts.NumberKeepsText | src/gelo/parser.go:212-218 | a word that reads as a number keeps its own text as its serialisation |
| SyntaxFacts.WordLoopVerbatim | src/gelo/parser.go:208-214 | recording a word with no backslash ahead adds the input up to the first byte that ends a word |
| SyntaxFacts.WordLoopStops | src/gelo/parser.go:208-214 | a word runs over bytes that do not end it and stops on one that does |
| SyntaxFacts.WordVerbatim | src/gelo/parser.go:164-226 | a bare word is the longest run of bytes from its start that do not end a word, and serialises as that text |
| SyntaxFacts.LeadingBraceNotCounted | src/gelo/parser.go:239-251 | a quote's first byte never opens a nested quote: `{{a}}` closes at the first `}` |
| SyntaxFacts.InnerBraceCounted | src/gelo/parser.go:254-255 | a `{` later in a quote does open a nested one |
| SyntaxFacts.QuoteLoopUnrecorded | src/gelo/parser.go:336-338 | stepping over a quote without recording leaves the buffer alone |
| SyntaxFacts.CommentQuoteLeavesBackslash | src/gelo/parser.go:239-245 | a quote in a comment starting with a backslash writes it to the buffer although nothing is recorded |
| SyntaxFacts.EmptyStringLeavesBackslash | src/gelo/parser.go:284-292 | after `""` the next byte is still read in string mode, so an escape there writes its backslash to the buffer |
| SyntaxFacts.FirstTokenFails | src/gelo/parser.go:342-368 | a script whose first token fails to parse fails as a whole with that token's error |
| SyntaxFacts.EmptyClauseRejected | src/gelo/parser.go:317-319 | a script starting `[]` fails with the empty-clause error |
| SyntaxFacts.UnclosedClauseRejected | src/gelo/parser.go:347-350 | a script whose `[` is followed only by blanks up to a line end (newline or `;`) or the end of input fails with `[ without ]` |
| SyntaxFacts.StrayCloseClauseRejected | src/gelo/parser.go:353-356 | a script starting `]` fails with `] before [` |
| SyntaxFacts.StrayCloseQuoteRejected | src/gelo/parser.go:345-346 | a script starting `}` fails with `} before {` |
| SyntaxFacts.UnterminatedStringRejected | src/gelo/parser.go:284-303 | a script that opens a string with `"` and has no other `"` and no backslash after it fails with the unterminated-string error |
| SyntaxFacts.UnterminatedQuoteRejected | src/gelo/parser.go:228-268 | a script that opens a quote with `{` and has no other brace and no backslash after it fails with `{ without }` |
| SyntaxFacts.LoneSigilRejected | src/gelo/parser.go:181-184 | a `$` or `@` followed by a space fails with `Sigil precedes nothing` |
| SyntaxFacts.TopLoopKeepsOrder | src/gelo/parser.go:382-393 | the loop of `parse` only appends: the commands read so far stay first, in order |
| Quotes.Code | src/gelo/quote.go:7-34 | empty source has no code but parses; otherwise the parsed commands, or nothing on a syntax error |
| Quotes.Memo.Fcode | src/gelo/quote.go:7-34 | gives the code of the source whatever the memo held; a literal quote, or one already parsed, is not parsed again |
| Quotes.FcodeTwice | src/gelo/quote.go:7-34 | asking twice gives the same answer, and the second time nothing is parsed unless the code is empty |
| Quotes.Unprotect | src/gelo/quote.go:42-65 | either kind of quote unprotects to the plain quote over the same source |
| Quotes.QuoteValue | src/gelo/quote.go:44-80 | a quote serialises to its source, is its own copy and deep copy, and equals exactly the quotes over the same source |
| Quotes.NoopCode | src/gelo/quote.go:5-16 | `Noop` is the protected quote of empty source, whose code is nil and which parses |
| Unparser.UnparseLine | src/gelo/unparser.go:3-23 | writes the text of a line, each token followed by a space; a failure keeps what was written before |
| Unparser.UnparseNode | src/gelo/unparser.go:5-21 | one token: a literal's serialisation, a sigil and its operand, or a nested quote's unparse, then a space |
| Unparser.UnparseSigil | src/gelo/unparser.go:8-15 | `@` or `$`, then the operand token with its own space, then one more space |
| Unparser.UnparseNested | src/gelo/unparser.go:18-19 | a nested quote is written as its own unparse |
| Unparser.Unparse | src/gelo/unparser.go:25-43 | the quote's source when it does not parse, otherwise its lines' texts |
| Unparser.UnparseLines | src/gelo/unparser.go:31-42 | the lines' texts with a newline after each but the last |
| Unparser.LiteralLine | src/gelo/unparser.go:6-7 | a line of literals unparses to their serialisations, each followed by one space |
| Unparser.SigilText | src/gelo/unparser.go:8-15 | a sigil puts `@` or `$` before its operand's text, followed by two spaces |
| Unparser.ClauseNeverUnparses | src/gelo/unparser.go:16-17 | a clause anywhere in a line keeps it from ever being unparsed: the walk recurses on the clause itself |
| Unparser.UnparsableIsSource | src/gelo/unparser.go:26-30 | a quote whose source does not parse unparses to its source, braces not restored |
| Unparser.EmptyCodeCrashes | src/gelo/unparser.go:32-33 | empty source has no code to walk: `unparse` dereferences nil, and so does a nested `{}` |
| Unparser.LinesJoined | src/gelo/unparser.go:31-42 | when every command unparses, the result is their texts joined by newlines |
| Unparser.NodeText | src/gelo/unparser.go:5-21 | a token that unparses has text ending in a space; only literals, sigils and nested quotes unparse, never a clause |
| Unparser.NodeUnparses | src/gelo/unparser.go:16-17 | as intended, every token unparses unless fuel runs out, and where the code's walk gives a text the intended walk gives the same text |
| Unparser.LineUnparses | src/gelo/unparser.go:3-23 | the same for a line of tokens |
| Unparser.LinesUnparse | src/gelo/unparser.go:31-42 | the same for the commands of a quote |
| Unparser.QuoteUnparses | src/gelo/unparser.go:25-43 | the same for a whole quote, empty code included |
| Unparser.IntendedExamples | src/gelo/unparser.go:16-17 | as intended, `{}` unparses to nothing and a clause holding one literal unparses to `[` and the literal's text, then `] ` |
| Scopes.ChainDescends | src/gelo/namespace.go:71-78 | a walk up the parent links never visits a scope twice |
| Scopes.ChainExtends | src/gelo/namespace.go:43-49 | scopes created later do not change an existing walk |
| Scopes.FirstWithIsNearest | src/gelo/namespace.go:209-230 | no scope before the nearest holder binds the name, and the holder, if any, does |
| Scopes.Up | src/gelo/namespace.go:71 | one step up the walk is the parent of the scope left |
| Scopes.DictAt | src/gelo/namespace.go:73 | the dict of the scope at a position of the walk |
| Scopes.LookupWalk | src/gelo/namespace.go:209-230 | the walk of `Lookup` gives what the name means: the nearest binding, unless it lies at or above the boundary and the name is blacklisted |
| Scopes.HasWalk | src/gelo/namespace.go:155-169 | the walk of `Has` answers whether the name means anything |
| Scopes.DepthWalk | src/gelo/namespace.go:136-153 | the walk of `DepthOf` counts the scopes visited, the holder included, and says whether it found the name |
| Scopes.DepthStops | src/gelo/namespace.go:136-153 | the count stops past the holder, at a boundary the name is blacklisted from, or at the end |
| Scopes.CopyOutWalk | src/gelo/namespace.go:70-80 | the nearest binding over the whole walk, deep copied, with no boundary or blacklist |
| Scopes.FirstWithSame | src/gelo/namespace.go:209-230 | only the dicts along a walk decide what a name means on it |
| Scopes.MeaningOtherKey | src/gelo/namespace.go:57-61 | rebinding one name in one dict changes the meaning of no other name |
| Scopes.MeaningUnderFork | src/gelo/namespace.go:98-106 | pushing a scope with an empty dict in front of a walk changes the meaning of no name |
| Scopes.MergeInto | src/gelo/namespace.go:190-203 | the inner loop of `Locals` adds every name of one dict not yet gathered nor blacklisted above the boundary |
| Scopes.ViewIsMeaning | src/gelo/namespace.go:174-207 | the gathered view binds exactly the names that mean something, to what they mean |
| Scopes.LocalsIsView | src/gelo/namespace.go:174-207 | `Locals(lvls)` is what every name means on the first `lvls` scopes of the walk |
| Scopes.LocalsWalk | src/gelo/namespace.go:174-207 | the walk of `Locals`: the current scope's dict, then one merging pass per further scope visited |
| Scopes.LevelOwned | src/gelo/namespace.go:248-264 | every level that resolves is an owned scope; a level at or beyond the boundary does not resolve |
| Scopes.LevelWalk | src/gelo/namespace.go:253-258 | the loop of `_nthlvl` stops at the scope at the level's position |
| Scopes.InjectInto | src/gelo/namespace.go:279-287 | every binding of the injected dict is written into the target, overriding, the rest kept |
| Scopes.DelWalk | src/gelo/namespace.go:303-334 | below the boundary the owned holder is found; from the boundary on, a holder is found without consulting the blacklist |
| Scopes.WriteWalk | src/gelo/namespace.go:382-413 | the scope a write lands in, the value found (deep copied at or above the boundary) and whether it was found |
| Scopes.SwapWalk | src/gelo/namespace.go:415-508 | the scope each name's write lands in and the value found for it, once both are found; nothing when either is undefined or blacklisted |
| Scopes.SwapMissed | src/gelo/namespace.go:415-508 | a walk that stops before noting both names finds nothing |
| Scopes.SwapFound | src/gelo/namespace.go:415-508 | once both names are noted, the notes are what the walk promises |
| Scopes.WriteMeaning | src/gelo/namespace.go:398-408 | binding a name in an owned scope with no nearer holder makes the name mean the new value |
| Machine.World.NewScope | src/gelo/namespace.go:43-45 | a scope over the parent with a fresh empty dict; every earlier scope kept |
| Machine.World.NewScopeFrom | src/gelo/namespace.go:47-49 | a scope over the parent sharing the given dict |
| Machine.World.NextId | src/gelo/vm.go:59-62 | ids are issued one more than the last one |
| Machine.RootedGrows | src/gelo/namespace.go:43-49 | walks that exist before scopes are added are unchanged by them |
| Machine.SpawnedRooted | src/gelo/vm.go:78-80 | a spawned VM's walk is its new scope, then its boundary, the parent's current scope |
| Machine.VM.Lookup | src/gelo/namespace.go:209-230 | what the name's serialisation means to the VM |
| Machine.VM.LookupOrElse | src/gelo/namespace.go:232-238 | the meaning, or VariableUndefined naming the name |
| Machine.VM.Has | src/gelo/namespace.go:155-169 | whether the name means anything to the VM |
| Machine.VM.DepthOf | src/gelo/namespace.go:136-153 | how many scopes the walk visits to find the name, holder included, and whether it finds it |
| Machine.VM.Depth | src/gelo/namespace.go:119-125 | the length of the whole walk |
| Machine.VM.LocalDepth | src/gelo/namespace.go:127-134 | the number of scopes the VM owns, those below its boundary |
| Machine.VM.Locals | src/gelo/namespace.go:174-207 | the current scope's bindings, then those of further scopes not yet bound, as `LocalsIsView` characterises |
| Machine.VM.Get | src/gelo/namespace.go:240-242 | the binding of the current scope only |
| Machine.VM.CopyOut | src/gelo/namespace.go:70-80 | the nearest binding from the current scope, deep copied, with no boundary |
| Machine.VM.Fork | src/gelo/namespace.go:98-106 | a new current scope over the old one, with a fresh dict or sharing the supplied scope's dict; no name changes meaning |
| Machine.VM.Unfork | src/gelo/namespace.go:109-117 | pops the current scope unless its parent is the boundary, which is reported as a failure |
| Machine.VM.Set | src/gelo/namespace.go:244-246 | binds the name in the current scope, where it then means the value |
| Machine.VM.NthLevel | src/gelo/namespace.go:248-264 | level 0 is the current scope, a negative level the topmost owned scope, a level at or past the boundary none |
| Machine.VM.NSet | src/gelo/namespace.go:268-275 | binds the name at the level, or reports false for a level that does not exist |
| Machine.VM.Inject | src/gelo/namespace.go:279-287 | every binding of the dict is written into the current scope, overriding |
| Machine.VM.NInject | src/gelo/namespace.go:289-301 | `Inject` at a level, or false for a level that does not exist |
| Machine.VM.Del | src/gelo/namespace.go:303-334 | an owned binding is removed and returned; one found only at or above the boundary stays and the name is blacklisted, so it no longer means anything, or the nil heritage of a root VM is dereferenced; an unbound name is NotOk |
| Machine.VM.DelAsWritten | src/gelo/namespace.go:313-318 | as written, the blacklist entry goes to the undeclared `s`, a parameter here; the deleted name keeps its meaning when `s` differs |
| Machine.VM.MutateBy | src/gelo/namespace.go:343-378 | returns the name's meaning and, when `f` gives a new value, stores it where a write of the name lands |
| Machine.VM.Mutate | src/gelo/namespace.go:382-413 | a defined name that is not blacklisted gets the value, stored where a write lands, and then means it |
| Machine.VM.MutateAsWritten | src/gelo/namespace.go:398-407 | as written, a name found at or above the boundary is stored with a deep copy of its old value, so it keeps its meaning |
| Machine.VM.Swap | src/gelo/namespace.go:415-508 | when both names are found and not blacklisted, each name's value is stored where a write of the other lands, and each then means the other's old value; otherwise nothing changes |
| Machine.SwappedMeanings | src/gelo/namespace.go:415-508 | what `Swap` finds for each name is what the name means |
| Machine.SwapWrites | src/gelo/namespace.go:415-508 | the two writes leave each name meaning the value written for it |
| Machine.SwappedTargets | src/gelo/namespace.go:415-508 | each write lands at the name's owned holder, else at the topmost owned scope |
| Machine.VM.Dismantle | src/gelo/vm.go:97-129 | the VM leaves its parent's children, its children are sent a kill signal, its scopes are let go only when it had no children map, and it is dead |
| Machine.VM.Sanity | src/gelo/vm.go:38-49 | a destroyed VM raises SystemError; a VM with a pending kill signal is destroyed, then raises; any other VM passes unchanged |
| Machine.VM.Destroy | src/gelo/vm.go:95-130 | the sanity check, then the body: a second `Destroy` raises SystemError |
| Machine.VM.Kill | src/gelo/vm.go:132-144 | a live VM gets a kill signal; a destroyed one has no channel and nothing happens |
| Machine.VM.Redirect | src/gelo/vm.go:147-151 | the port changes and the old one is returned |
| Machine.VM.Spawn | src/gelo/vm.go:74-93 | a child whose boundary is this VM's current scope and whose current scope is fresh, recorded as this VM's child |
| Machine.VM.SetProgram | src/gelo/vm.go:311-330 | a program that parses becomes the VM's program; one that does not leaves it as it was and the syntax error is returned |
| Machine.VM.ParseProgram | src/gelo/vm.go:333-349 | the source read becomes the program when it parses; otherwise its syntax error is returned |
| Machine.VM.Read | src/gelo/vm.go:181-307 | the nearest binding, deep copied with no boundary, converted as asked; NotOk when absent or of another type |
| Machine.ForkedMeanings | src/gelo/namespace.go:98-106 | forking an empty scope in front of a walk changes the meaning of no name |
| Machine.PoppedWalk | src/gelo/namespace.go:109-117 | popping a current scope whose parent is not the boundary leaves a walk that still reaches the boundary |
| Machine.OtherKeyMeaning | src/gelo/namespace.go:57-61 | binding another name in one dict does not change what a name means |
| Machine.NewVMRaw | src/gelo/vm.go:53-64 | a VM with the next id, a fresh kill switch and no scope |
| Machine.NewVM | src/gelo/vm.go:66-72 | a VM whose only scope is a new root binding `arguments` to Null |
| Machine.Extract | src/gelo/vm.go:217-225 | a found value of the wrong type is NotOk, never a crash |
| Machine.ExtractAsWritten | src/gelo/vm.go:217-225 | as written, `ReadMap` does not check its type assertion, so a non-dict value crashes |
| Machine.ReadMapCrashes | src/gelo/vm.go:217-225 | the two conversions differ exactly where `ReadMap` meets a value that is not a dict |
| Interp.TopFirstPush | src/gelo/interpreter.go:162-176 | the handler deferred last is run first: pushing a handler puts its command ahead of all earlier deferred work |
| Interp.Bind | src/gelo/interpreter.go:150-157 | entering a pass sets `arguments` in the current scope's dict to the argument list, returns the previous binding (or its absence) for restoring, and leaves every other name's meaning unchanged |
| Interp.RestoreArgs | src/gelo/interpreter.go:153-157 | the deferred restore puts the earlier `arguments` back, or deletes the name when it was unbound, and touches no other dict |
| Interp.TakeKill | src/gelo/interpreter.go:188-191 | a kill is taken exactly when the VM is alive and signalled, and taking it consumes the signal |
| Interp.Fill | src/gelo/interpreter.go:28-71 | a literal or quote node yields itself untouched; `$x` and a clause yield the one word they evaluate to; a splice yields the items of a list operand and raises the splice error on anything else; a failure of the operand propagates unchanged |
| Interp.Rewrite | src/gelo/interpreter.go:28-71 | the rewritten line is the concatenation, in order, of what each node contributes; a line of literals and quotes rewrites to itself without touching the VM |
| Interp.Deref | src/gelo/interpreter.go:3-26 | a symbol or quote node is looked up by its text, giving its binding or VariableUndefined; a clause's value is dereferenced as a name; a splice or `$` node is rejected as a system error |
| Interp.Peval | src/gelo/interpreter.go:73-123 | an empty line or dead VM panics; otherwise the head is classified: a refused head raises its error, `defer` returns the rest of the line for deferring, a quote is compiled to run with the rest as arguments without touching the VM, and an alien's code never carries arguments of its own; whenever the head is refused, `defer`, a quote, a host alien or a dict, the step is exactly `Settled` of the line (the host's or the dict's reply, its word or its tail quote) and the VM is untouched |
| Interp.CallAlien | src/gelo/interpreter.go:103-108 | an alien the interpreter did not make is the host's and is called as such; an aggregate dispatches on its table; neither changes the VM |
| Interp.RunBuiltin | src/gelo/builtins.go:5-358 | running a builtin only grows the world: no scope, dict or VM is lost and a live VM keeps its boundary |
| Interp.RunScopeBuiltin | src/gelo/builtins.go:103-194 | the binding and fork builtins only grow the world |
| Interp.RunExportBuiltin | src/gelo/builtins.go:198-358 | the capture, globals and export builtins only grow the world |
| Interp.EvalLine | src/gelo/interpreter.go:125-135 | a clause whose head is refused raises that error, and a clause headed by `defer` raises "defer commands must not be in a clause" |
| Interp.Command | src/gelo/interpreter.go:161 | one command of a script: a refused head raises its error and `defer` hands back the rest of the line; a line of literals and quotes comes to what `peval` gives on its own words (`Settled` of `PlainWords`), including the produced word or the code to run, and leaves the VM untouched |
| Interp.PlainWords | src/gelo/interpreter.go:43-48 | the words of a line of literals and quotes are its nodes' values, one per node, in order |
| Interp.PlainRewrite | src/gelo/interpreter.go:28-71 | rewriting a line of literals and quotes gives exactly its own words |
| Interp.Eval | src/gelo/interpreter.go:139-195 | a nil script is Null and changes nothing; a dead VM panics; on every outcome the caller's `arguments` binding is as it was; a one-command script whose head is refused or is `defer` fails as the tail position demands; a one-command script of literals and quotes that `peval` settles without further code (`Once`) returns what that command produced, e.g. `Done(w)` for a head producing `w` when no kill signal waits |
| Interp.OnceProduces | src/gelo/interpreter.go:183-194 | a one-command script whose head produces `w` in one step returns `Done(w)`, or KillCode when a kill signal waits; a lone `defer` head unwinds |
| Interp.Loop | src/gelo/interpreter.go:146-192 | the first deferred work is the restore of the caller's `arguments`; a lone refused or `defer` command fails as a tail call with nothing else deferred; a lone command settled in one pass returns `Once` of the script with only the restore deferred |
| Interp.Passes | src/gelo/interpreter.go:146-192 | the restore queued first stays first; a lone refused or `defer` command defers nothing more; a lone command settled in one pass returns its produced word (or Null for code that is empty), its unwinding, or KillCode when a kill signal waits, deferring nothing more |
| Interp.Pass | src/gelo/interpreter.go:159-187 | a one-command script runs only as its tail: a refused or `defer` head fails without deferring anything; a settled command's outcome is `TailOf` its step: the produced word with no code, or the code and arguments of the next pass |
| Interp.Rebind | src/gelo/interpreter.go:150-157 | each tail call's binding is queued after the earlier ones, so the deferred work only grows |
| Interp.TailCall | src/gelo/interpreter.go:184-187 | the last command's refused head raises its error and a `defer` there raises "defer call cannot be in tail position"; for a line of literals and quotes that `peval` settles, the outcome is `TailOf` the settled step: a produced word `w` gives `(w, no code, no arguments)`, code gives `(Null, code, arguments)` |
| Interp.RunLines | src/gelo/interpreter.go:160-181 | no commands defer nothing and change nothing; a refused first command stops the pass with its error; a bare `defer` raises "No command to defer"; `defer cmd` queues a handler for cmd |
| Interp.RunLine | src/gelo/interpreter.go:161-180 | a command defers at most one handler and only on success; refused head, bare `defer` and `defer cmd` behave as in the source |
| Interp.Unwind | src/gelo/interpreter.go:153-175 | the deferred work runs last first and exactly the queued handlers run; the first restore leaves `arguments` as it was before the script; restores alone keep the outcome; an unwinding is never turned into a value and a value is never altered |
| Interp.RunHandler | src/gelo/interpreter.go:167-175 | a handler runs its command and any code it yields, and only grows the world |
| Interp.InvokeOrElse | src/gelo/api.go:158-174 | no words is Null and changes nothing; a refused head raises its error; `defer` raises "Cannot register a defer via Invoke*"; a quote that does not compile raises its syntax error and a quote of no code gives Null |
| Interp.Recovered | src/gelo/builtins.go:9-20 | what `eval` lets through is neither a halt nor a gelo error; a value passes unchanged |
| Interp.Enter | src/gelo/builtins.go:22-25 | a fresh scope over the current one becomes current and the old current scope becomes the boundary, and the chain stays acyclic |
| Interp.Leave | src/gelo/builtins.go:23 | the scope and boundary saved on entry are current again |
| Interp.Pop | src/gelo/builtins.go:214 | after a captured closure the caller's scope is current again |
| Interp.BiEval | src/gelo/builtins.go:5-28 | the caller's scope and boundary are back on every outcome; no arguments raises the `eval` ArgumentError; a halt or gelo error never escapes |
| Interp.RunCaptured | src/gelo/builtins.go:198-218 | a captured closure that returns leaves the caller's scope current |
| Interp.SafeEval | src/gelo/builtins.go:44-56 | no arguments raises the `safe-eval` ArgumentError, and the caller's scope is current afterwards |
| Interp.RunChild | src/gelo/builtins.go:30-56 | the spawned child is destroyed whenever it returns a result |
| Interp.ExecRecovered | src/gelo/vm.go:378-420 | a kill becomes Null (or the error destroying the VM gave); otherwise only panics that are not halts, gelo errors or kills propagate, unchanged |
| Interp.CodeOf | src/gelo/vm.go:311-330 | a program built from a list is one command of those words, and no command when the list is empty |
| Interp.Exec | src/gelo/vm.go:378-420 | a dead or destroyed VM raises the "execute its program" system error; no program raises its own error; a program of no code gives Null; halts, gelo errors and kills never escape |
| Interp.Do | src/gelo/vm.go:353-375 | a dead VM raises the "execute" error naming the input; a syntax error is raised; no code gives Null; halts, kills and runtime errors never escape |
| Interp.DoRecovered | src/gelo/vm.go:353-375 | as Exec's recover except that only runtime errors are caught, exactly: a kill becomes Null, a halt its payload, a runtime error a failed outcome |
| Interp.Run | src/gelo/vm.go:424-429 | a program that does not parse returns its syntax error as the outcome, and a program of no code gives Null |
| Interp.Invoke | src/gelo/api.go:176-191 | no words gives Null, and a gelo error is returned, never raised |
| Interp.IsInvokable | src/gelo/api.go:136-156 | a symbol is looked up first (a dead VM panics) and the meaning it has, or the word itself, is accepted exactly when `Calls.Invokable` accepts it |
| Interp.InvokeWordOrReturn | src/gelo/api.go:211-217 | a word that is not invokable, or a symbol bound to nothing, is returned unchanged without touching the VM |
| Interp.TailInvokeWordOrReturn | src/gelo/api.go:219-225 | what is invokable comes back as a tail call of its list form, anything else as itself |
| Interp.PartialEval | src/gelo/api.go:228-281 | a quote that does not compile gives nothing; no code gives a list holding the empty list; otherwise one list per command, each the concatenation of what its nodes evaluate to |
| Calls.DeferUnusableAsWritten | src/gelo/interpreter.go:82-94 | the head's lookup as written agrees with the intended one except on a name bound to `defer`, which as written is refused with TypeMismatch and so can never be reached, while as meant it is the defer marker |
| Calls.Invokable | src/gelo/api.go:143-155 | what is accepted as invokable is the word itself, never a substitute |
| Calls.InvokableAgreesWithPeval | src/gelo/api.go:136-156 | a name whose meaning `IsInvokable` accepts is never refused by `peval`, and one it rejects is refused by `peval` or is a quote that does not parse, in both directions |
| Calls.Unprotect | src/gelo/quote.go:42 | unprotecting gives an unprotected quote of the same text |
| Calls.Invoked | src/gelo/interpreter.go:111-121 | a word that is not an unprotected quote is the result itself; an unprotected quote succeeds exactly when its source parses, and then runs its commands with the arguments given |
| Calls.TailCode | src/gelo/api.go:195-197 | the code a tail call builds is one command whose words are the list's items, in order, and no command for an empty list |
| Calls.Replied | src/gelo/interpreter.go:103-121 | an alien's tail reply runs the words it names as one command with no arguments; a value reply is treated as the head's result |
| Calls.Count | src/gelo/interpreter.go:103-108 | the count an alien is told is the number of words after the head |
| Calls.HandlerCountsHead | src/gelo/interpreter.go:169-170 | a deferred handler's alien is told one argument more than it receives, so it never sees the count the ordinary call would give |
| Calls.NoCodeResult | src/gelo/interpreter.go:131-134 | a step that runs no code gives Null for a quote of no code rather than Go's nil |
| Calls.NoopYieldsNilAsWritten | src/gelo/quote.go:14-16 | invoking `{}` compiles to no code, which yields nil as written and Null as meant |
| Calls.PartialSpliceAsWritten | src/gelo/api.go:253-259 | as written a splice keeps nothing for no words and the empty list for any words |
| Calls.PartialSpliceLosesWords | src/gelo/api.go:253-259 | the words a splice contributes are lost unless there were none (or only the empty list); `@x` of `a b` gives the empty list |
| Calls.Rebound | src/gelo/interpreter.go:153-157 | the restored dict binds the name as it was before, and every other name as it is |
| Calls.ReboundUndoes | src/gelo/interpreter.go:150-157 | restoring what a dict had undoes binding `arguments`, whether it was bound or not |
| Calls.Aggregate | src/gelo/commands/util.go:25-43 | an aggregate with no arguments is its table as a dict; otherwise it succeeds exactly when the first argument's text names an entry, and then tail-calls that entry with the other arguments |
| Calls.AggregateDispatch | src/gelo/commands/util.go:35-41 | any word with the entry's text reaches the same entry, and the reply runs one command: the entry applied to the rest |
| Natives.Num | src/gelo/number.go:29-65 | a Go integer becomes a number whose integer reading is that integer, exactly when it fits `Int` |
| Natives.Index | src/gelo/commands/util.go:14-22 | an index succeeds exactly when the number is a 32-bit whole number in `[-length, length)`; the result is in range, the index itself when non-negative and counted from the end when negative |
| Natives.ModShift | src/gelo/commands/util.go:22 | `(length + i) % length` counts a negative index from the end and leaves a non-negative one unchanged |
| Natives.ToIdx | src/gelo/commands/util.go:12-23 | a word that is not a number raises TypeMismatch; otherwise as `Index`: success exactly for whole numbers in `[-length, length)`, counted from the end when negative |
| Natives.ToIdxCountsBothWays | src/gelo/commands/util.go:12-23 | every position is reached both by its index and by that index less the length |
| Natives.NoIndexIntoNothing | src/gelo/commands/util.go:19-21 | no index is valid for an empty sequence |
| Natives.ToIdxs | src/gelo/commands/util.go:12-23 | a sequence of indices reads each one as `ToIdx` does, in order, and succeeds when each does |
| Natives.MapOut | src/gelo/list.go:142-150 | a callback over each word succeeds exactly when it succeeds on every word, and then gives its values in order |
| Natives.MapOrApplyOutAgrees | src/gelo/list.go:142-150 | with a callback that never raises, the result is `MapOrApply` of its values |
| Natives.MapOrApplyOutRaises | src/gelo/list.go:142-150 | a callback that raises on some word raises the first such error |
| Natives.TailOrReturn | src/gelo/api.go:219-225 | what is invokable is handed back as a tail call of its list form, and anything else is returned as itself |
| Natives.TailCmd | src/gelo/api.go:207-209 | a tail call of a command is that command followed by its arguments |
| Natives.Caught | src/gelo/api.go:176-191 | a value is returned; a gelo error is returned as the error; anything else unwinds unchanged |
| Natives.InvokableOrElse | src/gelo/api.go:124-130 | succeeds exactly when the word is invokable, giving what it stands for, and raises TypeMismatch "invokable" otherwise |
| Builtins.SetX | src/gelo/builtins.go:103-111 | two arguments bind the name in the current scope's dict, which then resolves to the value, and return the value; any other count raises the `set!` ArgumentError and changes nothing |
| Builtins.UpdateX | src/gelo/builtins.go:113-123 | with two arguments, an unbound name raises VariableUndefined and changes nothing; a bound one is rebound in the nearest scope that binds it, and returns the value; any other count raises the `update!` ArgumentError |
| Builtins.NsFork | src/gelo/builtins.go:173-180 | no arguments: a new scope with an empty dict becomes current over the old one, every name keeps its meaning, and the boundary moves with it; arguments raise ArgumentError and change nothing |
| Builtins.NsUnfork | src/gelo/builtins.go:182-194 | no arguments: the current scope is popped and its dict returned, unless its parent is the boundary, which raises "Fatal: Last namespace destroyed"; arguments raise ArgumentError |
| Builtins.NsGlobals | src/gelo/builtins.go:255-279 | no arguments: a dict of every name bound along the walk to its nearest binding, deep copied at or above the boundary; arguments raise ArgumentError |
| Builtins.NsCapture | src/gelo/builtins.go:198-218 | one quote: a fresh alien closed over the current dict and the quote, registered under an unused id; a non-quote raises TypeMismatch, another count ArgumentError; no scope or dict changes |
| Builtins.Climb | src/gelo/builtins.go:281-290 | the climb stays inside the scopes the VM owns, and fails exactly when it would reach the boundary or there is nothing to climb |
| Builtins.GoUp | src/gelo/builtins.go:281-290 | the scope reached is the one `Climb` names on the walk, or none |
| Builtins.UpLevels | src/gelo/builtins.go:292-307 | a non-symbol first word raises TypeMismatch, another symbol gives nothing, `up n` gives a positive `n`, and a zero or negative `n` raises the "nonzero positive integer" mismatch |
| Builtins.ExportArgs | src/gelo/builtins.go:313-325 | two arguments export one level up; four must begin with `up n`; any other count raises the `export!` ArgumentError; the name and value are always the last two |
| Builtins.ExportX | src/gelo/builtins.go:313-332 | bad arguments raise; a climb past what the VM owns raises NotWriteable; a non-symbol name raises TypeMismatch; on success only the dict of the scope climbed to changes, binding the name to the value, which is returned |
| Builtins.ExportsArgs | src/gelo/builtins.go:334-343 | the names are all the arguments, or those after a leading `up n`; a single argument is one name exported one level up |
| Builtins.ExportsArgsAsWritten | src/gelo/builtins.go:334-343 | with two or more arguments the argument parse as written agrees with the intended one |
| Builtins.ExportsOneNameAsWritten | src/gelo/builtins.go:338 | `exports! x` dereferences a nil list as written, and exports `x` one level up as meant |
| Builtins.Unexportable | src/gelo/builtins.go:349-356 | the position of the first name that is not a symbol bound in the dict: every name before it is one |
| Builtins.UnexportableAt | src/gelo/builtins.go:349-356 | the first name, from any position up to it, that is not a bound symbol is the unexportable one |
| Builtins.PickedBinds | src/gelo/builtins.go:349-356 | the bindings picked are exactly those of the names, each as the current dict has it |
| Builtins.PickedAbsorbed | src/gelo/builtins.go:349-356 | copying the names' bindings into the dict they come from changes nothing |
| Builtins.ExportedKeepsSource | src/gelo/builtins.go:349-356 | exporting leaves the dict read from as it was, even when it is the one written to |
| Builtins.ExportedStep | src/gelo/builtins.go:349-356 | exporting one more name binds it in the target as the current dict has it |
| Builtins.Put | src/gelo/builtins.go:355 | binding a name in one dict changes that dict's binding and nothing else |
| Builtins.ExportNames | src/gelo/builtins.go:349-357 | the names are exported in order up to the first that is not a bound symbol, which raises TypeMismatch (not a symbol) or the "does not exist" error; all exported gives Null |
| Builtins.ExportsX | src/gelo/builtins.go:334-358 | no arguments raise ArgumentError; a bad `up` or a climb past what the VM owns raises and changes nothing; on success every name is a bound symbol and the target dict gains exactly their current bindings |
| Control.Conds | src/gelo/commands/control.go:9-10 | as many conditions as consequents, in the order the argument parser bound them |
| Control.FirstHoldingSkips | src/gelo/commands/control.go:20-24 | conditions that come to false before position k do not change which consequent is picked |
| Control.IfFirstHolds | src/gelo/commands/control.go:12-25 | the first condition that holds, after all before it came to false, picks its consequent, tail-invoked or returned |
| Control.IfNoneHolds | src/gelo/commands/control.go:26-29 | when no condition holds the alternative is tail-invoked or returned if `else` was given, and Null is returned otherwise |
| Control.IfConditionRaises | src/gelo/commands/control.go:5-7 | a condition that raises, or is not a Bool, before any holds ends `if` with that error |
| Control.If | src/gelo/commands/control.go:12-30 | the loop over the `elif` chain computes exactly the intended outcome of `if` |
| Control.PairedAgrees | src/gelo/commands/control.go:20-24 | with as many consequents as conditions, the walk as written is the intended one |
| Control.IfAgrees | src/gelo/commands/control.go:15-25 | `if` as written agrees with the intended one whenever the condition is a list exactly when an `elif` was given |
| Control.IfListConditionAsWritten | src/gelo/commands/control.go:15-20 | `if [list true] then a`: as written the list condition is taken for an `elif` chain and the consequent fails its type assertion; as meant the list is refused as not a Bool |
| Control.CaseEval | src/gelo/commands/control.go:53-64 | a quote, alien or symbol result is invoked with the arguments and stands for itself when that raises a gelo error; halts and other panics propagate; any other word is itself |
| Control.ReadLine | src/gelo/commands/control.go:116-142 | a line is read exactly when it has at least one pattern, then `=>`, then its result, and the line is its patterns followed by those two; a short or arrowless line raises the patterns syntax error and an empty one dereferences nil |
| Control.ParseLine | src/gelo/commands/control.go:123-142 | the cell-by-cell loop reads a line as `ReadLine` says |
| Control.FindMatch | src/gelo/commands/control.go:144-149 | the loop finds a match exactly when the key Equals one of the patterns |
| Control.PickSkips | src/gelo/commands/control.go:102-150 | lines passed over (well formed and not matching) do not change what is picked |
| Control.PickFirstMatch | src/gelo/commands/control.go:144-148 | the first well formed line with a pattern the key Equals gives its result |
| Control.PickNoMatch | src/gelo/commands/control.go:152 | when every line is passed over, nothing is picked |
| Control.PickOtherwise | src/gelo/commands/control.go:104-113 | a final `otherwise r`, once reached, picks `r` |
| Control.PickMalformed | src/gelo/commands/control.go:109-121 | a reached line that is not "pattern+ => result", or a final `otherwise` line without exactly one result, raises the patterns syntax error |
| Control.Select | src/gelo/commands/control.go:102-152 | the loop over the lines picks exactly what `Pick` says |
| Control.EmptyBlockAsWritten | src/gelo/commands/control.go:77-82 | `case-of {}`: as written the empty block passes the guard and its one empty line dereferences nil; as meant it raises the syntax error naming the expected block |
| Control.CaseOfPicksFirstMatch | src/gelo/commands/control.go:72-153 | without `by`, a value that Equals a pattern of the first matching line gets that line's result, evaluated with the value as arguments |
| Control.CaseOfNoMatch | src/gelo/commands/control.go:152 | without `by`, a value matching no line of a block without `otherwise` gives Null |
| Control.Bind | src/gelo/commands/control.go:86-93 | binding the `as` name sets it in the current scope and plans to put back the value that scope held, or to delete the name when it held none |
| Control.BindAsWritten | src/gelo/commands/control.go:86-93 | as written the name is always planned for deletion, because the depth test asks for a depth `DepthOf` never gives |
| Control.Held | src/gelo/commands/control.go:88 | `DepthOf` never reports depth 0, and reports depth 1 exactly for a name the current scope binds, whose lookup is that binding |
| Control.Unbind | src/gelo/commands/control.go:89-91 | the deferred call puts the earlier value back, or deletes the name, in the current scope only |
| Control.Restored | src/gelo/commands/control.go:86-93 | binding a name and undoing it as planned gives every dict back |
| Control.Bracket | src/gelo/commands/control.go:86-93 | binding the `as` name and running the deferred call leave every scope as it was |
| Control.BracketAsWritten | src/gelo/commands/control.go:86-93 | as written, a binding the current scope held before is gone once `case-of` returns |
| Control.Respond | src/gelo/commands/control.go:102-152 | the loop over the lines gives the answer `Answer` defines: the picked result evaluated, or Null |
| Control.Scoped | src/gelo/commands/control.go:84-152 | the lines are answered with the `as` name bound and every scope is as it was afterwards |
| Control.CaseOf | src/gelo/commands/control.go:72-153 | `case-of` gives the outcome `CaseOfOf` defines and every scope is as it was afterwards, whatever the outcome |
| ListCmds.Nums | src/gelo/commands/list.go:264 | one number per integer, in order |
| ListCmds.Head | src/gelo/commands/list.go:76-87 | no arguments raise the `head` ArgumentError; several lists give one first item per list |
| ListCmds.Tail | src/gelo/commands/list.go:89-100 | no arguments raise the `tail` ArgumentError; several lists give one rest per list |
| ListCmds.HeadTailSplit | src/gelo/commands/list.go:76-100 | the `head` and `tail` of a non-empty list put back together give the list; of the empty list they are Null and the empty list |
| ListCmds.HeadOfSeveral | src/gelo/commands/list.go:80-86 | `head` of several non-empty lists is the list of their first items, in order |
| ListCmds.EmptyListp | src/gelo/commands/list.go:597-604 | no arguments give true; one list gives whether it is empty; several give one answer each; a word that cannot be read as a list raises |
| ListCmds.NonEmptySplits | src/gelo/commands/list.go:76-100 | a word `empty-list?` calls non-empty splits into its `head` followed by its `tail` |
| ListCmds.Reversed | src/gelo/commands/list.go:233-235 | the i-th item of the reversal is the i-th from the end |
| ListCmds.ReversedTwice | src/gelo/commands/list.go:228-237 | reversing twice gives the list back |
| ListCmds.ReversedAppend | src/gelo/commands/list.go:228-237 | reversing a concatenation reverses both parts and swaps them |
| ListCmds.LReverse | src/gelo/commands/list.go:228-237 | one list argument gives its items in reverse order; a non-list raises as `ListOrElse` does; another count raises the `lreverse` ArgumentError |
| ListCmds.KeptSers | src/gelo/commands/list.go:244-250 | what `unique` keeps has every serialisation of the input not already seen, each exactly once, and only words of the input |
| ListCmds.KeptSerSet | src/gelo/commands/list.go:244-250 | the serialisations kept are those of the input not already seen |
| ListCmds.KeptDistinct | src/gelo/commands/list.go:244-250 | no two words kept share a serialisation |
| ListCmds.KeptFrom | src/gelo/commands/list.go:244-250 | every word kept is a word of the input |
| ListCmds.KeptAll | src/gelo/commands/list.go:244-250 | words whose serialisations are distinct and unseen are all kept, in order |
| ListCmds.UniqueIdempotent | src/gelo/commands/list.go:239-252 | `unique` of a result of `unique` changes nothing |
| ListCmds.Unique | src/gelo/commands/list.go:239-252 | one list argument gives the first word of each serialisation, in original order; other counts raise the `uniq` ArgumentError |
| ListCmds.Positions | src/gelo/commands/list.go:262-266 | the positions, strictly ascending, are exactly those whose item the value Equals |
| ListCmds.IndexOf | src/gelo/commands/list.go:256-268 | two arguments give, as numbers, every position of the list whose item the value Equals; other counts raise the `index-of` ArgumentError |
| ListCmds.Find | src/gelo/commands/list.go:262-266 | the loop finds exactly the positions `Positions` names |
| ListCmds.Numbered | src/gelo/commands/list.go:275-278 | one entry per item |
| ListCmds.NumberedEntries | src/gelo/commands/list.go:276-277 | the i-th entry is a one-element list holding the pair of i and a word that prints like the i-th item |
| ListCmds.Enumerate | src/gelo/commands/list.go:270-280 | one list argument gives its numbered entries, numbered from zero; other counts raise the `enumerate` ArgumentError |
| ListCmds.PickedItems | src/gelo/commands/list.go:102-124 | an index counts from the front, or from the back when negative, and several indices give their items in order |
| ListCmds.LIndex | src/gelo/commands/list.go:102-124 | fewer than two arguments raise the `lindex` ArgumentError; otherwise every index is read with `ToIdx` before any item is taken, and the items are returned |
| ListCmds.ReadIdxs | src/gelo/commands/list.go:111-116 | the loop reads the indices exactly as `ToIdxs` does, stopping at the first that raises |
| ListCmds.Gather | src/gelo/commands/list.go:117-122 | the items at the given positions, in the order of the positions |
| ListCmds.ZipArgs | src/gelo/commands/list.go:133-146 | when no list is empty, one non-empty list per argument |
| ListCmds.MinLen | src/gelo/commands/list.go:150-157 | the length of the shortest list: no list is shorter and some list has it |
| ListCmds.Zipped | src/gelo/commands/list.go:150-176 | as many tuples as the shortest list has items |
| ListCmds.UnzipColumn | src/gelo/commands/list.go:150-176 | every tuple holds one item per list, and the k-th items of the tuples are the k-th list cut to the shortest length |
| ListCmds.Zip | src/gelo/commands/list.go:126-178 | no arguments raise the `zip` ArgumentError; a non-list raises; an empty list gives the empty list; otherwise the tuples of `Zipped` |
| ListCmds.ReadRing | src/gelo/commands/list.go:133-146 | the type-checking pass reads the arguments as `ZipArgs` says, stopping at the first empty list |
| ListCmds.Tuples | src/gelo/commands/list.go:149-176 | going round the lists gives exactly the tuples of `Zipped` |
| ListCmds.Selected | src/gelo/commands/list.go:333-348 | succeeds exactly when the command succeeds on every item, and then keeps exactly the items for which it answers true, from the list |
| ListCmds.SelectedAll | src/gelo/commands/list.go:333-348 | a command that accepts everything keeps the whole list |
| ListCmds.SomeItems | src/gelo/commands/list.go:314-350 | the list is read first, then a given item name must be a symbol, then the command must be possibly invokable; the result is the items `Selected` keeps |
| ListCmds.Select | src/gelo/commands/list.go:333-348 | the loop of `some` keeps exactly what `Selected` keeps |
| ListCmds.SelectStep | src/gelo/commands/list.go:334-347 | one round either raises the command's error or adds the item when the command answers true |
| ListCmds.FoldedAppend | src/gelo/commands/list.go:387-394 | folding a concatenation folds the second part from where the first left off |
| ListCmds.FoldedKeepsLast | src/gelo/commands/list.go:387-394 | folding with a command that answers its last argument gives the last item, or the start for an empty list |
| ListCmds.Reduce | src/gelo/commands/list.go:355-396 | with `initial`, the left fold from it; without, the left fold from the first item, and an empty list dereferences nil; a command that is not possibly invokable raises TypeMismatch |
| ListCmds.MatchesInMembers | src/gelo/commands/list.go:410-420 | the matches of a left item are copies of it, and there are some exactly when it Equals a right item |
| ListCmds.CommonMembers | src/gelo/commands/list.go:408-421 | a word is in the intersection exactly when it is a left item that Equals some right item |
| ListCmds.NothingInCommon | src/gelo/commands/list.go:404-406 | the intersection with an empty list is empty |
| ListCmds.Intersect | src/gelo/commands/list.go:398-423 | no arguments raise the `intersect` ArgumentError; one list dereferences nil; otherwise each left item once per Equal right item, in left order |
| ListCmds.Intersection | src/gelo/commands/list.go:408-421 | the outer loop gives exactly the intersection |
| ListCmds.Matches | src/gelo/commands/list.go:410-420 | the inner loop gives the left item once per right item it Equals |
| ListCmds.MatchStep | src/gelo/commands/list.go:411-419 | one round adds the left item or nothing |
| ListCmds.ComplementOfEmptyAsWritten | src/gelo/commands/list.go:440-453 | as written the complement with respect to an empty first list is empty, where it should be the whole second list |
| ListCmds.ComplementMembers | src/gelo/commands/list.go:433-454 | what the complement keeps comes from the second list, was not seen before, and Equals nothing in the first list |
| ListCmds.ComplementAllOutside | src/gelo/commands/list.go:433-454 | when nothing in the second list Equals a word of the first, the complement is `unique` of the second; in particular for an empty first list |
| ListCmds.ComplementOf | src/gelo/commands/list.go:427-456 | both arguments are read as lists, in order; the result is each serialisation of the second list once, for the words that Equal nothing in the first |
| ListCmds.ComplementLoop | src/gelo/commands/list.go:433-454 | the outer loop gives exactly the complement |
| ListCmds.ComplementStep | src/gelo/commands/list.go:434-453 | one round adds the word or nothing, and records its serialisation as seen |
| ListCmds.NoneEqual | src/gelo/commands/list.go:440-453 | the inner loop finds the word outside the first list exactly when it Equals none of it |
| ListCmds.LastBySerBinds | src/gelo/commands/list.go:470-479 | the map built from a list has exactly its serialisations as keys, each bound to a word of the list that prints as the key |
| ListCmds.LastWins | src/gelo/commands/list.go:470-479 | a word with no later word of the same serialisation is the one its serialisation is bound to |
| ListCmds.SymDiffOfSelf | src/gelo/commands/list.go:458-505 | the symmetric difference of a list with itself is empty, and only the empty result qualifies |
| ListCmds.SymDiffSwapped | src/gelo/commands/list.go:458-505 | the symmetric difference does not depend on which list comes first |
| ListCmds.SymDiff | src/gelo/commands/list.go:458-505 | an empty list gives the other as it is; otherwise the last word of each serialisation found in exactly one list, each once, in some order; other counts raise the `sym-diff` ArgumentError |
| ListCmds.BySer | src/gelo/commands/list.go:470-479 | the loop builds exactly the serialisation map |
| ListCmds.OnlyLeft | src/gelo/commands/list.go:480-493 | the first loop gives each word whose key only the left map has, once, and leaves the right map without the common keys |
| ListCmds.LeftStep | src/gelo/commands/list.go:481-493 | one round of the first loop keeps both of its invariants for the key visited |
| ListCmds.OnlyRight | src/gelo/commands/list.go:494-503 | the words of the second loop after those of the first are the symmetric difference |
| ListCmds.ValuesOf | src/gelo/commands/list.go:495-503 | the values of a map, each once, in some order |
| ListCmds.SymDiffJoin | src/gelo/commands/list.go:480-504 | the words only on the left followed by those only on the right are the symmetric difference |
| ListCmds.SubseqMissesRetry | src/gelo/commands/list.go:516-528 | as written a partial match hides a match starting inside it: `a b` is not found in `a a b`, though it occurs there |
| ListCmds.SubseqOverruns | src/gelo/commands/list.go:516-529 | as written a one-word list that is not found runs off the end of the first list |
| ListCmds.SubseqOfEmptyPanics | src/gelo/commands/list.go:513-529 | as written asking for the empty list panics, though it occurs in every list |
| ListCmds.OccursBounds | src/gelo/commands/list.go:513-515 | the empty list occurs everywhere, and nothing longer than a list occurs in it |
| ListCmds.OccursInside | src/gelo/commands/list.go:507-530 | a list whose words Equal themselves occurs wherever it is spliced in |
| ListCmds.Subseqp | src/gelo/commands/list.go:507-530 | true exactly when the second list is a contiguous run of the first, word by word under Equals; other counts raise the `subseq?` ArgumentError |
| ListCmds.Search | src/gelo/commands/list.go:516-528 | the loop finds the second list exactly when it occurs |
| ListCmds.RunMatches | src/gelo/commands/list.go:516-528 | whether the second list matches the run of the first at one position |
| ListCmds.SerSetSnoc | src/gelo/commands/list.go:538-541 | adding a word adds its serialisation |
| ListCmds.SubsetIgnoresRepeats | src/gelo/commands/list.go:532-548 | whether one list is a subset of another does not depend on repeated words |
| ListCmds.Subsetp | src/gelo/commands/list.go:532-548 | true exactly when every serialisation of the second list is one of the first; other counts raise the `subset?` ArgumentError |
| ListCmds.SersOf | src/gelo/commands/list.go:538-541 | the first loop collects exactly the serialisations of the first list |
| ListCmds.AllIn | src/gelo/commands/list.go:542-547 | the second loop answers whether every serialisation of the second list was collected |
| ListCmds.ListLength | src/gelo/commands/list.go:26-29 | a length read is a whole number of at least 1 |
| ListCmds.MakeListShortAsWritten | src/gelo/commands/list.go:31-33 | as written `make-list 1 with x` makes the empty list, one item short |
| ListCmds.MakeList | src/gelo/commands/list.go:24-35 | a bad length raises; otherwise exactly `length` copies of the zero value |
| ListCmds.MadeItemsLikeZero | src/gelo/commands/list.go:32 | every item of a made list prints and compares as the zero value does |
| ListSort.Iota | src/gelo/commands/list.go:580-583 | the positions `0 .. n - 1`, in order |
| ListSort.LessIsNotLe | src/gelo/commands/list.go:571-573 | one serialisation is strictly before another exactly when it is not after-or-equal to it |
| ListSort.NeighboursSorted | src/gelo/commands/list.go:585 | positions whose neighbours are in order are in order throughout |
| ListSort.Chain | src/gelo/commands/list.go:585 | in positions whose neighbours are in order, an earlier position's key is at or before a later one's |
| ListSort.EveryPositionOnce | src/gelo/commands/list.go:574-595 | a sort of the keys names each position exactly once |
| ListSort.IotaCounts | src/gelo/commands/list.go:580-583 | the initial positions name each position exactly once |
| ListSort.InsertionSort | src/gelo/commands/list.go:585 | sorting the positions in place permutes them and leaves them ordered by their words' serialisations, byte-wise |
| ListSort.Sink | src/gelo/commands/list.go:585 | sinking one position keeps the array a permutation and extends the ordered prefix by one |
| ListSort.SwapDown | src/gelo/commands/list.go:560-562 | one swap of neighbours out of order keeps the array a permutation and moves the disorder one place left |
| ListSort.Positions | src/gelo/commands/list.go:580-583 | a fresh array holding the positions in order |
| ListSort.SortEmptyAsWritten | src/gelo/commands/list.go:586 | as written sorting the empty list reads `perms[0]` and panics; its sort is the empty list of positions |
| ListSort.PositionList | src/gelo/commands/list.go:586-593 | the result list holds each position as a number, in order |
| ListSort.LSort | src/gelo/commands/list.go:574-595 | one list argument gives a permutation of its positions, as numbers, ordered by the words' serialisations; a non-list raises; other counts raise the `lsort` ArgumentError |
| StrCmds.CharsPicks | src/gelo/commands/string.go:12-33 | each byte is reached by its index from the front and from the back, and several indices pick bytes in the order given |
| StrCmds.IdxsOne | src/gelo/commands/string.go:17-19 | one index word is read by `ToIdx` alone, failing as it fails |
| StrCmds.IdxsRead | src/gelo/commands/string.go:24-27 | index words each read as `ToIdx` reads them give those positions, in order |
| StrCmds.Chars | src/gelo/commands/string.go:12-33 | fewer than two arguments raise the `chars` ArgumentError; a non-symbol raises TypeMismatch "symbol"; otherwise the bytes at the indices, all read before any is taken, as one symbol |
| StrCmds.Build | src/gelo/commands/string.go:28-30 | the loop fills the result with the byte at each index, in order |
| StrCmds.SplitFrom | src/gelo/commands/string.go:63 | a split always has at least one piece |
| StrCmds.JoinPieces | src/gelo/commands/string.go:63 | joining the pieces of a split with its separator gives back the string |
| StrCmds.JoinSplitFrom | src/gelo/commands/string.go:63 | joining the pieces from any point of the scan gives back the rest of the string |
| StrCmds.JoinAtSeparator | src/gelo/commands/string.go:63 | the scan step at a separator keeps the join intact |
| StrCmds.JoinBytes | src/gelo/commands/string.go:63 | joining single-byte pieces with nothing gives back the bytes |
| StrCmds.Syms | src/gelo/commands/string.go:67-72 | one symbol per piece, printing as the piece |
| StrCmds.Split | src/gelo/commands/string.go:56-74 | the separator (a space by default) is read before the string, each must be a symbol or quote or the read raises; on success the pieces, joined with the separator, give the string back |
| StrCmds.JoinUndoesSplit | src/gelo/commands/string.go:56-91 | `join` with the separator undoes a successful `split` with it |
| StrCmds.JoinItems | src/gelo/commands/string.go:78-91 | the items' serialisations joined with the separator (nothing by default), as a symbol; a non-list raises |
| StrCmds.StartsWith | src/gelo/commands/string.go:93-100 | two arguments give true exactly when the first serialisation is the second followed by something, and a Bool either way; other counts raise the `starts-with` ArgumentError |
| StrCmds.EndsWith | src/gelo/commands/string.go:102-109 | two arguments give true exactly when the first serialisation is something followed by the second; other counts raise an ArgumentError that names `starts-with`, as the source does |
| StrCmds.PrefixIff | src/gelo/commands/string.go:97-99 | the prefix test holds exactly when the string is the prefix followed by something |
| StrCmds.SuffixIff | src/gelo/commands/string.go:106-108 | the suffix test holds exactly when the string is something followed by the suffix |
| StrCmds.StrToListRepeatsAsWritten | src/gelo/commands/string.go:199-203 | as written `str->list ab` gives `a a`, repeating the first byte and dropping the last; as meant `a b` |
| StrCmds.StrToList | src/gelo/commands/string.go:190-207 | no arguments give the empty list |
| StrCmds.StrToListJoins | src/gelo/commands/string.go:183-207 | `str->list` of a non-empty string has as many items as `length` counts bytes, and joining them with nothing gives the string back |
| StrCmds.SymsOfBytes | src/gelo/commands/string.go:199-203 | one-byte symbols print as their bytes |
| StrCmds.CodePoint | src/gelo/commands/string.go:136-139 | a code point read is a whole number in `0 .. MaxInt32`; a number outside raises TypeMismatch "rune" |
| StrCmds.CodePoints | src/gelo/commands/string.go:135-142 | the code points of a list, in order, read exactly as `CodePoint` reads each; the first failure raises |
| StrCmds.AsciiFromRunes | src/gelo/commands/string.go:129-144 | the numbers of ASCII bytes give those bytes back |
| StrCmds.NegativeIsNoRune | src/gelo/commands/string.go:137-139 | a negative number is refused as a rune |
| StrCmds.FromRunes | src/gelo/commands/string.go:129-144 | one list argument gives its code points UTF-8 encoded as one symbol; a non-list raises; other counts raise the `->runes` ArgumentError |
| StrCmds.EncodeRunesAppend | src/gelo/commands/string.go:140-141 | encoding one more code point appends its encoding |
| StrCmds.SlurpAllIffBlank | src/gelo/commands/string.go:225 | skipping blanks from the start reaches the end exactly when every byte is blank |
| StrCmds.Emptyp | src/gelo/commands/string.go:219-227 | no arguments give true; a literal gives whether it holds only blanks; a word that is not a symbol or quote raises |
| DictCmds.DictCon | src/gelo/commands/dict.go:8-20 | no arguments give the empty dict; one argument succeeds exactly when it unserialises to a dict, giving that dict, and otherwise raises "Cannot unserialize"; more raise the `Dict` ArgumentError |
| DictCmds.DictConReadsEntries | src/gelo/commands/dict.go:15-19 | `Dict` reads a dict's entries back from a quote of its entries and from the symbol of its serialisation, each value as the symbol of its text |
| DictCmds.DictConRefusesDict | src/gelo/commands/dict.go:15-18 | a dict word is not text to unserialise, so `Dict` of a dict raises |
| DictCmds.Reply | src/gelo/commands/dict.go:41-80 | the caller sees the subcommand's reply, or its error |
| DictCmds.After | src/gelo/commands/dict.go:41-80 | a subcommand that raises leaves the bindings as they were |
| DictCmds.WithDict | src/gelo/commands/dict.go:45 | the first argument is read as a dict first, and its error raised |
| DictCmds.Get | src/gelo/commands/dict.go:22-37 | the value bound to the key's serialisation; a missing key gives the default when there is one and raises "dictionary does not contain" otherwise; other counts raise the `dict.get` ArgumentError |
| DictCmds.Defaulted | src/gelo/commands/dict.go:47-53 | afterwards the key is bound to the reply, every existing binding is kept, and a missing key's reply is the default |
| DictCmds.GetxOf | src/gelo/commands/dict.go:41-54 | three arguments run `Defaulted` on the dict; other counts raise the `dict.get!` ArgumentError |
| DictCmds.Stored | src/gelo/commands/dict.go:61-64 | afterwards the key is bound to the value, which is the reply, and every other binding is kept |
| DictCmds.SetxOf | src/gelo/commands/dict.go:56-65 | three arguments run `Stored` on the dict; other counts raise the `dict.set` ArgumentError |
| DictCmds.Removed | src/gelo/commands/dict.go:72-79 | succeeds exactly when the key is bound, replying with its value and removing only that key; otherwise raises the unset error |
| DictCmds.UnsetxOf | src/gelo/commands/dict.go:67-80 | two arguments run `Removed` on the dict; other counts raise the `dict.unset!` ArgumentError |
| DictCmds.SetpAsWritten | src/gelo/commands/dict.go:82-89 | as written anything but a dict word fails the type assertion and panics; a dict word gives whether the key is bound |
| DictCmds.Setp | src/gelo/commands/dict.go:82-89 | whether the key's serialisation is bound, for any argument `DictOrElse` reads as a dict |
| DictCmds.SetpOnTextAsWritten | src/gelo/commands/dict.go:86 | as written `set?` panics on a quote holding a dict's entries; as meant it answers whether the key is bound |
| DictCmds.SetpAgreesOnDicts | src/gelo/commands/dict.go:86-88 | as written and as meant agree on dict words |
| DictCmds.SetThenGet | src/gelo/commands/dict.go:22-65 | after `set!`, `get` finds the value and `set?` answers true |
| DictCmds.GetxThenGet | src/gelo/commands/dict.go:22-54 | `get!` returns what `get` with the same default returns, and `get` then finds it bound |
| DictCmds.GetxTwice | src/gelo/commands/dict.go:41-54 | a second `get!` of the same key changes nothing and replies the same, whatever its default |
| DictCmds.SetThenUnset | src/gelo/commands/dict.go:56-80 | `unset!` after `set!` of the same key replies with the value set and leaves the dict without the key |
| DictCmds.UnsetThenSet | src/gelo/commands/dict.go:56-80 | `unset!` of a bound key, then `set!` of the value it returned, gives the dict back |
| DictCmds.UnsetNeedsBinding | src/gelo/commands/dict.go:67-89 | `unset!` raises exactly when `set?` answers false |
| DictCmds.Added | src/gelo/commands/dict.go:124-139 | the keys of `d1 + d2` are the keys of both |
| DictCmds.AddedBinds | src/gelo/commands/dict.go:133-137 | `dict.add` never overwrites: every binding of the first dict stays, and only keys it lacks are taken from the second |
| DictCmds.Subtracted | src/gelo/commands/dict.go:141-156 | the keys of `d1 - d2` are those of the first not in the second |
| DictCmds.SubtractedBinds | src/gelo/commands/dict.go:150-154 | `dict.sub` keeps every other binding of the first dict unchanged |
| DictCmds.AddedIdempotent | src/gelo/commands/dict.go:124-139 | adding the same dict twice adds nothing more |
| DictCmds.AddedNotSymmetric | src/gelo/commands/dict.go:126 | `d1 + d2` and `d2 + d1` differ when both bind a key to different values |
| DictCmds.SubUndoesAdd | src/gelo/commands/dict.go:124-156 | subtracting what was added gives the subtraction of the original |
| DictCmds.AddAfterSub | src/gelo/commands/dict.go:124-156 | subtracting a dict and then adding it lets it win every shared key |
| DictCmds.SubSelf | src/gelo/commands/dict.go:143 | a dict less itself is empty |
| DictCmds.Combined | src/gelo/commands/dict.go:127-156 | both arguments are read as dicts in order, either error raised; on success the first dict becomes the combination and is returned; other counts raise the ArgumentError naming the command |
| DictCmds.Open | src/gelo/api.go:56-65 | the dict object the first argument holds, or a fresh one with the bindings it reads as; fails exactly when `DictOrElse` fails |
| DictCmds.Getx | src/gelo/commands/dict.go:41-54 | on the dict object: the reply of `GetxOf`, and the object's bindings afterwards are those `GetxOf` leaves |
| DictCmds.Setx | src/gelo/commands/dict.go:56-65 | on the dict object: the reply of `SetxOf`, and its bindings afterwards |
| DictCmds.Unsetx | src/gelo/commands/dict.go:67-80 | on the dict object: the reply of `UnsetxOf`, and its bindings afterwards |
| DictCmds.Add | src/gelo/commands/dict.go:127-139 | on the dict object: the reply of `dict.add`, and the object then holds `d1 + d2` |
| DictCmds.AddInto | src/gelo/commands/dict.go:133-137 | the loop leaves the first dict holding `d1 + d2`, whatever the key order, and keeps it valid |
| DictCmds.AddedTo | src/gelo/commands/dict.go:133-137 | the turns of the loop give `d1 + d2`, and report a change exactly when the result differs |
| DictCmds.AddStep | src/gelo/commands/dict.go:134-136 | one turn adds the key only where the first dict lacks it |
| DictCmds.Sub | src/gelo/commands/dict.go:144-156 | on the dict object: the reply of `dict.sub`, and the object then holds `d1 - d2` |
| DictCmds.SubFrom | src/gelo/commands/dict.go:150-154 | the loop leaves the first dict holding `d1 - d2`, whatever the key order, and keeps it valid |
| DictCmds.SubtractedFrom | src/gelo/commands/dict.go:150-154 | the turns of the loop give `d1 - d2`, and report a change exactly when the result differs |
| DictCmds.SubStep | src/gelo/commands/dict.go:151-153 | one turn removes the key where the first dict has it |
| DictCmds.EnumerationLength | src/gelo/commands/dict.go:96-98 | an enumeration of a map's keys has one entry per binding |
| DictCmds.KeySyms | src/gelo/commands/dict.go:97 | the symbols of the keys, in the order visited |
| DictCmds.ValuesIn | src/gelo/commands/dict.go:108 | the values bound to the keys, in the order visited |
| DictCmds.ItemsIn | src/gelo/commands/dict.go:119 | the entries of the keys, in the order visited |
| DictCmds.Enumerate | src/gelo/commands/dict.go:96 | the keys of a map, each once, in some order |
| DictCmds.Keys | src/gelo/commands/dict.go:91-100 | the symbols of the keys in some enumeration order; other counts raise the `dict.keys` ArgumentError |
| DictCmds.Values | src/gelo/commands/dict.go:102-111 | the values in some enumeration order; other counts raise the `dict.values` ArgumentError |
| DictCmds.Items | src/gelo/commands/dict.go:113-122 | one entry per key in some enumeration order; other counts raise an ArgumentError naming `dict.values`, as the source does |
| DictCmds.KeysCover | src/gelo/commands/dict.go:91-100 | whatever the order, `keys` lists each key once and nothing else |
| DictCmds.ValuesCover | src/gelo/commands/dict.go:102-111 | whatever the order, `values` lists one value per key and only bound values |
| DictCmds.Dispatch | src/gelo/commands/dict.go:158-169 | the subcommand named runs as its own command does, on the dict object when one is held |
| DictCmds.DictAggregate | src/gelo/commands/dict.go:171-184 | fewer than two arguments raise the `dict` ArgumentError; an unknown subcommand raises and changes nothing; otherwise the subcommand runs on the dict followed by the rest |
| DictCmds.AggregateSetThenGet | src/gelo/commands/dict.go:171-184 | through `dict`, `set!` then `get` on a dict word finds the value |
| DictCmds.PairedKeys | src/gelo/commands/dict.go:219-221 | the keys bound are exactly the serialisations of the keys given |
| DictCmds.PairedLast | src/gelo/commands/dict.go:219-221 | a key is bound to the value paired with its last occurrence |
| DictCmds.Copied | src/gelo/dict.go:7-13 | the copy binds the same keys |
| DictCmds.ZipMapOf | src/gelo/commands/dict.go:212-223 | succeeds exactly for two lists of equal length, binding each key's serialisation to the copy of the value at the same position; other counts raise the `zip-map` ArgumentError |
| DictCmds.ZipMapThenGet | src/gelo/commands/dict.go:212-223 | zipping keys binds each key whose serialisation does not recur to the copy of its own value, and `get` finds it |
| DictCmds.ZipMap | src/gelo/commands/dict.go:212-223 | the command gives exactly `ZipMapOf` |
| DictCmds.PairUp | src/gelo/commands/dict.go:219-221 | the loop succeeds exactly when the lists have equal length, giving the pairing; otherwise it dereferences nil |
| DictCmds.PairedStep | src/gelo/commands/dict.go:220 | one turn binds the next key to the next value |
| Combinators.ComposeOf | src/gelo/commands/combinator.go:9-27 | `o` with no commands is the identity and with one is that command once checked; with several it succeeds exactly when every command passes its check, and then holds them last first |
| Combinators.ComposeRaisesFirst | src/gelo/commands/combinator.go:21-27 | when a command fails its check, `o` raises the failure of the first such command |
| Combinators.Compose | src/gelo/commands/combinator.go:19-27 | the checking loop, pushing each command to the front, builds exactly what `ComposeOf` describes |
| Combinators.CheckReversed | commands/combinator.go:15-20 | the loop pushing each resolved command to the front of the builder gives the resolved commands reversed, or the first failure |
| Combinators.ResolvedCompose | commands/combinator.go:8-20 | with `InvokableOrElse` as the check, `o` succeeds exactly when every argument is invokable, one argument giving itself resolved and several giving the resolved commands last first |
| Combinators.ThreadedSplit | src/gelo/commands/combinator.go:29-33 | threading the arguments through two runs of commands is threading through the first and then the second |
| Combinators.ComposeRightToLeft | src/gelo/commands/combinator.go:28-35 | `o f g` on `x` runs `g` on `x` first and then `f` on the items of what `g` returned; a raise in `g` ends the call |
| Combinators.TailComposeAgrees | commands/combinator.go:21-28 | the tail call the root alien hands back, once run, gives what the other alien's final call gives, and a raise before it is the same raise |
| Combinators.Thread | src/gelo/commands/combinator.go:29-33 | the alien's loop threads the arguments through every command but the last, as `Threaded` describes |
| Combinators.RunComposed | src/gelo/commands/combinator.go:28-35 | calling the composed alien gives `ApplyComposed` |
| Combinators.RunComposedTail | commands/combinator.go:21-28 | calling the root composed alien gives the tail call `ApplyComposedTail` describes |
| Combinators.CleaveOf | src/gelo/commands/combinator.go:38-55 | `cleave` without commands raises the `cleave` ArgumentError; otherwise it succeeds exactly when every command passes its check, and keeps them in the order given |
| Combinators.Cleave | src/gelo/commands/combinator.go:42-55 | the loop appending each checked command builds exactly what `CleaveOf` describes |
| Combinators.Each | commands/combinator.go:41-47 | a loop running a step on each word and appending the result gives every result in order, or the first raise |
| Combinators.ApplyCleaved | src/gelo/commands/combinator.go:56-64 | the cleave alien succeeds exactly when every command succeeds on the same arguments, and lists the results in command order |
| Combinators.CleaveRaisesFirst | src/gelo/commands/combinator.go:56-64 | the first command that raises decides what the cleave alien raises |
| Combinators.RunCleaved | src/gelo/commands/combinator.go:56-64 | calling the cleave alien gives `ApplyCleaved` |
| Combinators.Kind | src/gelo/commands/combinator.go:95-111 | the symbol `X` is a hole, the symbol `*` takes the rest, and every other word stands for itself |
| Combinators.PlanOf | src/gelo/commands/combinator.go:94-119 | a plan that is made has one slot per argument, each the kind of its argument |
| Combinators.PlanAccepts | src/gelo/commands/combinator.go:94-119 | a plan is made exactly when every argument passes the vet, at most one `*` appears and only fixed words follow it |
| Combinators.SymbolPlans | src/gelo/commands/combinator.go:96 | with this file's vet, a plan is made exactly when every argument is a symbol and only fixed words follow one `*` |
| Combinators.AnyPlans | commands/combinator.go:77-95 | with the root file's vet any word may be a fixed word, so a plan is made exactly when only fixed words follow one `*` |
| Combinators.HoleAfterStar | src/gelo/commands/combinator.go:97-101 | an `X` after the `*` raises "there will be no arguments left after *", reporting the arguments from the `X` on |
| Combinators.SecondStar | src/gelo/commands/combinator.go:103-107 | a second `*` raises "only one * can be specfied", reporting the arguments from it on |
| Combinators.Plan | src/gelo/commands/combinator.go:94-119 | the plan loop, appending one slot per argument, gives exactly `PlanOf` |
| Combinators.PartialOf | src/gelo/commands/combinator.go:81-120 | fewer than two arguments raise the `partial` ArgumentError; a command failing its check raises that failure; on success the command is kept with the kinds of the other arguments |
| Combinators.Partial | src/gelo/commands/combinator.go:81-120 | the command checks the command word and then runs the plan loop, giving exactly `PartialOf` |
| Combinators.FillsOnly | src/gelo/commands/combinator.go:124-145 | a plan of fixed words has no hole and no `*`, and with no arguments assembles to its own words |
| Combinators.AssembleArity | src/gelo/commands/combinator.go:124-149 | a valid plan assembles exactly when the arguments are as many as its holes, or at least as many when it has a `*` |
| Combinators.AssembleTooFew | src/gelo/commands/combinator.go:129-133 | with fewer arguments than holes the call raises "requires at least one more argument" |
| Combinators.AssembleTooMany | src/gelo/commands/combinator.go:146-149 | without a `*`, arguments past the holes raise "got too many arguments", reporting those left over |
| Combinators.AssembleInOrder | src/gelo/commands/combinator.go:124-136 | without a `*` and with one argument per hole, the call list follows the plan: each fixed word in place, and the arguments in order at the holes |
| Combinators.AssembleRest | src/gelo/commands/combinator.go:137-143 | with a `*`, the call list is what the slots before it make of the first arguments, then every remaining argument, then the fixed words after it |
| Combinators.PartialReraises | src/gelo/commands/combinator.go:150-154 | re-panicking the error `Invoke` returns is the same as running the command directly, so both files' partial aliens behave alike |
| Combinators.AssembleArgs | src/gelo/commands/combinator.go:122-149 | the call-time loop over the slots gives exactly `Assemble` |
| Combinators.RunPartial | src/gelo/commands/combinator.go:121-155 | calling the partial alien runs the command on the assembled words, or raises the assembly error |
| Misc.Id | src/gelo/commands/misc.go:10-18 | `id` gives Null for no arguments, the argument itself for one, and the whole argument list for more |
| Misc.IdUndoesAsList | src/gelo/commands/misc.go:10-18 | `id` of a word's `AsList` gives the word back, except that an empty list comes back as Null and a one-item list as its item |
| Misc.QuoteCmd | src/gelo/commands/misc.go:45-53 | `Quote` with no arguments is Noop |
| Misc.QuoteReadsFirstOnly | src/gelo/commands/misc.go:49-52 | once there are two or more arguments only the first counts, and when a word and its serialisation make the same quote the extra arguments change nothing |
| Misc.ValueCmd | src/gelo/commands/misc.go:23-30 | no arguments raise the `value` ArgumentError; one argument is run in the caller's place when invokable and returned otherwise; several give a list, one item per argument, each the argument itself or what running it built |
| Misc.ValueOfLiterals | src/gelo/commands/misc.go:27-29 | `value` of words none of which is invokable is `id` of them |
| Misc.Invokablep | src/gelo/commands/misc.go:55-63 | `invokable?` with no arguments is False |
| Misc.InvokablepAgrees | src/gelo/commands/misc.go:59-62 | `invokable?` of a word is True exactly when `InvokableOrElse` accepts it, and False exactly when it raises |
| Misc.ApplyConstant | src/gelo/commands/misc.go:85-91 | the wrapping alien returns its word exactly when called without arguments, and otherwise raises an ArgumentError named by the word's serialisation |
| Misc.Force | src/gelo/commands/misc.go:82-94 | a word is passed on as its invokable form exactly when it has one; any other word is kept to be wrapped |
| Misc.MakeInvokable | src/gelo/commands/misc.go:78-95 | `force-invokable` is Noop exactly for no arguments; one argument is forced; several give one forced word each |
| Misc.ForcedRuns | src/gelo/commands/misc.go:82-94 | every word `force-invokable` returns for several arguments can be run: an invokable one as `IsInvokable` gave it, any other returning the argument when called without arguments |
| Logic.FirstOther | commands/logic.go:30-39 | the position of the first word that is not the given one: every word before it is that word, and the word there is not |
| Logic.And | commands/logic.go:5-21 | the loop answers True for no words, False as soon as a word is False, and the last word otherwise |
| Logic.Or | commands/logic.go:23-41 | the loop answers the first word that is not False, and False when there is none |
| Logic.OrStopsAt | commands/logic.go:30-39 | when the words before a position are all False and the word there is not, `or` answers that word |
| Logic.Not | commands/logic.go:44-51 | `not` of nothing is False; a Bool is negated and any other word raises a `bool` type mismatch; several words succeed exactly when all are Bools, giving each negated in order |
| Logic.Negated | commands/logic.go:49 | a word is negated exactly when it is a Bool, and otherwise raises the `bool` type mismatch |
| Logic.EqualsCmd | commands/logic.go:53-67 | `=` answers True for fewer than two words, whether the first equals the second for two, and whether every later word equals the first for more |
| Logic.NotEquals | commands/logic.go:69-83 | `/=` answers False for fewer than two words, whether the two differ for two, and whether no later word equals the first for more |
| Logic.OnBools | commands/logic.go:5-41 | on Bools alone `and` is their conjunction and `or` their disjunction |
| Logic.OfOne | commands/logic.go:9-10 | `and` and `or` of one word give that word back, whatever it is |
| Logic.FalseOnlyFromFalse | commands/logic.go:5-41 | `or` answers False exactly when every word is False; `and` of some words answers False exactly when one of them is False |
| Logic.NotTwice | commands/logic.go:44-51 | negating a Bool twice gives it back |
| Logic.EqualsExclusive | commands/logic.go:53-83 | `=` and `/=` never both answer True, and on two words exactly one of them does |
| Logic.EqualsDirection | commands/logic.go:58-64 | the second word is compared against the first for two words, every later word against the first for more, so `= true "true"` answers False while `= true "true" "true"` answers True |
| TypeCmds.TypeOf | commands/types.go:8-15 | `type-of` raises its ArgumentError exactly when given no arguments; one argument gives its type name; several give a list of their type names in order |
| TypeCmds.TypePred | commands/types.go:17-27 | a type predicate answers False for no arguments; for one it answers True exactly when the argument's type name is the signature; for several it lists that answer per argument |
| TypeCmds.Sig | commands/types.go:29-38 | every predicate keeps its table signature except `bool?`, which compares against the type name Bools really have |
| TypeCmds.BoolpNeverHoldsAsWritten | commands/types.go:31 | as written `bool?` compares against `*BOOL*`, which no word has, so it answers False for every word, `true` included |
| TypeCmds.PredicateMeansItsKind | commands/types.go:29-38 | with the corrected signature each predicate answers True for exactly its own kind of word |
| TypeCmds.PredicateAgreesWithTypeOf | commands/types.go:8-38 | a corrected predicate answers True exactly when `type-of` names its signature |
| TypeCmds.PredicatesExclusive | commands/types.go:29-38 | no word satisfies two different predicates |
| ArgSpec.Scan | extensions/argparse.go:193-234 | one step of the tokeniser: it moves forward over clean bytes and keeps the literals; at the end of input it only moves the position; otherwise a step leaves less input |
| ArgSpec.ReadName | extensions/argparse.go:236-243 | reading a name stops at the first token that is not a name byte and empties the buffer |
| ArgSpec.SkipSpaces | extensions/argparse.go:247-248 | skipping blanks stops at the first token that is not a space |
| ArgSpec.Parse1 | extensions/argparse.go:245-294 | one item never moves backwards, and gives no item only at the end of input |
| ArgSpec.Prefix | extensions/argparse.go:249-267 | the prefix switch reads a literal, a name or a bracketed sequence and moves forward |
| ArgSpec.Postfix | extensions/argparse.go:268-292 | the postfix switch wraps the item in its operator, starts an alternation at a `|` outside one, and moves forward |
| ArgSpec.Repeated | extensions/argparse.go:280-284 | after a postfix operator the item is kept unchanged when the next token allows it |
| ArgSpec.ParseAlt | extensions/argparse.go:296-328 | an alternation that is read holds at least the first alternative |
| ArgSpec.AltLoop | extensions/argparse.go:303-326 | the alternation loop keeps every alternative read so far |
| ArgSpec.AltAfter | extensions/argparse.go:310-325 | the switch after an alternative keeps every alternative read so far |
| ArgSpec.ParseSeq | extensions/argparse.go:330-365 | a sequence that is read holds at least one item, and the top-level sequence runs to the end of input |
| ArgSpec.SeqItem | extensions/argparse.go:334-343 | one round of the sequence loop keeps every item read so far and, at the top level, stops only at the end of input |
| ArgSpec.SeqEnd | extensions/argparse.go:344-362 | a sequence ends exactly with the items read, which must not be empty |
| ArgSpec.SpecParser.constructor | extensions/argparse.go:378-379 | a fresh parser object holds the spec, stands before its first byte, and is valid |
| ArgSpec.SpecParser.Next | extensions/argparse.go:193-234 | `_next` on the parser object makes the step `Scan` describes, or raises its error |
| ArgSpec.SpecParser.ParseString | extensions/argparse.go:236-243 | `_parse_string` on the parser object reads the name `ReadName` describes |
| ArgSpec.SpecParser.SkipBlanks | extensions/argparse.go:247-248 | the blank-skipping loop on the parser object does what `SkipSpaces` describes |
| ArgSpec.SpecParser.ParseOne | extensions/argparse.go:245-294 | `_parse1` on the parser object gives what `Parse1` describes |
| ArgSpec.SpecParser.ParsePrefix | extensions/argparse.go:249-267 | the prefix switch on the parser object gives what `Prefix` describes |
| ArgSpec.SpecParser.ParsePostfix | extensions/argparse.go:268-292 | the postfix switch on the parser object gives what `Postfix` describes |
| ArgSpec.SpecParser.Repeat | extensions/argparse.go:280-284 | the step after a postfix operator gives what `Repeated` describes |
| ArgSpec.SpecParser.ParseAlternation | extensions/argparse.go:296-328 | `_parse_alt` on the parser object gives what `ParseAlt` describes |
| ArgSpec.SpecParser.AfterAlternative | extensions/argparse.go:310-325 | the switch after an alternative either ends as `AltAfter` describes, or goes round the loop with less input left |
| ArgSpec.SpecParser.ParseSequence | extensions/argparse.go:330-365 | `_parse_seq` on the parser object gives what `ParseSeq` describes |
| ArgSpec.SpecParser.EndSequence | extensions/argparse.go:344-362 | the two ways out of the sequence loop give what `SeqEnd` describes |
| ArgSpec.Compile | extensions/argparse.go:374-382 | a compiled spec that takes arguments is one top-level sequence, and its spec holds no control byte |
| ArgSpec.MakeArgParser | extensions/argparse.go:374-382 | building the parser with a fresh parser object gives exactly `Compile` |
| ArgSpec.BlankSpecTakesNoArgs | extensions/argparse.go:375-377 | a spec takes no arguments exactly when it is empty or all white space |
| ArgSpec.ControlByteRefused | extensions/argparse.go:200-202 | any other spec holding a byte below 32 is refused |
| ArgSpec.LiteralNeedsName | extensions/argparse.go:254-261 | a `'` not followed by a name raises "No literal after '"; a literal that is read has a name and is recorded among the literals |
| ArgSpec.PostfixThenWordRefused | extensions/argparse.go:280-284 | after a postfix operator the parse goes on exactly when the next token is not a name, `[`, `'` or another operator, and those raise |
| ArgSpec.CloseAtTopRefused | extensions/argparse.go:345-348 | the spec `a]` is refused with "] before [" |
| ArgSpec.UnclosedRefused | extensions/argparse.go:354-357 | the spec `[a` is refused with "[ without ]" |
| ArgSpec.EmptyBracketsRefused | extensions/argparse.go:249-251 | the spec `[]` is refused as an unexpected `]` |
| ArgSpec.TwoAlternatives | extensions/argparse.go:285-326 | `[a|b]` compiles to one bracketed alternation of `a` and `b` |
| ArgSpec.ThirdAlternativeRefused | extensions/argparse.go:314-325 | as written `[a|b|c]` is refused: after the second `|` the loop steps past the `c` before parsing it and meets the `]` |
| ArgSpecIntended.AltAfter | extensions/argparse.go:310-325 | as intended, after a `|` the next alternative is parsed from where the loop stands; every alternative read so far is kept |
| ArgSpecIntended.Compile | extensions/argparse.go:374-382 | the intended compiler gives a top-level sequence over a spec with no control byte, as `ArgSpec.Compile` does |
| ArgSpecIntended.ThreeAlternatives | extensions/argparse.go:314-325 | as intended, `[a|b|c]` compiles to one bracketed alternation of `a`, `b` and `c` |
| ArgMatch.RecordsJoin | extensions/argparse.go:77-86 | two runs of pairs recording consecutive arguments join into one run recording both stretches |
| ArgMatch.Link | extensions/argparse.go:79-85 | linking a match onto a chain succeeds exactly when the chain is empty or has a tail, and then holds the chain's pairs followed by the match's |
| ArgMatch.LinkFits | extensions/argparse.go:77-86 | a linked chain still records the arguments it consumed, up to where the new match stops |
| ArgMatch.Marked | extensions/argparse.go:161-167 | the keys marked as lists are never literals |
| ArgMatch.Match | extensions/argparse.go:66-191 | matching only adds non-literal marks; a match found records the arguments it consumes; at the end of the arguments a sequence, alternation, literal, variable or `+` fails while `?` and `*` succeed with nothing; `?` and `*` never fail; a sequence or `+` that succeeds has a match |
| ArgMatch.SeqFrom | extensions/argparse.go:71-88 | the sequence loop only adds non-literal marks, and on success records every argument from where the sequence began |
| ArgMatch.AltFrom | extensions/argparse.go:96-104 | each alternative is tried from the same place, and the one that succeeds records the arguments it consumes |
| ArgMatch.Starred | extensions/argparse.go:135-169 | `*` never fails and matches nothing at the end of the arguments; a match it finds records the arguments it consumed and holds at least one pair |
| ArgMatch.StarLoop | extensions/argparse.go:141-157 | the `*` loop never fails, and its match keeps every pair gathered so far and records the arguments consumed |
| ArgMatch.StarRound | extensions/argparse.go:142-156 | one round of the `*` loop keeps the pairs so far, records what it consumed and never fails |
| ArgMatch.Plussed | extensions/argparse.go:171-191 | `+` that succeeds has a match recording the arguments it consumed, the first match followed by those of the `*` after it |
| ArgMatch.Put | extensions/argparse.go:396-418 | one round of the builder binds the pair's key and keeps every other key's binding and marks, and keeps the builder's state coherent |
| ArgMatch.Fold | extensions/argparse.go:393-419 | the builder's state after all the pairs is coherent |
| ArgMatch.Collect | extensions/argparse.go:393-420 | the builder loop's output is the bindings `Fold` describes |
| ArgMatch.ValuesOf | extensions/argparse.go:396-418 | a key has no more values than there are pairs |
| ArgMatch.FoldDescribes | extensions/argparse.go:393-419 | every key of the pairs is bound as the builder's rules say, and no other key |
| ArgMatch.Bindings | extensions/argparse.go:396-418 | a key is bound exactly when some pair has it: a literal to Null, a key marked as a list to all its values in order, a key given once to its value, and a key given several times to the list of its values, the second one copied |
| ArgMatch.Apply | extensions/argparse.go:367-421 | a blank spec's parser accepts exactly no arguments, binding nothing; a compiled spec always refuses no arguments |
| ArgMatch.Run | extensions/argparse.go:384-421 | running the parser with its builder loop gives exactly `Apply` |
| ArgMatch.AcceptedConsumesAll | extensions/argparse.go:388-391 | an accepted argument list was consumed whole: the match's pairs record every argument once, in order, and the keys bound are exactly the keys of those pairs |
| ArgMatch.StarOfVarMatch | extensions/argparse.go:135-169 | `name*` on some arguments matches every argument and marks `name` as a list |
| ArgMatch.MarkedPairsBindList | extensions/argparse.go:400-408 | pairs of one list-marked name bind it to the list of all their values |
| ArgMatch.StarOfVarCollectsAll | extensions/argparse.go:66-69 | the spec `name*` binds `name` to the list of all the arguments, and refuses no arguments because the sequence around it fails on an empty list |
| ArgMatch.RepeatedVarPromoted | extensions/argparse.go:409-414 | a variable given twice is promoted to the list of both values, the second copied |
| ArgMatch.LiteralBindsNull | extensions/argparse.go:107-117 | a literal accepts exactly an argument serialising to its name, and binds that name to Null |
| ArgMatch.Shown | extensions/argparse.go:429-433 | the spec the ArgumentError reports is never empty: the spec itself or "no arguments" |
| ArgMatch.OrElse | extensions/argparse.go:424-437 | the `OrElse` parser succeeds exactly when the parser accepts, with its bindings, and otherwise raises the `argparser` ArgumentError naming the spec and the arguments |
| ArgMatch.Copied | src/gelo/dict.go:7-13 | the dict stores every binding, each value copied |
| ArgMatch.Spaced | commands/argparse.go:18-21 | every word is followed by a blank |
| ArgMatch.ArgsToSpec | commands/argparse.go:9-25 | the spec built from the words by the loop is exactly `SpecOf`: empty, the one word's text, or each word's text followed by a blank |
| ArgMatch.Build | extensions/argparse.go:374-382 | building succeeds exactly when the spec compiles, and a blank spec gives the parser taking no arguments |
| ArgMatch.MakeParser | commands/argparse.go:27-43 | both commands build the spec from their words and compile it |
| ArgMatch.ParserCall | commands/argparse.go:29-31 | the `ArgumentParser` alien succeeds exactly when the parser accepts, returning a dict of the copied bindings |
| ArgMatch.MaybeParserCall | commands/argparse.go:36-42 | the `MaybeArgumentParser` alien answers `[false]` exactly when the parser refuses, and `[true dict]` of the copied bindings when it accepts |
| ArgMatch.MaybeAgreesWithOrElse | commands/argparse.go:27-43 | the two commands agree: `[false]` exactly where `ArgumentParser` raises its ArgumentError, `[true d]` exactly where it returns `d`, and the same failure otherwise |
| Geli.Marked | src/tools/geli.go:467-474 | marking where a line starts leaves the buffer and the lines alone |
| Geli.Counted | src/tools/geli.go:475-522 | the counting switch leaves the buffer and the lines alone |
| Geli.StepEmitsOnlyComplete | src/tools/geli.go:466-531 | each byte either joins the buffer, or is an unescaped newline or `;` at a complete point: then the buffer is cleared, the line start forgotten, and at most the buffered line with that byte is emitted |
| Geli.EndedShape | src/tools/geli.go:524-531 | the end of a round either keeps the byte in the buffer or ends a line at a complete point |
| Geli.CompleteEndEmits | src/tools/geli.go:524-531 | outside strings, comments, escapes and `\*` runs, at a complete point, `;` always ends a line and a newline ends one when something came before it on the line |
| Geli.BlankLineEmitsNothing | src/tools/geli.go:526 | a newline that is the first byte of a line after blanks ends no line |
| Geli.LiteralIgnoresBrackets | src/tools/geli.go:499-518 | inside a string brackets and braces are not counted, and only `"` ends the string |
| Geli.CommentOnlyFirst | src/tools/geli.go:511-512 | `#` starts a comment exactly when it is the first byte of a line after blanks |
| Geli.EscapedNotCounted | src/tools/geli.go:519-521 | an escaped byte is never counted, and starts a `\*` run exactly when it is `*` outside braces |
| Geli.StarPassesBlanks | src/tools/geli.go:490-494 | inside a `\*` run blanks and newlines go straight to the buffer and end no line |
| Geli.BracketsCounted | src/tools/geli.go:500-508 | outside strings, comments and escapes, brackets and braces are counted up and down |
| Geli.StepAddsEndedLine | src/tools/geli.go:524-531 | a byte adds at most one line, and that line ends with the byte |
| Geli.FeedKeepsLines | src/tools/geli.go:466-532 | reading only ever adds lines after those already there |
| Geli.FeedAddsEndedLines | src/tools/geli.go:466-532 | each line reading adds ends with the newline or `;` that ended it |
| Geli.CommentNeverEndsAsWritten | src/tools/geli.go:484-485 | as written a newline in a comment with balanced braces leaves the comment open; as intended it closes it |
| Geli.CommentSwallowsNextLineAsWritten | src/tools/geli.go:475-486 | as written, reading `#`, newline, `[`, newline emits both lines and ends complete, the open bracket uncounted |
| Geli.CommentEndsAtNewline | src/tools/geli.go:475-486 | as intended the same bytes emit only the comment line, and the open bracket keeps the reader waiting |
| Geli.CommentLine | src/tools/geli.go:466-531 | after `#` and a newline one line is out, and the comment is still open exactly as written |
| Geli.Readline.constructor | src/tools/geli.go:445-449 | a new reader is in the fresh state |
| Geli.Readline.Reset | src/tools/geli.go:451-455 | `Reset` empties the buffer and the lines and forgets the line start, keeping the modes |
| Geli.Readline.IsComplete | src/tools/geli.go:457-459 | the reader is complete exactly when no string or `\*` run is open and brackets and braces balance |
| Geli.Readline.Consume | src/tools/geli.go:466-531 | one byte on the reader object makes the step the as-written reader function describes |
| Geli.Readline.Count | src/tools/geli.go:475-522 | the counting switch on the reader object does what `Counted` describes |
| Geli.Readline.CountInComment | src/tools/geli.go:475-489 | the comment branch on the reader object does what `InComment` describes |
| Geli.Readline.CountOutside | src/tools/geli.go:498-522 | the branch outside comments and runs on the reader object does what `Outside` describes |
| Geli.Readline.Finish | src/tools/geli.go:524-531 | the end of a round on the reader object does what `Ended` describes |
| Geli.Readline.Read | src/tools/geli.go:465-536 | `Read` takes in every byte, returns the length read, and leaves the state `ReadOf` describes |
| Geli.TrimRight | src/tools/geli.go:142 | trimming keeps a prefix of the text ending in a non-space, and drops only spaces |
| Geli.CutAt | src/tools/geli.go:140-148 | the first place where a line may be cut: a newline that is not last, or byte 71; nothing earlier qualifies |
| Geli.CutFrom | src/tools/geli.go:140-148 | the first cut place from a given position on |
| Geli.CutAtIs | src/tools/geli.go:140-148 | a place where the line may be cut with none before it is the cut |
| Geli.Foreshorten | src/tools/geli.go:138-150 | the loop gives exactly `ForeshortenOf` |
| Geli.ForeshortenShape | src/tools/geli.go:138-150 | a shortened line holds no newline and at most 74 bytes: the line up to the cut, trailing spaces trimmed and "..." added, or the whole line less at most a final newline |
| Geli.ForeshortenKeepsShortLines | src/tools/geli.go:144-147 | a line of at most 71 bytes with no newline but a final one is shown whole without that newline |
| Geli.ForeshortenCutsLongLines | src/tools/geli.go:141-143 | a longer line without newlines is cut after byte 71, trimmed and marked with "..." |
| Geli.ValidIdx | src/tools/geli.go:182-203 | an index is accepted exactly when it is a number with an integral value inside the history, and is that value; a missing word panics, and any other raises "invalid index" |
| Geli.ValidIdxOfIndex | src/tools/geli.go:187-203 | every entry of the history can be named by its index |
| Geli.Interval | src/tools/geli.go:224-229 | two indices give the interval from the first to just after the second, refused exactly when it would be empty |
| Geli.MakeSlice | src/tools/geli.go:207-211 | the single word `all` gives the whole history |
| Geli.MakeSliceBounds | src/tools/geli.go:207-230 | a slice is always the whole history or a non-empty interval of valid indices |
| Geli.SliceOfIndices | src/tools/geli.go:219-229 | given only `i` the slice is entry `i`; given `i` and `j` it is from `i` to just after `j`, and exists exactly when `i <= j` |
| Geli.Cut | src/tools/geli.go:250-253 | `cut` succeeds exactly when its slice does |
| Geli.CutKeepsTheRest | src/tools/geli.go:250-253 | `cut` removes exactly the slice, keeping the entries before and after it in order, and `cut all` clears the history |
| Geli.Dollar | src/tools/geli.go:418-436 | `$` runs a known command; it runs the command its first argument names, with the words after it, exactly when that name is known, and `help` after a complaint otherwise |
| Geli.DollarReachesEveryCommand | src/tools/geli.go:343-436 | every command of the table is reached by its name and receives the words after it |
| Gelrun.Next | src/tools/gelrun.go:64-74 | the first byte of a line decides the line's mode, `>` making it code; inside a line the mode holds, and a newline starts the next line |
| Gelrun.Filtered | src/tools/gelrun.go:58-75 | the filter never passes on more bytes than it reads |
| Gelrun.FilteredAppend | src/tools/gelrun.go:43-76 | filtering a stream in two pieces, the second from the mode the first left, is filtering it whole, so the buffer boundaries do not matter |
| Gelrun.FilteredSnoc | src/tools/gelrun.go:58-75 | one more byte adds exactly what that byte emits in the mode reached |
| Gelrun.LineLength | src/tools/gelrun.go:64-74 | the first line of the text runs up to and including its first newline, or to the end |
| Gelrun.InsideLine | src/tools/gelrun.go:67-74 | inside a line the mode holds, and a code line passes its bytes on |
| Gelrun.OneLine | src/tools/gelrun.go:64-74 | a whole line passes on its bytes after the first exactly when it begins with `>`, and its newline brings back the start of a line |
| Gelrun.FilterIsUnlit | src/tools/gelrun.go:21-24 | as intended the filter passes on exactly the code lines, each without its `>`; as written it does so on text without blank lines |
| Gelrun.BlankLineSwallowsNextAsWritten | src/tools/gelrun.go:65-66 | as written a blank line's newline sets the mode of a line, so the code line after it is taken for text and nothing of it is passed on, where `Unlit` keeps it |
| Gelrun.BlankLineKeepsNext | src/tools/gelrun.go:21-24 | as intended the code line after a blank line comes through without its `>` |
| Gelrun.TracksStep | src/tools/gelrun.go:63-74 | each round of the loop keeps the flags and the output in step with the filter |
| Gelrun.LiterateReader.constructor | src/tools/gelrun.go:25-28 | a new reader is at the start of a line, with the buffer still to fill and nothing passed on |
| Gelrun.LiterateReader.Read | src/tools/gelrun.go:30-79 | `Read` appends to what it passed on so far exactly the bytes written to `p`, stopping one short of the end of `p` or when the source runs dry, having then read all of it; once dry it returns nothing; an empty `p` crashes |
| Gelrun.LiterateReader.Refill | src/tools/gelrun.go:45-56 | the refill takes the next bytes of the source into the buffer, and is dry exactly when there are none |
| Gelrun.LiterateReader.Pump | src/tools/gelrun.go:57-75 | the inner loop passes the buffer's bytes through the filter until the buffer is used up or `p` has one byte of room left |
| Gelrun.LiterateReader.Take | src/tools/gelrun.go:63-74 | one byte of the buffer goes through the filter: it is passed on exactly when the line it belongs to is code, the flags become the filter's next mode, and the reader stays sound |
| Machine.World.constructor | src/gelo/vm.go:53-64 | a fresh process holds no scope, no dict and no VM, its aliens are exactly the builtins, and no child or kill signal is recorded |
| Machine.World.NewAlien | src/gelo/builtins.go:204-217 | a new alien gets an id not used before and runs the given code; scopes, dicts, VMs and children are unchanged |
| Machine.Abandoned | src/gelo/vm.go:99-113 | after a VM is destroyed it has no children map, it has left its parent's map, and every other map is unchanged |
| Machine.VM.Init | src/gelo/vm.go:53-64 | a new VM belongs to the process, has the given id and port, is alive, and has no scope, owner limit, program or heritage yet |
| Machine.VM.ForkEmpty | src/gelo/namespace.go:98-106 | with no scope supplied, a new scope with a fresh empty dict becomes current above the old walk, and every name still means what it meant |
| Machine.VM.ForkShared | src/gelo/namespace.go:98-106 | with a scope supplied, a new scope sharing that scope's dict becomes current above the old walk |
| Machine.VM.Descend | src/gelo/namespace.go:98-106 | a new scope whose parent is the current one becomes current, one more scope on the walk and inside what the VM owns |
| Machine.VM.Store | src/gelo/namespace.go:407 | a write binds the name in the dict where it lands and nowhere else, and the name then means the value written |
| Machine.VM.Find | src/gelo/namespace.go:383-412 | the walk of `Mutate` finds a name exactly when it is bound along the walk, giving the dict a write lands in, the meaning, and whether it was found at or above the owner limit |
| Machine.VM.Exchange | src/gelo/namespace.go:415-508 | the two writes of `Swap` land where each name's write lands, the second after the first, and each name then means the value written to it |
| Machine.VM.Child | src/gelo/vm.go:74-81 | `Spawn`'s child is a fresh healthy VM with the next id and the same port, whose owner limit is the parent's current scope and whose walk starts with a new scope above the parent's walk; the parent's walk is unchanged |
| Machine.VM.Adopt | src/gelo/vm.go:82-90 | the parent gets a heritage if it had none, and its children map gains the child, creating the map if need be |
| ListBuilders.Builder.constructor | src/gelo/listbuilder.go:8-14 | a new builder holds exactly the starting words, and has a tail exactly when there is one |
| ListBuilders.CountingBuilder.constructor | extensions/listbuilder.go:13-19 | a new builder holds exactly the starting words, counts them, and has a tail exactly when there is one |
| ListBuilders.CountingBuilder.List | extensions/listbuilder.go:29-31 | the list returned is the words held |
| ListBuilders.CountingBuilder.PushFront | extensions/listbuilder.go:49-56 | the word goes in front, the count grows by one, and the tail is not set |
| ListBuilders.CountingBuilder.Extend | extensions/listbuilder.go:58-62 | the words are appended one by one and counted; extending a builder whose only cells came from `PushFront` dereferences its nil tail |
| Util.Buffer.constructor | src/gelo/util.go:41-46 | a new buffer is empty |
| Util.Buffer.From | src/gelo/util.go:48-50 | a buffer made from bytes holds exactly those bytes |
| Util.Buffer.Write | src/gelo/util.go:65 | writing appends the bytes |
| Util.WordBytes | src/gelo/util.go:56-66 | a word writes its serialisation, and a nil word writes `NIL` |
| Util.EncodeRunes | src/gelo/util.go:216-217 | the encoding of code points has at least one byte per code point |
| Util.NextRead | src/gelo/util.go:25 | a read either fails with no bytes, exactly when the source is dry or its next read fails, or delivers at most the bytes asked for; the bytes delivered followed by those left are the bytes the source had |
| Util.Source.constructor | src/gelo/util.go:25 | the source holds the reads still to come |
| Util.Source.Read | src/gelo/util.go:25 | a read of the source is the one `NextRead` describes |
| Util.RecordingReader.constructor | src/gelo/util.go:21 | a new recorder wraps the source and has recorded nothing |
| Util.ChunkBytes | src/gelo/util.go:24-31 | the bytes of the reads are those of the first successful read followed by the rest |
| Quotes.Memo.constructor | src/gelo/quote.go:7-34 | a new quote holds its source, is not known to be literal, and has parsed nothing |
| Unparser.Then | src/gelo/unparser.go:21 | appending to a text result appends to its bytes, and a failure passes through |
| Unparser.After | src/gelo/unparser.go:8-15 | a prefix goes in front of a text result, and a failure passes through |
| Unparser.Buffer.constructor | src/gelo/unparser.go:31 | the buffer starts empty |
| Unparser.Spaced | src/gelo/unparser.go:6-7 | a line of literals writes at least one byte per literal |

## Left out

- Words.Ser: a dict is serialised with its entries in one fixed order, byte-lexicographic by key (`Base.SortedKeys`). Go's map iteration order is unspecified, so two equal dicts may serialise differently there. The fixed order is one Go may produce, but the model does not capture the other orders. The same goes for comparing a dict with a symbol through its serialisation.
- Dicts.SerMap: the cached serialisation of the dict object uses the same fixed key order as `Words.Ser`, for the same reason.
- Machine.VM.Fork: with a supplied scope, the Go code makes that namespace the current one and overwrites its `up` pointer with the old current scope (src/gelo/namespace.go:98-106). Anyone else holding the namespace sees that change. The model instead pushes a new scope that shares the supplied scope's dict and leaves the supplied scope's parent as it was, so it does not capture that aliasing.
- ListBuilders.Builder.ExtendFront: the caller's list is copied in front of the builder's chain. Its last cell is not relinked in place, so a caller who still holds that list does not see it grow.
- ListBuilders.CountingBuilder.ExtendFront: likewise, the caller's list is not relinked in place.
- Interp.Command, Interp.TailCall, Interp.Pass, Interp.Passes, Interp.Loop, Interp.Eval: the successful result is stated for a command of literals and quotes whose head is refused, `defer`, a quote, a host alien or a dict (`Settled`). A head bound to a builtin or a captured closure runs interpreter code whose result these members do not state; lines holding `$`, `@` or clauses are stated only through `Rewrite`; and a pass whose code leads to a further pass is not followed by the `Once` clauses.
- Interp.Eval: the `fuel` parameter and the `Exhausted` outcome exist only in the model. The Go evaluator recurses without bound (until the goroutine's stack overflows), and the model says nothing about a run that needs more nesting than its fuel.
- Interp.RunBuiltin: states only that the world grows and what a known builtin id dispatches to, not each builtin's result. Those results are stated by the members of the builtin's own module.
- Interp.RunScopeBuiltin, Interp.RunExportBuiltin, Interp.RunHandler: state only that the world grows and that the VM's frame is respected. Their results are stated by Builtins and Calls.
- Unparser.NodeText: a `[...]` clause is modelled as the source's runaway recursion (`Diverges`, see `Unparser.ClauseNeverUnparses`); the intended text of a clause is `Unparser.NodeTextIntended`.
- Geli.Foreshorten: counts bytes, not UTF-8 runes, when it shortens a history entry.
- StrCmds.Split: an empty separator cuts the string into bytes, not into UTF-8 sequences.
- ListCmds.SomeItems, ListCmds.Reduce: the binding of `item`, `x` and `y` in a fresh scope during the walk is not modelled. The command run on each item is the parameter `run`, which is given the item directly.
- ListSort.InsertionSort: stands in for Go's `sort.Sort`. The two order tied items differently, so `ListSort.LSort` only promises some ordering by serialisation that is a permutation of the positions.
- Host aliens: an alien the host registered is the uninterpreted function `host` of the world. Its result is whatever that function gives.
- Concurrency: the VM's read-write mutex and the goroutines and channels of `go` and the kill switch are not modelled. The kill switch is a flag the VM checks.
- Numbers: float64 is abstracted (`Words.Float`). Parsing a number is the parameter `NumReader`, and the arithmetic of src/gelo/number.go, math.go and `Range` is not part of this model.
- Ports and I/O: the port implementations, `stdio`, files and the tracing hooks (no-ops here) are not part of this model. Readers are sequences of chunks.
- Regular expressions: the regexp commands and wrappers are not part of this model.
- Registration: `VM.Register`, `RegisterBundle`, `RegisterBundles`, the registration tables of the command files, src/gelo/commands/all.go and names.go are not part of this model. Each command is modelled as a member that takes its arguments directly.
- DictToCommand, the help texts and copy.go are not part of this model.
- geli commands: geli's `main` and its history commands other than `$` (`run`, `load`, `save`, `search`, `see`, `play`, `replay`, `trace`), and its printed output, are not part of this model. Neither is gelrun's `main`, which opens files and runs the filtered source.
- Dict aliasing: a dict held inside a word is its map, a value. Two words that share one Go `*Dict` do not see each other's changes here, except through the `held` object the dict commands are given.

## Findings

| source | as written | input that shows it | evidently intended | confidence | as-written member | corrected member |
|---|---|---|---|---|---|---|
| src/gelo/interpreter.go:82-94 | `defer` is bound to the value `defert{}` (src/gelo/builtins.go line 93), but the lookup's switch tests for the pointer type `*defert`, so the marker falls into the default case and is refused with a type mismatch | `defer foo` | the `defer` marker is recognised and the rest of the line is returned for deferring | not executed | Calls.DeferUnusableAsWritten | Interp.Peval |
| src/gelo/interpreter.go:169-170 | a deferred handler's alien is told the length of the whole command, head included | a deferred `f a b`: the alien receives 2 arguments and is told 3 | the count is the number of words after the head, as for an ordinary call | not executed | Calls.HandlerCountsHead | Calls.Count |
| src/gelo/builtins.go:338 | with one argument, `args.Next` is nil, and reading its value to look for `up n` dereferences nil | `exports! x` | `x` is exported one level up | not executed | Builtins.ExportsOneNameAsWritten | Builtins.ExportsArgs |
| src/gelo/api.go:253-259 | the walk to a splice's last cell then takes that cell's `Next`, which is nil, so the spliced words are replaced by one empty list | `@x` with `x` bound to `a b` gives the empty list | the spliced words `a b` appear in the result | not executed | Calls.PartialSpliceLosesWords | Interp.PartialEval |
| src/gelo/quote.go:14-16 | a quote with no code yields Go's nil word | invoking `{}` | the Null word | not executed | Calls.NoopYieldsNilAsWritten | Calls.NoCodeResult |
| src/gelo/namespace.go:398-407 | a name found at or above the boundary is stored with a deep copy of its old value, not the new one | `update! x 2` in a child VM where the parent binds `x` to 1: `x` still means 1 | the new value is stored where a write lands, and the name then means it | not executed | Machine.VM.MutateAsWritten | Machine.VM.Mutate |
| src/gelo/vm.go:217-225 | `ReadMap` ignores the result of its type assertion and reads the map of a nil `*Dict` | a name bound to a symbol, read with `ReadMap`: a Go panic | a value of the wrong type is reported as not found | not executed | Machine.ExtractAsWritten | Machine.Extract |
| src/gelo/commands/list.go:440-453 | the complement with respect to an empty first list is empty | `complement-of {} {a b}` gives the empty list | the whole second list, `a b` | not executed | ListCmds.ComplementOfEmptyAsWritten | ListCmds.ComplementAllOutside |
| src/gelo/commands/list.go:516-528 | after a partial match the search resumes past it, so a match starting inside it is missed | `subseq? {a a b} {a b}` answers false | true: `a b` occurs at position 1 | not executed | ListCmds.SubseqMissesRetry | ListCmds.Subseqp |
| src/gelo/commands/list.go:516-529 | a one-word list that is not found runs the scan off the end of the first list | `subseq? {a} {b}` reads `A[1]` and panics | false | not executed | ListCmds.SubseqOverruns | ListCmds.Subseqp |
| src/gelo/commands/list.go:513-529 | the first comparison reads `B[0]` of the empty second list | `subseq? {a} {}` panics | true: the empty list occurs in every list | not executed | ListCmds.SubseqOfEmptyPanics | ListCmds.Subseqp |
| src/gelo/commands/list.go:31-33 | the loop starts at 1 and makes one copy too few | `make-list 1 with x` gives the empty list | a list of one `x` | not executed | ListCmds.MakeListShortAsWritten | ListCmds.MakeList |
| src/gelo/commands/list.go:586 | sorting reads `perms[0]` before checking for an empty list | `lsort {}` panics | the empty list | not executed | ListSort.SortEmptyAsWritten | ListSort.LSort |
| src/gelo/commands/string.go:199-203 | the loop ranges over the bytes after the first but indexes from the start, so each item after the first is the byte before it: the first byte repeats and the last is dropped | `str->list ab` gives `a a` | `a b` | not executed | StrCmds.StrToListRepeatsAsWritten | StrCmds.StrToListJoins |
| src/gelo/commands/dict.go:86 | `set?` asserts that its first argument is a `*Dict` before `DictOrElse` can read it, so a quote holding a dict's entries panics | `dict set? {a b} a` | true: the quote reads as a dict binding `a` | not executed | DictCmds.SetpOnTextAsWritten | DictCmds.Setp |
| src/gelo/commands/control.go:15-20 | a list condition is taken to be an `elif` chain, and its consequent fails a type assertion | `if [list true] then a` | the list is refused as not a Bool | not executed | Control.IfListConditionAsWritten | Control.IfFirstHolds |
| src/gelo/commands/control.go:77-82 | the guard compares the block's one line, an empty `*List`, with the untyped nil, which it never equals; the block is let through and its empty line dereferences nil | `case-of x {}` | the syntax error naming the expected block | not executed | Control.EmptyBlockAsWritten | Control.CaseOf |
| src/gelo/commands/control.go:86-93 | the test for a name the current scope binds asks for depth 0, which `DepthOf` never gives (it counts the scope holding the name), so the `as` name is always deleted on return, even when the current scope bound it before | `set! y 1; case-of x as y {...}`: `y` is unbound afterwards | the scope is left as it was, `y` bound to 1 | not executed | Control.BracketAsWritten | Control.Bracket |
| src/gelo/util.go:147-156 | the scanner's escape branch advances and then `continue`s into the loop's own increment, so the byte after an escaped byte is skipped | the item `{x`, escaped as `\{x`, reads back as `{` | escapes take two bytes, and `{x` reads back as `{x` | not executed | Escape.UnescapeAsWrittenDropsByte | Escape.UnescapeEscapedWhole |
| src/gelo/list.go:40-73 | a list read back from its serialisation loses the byte after each escape | the list holding the symbol `{x` serialises to `{\{x}` and reads back as `{` | the list reads back with the same serialisation | not executed | Lists.ListSerRoundTripFailsAsWritten | Lists.ListSerRoundTrip |
| src/gelo/dict.go:49-69 | a dict read back from its serialisation loses the byte after each escape | the dict binding `{x` to `y` does not read back | the dict reads back with the same keys and serialised values | not executed | Dicts.DictSerRoundTripFailsAsWritten | Dicts.DictSerRoundTrip |
| commands/types.go:31 | `bool?` compares the type name with `*BOOL*`, which no word has (a Bool's is `*BOOLEAN*`) | `bool? true` answers false | true for every Bool and only for Bools | not executed | TypeCmds.BoolpNeverHoldsAsWritten | TypeCmds.PredicateMeansItsKind |
| src/tools/gelrun.go:65-66 | a blank line's newline is taken as the byte that selects its line's mode, so the next line's `>` is read as an ordinary byte of a line that is not code | a blank line followed by `>x`: nothing is passed on | `x` is passed on | not executed | Gelrun.BlankLineSwallowsNextAsWritten | Gelrun.BlankLineKeepsNext |
| src/tools/geli.go:475-486 | at a newline the comment flag is set to `quote == 0`, which holds outside braces, so a `#` comment goes on past its newline and the next line is taken for comment | `#`, newline, `[`, newline: both lines are emitted as complete | only the comment line is emitted, and the open bracket keeps the reader waiting | not executed | Geli.CommentSwallowsNextLineAsWritten | Geli.CommentEndsAtNewline |
| src/gelo/namespace.go:313-318 | the blacklist entry is written under the undeclared name `s` instead of the deleted key | deleting `x` above the boundary: `x` keeps its meaning | `x` is blacklisted and no longer means anything | not executed | Machine.VM.DelAsWritten | Machine.VM.Del |
| src/gelo/list.go:65-67 | with `enc` set, the item loop runs on to the end of the input, taking the closing `}` as item text, so the closing-brace test after it can only index past the end; an encoded list is never read | the symbol `{a b}` is never read back as a list | `a b` | not executed | Lists.EncodedNeverUnserializes | Lists.EncodedRoundTripIntended |
| src/gelo/unparser.go:16-17 | the clause case recurses on the same clause token, so the walk never ends | unparsing `{[a]}` | the text `[a ] ` | not executed | Unparser.ClauseNeverUnparses | Unparser.NodeUnparses |
| src/gelo/unparser.go:32-33 | a quote of empty source parses to no code, and the walk dereferences its nil first command | unparsing `{}` | the empty text | not executed | Unparser.EmptyCodeCrashes | Unparser.QuoteUnparses |
| extensions/argparse.go:314-325 | after the second `|` the loop reads one more token before parsing the next alternative, so the `c` is skipped and the `]` is met instead | the spec `[a|b|c]` is refused as an unexpected `]` | one alternation of `a`, `b` and `c` | not executed | ArgSpec.ThirdAlternativeRefused | ArgSpecIntended.ThreeAlternatives |
| src/gelo/list.go:206-212 | the end-of-list tests are inverted: when both lists end together the loop returns `l != nil`, which is false | a list compared with itself is not equal | lists of the same length that agree at every index are equal | not executed | Words.ListNeverEqualsSameLength | Words.ListEqualsIntendedPairwise |
