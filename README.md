# bookkeeper, modelled in Dafny

bookkeeper is a C code generator. It reads C headers, finds declarations of the form
`typedef struct { … } Name attr();` and writes dump and parse functions for them. Two versions
are modelled:

- `bk.c` (modules `Lexer`, `Scanner`, `Types`, `Emitter`, `Template`, `TemplateProps`,
  `DynamicGen`, `StrView`, `Buffer`, `CmdLine`, `Hash`, `Util`):
  - the declaration scanner `analyze_file` with its lookahead helpers (`peek_*`, `get_expect_*`);
  - the schema bitmask (`get_schema_derive`);
  - the static-schema emitters `gen_prelude`, `gen_dump_decl`, `gen_parse_decl`,
    `gen_dump_impl`, `gen_parse_impl` and their guard macros;
  - the template interpreter `gen_dynamic`;
  - the helpers these rest on: the string views `sv_*`, the growable arrays `push_da` /
    `print_string`, `parse_list` and `djb2`.
- `bookkeeper_gen.c`, the earlier standalone generator (modules `LegacyScanner`, `LegacyJson`):
  - its stricter scanner;
  - its hard-wired JSON dump emitter.

## How the model is built

**Lexer and scanners**
- The lexer is a sequence of tokens plus a cursor.
- `lex.string` (the text of the last identifier or string read) is part of the state, because
  the scanners read names from it.
- A peek runs the matcher and then restores the cursor only, as the source does.
- The scanners are written one loop iteration at a time (`FieldStep`, `AttrStep`), with
  functions for the loops. Methods (`AnalyzeFile`, `ReadFields`) run the loops and are proved
  equal to those functions.

**Growable arrays**
- `push_da` and `print_string` act on a `DynArray` class with an `items` array and `len`/`cap`
  fields.
- Each emitter is a method that appends into such a buffer. It is proved to append exactly the
  text that a specification function (`Guarded`, `Preludes`, `DynamicOutput`, `Book`) gives.
  Guard balance and the counts are proved about those functions.

**`gen_dynamic`**
- It is specified a segment at a time: the text up to the next `$`, then the directive up to the
  following `$`.
  - Outer pass: `Template.Outer` / `Template.Special`.
  - Inner per-field pass: `Template.InnerFrom` / `Template.InnerSpecial`.
- The methods `DynamicGen.OuterScan` and `DynamicGen.InnerScan` walk the template one character
  at a time, as the source does. They are proved to print exactly what those functions say.

**Schema mask**
- The schema mask is a set of bit indices.
- `derive_all` (`|= UINT_MAX`) is the set of all 32 bits.

The model follows `gen_dynamic` as written:
- A `for` loop is written `$for {$ … $}$`: the `{` is part of the `for` directive and the body
  follows it. A form such as `$for{ … }$`, with the whole body in one directive, is not a loop.
- A dynamic schema that hits an error is not silent. Everything it printed before the error stays
  in the output. Only its closing `#endif` line and the rest of its text are skipped.
- `$it.type$` on a primitive field is an error only inside a matching type `if`. Elsewhere it
  prints nothing (bk.c:2736-2743).

## Model

Rows marked *step:* are unfolding lemmas. Each records one branch of a definition, and the
proofs of the main results are built from them. The main results are:
- `Emitter.GuardedBalanced` and `Emitter.GuardedCounts` for the guarded emitters;
- `DynamicGen.GenDynamic`, `TemplateProps.DynamicIgnoresOwnBits` and
  `TemplateProps.OuterEndsWithEndif` for the template interpreter;
- `Scanner.AnalyzeFile` and `LegacyScanner.AnalyzeFile` for the two scanners;
- `LegacyScanner.FieldStepIsShapeAt` and `LegacyScanner.AnalyzeTyped` for the older
  generator's field recognition;
- `LegacyJson.Generate` for its emitter;
- `StrView.AtoiDecimal`, `CmdLine.EntriesOfJoin` and `Hash.Djb2IsPolyMod` for the helpers.

| member | source | states |
|---|---|---|
| Buffer.DynArray.Empty | bk.c:709-723 | a zero-initialised array: no items and capacity 0 |
| Buffer.DynArray.Realloc | bk.c:716-720 | reallocation keeps `len`, `cap` and the first `len` items, in an array of the new size |
| Buffer.DynArray.PushDa | bk.c:709-723 | appends exactly the item and leaves earlier items unchanged; when `len + 1 >= cap` the capacity doubles (2 when it was 0), otherwise it is unchanged; from `len < cap` or `cap == 0` it ends with `len < cap` |
| Buffer.DynArray.PrintString | bk.c:731-743 | appends exactly the formatted characters, without a terminator; when `cap <= len + n` the capacity grows by `n + 8 - n % 8`; it always ends with `cap > len` |
| Hash.Round | bk.c:2060 | one round `(h << 5) + h + c`, wrapped to 64 bits, stays below 2^64 |
| Hash.HashFrom | bk.c:2060 | the hash loop keeps the hash below 2^64 |
| Hash.Djb2 | bk.c:2058-2062 | djb2 starts from 5381 and stays below 2^64 |
| Hash.HashFromAppend | bk.c:2060 | *step:* hashing `s + [c]` is one more round after hashing `s` |
| Hash.RoundOfReduced | bk.c:2060 | *step:* reducing modulo 2^64 before a round gives the same round |
| Hash.Djb2IsPolyMod | bk.c:2058-2062 | the wrapped hash equals the exact polynomial in 33 (seeded with 5381) reduced modulo 2^64 |
| Hash.Djb2Append | bk.c:2060 | the hash of `s + [c]` is `(djb2(s) * 33 + c) mod 2^64`, so it can be computed incrementally |
| CmdLine.Entries | bk.c:1507-1516 | definition: the entries the caller's loop visits; properties proved in `CmdLine.ParseAll` and `CmdLine.EntriesOfJoin` |
| CmdLine.ParseList | bk.c:3386-3405 | no entry iff the text is empty or starts with the separator; an entry holds no `,` and is followed by a `,` (consumed) or is the whole rest of the text |
| CmdLine.FindComma | bk.c:3394-3399 | the scan stops at the first `,` at or after the cursor, or at the end |
| CmdLine.FindCommaIs | bk.c:3394-3399 | the scan's stopping point is the one position with no `,` before it and a `,` (or the end) at it |
| CmdLine.EntriesOfJoin | bk.c:3386-3405 | splitting a `,`-joined list of non-empty entries without `,` gives the entries back |
| CmdLine.ParseAll | bk.c:1507-1516 | the caller's `for (ent; (ent = parse_list(...));)` loop visits exactly `Entries(src)` |
| Types.SchemaBit | bk.c:2411-2420 | for a schema in the registry, the bit lies below the number of static schemas iff the schema is static, below the number of all schemas, and inside the 32-bit mask (below 31) when the registry fits |
| Types.SchemaBitsDistinct | bk.c:2411-2420 | in a registry of at most 31 schemas, different schemas get different bits |
| Types.KindTag | bk.c:2671-2729 | the tag a type condition is compared with: `CEXTERNAL` for external types, none only for an unset type |
| StrView.StartsWith | bk.c:1884-1890 | definition: the view starts with the prefix; used by `StrView.ChopIfPrefix` and the directive classification |
| StrView.Atoi | bk.c:2660 | definition: `atoi` (leading `isspace` characters skipped, an optional sign, then the leading digits, 0 when there are none); properties proved in `StrView.AtoiDecimal` |
| StrView.TrimWsEndAsWritten | bk.c:1956-1971 | definition: the trim loop as written, with the read before the start made visible; properties proved in `StrView.TrimWsEndAsWrittenReadsBeforeStart` and `StrView.TrimWsEndAgrees` |
| StrView.Chop | bk.c:1914-1919 | drops `min(n, len)` characters from the front and keeps a suffix |
| StrView.ChopIfPrefix | bk.c:1897-1904 | chops iff the view starts with the prefix; the view is then the prefix followed by the result, otherwise it is unchanged |
| StrView.FindFrom | bk.c:1979-1985 | the loop of sv_find stops at the first `c` at or after `i`, or at the end |
| StrView.FindFromIs | bk.c:1977-1987 | the stopping point is the unique position with no `c` before it and a `c` (or the end) at it |
| StrView.IndexOf | bk.c:1977-1987 | the position of the first `c`, or the length when there is none |
| StrView.Find | bk.c:1977-1987 | the suffix from the first `c` on, or the empty view; no `c` in what was dropped |
| StrView.Substr | bk.c:1989-1995 | a window of exactly `len` characters at `start`; the view is the part before it, the window and the part after it |
| StrView.TrimStart | bk.c:1921-1931 | drops exactly the leading copies of `c` |
| StrView.Trim2Start | bk.c:1933-1950 | drops exactly the leading characters that occur in `cs` |
| StrView.TrimWsStart | bk.c:1952-1954 | drops exactly the leading spaces, tabs and newlines |
| StrView.TrimWsStartKeeps | bk.c:1952-1954 | a view that does not start with whitespace is unchanged |
| StrView.TrimWsStartDropsOne | bk.c:1952-1954 | exactly one leading blank is dropped when only one is there |
| StrView.TrimWsEndAsWrittenReadsBeforeStart | bk.c:1956-1971 | the loop as written reads before the start of the view on the input `" "`, where the intended trim gives the empty view |
| StrView.TrimWsEndAgrees | bk.c:1956-1971 | wherever the loop as written stays in bounds, it returns the intended trim |
| StrView.TrimWsEndLoopAgrees | bk.c:1958-1969 | the `for (;;)` loop on a view with a non-blank character gives the intended trim |
| StrView.TrimWsEnd | bk.c:1956-1971 | the corrected trim keeps a prefix that does not end with whitespace, and drops only whitespace |
| StrView.TrimWs | bk.c:1973-1975 | the result neither starts nor ends with whitespace |
| StrView.TrimWsDropsOnlyWs | bk.c:1973-1975 | the view is whitespace, then the result, then whitespace |
| StrView.TrimWsInBounds | bk.c:1973-1975 | sv_trim_whitespace never reaches the out-of-bounds read: the loop as written, applied after the start trim, gives the trimmed view |
| StrView.ChopLine | bk.c:1906-1912 | keeps a suffix; after at least one round a non-empty result directly follows a newline |
| StrView.ChopLineOne | bk.c:1906-1912 | *step:* one round drops the first line with its newline, or everything when there is no newline |
| StrView.ChopLineNoNewline | bk.c:1906-1912 | without a newline, any positive number of rounds gives the empty view |
| StrView.Loc | bk.c:1997-2008 | the line is 1 + the newlines before the cursor; the offset is 1 + the characters after the last of them |
| StrView.LocLoopCounts | bk.c:2000-2007 | the counting loop keeps that line/offset invariant up to the cursor |
| StrView.NatToDecimal | bk.c:2660 | `%d` of a natural number is a non-empty run of digits |
| StrView.AtoiDecimal | bk.c:2657-2668 | `atoi` reads back what `%d` writes for every natural number |
| Lexer.MatchesAt | bk.c:2164-2202 | definition: the tokens from the cursor match the expected words one for one; `Lexer.Expect` and `Lexer.Peek` are proved against it |
| Lexer.Next | bk.c:2267-2270 | reading a token returns the token under the cursor and advances by one; at the end it reads `Eof` and stays; `lex.string` follows identifiers and strings |
| Lexer.Skip | bk.c:2281-2284 | *step:* a run of `n` reads advances the cursor by `n` when that many tokens are left |
| Lexer.Expect | bk.c:2164-2202 | the matcher succeeds iff the tokens from the cursor match the words one for one; on success it has read exactly those words |
| Lexer.Peek | bk.c:2204-2235 | a peek gives the matcher's verdict and puts the cursor back |
| Lexer.PeekId | bk.c:2204-2213 | a one-word `peek_ids` holds iff the token under the cursor is that identifier; the cursor stays |
| Lexer.ExpectLastText | bk.c:2358-2362 | after a match ending with an identifier or a string, `lex.string` holds that token's text |
| Scanner.Analyze | bk.c:2263-2409 | definition: the records and warnings analyze_file finds; properties proved in `Scanner.Scan`, `Scanner.RecordKeptWhenClosed` and `Scanner.AnalyzeFile` |
| Scanner.ChainLookup | bk.c:2309-2327 | the first entry of the one-word type chain with that name, or none when no entry has it |
| Scanner.ChainLookupIsPrimitiveNamed | bk.c:2311-2324 | the chain, duplicated `double`/`float` test included, maps `int`, `long`, `size_t`, `double`, `float`, `char`, `bool` to CINT, CLONG, CULONG, CFLOAT, CFLOAT, CCHAR, CBOOL |
| Scanner.OneWord | bk.c:2311-2327 | the one-word test looks the identifier under the cursor up in the chain without moving the cursor |
| Scanner.Unsigned | bk.c:2293-2299 | CUINT iff `unsigned int` follows, CULONG iff `unsigned long` follows (and not `unsigned int`), otherwise none |
| Scanner.FieldShape | bk.c:2280-2338 | the shape tests never move the cursor back |
| Scanner.ShapeConstCharStar | bk.c:2280-2285 | *step:* `const char * id` gives CSTRING and reads three type tokens |
| Scanner.ShapeCharStar | bk.c:2286-2290 | *step:* `char * id` gives CSTRING and reads two type tokens |
| Scanner.ShapeUnsignedInt | bk.c:2291-2303 | *step:* `unsigned int id` gives CUINT and reads two type tokens |
| Scanner.ShapeUnsignedLong | bk.c:2291-2303 | *step:* `unsigned long id` gives CULONG and reads two type tokens |
| Scanner.ShapeThreeIdsStop | bk.c:2297-2307 | *step:* any other three identifiers end the field list without reading |
| Scanner.ShapeTwoIds | bk.c:2309-2334 | *step:* two identifiers that start neither `const char * id` nor three identifiers, whatever follows them (a `*` included), give the one-word primitive of the first, or CEXTERNAL named by it; one token is read |
| Scanner.ShapeStructPointer | bk.c:2309-2331 | *step:* `struct Foo *p;` takes the two-identifier shape and gives an external type named `struct` |
| Scanner.ShapeNone | bk.c:2335-2338 | *step:* when no shape matches nothing is read and the type stays unset |
| Scanner.FieldTail | bk.c:2338-2355 | the name and `;` step never moves back, and a field is only produced after reading |
| Scanner.FieldStep | bk.c:2277-2355 | one iteration of the field loop never moves back and reads at least one token when it produces a field |
| Scanner.TagAt | bk.c:2346-2354 | a tag is present iff `tag ( "…" )` follows the `;` |
| Scanner.AfterTag | bk.c:2346-2354 | the loop goes on four tokens later iff a tag annotation follows, otherwise right after the `;` |
| Scanner.TagText | bk.c:2346-2351 | *step:* after reading `tag ( "…"`, `lex.string` holds the tag's text |
| Scanner.FieldTailField | bk.c:2338-2355 | *step:* an identifier followed by `;` is a field with that name, the shape's type and the optional tag |
| Scanner.FieldTailNoSemicolon | bk.c:2340-2345 | *step:* anything but `;` after the name ends the field list and drops the field |
| Scanner.FieldsFrom | bk.c:2277-2356 | the field loop only appends, in source order, and never moves back |
| Scanner.FieldStepClose | bk.c:2278 | *step:* a `}` ends the field list without reading |
| Scanner.FirstNamed | bk.c:2371-2391 | the first schema, static or dynamic, whose derive attribute is the identifier, or none when no schema has it |
| Scanner.AttrBits | bk.c:2365-2393 | `derive_all` sets every bit; otherwise the first matching static schema's bit, else the first matching dynamic schema's bit; none exactly when no schema matches |
| Scanner.AttrStep | bk.c:2363-2401 | an attribute step happens iff `<id> ( )` follows; it reads those three tokens, adds the selected bits, and warns once about an unknown identifier when warnings are on |
| Scanner.AttrsFrom | bk.c:2363-2402 | the attribute loop only adds bits, and keeps the mask inside the 32 bits when the registry fits |
| Scanner.InitialMask | bk.c:2276 | a record starts with every bit under `--derive-all` and none otherwise |
| Scanner.CloseRecord | bk.c:2358-2402 | the record is kept iff `}` and an identifier follow the fields |
| Scanner.CloseRecordValue | bk.c:2358-2403 | a kept record holds the fields read, is named by the identifier after `}`, and its mask contains the initial mask; under derive-all the mask is all bits |
| Scanner.CloseName | bk.c:2358-2362 | *step:* after `}` and an identifier, `lex.string` holds the type name |
| Scanner.StructBody | bk.c:2277-2403 | the record branch never moves back |
| Scanner.Scan | bk.c:2267-2408 | the scan only appends records and warnings |
| Scanner.RecordThenScan | bk.c:2274-2403 | the record branch and the scan after it only append |
| Scanner.ScanAtEnd | bk.c:2268-2270 | *step:* at the end of the tokens the scan stops with what it found |
| Scanner.ScanSkipsOther | bk.c:2404-2407 | *step:* a token that does not start `typedef struct` is read alone and skipped |
| Scanner.ScanRecord | bk.c:2273-2276 | *step:* after `typedef struct {` the record branch runs on the tokens after the brace |
| Scanner.RecordKeptWhenClosed | bk.c:2358-2403 | the record is appended exactly when `}` and a name follow its fields, and scanning resumes after it either way |
| Scanner.ReadFields | bk.c:2277-2356 | the field loop computes `FieldsFrom` |
| Scanner.FinishRecord | bk.c:2358-2403 | the close and attribute part computes `CloseRecord` |
| Scanner.AnalyzeFile | bk.c:2263-2409 | analyze_file returns exactly the records and warnings of `Analyze` |
| Emitter.LineText | bk.c:731-743 | definition: the text one `print_string` call writes for a line piece |
| Emitter.Render | bk.c:731-743 | definition: the text a run of `print_string` calls writes; `Emitter.PrintLines` is proved against it |
| Emitter.DefOpen | bk.c:922-931 | definition: the opening lines of `def_guard`; properties proved in `Emitter.NestCloses` and `Emitter.GuardedBalanced` |
| Emitter.DefClose | bk.c:933-940 | definition: the closing lines of `endif_guard`; properties proved in `Emitter.NestCloses` and `Emitter.GuardedBalanced` |
| Emitter.TypeOpen | bk.c:942-954 | definition: the opening lines of `def_type_guard`; properties proved in `Emitter.BlockNests` |
| Emitter.TypeClose | bk.c:956-964 | definition: the closing lines of `endif_type_guard`; properties proved in `Emitter.BlockNests` |
| Emitter.Guarded | bk.c:2434-2504 | definition: what a guarded emitter writes; properties proved in `Emitter.GuardedBalanced`, `Emitter.GuardedCounts` and `Emitter.GenGuarded` |
| Emitter.PreludeBlock | bk.c:2425-2429 | definition: one schema's include-guarded prelude; properties proved in `Emitter.PrintPrelude` |
| Emitter.Preludes | bk.c:2422-2432 | definition: the preludes of the selected static schemas; properties proved in `Emitter.PreludesStep`, `Emitter.PreludesSelectedOnly`, `Emitter.PreludesNone` and `Emitter.GenPrelude` |
| Emitter.OpenLines | bk.c:928-930 | one `#ifndef` line per macro, in order |
| Emitter.CloseLines | bk.c:935-939 | one `#endif` line per macro, innermost first |
| Emitter.NestCloses | bk.c:933-939 | the `#endif` lines of a guard close exactly the macros its `#ifndef` lines opened |
| Emitter.BlockNests | bk.c:942-963 | a type guard block leaves the open guards as it found them |
| Emitter.BlocksNest | bk.c:2438-2447 | the blocks of all selected schemas leave the open guards as they found them |
| Emitter.GuardedBalanced | bk.c:922-964 | every emitter's `#ifndef`/`#endif` lines are properly nested and all closed |
| Emitter.CountsOfWrap | bk.c:942-963 | text wrapped in a guard opens and closes one guard per macro |
| Emitter.BlocksCounts | bk.c:2438-2447 | the blocks open and close 4 guards for each selected schema whose slot is filled |
| Emitter.GuardedCounts | bk.c:2434-2451 | with an empty mask nothing is written and the count is 0; otherwise `3 + 4k` guards are opened and as many closed |
| Emitter.ImplCountZero | bk.c:2472-2504 | the impl emitters count nothing |
| Emitter.PrintLines | bk.c:922-939 | a run of `print_string` calls appends the lines' text |
| Emitter.GenGuarded | bk.c:2434-2504 | an emitter appends exactly `Guarded` and returns `GuardedCount` |
| Emitter.PrintBlocks | bk.c:2438-2447 | the schema loop appends every block in registry order and sums the counts |
| Emitter.PrintAround | bk.c:2441-2445 | guard lines, the generator's text, then guard lines |
| Emitter.PrintBlock | bk.c:2439-2446 | one schema's block is appended when the schema is selected and its slot is filled, otherwise nothing |
| Emitter.GenDumpDecl | bk.c:2434-2451 | gen_dump_decl appends exactly its guarded blocks and returns their count |
| Emitter.GenParseDecl | bk.c:2453-2470 | gen_parse_decl appends exactly its guarded blocks and returns their count |
| Emitter.GenDumpImpl | bk.c:2472-2487 | gen_dump_impl appends exactly its guarded blocks |
| Emitter.GenParseImpl | bk.c:2489-2504 | gen_parse_impl appends exactly its guarded blocks |
| Emitter.PreludesStep | bk.c:2423-2431 | *step:* one more schema adds its guarded prelude exactly when its bit is set |
| Emitter.PreludesSelectedOnly | bk.c:2422-2432 | the preludes depend only on which static bits are set |
| Emitter.PreludesNone | bk.c:2422-2432 | with no static bit set there are no preludes |
| Emitter.PrintPrelude | bk.c:2425-2429 | one selected schema's include guard and prelude are appended |
| Emitter.GenPrelude | bk.c:2422-2432 | gen_prelude appends the include-guarded prelude of every selected static schema, in registry order |
| Template.InnerClassify | bk.c:2647-2753 | definition: which inner directive a text is; properties proved in `TemplateProps.InnerClassifyIf` and its siblings |
| Template.InnerDirective | bk.c:2647-2755 | definition: the effect of one inner directive; properties proved in `TemplateProps.DirectiveKeepsCoherent` and `TemplateProps.ItTypeDirective` |
| Template.InnerFrom | bk.c:2637-2772 | definition: the inner per-field pass in text mode; properties proved in `Template.InnerFromAt`, `Template.InnerFromEnd` and `DynamicGen.InnerScan` |
| Template.InnerSpecial | bk.c:2647-2772 | definition: the inner per-field pass inside a directive; properties proved in `Template.InnerSpecialAt` and `Template.InnerSpecialEnd` |
| Template.ExpandFields | bk.c:2635-2773 | definition: the loop buffer expanded once per field; properties proved in `Template.ExpandFieldsOk`, `Template.ExpandFieldsStops` and `DynamicGen.ExpandLoop` |
| Template.Classify | bk.c:2524-2782 | definition: which outer directive a text is; properties proved in `TemplateProps.ClassifyTy` and its siblings |
| Template.IfEffect | bk.c:2598-2627 | definition: the effect of an outer `if`; properties proved in `TemplateProps.IfNeedsBrace` |
| Template.Directive | bk.c:2524-2785 | definition: the effect of one outer directive; properties proved in the `TemplateProps` directive lemmas and `DynamicGen.RunDirective` |
| Template.Outer | bk.c:2514-2808 | definition: the outer pass in text mode; properties proved in `Template.OuterAt`, `Template.OuterEnd`, `TemplateProps.OuterEndsWithEndif` and `DynamicGen.OuterScan` |
| Template.Special | bk.c:2524-2808 | definition: the outer pass inside a directive; properties proved in `Template.SpecialAt`, `Template.SpecialEnd` and `TemplateProps.SpecialEndsWithEndif` |
| Template.SchemaOut | bk.c:2510-2811 | definition: one dynamic schema's output for a type; properties proved in `TemplateProps.SchemasIgnoreMask` and `DynamicGen.PrintSchema` |
| Template.DynamicOutput | bk.c:2506-2813 | definition: what gen_dynamic writes; properties proved in `TemplateProps.DynamicIgnoresOwnBits` and `DynamicGen.GenDynamic` |
| Template.UpToSpace | bk.c:2606 | the text before the first space |
| Template.SizeT | bk.c:2660 | `(size_t)` keeps non-negative values and moves negative ones out of the non-negative range they could be confused with |
| Template.InnerIf | bk.c:2651-2731 | an inner `if` opens a condition, and claims a matching type only when the condition holds |
| Template.ExpandFieldsOk | bk.c:2635-2773 | the loop expansion reaches its end iff every field's pass does |
| Template.ExpandFieldsStops | bk.c:2741-2742 | once a field's pass is abandoned, later fields print nothing and the expansion fails |
| Template.InnerFromAt | bk.c:2756-2766 | *step:* at a `$` outside a directive, the trimmed text before it is printed when shown, then the directive starts |
| Template.InnerFromEnd | bk.c:2771-2772 | *step:* with no `$` left, the rest is printed trimmed whatever the flags |
| Template.InnerSpecialAt | bk.c:2647-2755 | *step:* at the `$` closing a directive: its effect, then the scan goes on, breaks out or is abandoned |
| Template.InnerSpecialEnd | bk.c:2771-2772 | *step:* an unclosed directive prints the text from before it, trimmed |
| Template.OuterAt | bk.c:2786-2798 | *step:* text before a `$` goes to the output outside a loop and into the loop buffer inside one, unless the `$` is the last character |
| Template.OuterEnd | bk.c:2803-2808 | *step:* with no `$` left the schema ends: a line break, the trimmed rest, its `#endif` |
| Template.SpecialAt | bk.c:2524-2785 | *step:* at the `$` closing a directive: abandon the schema on an error, keeping what it printed, else go on after it |
| Template.SpecialEnd | bk.c:2803-2808 | *step:* an unclosed directive ends the schema as if it were text |
| TemplateProps.InnerClassifyIf | bk.c:2651 | *step:* an inner directive starting with `if` is an `if` with the rest as its condition |
| TemplateProps.InnerClassifyType | bk.c:2736 | *step:* an inner directive starting with `type` is the type directive |
| TemplateProps.InnerClassifyTag | bk.c:2744 | *step:* an inner directive starting with `tag` is the tag directive |
| TemplateProps.InnerClassifyField | bk.c:2747 | *step:* an inner directive starting with `field` is the field directive |
| TemplateProps.ClassifyTy | bk.c:2528 | *step:* an outer directive starting with `ty` is the type-name directive |
| TemplateProps.ClassifyFmt | bk.c:2550 | *step:* `fmt…` is the format-macro directive |
| TemplateProps.ClassifyDst | bk.c:2556 | *step:* `dst…` is the destination-type directive |
| TemplateProps.ClassifyOffset | bk.c:2562 | *step:* `offset…` is the offset-type directive |
| TemplateProps.ClassifyIt | bk.c:2568 | *step:* `it…` is the `it` directive with the rest kept |
| TemplateProps.ClassifyTag | bk.c:2579 | *step:* `tag…` is the tag directive |
| TemplateProps.ClassifyFor | bk.c:2586 | *step:* `for…` is a loop with the rest kept |
| TemplateProps.ClassifyIf | bk.c:2598 | *step:* `if…` is a condition with the rest kept |
| TemplateProps.ClassifyClose | bk.c:2628 | *step:* `}…` is a closing brace |
| TemplateProps.DirectiveKeepsCoherent | bk.c:2651-2749 | every inner directive keeps the invariant "a matching type is claimed only inside an `if` whose condition holds" |
| TemplateProps.HiddenDirectivePrintsNothing | bk.c:2736-2749 | under an `if` whose condition is false, no inner directive prints |
| TemplateProps.ItTypeDirective | bk.c:2736-2743 | `$type$` prints the external type's name inside a matching type `if`, fails on a primitive there, and prints nothing elsewhere |
| TemplateProps.IndexEqualsTestsFirstField | bk.c:2657-2662 | a captured `$if == V {$` holds exactly for field 0, whatever V is |
| TemplateProps.IndexDiffersTestsOtherFields | bk.c:2663-2668 | a captured `$if != V {$` holds exactly for every field but field 0 |
| TemplateProps.TypeConditionMatchesKind | bk.c:2669-2730 | a type condition holds iff it starts with the field's kind tag |
| TemplateProps.InnerSubstitutes | bk.c:2744-2772 | a pass over `lit1 $field$ lit2` or `lit1 $tag$ lit2` prints both literals trimmed around the field's value |
| TemplateProps.FieldWordValue | bk.c:2744-2749 | outside any `if`, `field` prints the field's name and `tag` its tag, or its name when it has none |
| TemplateProps.ItCapturedAsField | bk.c:2568-2574 | inside a loop `$it$` is captured as `$field$`, which the field pass turns into the field's name |
| TemplateProps.FieldAlone | bk.c:2747-2749 | a pass over `$field$` prints the field's name |
| TemplateProps.TagAlone | bk.c:2744-2746 | a pass over `$tag$` prints the tag, or the name when there is none |
| TemplateProps.TagCaptured | bk.c:2579-2581 | inside a loop `$tag$` is captured as itself and prints the tag or the name |
| TemplateProps.TypeAlonePrintsNothing | bk.c:2736-2743 | outside any `if`, `$type$` prints nothing |
| TemplateProps.TypeWordValue | bk.c:2736-2743 | outside any `if`, the type directive prints nothing and changes no flag |
| TemplateProps.ItTypeCaptured | bk.c:2570-2571 | inside a loop `$it.type$` is captured as `$type$`, which prints nothing outside a type `if` |
| TemplateProps.ValuesSubstituted | bk.c:2528-2567 | `ty`, `fmt`, `dst`, `offset` print their value outside a loop and are substituted into the loop buffer inside one |
| TemplateProps.UnknownDirectiveFails | bk.c:2780-2782 | an unknown directive abandons the schema |
| TemplateProps.ItAndTagNeedLoop | bk.c:2568-2585 | `it` and `tag` succeed iff inside a loop |
| TemplateProps.ForNeedsBraceOutsideLoop | bk.c:2586-2597 | `for` succeeds iff not already in a loop and a `{` follows, and then only opens the loop |
| TemplateProps.IfNeedsBrace | bk.c:2598-2622 | `if` succeeds iff a `{` follows and an `index` condition inside a loop uses `==` or `!=` |
| TemplateProps.CloseBraceCloses | bk.c:2628-2778 | `}` closes an open `if` only; else it closes the loop, expanding the buffer once per field and emptying it; with neither open it is an error |
| TemplateProps.OtherDirectivesSucceed | bk.c:2528-2567 | the value and guard directives never fail |
| TemplateProps.PlainTemplate | bk.c:2803-2808 | a template without `$` is printed trimmed after a line break, then the `#endif` |
| TemplateProps.FinishEndsWithEndif | bk.c:2806-2808 | a schema's end closes with its own `#endif` line |
| TemplateProps.OuterEndsWithEndif | bk.c:2522-2808 | a schema that reaches its end closes with its own `#endif` line |
| TemplateProps.SpecialEndsWithEndif | bk.c:2522-2808 | the same from inside a directive |
| TemplateProps.SchemasIgnoreMask | bk.c:2510-2811 | the dynamic schemas' output depends on the type's name and fields, never on its mask |
| TemplateProps.DynamicIgnoresOwnBits | bk.c:2508-2812 | gen_dynamic writes nothing iff the mask is empty; with any non-empty mask it writes the same text, expanding every dynamic schema |
| DynamicGen.InnerScan | bk.c:2637-2772 | the character-by-character inner scan prints exactly `InnerFrom` and reports whether it reached the end |
| DynamicGen.InnerScanText | bk.c:2756-2766 | *step:* the inner scan's step at a `$` outside a directive keeps its invariant |
| DynamicGen.InnerScanDirective | bk.c:2647-2755 | *step:* the inner scan's step at a closing `$` keeps its invariant, or ends as the specification says |
| DynamicGen.InnerScanEnd | bk.c:2771-2772 | *step:* at the end of the buffer the inner scan has printed what the specification says |
| DynamicGen.ExpandLoop | bk.c:2635-2774 | the per-field loop prints exactly `ExpandFields` over all fields |
| DynamicGen.RunDirective | bk.c:2628-2779 | a directive has the effect `Directive` gives; a `}` closing a loop expands it and resets the loop state and buffer |
| DynamicGen.OuterScan | bk.c:2514-2808 | the character-by-character outer scan prints exactly `Outer` from the start |
| DynamicGen.OuterScanText | bk.c:2786-2798 | *step:* the outer scan's step at a `$` outside a directive keeps its invariant |
| DynamicGen.OuterScanDirective | bk.c:2524-2785 | *step:* the outer scan's step at a closing `$` keeps its invariant, or ends on an error |
| DynamicGen.OuterScanEnd | bk.c:2803-2808 | *step:* at the end of the template the outer scan has printed what the specification says |
| DynamicGen.PrintSchema | bk.c:2510-2811 | one schema's `#ifndef` line and its scan are appended |
| DynamicGen.GenDynamic | bk.c:2506-2813 | gen_dynamic appends exactly `DynamicOutput` |
| LegacyScanner.Analyze | bookkeeper_gen.c:175-285 | definition: the records analyze_file finds; properties proved in `LegacyScanner.AnalyzeTyped`, `LegacyScanner.AnalyzeDeriveAll` and `LegacyScanner.AnalyzeFile` |
| LegacyScanner.PeekBoth | bookkeeper_gen.c:191 | the shape test holds iff both the token pattern and the type words match; the cursor stays |
| LegacyScanner.ReadField | bookkeeper_gen.c:192-200 | reading a matched shape advances past type, name and `;` and gives the field that type |
| LegacyScanner.ReadTwoIds | bookkeeper_gen.c:253-263 | the `<id> <id> ;` shape reads three tokens and gives a field |
| LegacyScanner.FieldStep | bookkeeper_gen.c:190-267 | a step either stops without reading or reads a field |
| LegacyScanner.TypeNamed | bookkeeper_gen.c:233-259 | a one-word type is the primitive of the chain, or CEXTERNAL with that name, never unset |
| LegacyScanner.ShapeAt | bookkeeper_gen.c:191-267 | an accepted shape ends with `;` and spans 3 to 5 tokens |
| LegacyScanner.ReadFieldIs | bookkeeper_gen.c:192-200 | the field is named by the identifier after the type tokens |
| LegacyScanner.ReadTwoIdsIs | bookkeeper_gen.c:253-263 | `<id> <id> ;` is typed by the first word and named by the second |
| LegacyScanner.ConstCharPattern | bookkeeper_gen.c:191 | *step:* `const char * id ;` is the five-token pattern whose first words are `const char` |
| LegacyScanner.CharPattern | bookkeeper_gen.c:202 | *step:* `char * id ;` is the four-token pattern whose first word is `char` |
| LegacyScanner.UnsignedPattern | bookkeeper_gen.c:211-216 | *step:* `unsigned w id ;` is the three-identifier pattern starting with `unsigned w` |
| LegacyScanner.StepConstChar | bookkeeper_gen.c:191-200 | *step:* the step reads exactly the `const char * id ;` field the shape accepts |
| LegacyScanner.StepChar | bookkeeper_gen.c:202-210 | *step:* the step reads exactly the `char * id ;` field the shape accepts |
| LegacyScanner.ThreeIdsRead | bookkeeper_gen.c:211-227 | *step:* `unsigned int|long id ;` reads the field typed CUINT or CULONG, four tokens on |
| LegacyScanner.StepUnsignedInt | bookkeeper_gen.c:213-227 | *step:* the step reads exactly the `unsigned int` field the shape accepts |
| LegacyScanner.StepUnsignedLong | bookkeeper_gen.c:215-227 | *step:* the step reads exactly the `unsigned long` field the shape accepts |
| LegacyScanner.StepThreeIdsStop | bookkeeper_gen.c:217-231 | *step:* any other `id id id ;` stops the field list, as the shape does |
| LegacyScanner.TwoIdsRead | bookkeeper_gen.c:233-263 | *step:* `id id ;` reads the field its words give, three tokens on |
| LegacyScanner.StepTwoIds | bookkeeper_gen.c:233-263 | *step:* the step reads exactly the two-word field the shape accepts |
| LegacyScanner.StepNone | bookkeeper_gen.c:264-267 | *step:* with no full pattern (trailing `;` included) the step stops, as the shape does |
| LegacyScanner.FieldStepIsShapeAt | bookkeeper_gen.c:190-267 | the field step reads exactly the field `ShapeAt` accepts, or stops where it accepts none |
| LegacyScanner.ShapeAtClose | bookkeeper_gen.c:264-267 | *step:* a `}` where a field would start stops field recognition |
| LegacyScanner.FieldsFrom | bookkeeper_gen.c:189-268 | the field loop only appends, in source order, and never moves back |
| LegacyScanner.ShapeAtTyped | bookkeeper_gen.c:191-263 | every accepted shape has a type |
| LegacyScanner.FieldsFromTyped | bookkeeper_gen.c:189-268 | every field the loop reads has a type |
| LegacyScanner.CloseRecord | bookkeeper_gen.c:270-279 | the record is kept iff `}` and an identifier follow the fields |
| LegacyScanner.DeriveJsonPattern | bookkeeper_gen.c:272 | *step:* `derive_json ( )` is the attribute pattern whose word is `derive_json` |
| LegacyScanner.CloseRecordValue | bookkeeper_gen.c:270-279 | a kept record has the fields read and the name after `}`; DERIVE_JSON iff derive-all or `derive_json()` follows, consumed at most once |
| LegacyScanner.Scan | bookkeeper_gen.c:179-284 | the scan only appends records |
| LegacyScanner.RecordThenScan | bookkeeper_gen.c:185-279 | the record branch and the scan after it only append |
| LegacyScanner.ScanAtEnd | bookkeeper_gen.c:180-182 | *step:* at the end of the tokens the scan stops with what it found |
| LegacyScanner.ScanSkipsOther | bookkeeper_gen.c:280-283 | *step:* a token that does not start `typedef struct` is read alone and skipped |
| LegacyScanner.ScanRecord | bookkeeper_gen.c:185-188 | *step:* after `typedef struct {` the record branch runs on the tokens after the brace |
| LegacyScanner.ScanTyped | bookkeeper_gen.c:179-284 | every record the scan keeps has typed fields only |
| LegacyScanner.RecordThenScanTyped | bookkeeper_gen.c:185-279 | the same from the record branch |
| LegacyScanner.AnalyzeTyped | bookkeeper_gen.c:175-285 | the records analyze_file finds have typed fields only, so the emitter never aborts |
| LegacyScanner.ScanDeriveAll | bookkeeper_gen.c:186-188 | with derive-all every kept record carries DERIVE_JSON |
| LegacyScanner.RecordThenScanDeriveAll | bookkeeper_gen.c:186-188 | the same from the record branch |
| LegacyScanner.AnalyzeDeriveAll | bookkeeper_gen.c:59-60 | DERIVE_ALL is DERIVE_JSON: with derive-all every record found is marked |
| LegacyScanner.ReadFields | bookkeeper_gen.c:189-268 | the field loop computes `FieldsFrom` |
| LegacyScanner.AnalyzeFile | bookkeeper_gen.c:175-285 | analyze_file returns exactly the records of `Analyze` |
| LegacyJson.Preamble | bookkeeper_gen.c:339-344 | definition: the six preamble lines; `LegacyJson.PrintPreamble` is proved against it |
| LegacyJson.Opening | bookkeeper_gen.c:348-350 | definition: the first lines of `dump_json_<name>`; used by `LegacyJson.DumpsOfMarked` |
| LegacyJson.Closing | bookkeeper_gen.c:392-393 | definition: the closing lines of a dump function; used by `LegacyJson.DumpsOfMarked` |
| LegacyJson.Key | bookkeeper_gen.c:356-387 | definition: the JSON key every field line starts with; used by `LegacyJson.FieldLine` |
| LegacyJson.Conversion | bookkeeper_gen.c:355-381 | definition: the printf conversion for each primitive; used by `LegacyJson.FieldLine` |
| LegacyJson.Dumps | bookkeeper_gen.c:345-395 | definition: the dump functions of the records in order; properties proved in `LegacyJson.DumpsStep`, `LegacyJson.DumpsMarked` and `LegacyJson.DeriveAllDumpsAll` |
| LegacyJson.Book | bookkeeper_gen.c:339-396 | definition: the whole text written; `LegacyJson.WriteBook` and `LegacyJson.Generate` are proved against it |
| LegacyJson.FieldLine | bookkeeper_gen.c:353-389 | each field's output starts with its JSON key and ends with `);` and a newline |
| LegacyJson.FieldLines | bookkeeper_gen.c:351-391 | one entry per field, in declaration order: entry k is the line of field k |
| LegacyJson.Dump | bookkeeper_gen.c:347-394 | a record produces text iff it carries DERIVE_JSON |
| LegacyJson.Marked | bookkeeper_gen.c:345-347 | the marked records are records of the input carrying DERIVE_JSON |
| LegacyJson.FieldLinesStep | bookkeeper_gen.c:390 | *step:* one more field adds its line, after a `,` line when it is not the first |
| LegacyJson.BodyStart | bookkeeper_gen.c:351 | *step:* before the first field the loop has written nothing |
| LegacyJson.FieldsSoFarStep | bookkeeper_gen.c:351-391 | *step:* a turn of the fields loop adds the field's line and, unless it is the last, a `,` line |
| LegacyJson.FieldsSoFarAll | bookkeeper_gen.c:351-391 | after the last turn the loop has written the field lines with a `,` line between each two |
| LegacyJson.JoinLength | bookkeeper_gen.c:390 | the body holds every field line and exactly one `,` line fewer than there are fields |
| LegacyJson.DumpsStep | bookkeeper_gen.c:345-395 | *step:* one more record adds its dump function |
| LegacyJson.DumpsMarked | bookkeeper_gen.c:345-395 | records without DERIVE_JSON add nothing: the output is that of the marked records alone |
| LegacyJson.MarkedAll | bookkeeper_gen.c:347 | when every record is marked, all of them are kept |
| LegacyJson.DeriveAllDumpsAll | bookkeeper_gen.c:186-188 | with derive-all the output holds a dump function for every record found |
| LegacyJson.DumpsOfMarked | bookkeeper_gen.c:347-394 | a marked record adds its opening lines, its field lines joined by `,` lines, and its closing lines |
| LegacyJson.PrintFields | bookkeeper_gen.c:351-391 | the fields loop appends the field lines joined by `,` lines |
| LegacyJson.PrintField | bookkeeper_gen.c:352-390 | one turn appends the field's line and its separator |
| LegacyJson.PrintDump | bookkeeper_gen.c:347-394 | one turn of the records loop appends the record's dump function |
| LegacyJson.PrintPreamble | bookkeeper_gen.c:339-344 | the six preamble lines are appended |
| LegacyJson.WriteBook | bookkeeper_gen.c:339-396 | the preamble, each record's dump function in order, then a newline |
| LegacyJson.Generate | bookkeeper_gen.c:329-396 | scanning then emitting never aborts, and writes `Book(Analyze(toks, deriveAll))` |

## Left out

**bk.c: I/O and plumbing**
- `main` and the `*_cmd` handlers are not modelled: command line, configuration discovery, the
  watch loop and file output. Only the `parse_list` loop of `main` (bk.c:1507-1516) is modelled,
  as `CmdLine.ParseAll`.
- The configuration reader `parse_bkconf_BkConfig` is not modelled.
- File reading and writing, `entry_from_file` and the file part of `load_dynamic_schema_loc` are
  not modelled. A dynamic schema is given as its text.
- `gen_json_*`, `gen_debug_*` and the user-supplied static-schema generators are not modelled.
  They are opaque functions, given to the model as a text and a count per slot.
- `stb_c_lexer` is not part of this model. The scanners take a token sequence instead.
  - The sequence is assumed to hold `Eof` (the lexer's end or error result, `!lex.token`) at
    most as its last token.
  - `Lexer.Next` reads past the end of the sequence as `Eof` without moving. An `Eof` token
    inside the sequence is read like any other token. Only the scanners' outer loops
    (`Scanner.Scan`, `LegacyScanner.Scan`) stop on it.
- Logging (`bk_log`, `bk_diag`) is not modelled. The unknown-attribute warning is kept as a value.
  The error messages of `gen_dynamic` are not modelled, only the abandonment they come with.
- Memory management is not modelled: `strdup`, `malloc`, `free` and the `free_*` functions.
  Overflow of the fixed 4096-byte `tmp_str` and `string_store` buffers is not modelled either.

**bk.c: behaviour not captured**
- The `disabled_by_default` guard variant is not modelled. No command-line flag reaches it.
- An `if` directive outside a `for` loop is modelled as written: it appends to the loop buffer.
  No property is stated about it, because its intended meaning is unclear.
- Texts are NUL-free. `%.*s`, `strncmp` and `sv_to_cstr` stop at a NUL, and the model does not
  reproduce that.
- `Types.SchemaBit`: the registry holds at most 31 schemas (`Fits`). `1 << index` is undefined
  beyond that.
- `StrView.Atoi`: values are unbounded, so `atoi` overflow on long digit runs is not modelled.
- `StrView.Substr`: requires the window to lie inside the view. The source does no bounds check
  (bk.c:1990), and every call in the modelled code stays inside.
- `Hash.Djb2`: bytes are 0..255. The sign extension of `char` on some platforms is not modelled.

**bk.c: how things are represented**
- `DynamicGen.OuterScan` and `DynamicGen.InnerScan` hold the loop buffer `impl` as a sequence.
  They move over text without `$` in a small inner loop, where the source runs one outer
  iteration per character that does nothing.
- Each dynamic schema's text is computed in full before it is appended to the buffer. The
  appended text is proved to be the same.

**bookkeeper_gen.c**
- `read_entire_file`, the directory walk, the argument handling, the `printf` messages, the
  `bookkeeper.h` file and the final `fwrite` are not modelled. `LegacyJson.Generate` models one
  file's tokens and the text that `bookkeeper.c` receives.
- `LegacyJson.FieldLine`: requires a typed field, where the source would `abort()`.
  `LegacyScanner.AnalyzeTyped` proves that every field the scanner produces is typed.

## Findings

| source | as written | input that shows it | evidently intended | confidence | as-written member | corrected member |
|---|---|---|---|---|---|---|
| bk.c:1956-1971 | `sv_trim_whitespace_end` loops on `items[len - 1]` without checking `len > 0`. A view made only of whitespace is shrunk to length 0, then read at index -1. | the one-character view `" "` | stop at the empty view, which gives `""` | not executed; the only caller, `sv_trim_whitespace`, first trims the start, so the bad read cannot be reached through it (`StrView.TrimWsInBounds`) | StrView.TrimWsEndAsWrittenReadsBeforeStart | StrView.TrimWsEnd |
