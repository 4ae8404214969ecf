# cargparse in Dafny

A model of the argument-parsing engine of cargparse, a small C library for
command-line options. The library works like this:

- A program declares a table of options. Each option has a kind (positional,
  bool, int, float or string), an optional short name, an optional long name,
  flags (the C `int`, as an unbounded integer) and an arity (`nargs`).
- `cargparse_parse` walks `argv` once. It fills one result record per option:
  whether the option is satisfied, where its first value sits in `argv`, and
  how many values it received.
- Typed accessors read values back from those records.

The model follows the library's own structure.

- **`Types`** (types.dfy) holds the declarations of cargparse.h: the option
  kinds, the result codes, the option and result records, the arity
  sentinels and the initialiser macros. The result codes include the two that
  the implementation returns without declaring: `ZeroNargs` and `OptNotGot`.
- **`Values`** (values.dfy) is strict base-10 integer validation, with a
  round-trip proof against a decimal printer. Floating-point validation and
  reading are a parameter of the model (`FloatReader`).
- **`Classify`** (classify.dfy) is the token classifier.
- **`Registry`** (registry.dfy) holds the first-match lookups by short name,
  by long name and for the next positional.
- **`Engine`** (engine.dfy) is the parse state machine as functions over
  values. It covers:
  - the value binder;
  - each per-token handler;
  - one step of the scan;
  - the scan itself, a fold over `argv` that stops at the first error;
  - the end-of-input checks.
- **`ParseLaws`** (laws.dfy) proves properties of the engine over whole runs
  of tokens:
  - the scan stops at the first error and composes;
  - a pending option collects exactly its values;
  - an open-ended positional absorbs every later value;
  - flag bundles mark exactly the flags they name, and are not atomic;
  - after `--` only positionals change.
- **`Parser`** (parser.dfy) is the `cargparse_t` object as a class. Its
  handlers update the result array in place and are proved equal to the
  `Engine` functions, and so is its parse loop.
- **`Accessor`** (accessor.dfy) holds the typed getters, `has_option` and
  `get_arg_count`. The C out-parameters become returned pairs, with `None`
  when the C code leaves the output unwritten.
- **`Scenarios`** (scenarios.dfy) holds whole runs, a parse followed by reads:
  - an integer round trip for every integer;
  - the consecutive-read behaviour of the accessor;
  - zero-or-more options with no values;
  - the cursor restart after `--`;
  - bundles, repeated options and a missing required option.

Positions refer to the token vector `argv`, where the program name is at 0. A
result record's `start` is the position of its first captured token, which
stands for the C `valuestr` pointer; 0 stands for NULL, since the program
name is never captured. Every accessor therefore takes the `argv` the parse
ran on. `CapturesWithin` says that the results only point inside it;
`Engine.StepKeepsCaptures`, `Engine.RunKeepsCaptures` and
`Engine.ScanKeepsCaptures` carry that property through the loop, and
`Engine.Parse` states it for the whole parse.

## Model

| member | source | states |
|---|---|---|
| Types.ArityOf | cargparse.h:71-72 | an `nargs` of -111 is one-or-more, -222 is zero-or-more, anything else is a fixed count |
| Types.ArityEncoding | cargparse.h:71-72 | the two sentinels are distinct and negative, so encoding an arity and decoding it gives it back, and no fixed count of at least one is read as open-ended |
| Types.Zeroed | cargparse.h:77-80 | the zero-initialised result buffer of CARGPARSE_INIT has one record per option, each not satisfied, with count 0 and pointing nowhere |
| Types.IntOption | cargparse.h:93-94 | declares kind INT with the given arity |
| Types.FloatOption | cargparse.h:96-97 | declares kind FLOAT with the given arity |
| Types.StringOption | cargparse.h:102-103 | declares kind STR with the given arity |
| Types.BoolOption | cargparse.h:99-100 | a flag always declares exactly one argument |
| Types.PositionalOption | cargparse.h:105-106 | a positional has kind POS, no short name and exactly one argument |
| Types.IsRequired | cargparse.c:295 | the test `flags & CARGPARSE_FLAG_REQUIRED`, with REQUIRED the lowest bit, holds exactly when the flags are odd |
| Values.LeadingSpaces | cargparse.c:130 | `strtol` skips exactly the maximal run of C-locale whitespace |
| Values.ParseInt | cargparse.c:121-143 | an accepted token ends in a digit; a non-empty digit string parses to its decimal value |
| Values.ParseSigned | cargparse.c:130-140 | after the whitespace, an accepted rest ends in a digit, and a plain digit string reads as its decimal value |
| Values.ParseSignedAccepts | cargparse.c:130-140 | an optional sign followed by one or more digits is accepted with the signed value of the digits |
| Values.ParseIntAccepts | cargparse.c:121-143 | every token of the shape whitespace, optional sign, digits is accepted with its signed value |
| Values.ParseIntOnlyShape | cargparse.c:121-143 | conversely, every accepted token has that shape and the value the shape gives |
| Values.ParseIntAcceptsExactly | cargparse.c:121-143 | the integer parse succeeds if and only if the token has the shape whitespace, optional sign, one or more digits |
| Values.IsValidInt | cargparse.c:169-173 | a token is a valid int exactly when it has that shape |
| Values.ParseIntRejectsTrailing | cargparse.c:136-139 | a token whose last character is not a digit is rejected |
| Values.ParseIntRoundTrip | cargparse.c:169-173 | every integer printed in base 10 is a valid int token and reads back as itself |
| Classify.GetArgType | cargparse.c:109-119 | each of the five token classes holds exactly for its shape: empty is INCORRECT, `--` is DOUBLE_HYPHEN, `--x` with x not `-` is LONG, `-`, `-<digit>` and anything not starting with `-` are POS, every other `-...` is SHORT |
| Classify.DecimalIsPositional | cargparse.c:115 | every decimal integer, negative ones included, is classified as a value, never as an option |
| Classify.LongNameShape | cargparse.c:114-116 | a long option's name is non-empty and does not start with `-`; a token starting with `---` is a short option |
| Registry.FirstMatch | cargparse.c:78-84 | the result is the first index from the start position whose option satisfies the test, or -1 exactly when none does |
| Registry.FindShort | cargparse.c:87-96 | the first option declaring the short name, or -1 exactly when no option declares it |
| Registry.FindLong | cargparse.c:75-85 | the first option declaring the long name, or -1 exactly when no option declares it |
| Registry.NextPositional | cargparse.c:98-107 | the first positional after the given index, or -1 exactly when none follows it |
| Registry.FindOpt | cargparse.c:394-403 | the short name, when given, decides the lookup; otherwise the long name does; with neither the result is -1 |
| Registry.PositionalFoundOnlyByLongName | cargparse.h:105-106 | a positional is never found by a short name, and is found by its long name when no earlier option has that name |
| Engine.Admits | cargparse.c:184-196 | a flag never takes a value; strings and positionals take any token; an int takes exactly the integer-shaped tokens; a float takes what the float reader accepts |
| Engine.SetParseRes | cargparse.c:181-206 | an admitted token is appended: count grows by one, the first value's position is kept, and the option is satisfied exactly when its arity is reached; a refused token gives INVALID_VALUE and changes nothing |
| Engine.HandlePositionalArg | cargparse.c:208-222 | the cursor moves to the next positional exactly when it is -1 or on a satisfied fixed-arity positional; the value goes to the cursor's positional, or UNEXPECTED_POSITIONAL with nothing changed when there is none |
| Engine.HandleOptionArg | cargparse.c:224-233 | a satisfied fixed-arity option refuses the value with OPTION_ALREADY_SET; otherwise the value is bound, and the buffer changes only on success and only at that option |
| Engine.Activate | cargparse.c:242-248 | a found flag is marked satisfied with one argument and nothing stays pending; a zero-or-more option is satisfied at once and stays pending; any other option becomes pending unchanged |
| Engine.HandleShortOption | cargparse.c:235-250 | OPTION_UNKNOWN exactly when no option has the short name, with nothing changed; otherwise the found option is activated |
| Engine.HandleLongOption | cargparse.c:252-267 | OPTION_UNKNOWN exactly when no option has the long name after `--`, with nothing changed; otherwise the found option is activated |
| Engine.MarkBools | cargparse.c:274-286 | the bundle returns one of three codes and keeps the buffer's length |
| Engine.MarkBoolsMarksFlags | cargparse.c:274-286 | whether the bundle succeeds or stops early, every slot either stays as it was or is a flag marked satisfied |
| Engine.HandleMultShortBoolOptions | cargparse.c:269-289 | the bundle handler leaves nothing pending and marks the characters after the dash |
| Engine.EffectiveType | cargparse.c:316-320 | after `--` every token except `--` itself is treated as a value; before it, the classifier decides |
| Engine.LeavePending | cargparse.c:340-346 | leaving a pending option for another option token fails with OPTION_NEEDS_ARG exactly when the pending option has a fixed arity |
| Engine.StepValue | cargparse.c:323-338 | a value token keeps the state well formed and the `--` mode, and returns one of four codes |
| Engine.StepShort | cargparse.c:339-353 | a short option token keeps the state well formed, stays out of `--` mode, keeps the positional cursor and returns one of four codes |
| Engine.StepLong | cargparse.c:354-365 | a long option token keeps the state well formed, stays out of `--` mode, keeps the positional cursor and returns one of three codes |
| Engine.StepDoubleHyphen | cargparse.c:366-375 | `--` fails with OPTION_NEEDS_ARG exactly when a fixed-arity option is pending; otherwise it clears the pending option, advances the positional cursor and enters `--` mode, with the buffer unchanged |
| Engine.Step | cargparse.c:315-378 | one token keeps the loop's state invariants, returns only a code the loop can return, and never leaves `--` mode |
| Engine.Run | cargparse.c:314-379 | a stretch of the loop keeps the state invariants and `--` mode and returns only loop codes |
| Engine.Scan | cargparse.c:314-379 | the whole loop, from the initial state, keeps the state invariants and returns only loop codes |
| Engine.OptionStepMarksOnly | cargparse.c:339-365 | a short or long option token keeps every slot's position and adds at most one to its count |
| Engine.StepKeepsCaptures | cargparse.c:315-378 | one token at position `pos` keeps every captured run below `pos + 1` |
| Engine.RunKeepsCaptures | cargparse.c:314-379 | a stretch of the loop keeps every captured run below the stretch's end |
| Engine.ScanKeepsCaptures | cargparse.c:314-379 | the whole loop, from a buffer as CARGPARSE_INIT leaves it, keeps every captured run inside `argv` |
| Engine.RequiredFrom | cargparse.c:291-300 | the check from an index holds exactly when every required option from there on is satisfied |
| Engine.RequiredOptionsGot | cargparse.c:291-300 | the check holds exactly when every required option is satisfied |
| Engine.Finish | cargparse.c:381-391 | OPTION_NEEDS_ARG exactly when an option is still pending; otherwise NOT_ALL_REQUIRED_OPTIONS exactly when a required option is unsatisfied, and OK exactly when neither |
| Engine.Parse | cargparse.c:302-392 | one token (the program name alone) gives GOT_ZERO_ARGS and changes nothing; otherwise the loop's first error is returned, else the end-of-input checks decide; OK implies every required option is satisfied; captures stay inside `argv` |
| Parser.ArgParser.constructor | cargparse.h:77-86 | CARGPARSE_INIT gives a fresh result buffer as long as the option table, every record zeroed |
| Parser.ArgParser.SetParseRes | cargparse.c:181-206 | the in-place binder returns the code of `Engine.Bound` and changes exactly slot k, to the record `Engine.Bound` computes |
| Parser.ArgParser.HandlePositionalArg | cargparse.c:208-222 | the in-place handler returns the code, cursor and buffer of `Engine.HandlePositionalArg` |
| Parser.ArgParser.HandleOptionArg | cargparse.c:224-233 | the in-place handler returns the code and buffer of `Engine.HandleOptionArg` |
| Parser.ArgParser.Activate | cargparse.c:242-248 | the in-place update leaves the buffer and pending index of `Engine.Activate` |
| Parser.ArgParser.HandleShortOption | cargparse.c:235-250 | the in-place handler computes what `Engine.HandleShortOption` computes |
| Parser.ArgParser.HandleLongOption | cargparse.c:252-267 | the in-place handler computes what `Engine.HandleLongOption` computes |
| Parser.ArgParser.HandleMultShortBoolOptions | cargparse.c:269-289 | the character loop, marking in place, ends with the code and buffer of `Engine.MarkBools` and nothing pending |
| Parser.ArgParser.ParseToken | cargparse.c:315-378 | one pass of the loop body leaves the code and state of `Engine.Step` |
| Parser.ArgParser.Parse | cargparse.c:302-392 | the loop over `argv`, updating the buffer in place, returns the code and leaves the buffer of `Engine.Parse` |
| ParseLaws.RunThrough | cargparse.c:314-379 | a loop that gets through a first stretch goes on over the rest from the state it reached |
| ParseLaws.RunSplits | cargparse.c:314-379 | scanning a stretch is scanning its first part and, only if that succeeded, the rest from where it ended |
| ParseLaws.ScanStopsAtError | cargparse.c:325-351 | once a token fails, later tokens change neither the code nor the state |
| ParseLaws.PendingValueStep | cargparse.c:328-337 | an admitted value for a pending, unsatisfied option is appended to it, and the option stops being pending exactly when it becomes satisfied with a fixed arity |
| ParseLaws.FixedArityCollects | cargparse.c:328-337 | up to n admitted values after a fixed-arity-n option are appended to it in order, and it stops being pending exactly when the n-th arrives |
| ParseLaws.FixedArityShortfall | cargparse.c:381-384 | fewer values than the fixed arity scan without error but end with OPTION_NEEDS_ARG |
| ParseLaws.OpenEndedCollects | cargparse.c:328-337 | an open-ended option appends every following admitted value and stays pending, so the end-of-input check reports OPTION_NEEDS_ARG |
| ParseLaws.AlreadySetRefusesValue | cargparse.c:224-230 | a value for a satisfied fixed-arity pending option gives OPTION_ALREADY_SET with the state unchanged |
| ParseLaws.OptionTokenWhilePending | cargparse.c:339-365 | an option token while a fixed-arity option is pending gives OPTION_NEEDS_ARG with the state unchanged; while an open-ended one is pending it acts as if nothing were pending |
| ParseLaws.AbsorbStep | cargparse.c:208-217 | with nothing pending and the cursor on an open-ended positional, a value is appended to it and the cursor stays |
| ParseLaws.OpenEndedPositionalAbsorbs | cargparse.c:208-217 | once the cursor is on an open-ended positional, every later value is appended to it |
| ParseLaws.NoPositionalLeft | cargparse.c:208-221 | a value with no positional left gives UNEXPECTED_POSITIONAL and only resets the cursor |
| ParseLaws.DoubleHyphenStep | cargparse.c:366-375 | `--` from any state gives OPTION_NEEDS_ARG with the state unchanged while a fixed-arity option is pending; otherwise OK with nothing pending, the cursor on the next positional and value mode on |
| ParseLaws.BundleOkIff | cargparse.c:269-289 | a bundle succeeds if and only if every character names a flag |
| ParseLaws.BundleMarksExactly | cargparse.c:274-286 | a successful bundle marks exactly the options some character names, and leaves every other slot as it was |
| ParseLaws.BundleMarksEveryFlag | cargparse.c:269-289 | both: success exactly when every character names a flag, and then exactly the named flags are marked |
| ParseLaws.BundleNotAtomic | cargparse.c:274-285 | at the first character that does not name a flag, the bundle stops with OPTION_UNKNOWN or NOT_BOOL_IN_MULT_BOOL_DEF and keeps the marks made before it |
| ParseLaws.BundleThenShortIsNoOp | cargparse.c:347-352 | after a successful bundle, the short-option handler that the loop also runs changes nothing and leaves nothing pending |
| ParseLaws.GluedValueRefused | cargparse.c:347-349 | `-n5` for a non-flag `n` is a bundle, refused with NOT_BOOL_IN_MULT_BOOL_DEF and nothing changed |
| ParseLaws.AfterDoubleHyphenOnlyValues | cargparse.c:318-320 | after `--`, nothing becomes pending, only OK or UNEXPECTED_POSITIONAL can result, and no non-positional slot changes |
| Scenarios.IntRoundTrip | cargparse.c:515-527 | `prog -c <n>` for any integer n parses with `-c` satisfied by position 2, and both int getters read n back; index 1 is out of range and the count is 1 |
| Scenarios.PendingOptionNeedsValue | cargparse.c:366-384 | `-c` at the end, or followed by `--`, gives OPTION_NEEDS_ARG |
| Scenarios.RepeatedOptionRefused | cargparse.c:224-230 | `-c 1 -c 2` gives OPTION_ALREADY_SET |
| Scenarios.PairShortfall | cargparse.c:381-384 | for a two-value int option, `-p 1` binds one value and ends with OPTION_NEEDS_ARG; `-p 1x` is refused with INVALID_VALUE at the value |
| Scenarios.ZeroOrMoreWithoutValues | cargparse.c:457-459 | `-z` alone gives OPTION_NEEDS_ARG; `-z --` succeeds with the option satisfied and no values, the getter answers ZERO_NARGS and the count is 0 |
| Scenarios.SecondValueUnexpected | cargparse.c:208-221 | a second value for the only positional gives UNEXPECTED_POSITIONAL |
| Scenarios.DoubleHyphenRestartsCursor | cargparse.c:372-374 | in `a -- b` with one positional, `--` moves the cursor off the end, so the next value restarts at the first positional, which ends with two values read as `a` and `--` |
| Scenarios.ConsecutiveReadQuirk | cargparse.c:478-480 | in `a -v b` the open-ended positional counts two values, but its value at index 1 reads `-v`, since reads assume consecutive tokens |
| Scenarios.BundleMarksBoth | cargparse.c:269-289 | `-vq` marks both flags and nothing else |
| Scenarios.BundleFailsAfterMarking | cargparse.c:274-285 | `-vn` with `n` an int returns NOT_BOOL_IN_MULT_BOOL_DEF with `v` already marked |
| Scenarios.RequiredOptionMissing | cargparse.c:386-389 | a missing required option gives NOT_ALL_REQUIRED_OPTIONS after the positional was bound |
| Accessor.GetCheckOpt | cargparse.c:405-421 | the index found by the name when its kind is the requested one, and -1 exactly when the name is unknown or the kind differs |
| Accessor.ReadToken | cargparse.c:464-482 | a flag reads true, a string or positional reads the token, an int or float reads the parsed number when the token is valid, and otherwise INVALID_VALUE with no output |
| Accessor.ValueAt | cargparse.c:439-484 | DEFAULT_VALUE with the default (false for a flag) exactly when the option is not satisfied; ZERO_NARGS exactly for a satisfied zero-or-more option without values; NARG_OUT_OF_RANGE exactly when the index is at or past the count; otherwise the token at that index is read |
| Accessor.GetValueGeneric | cargparse.c:423-485 | INVALID_OPTION exactly when neither name is given; OPTION_UNKNOWN exactly when the name or kind does not match; otherwise the outcomes of `ValueAt` |
| Accessor.GetBoolLong | cargparse.c:487-492 | OK and true exactly when the flag was given, DEFAULT_VALUE and false when it was not, OPTION_UNKNOWN for a name that is not a flag |
| Accessor.GetBoolShort | cargparse.c:494-499 | the same, looked up by short name |
| Accessor.GetStrLong | cargparse.c:501-506 | the string value at the index, the default when the option was not given, and each error code exactly in its case |
| Accessor.GetStrShort | cargparse.c:508-513 | the same, looked up by short name |
| Accessor.GetIntLong | cargparse.c:515-520 | the parsed integer at the index, INVALID_VALUE for a token that is not an integer, the default when the option was not given, and each error code exactly in its case |
| Accessor.GetIntShort | cargparse.c:522-527 | the same, looked up by short name |
| Accessor.GetFloatLong | cargparse.c:529-534 | the number the float reader gives at the index, INVALID_VALUE for a token it refuses, the default when the option was not given, and each error code exactly in its case |
| Accessor.GetFloatShort | cargparse.c:536-541 | the same, looked up by short name |
| Accessor.GetPositional | cargparse.c:543-548 | the positional's value at the index, the default when it was not given, and each error code exactly in its case |
| Accessor.HasOption | cargparse.c:550-554 | true exactly when some option has the short name (when given), else the long name; false with neither |
| Accessor.HasOptionLong | cargparse.c:556-559 | true exactly when some option has the long name |
| Accessor.HasOptionShort | cargparse.c:561-564 | true exactly when some option has the short name |
| Accessor.GetArgCount | cargparse.c:566-585 | OPTION_UNKNOWN with 0 exactly for an unknown name, OPT_NOT_GOT with 0 exactly for an unsatisfied option, otherwise OK with the number of values received |
| Accessor.GetArgCountLong | cargparse.c:587-590 | looked up by long name: OPTION_UNKNOWN exactly when no option has that name, OPT_NOT_GOT exactly when the option is unsatisfied, OK with the count exactly when it is satisfied, and 0 in both error cases |
| Accessor.GetArgCountShort | cargparse.c:592-595 | looked up by short name: OPTION_UNKNOWN exactly when no option has that name, OPT_NOT_GOT exactly when the option is unsatisfied, OK with the count exactly when it is satisfied, and 0 in both error cases |
| Accessor.UnparsedReadsDefault | cargparse.c:434-455 | on the zeroed buffer of CARGPARSE_INIT every read gives DEFAULT_VALUE, INVALID_OPTION or OPTION_UNKNOWN, and DEFAULT_VALUE exactly when a given name finds an option of the requested kind |
| Accessor.CountBoundsReads | cargparse.c:457-462 | for a string option found by long name, a read succeeds exactly at the indices below the count `get_arg_count_long` reports, and then gives the token that many places after the first value |

## Left out

- Help printing (`cargparse_print_help`, `_cargparse_print_option`) only formats text; it is not modelled.
- The `fprintf(stderr, ...)` diagnostics are not modelled. Only the returned codes are.
- An option's flags are an unbounded integer rather than a 32-bit C `int`; the only bit the library tests is the lowest, which is the same in both.
- The float reader is not modelled. `strtod`'s grammar (hex, inf/nan, locale) and the `(float)` rounding are the `FloatReader` parameter: whether a token is a whole float literal, and the number it denotes. The scenarios use a reader that accepts nothing, since they declare no float option.
- Values.ParseInt: `strtol` saturates out-of-range values at the `long` limits without an error. The model yields the mathematical integer instead.
- The null-pointer guards (NULL_PARSER, NULL_OUTPUT, NULL_ARGUMENT) are left out, because model references cannot be null. So are NULL tokens.
- A NULL default string is not modelled: string defaults are strings.
- Tokens are character sequences without an embedded NUL. The C loops stop at the first NUL; the model has no such character.
- Accessor.GetValueGeneric: `narg + 1` on an `unsigned` index wraps to 0 at UINT_MAX, which lets the largest index through the range check. The model's index is unbounded.
- The out-of-bounds read `options[-1].nargs` in `cargparse_parse` is undefined behaviour. The model follows the evident intent: with no pending option, no pending check is made.
- Counts are natural numbers. The `int` count field and its `unsigned` copy in `get_arg_count` never overflow in the model.
- The accessors take the token vector explicitly. In C they reach it through the stored `valuestr` pointers.
- `cargparse_get_positional` is modelled with the `idx` parameter of its definition in cargparse.c. The header's prototype omits it.
- The lookups (`_cargparse_search_*`, `_cargparse_get_next_positional_opt`) and `_cargparse_check_required_options` only move a local index. They are recursive functions over that index here, not loop methods.
- Accessor.GetBoolLong, Accessor.GetStrLong, Accessor.GetIntLong, Accessor.GetFloatLong, Accessor.GetPositional and their short-name twins take a plain name, so a call with `CARGPARSE_NO_SHORT` or a NULL long name, which gives INVALID_OPTION in C, cannot be written with them. That outcome is modelled only by `Accessor.GetValueGeneric`.
- One Dafny character stands for one C `char`. Tokens are not decoded as bytes, so a multi-byte UTF-8 character after `-` (as in `-é`) is one character in the model but several bytes in C, which bundle and short-name handling would see one by one.
- Engine.Parse: the guarantee that captures stay inside `argv` is stated for a buffer whose records start zeroed or point before position 1, as CARGPARSE_INIT leaves them; a buffer reused from an earlier parse is not covered.
- Engine.MarkBools and ParseLaws.BundleNotAtomic follow the code: a bundle such as `-vn` with `n` not a flag marks `v` before it fails. An account of the library that calls this failure atomic, with no flag marked, does not match cargparse.c:274-285; the model follows the code.
- After a failed parse the buffer holds whatever the handlers had written before the error, as in C. No property is stated about that partial state beyond `ParseLaws.BundleNotAtomic` and the scenarios.
