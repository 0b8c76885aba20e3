# XACE verification tools: a Dafny model

XACE keeps a set of Python tools that gate its Rust runtime, its CGS exports
and its proof artifacts. This project models the tools whose logic is more than
bookkeeping and proves what they promise:

- `RustLexing`, `RustMasker`, `FloatScan`, `RustTicks`: the masker that blanks
  comments and literals out of Rust source, and the scan for `f32`/`f64` that relies
  on it. The loops are proved against one declarative division of a text into
  segments, and that one is compared with the division in which a lifetime's
  apostrophe is code.
- `Json`, `JsonText`, `JsonDecoder`: JSON values, the compact printer with its
  string escapes, and a decoder that inverts it (sections 2 to 7 of RFC 8259).
- `CgsHash`, `CgsModel`, `CgsRules`, `CgsValidator`, `CgsExport`, `CgsFile`: the
  canonical hash of a CGS document and the multi-pass validator. `CgsValidator` is the
  imperative code, `CgsRules` says pass by pass when it stays silent, and
  `CgsExport` states one declarative property of the document and proves that
  all passes are silent exactly when it holds. `CgsFile` joins them with the
  decoder: a file is accepted exactly when its text loads as a valid export.
- `PromptSchedule`, `SoakLedger`: the even-spacing prompt scheduler and the
  cycle loop of the multi-user soak, as a state machine over one ledger.
- `Framing`: the length-prefixed reader and writer over a socket whose `recv`
  may return any non-empty piece of what it was asked for.
- `Records`: the canonical sort of normalised records.
- `PlanSchedule`: the flattening of a persisted plan and the exactly-once check.
- `MarkerSearch`, `BraceMatcher`: the non-overlapping marker search and the brace
  matcher.
- `Percentile`, `Thresholds`: the benchmark's percentile and its threshold
  evaluation.
- `Wrappers`, `Texts`, `PyStrings`, `Lists`, `Sorting`, `Rounding`: what the
  others share, among them Python's stable `sorted` and round-half-even.

## Conventions

Rust and adapter sources are `seq<char>`; JSON strings are sequences of code
points, lone surrogates included. A JSON object is a sequence of members, so key
order is visible. A finite float is named by the token `repr` prints for it, and
rounding to six digits is a function on tokens that is idempotent and yields
tokens again (`CgsHash.Sound`). The decoder keeps a float's token as the text
writes it: it does not turn `1.50` into `1.5`, nor `1e400` into an infinity, as
Python's `float` would. SHA-256 is a function giving 64 lowercase hex
digits; nothing assumes it injective except `CgsHash.HashDecidesEquality`, which
asks only that the two texts at hand do not collide. Python's booleans are
integers wherever the code tests `isinstance(x, int)` (`CgsModel.AsInt`). Ratios
are exact. Built-ins whose inner working does not matter (`int`, `str`,
`str.isdigit`, `\w` beyond ASCII, UTF-8) are function parameters.

## Where the code does not meet its promise

Each of these is proved, with a concrete input or a whole family of them, and with
the exact condition:

- A finding need not be a word of the original: `f32r"x"` is reported as `f32`
  (`FloatScan.FindingInsideLongerWord`). `FloatScan.FoundIff` gives the exact set.
- The masker takes every apostrophe in code for the start of a character literal.
  A Rust lifetime's apostrophe hides what follows it, up to the next unescaped tick
  or newline (`RustTicks.TickHidesIff`): the `f32` of `&'a f32` is missed
  (`RustTicks.LifetimeHidesFloat`), that of `&'a x: &'a f32` is found again behind
  the second tick (`RustTicks.SecondLifetimeReveals`). The division into segments
  and the masked text are right exactly when no such tick stands in code
  (`RustTicks.LexIsTrueIff`, `RustTicks.MaskingIsTrueIff`), and then no float word
  is missed (`RustTicks.NoneMissedWithoutLifetimes`).
- A string that holds a high surrogate directly followed by a low one, anywhere in
  it, prints like the string with the one code point they spell
  (`JsonText.SurrogatePairCollides`); `JsonDecoder.CanonicalJsonLoadsIff` shows that
  this is the only case. No loaded document holds such a pair
  (`JsonDecoder.LoadedIsHeld`), so only values built in memory are concerned.
- A list or object as `metadata.cgs_hash` makes the strict check raise a
  `TypeError` instead of reporting an error (`CgsFile.ListHashRaises`; exactly when,
  in `CgsValidator.CheckHash` and `CgsValidator.ValidateCgs`).
- A soak asked for more prompt changes than cycles runs to the end and then fails
  its own check (`SoakLedger.OverlongRequestFails`; exactly then, in
  `SoakLedger.CompletedRunChecksIff`).
- The marker search counts `\n` but looks lines up with `splitlines`, which breaks
  at nine more characters. Reading a file turns carriage returns into `\n` but keeps
  the other eight, form feeds among them. In a text with any of them some position
  is looked up on a wrong line, and some marker is misjudged under some allowances;
  both happen exactly in such texts (`MarkerSearch.LookupIsRightIff`,
  `MarkerSearch.SearchIsRightIff`). `MarkerSearch.FormFeedMisleads` is an input where
  the token of another line excuses a marker.

## Model

| member | source | states |
|---|---|---|
| RustLexing.KindIff | tools/fixed_point_authority_check.py:90-189 | which segment the scanner starts at a position is exactly the one whose declarative opening condition holds there: raw string before line comment before block comment before string before char literal before code |
| RustLexing.SegmentIff | tools/fixed_point_authority_check.py:90-189 | a range is a segment (block comment closing where opens and closes first balance, raw string at the first quote with as many hashes, string and char literal at the first unescaped closer) exactly when the scanner yields it |
| RustLexing.SegmentationIff | tools/fixed_point_authority_check.py:114-189 | every text, unterminated literals included, has exactly one gapless division into segments, the one the scanner makes |
| RustMasker.RawStringEnd | tools/fixed_point_authority_check.py:90-111 | a raw string is recognised exactly where one opens, and its end is where the declarative segment ends |
| RustMasker.StripRustCommentsAndLiterals | tools/fixed_point_authority_check.py:114-189 | the one-index loop with its nesting depth returns the masked text for every input, although its index may run past the end |
| RustMasker.SkipString | tools/fixed_point_authority_check.py:156-166 | the string loop ends where the literal does, or one past the text after a trailing backslash |
| RustMasker.SkipCharLiteral | tools/fixed_point_authority_check.py:170-182 | the char loop ends after the closing tick or before a newline |
| RustMasker.MaskedRendersSegments | tools/fixed_point_authority_check.py:114-189 | whatever division into segments one gives, the masked text is its code segments copied and its other segments blanked |
| RustMasker.MaskingKeepsLayout | tools/fixed_point_authority_check.py:86-87 | same length, code characters unchanged, all others a space, newlines at exactly the same offsets |
| RustMasker.LinesAgree | tools/fixed_point_authority_check.py:201-202 | the line number of an offset is the same in masked and original text |
| RustMasker.NothingOpensInMasked | tools/fixed_point_authority_check.py:114-189 | masked text holds no quote, no tick, no `//` and no `/*` |
| RustMasker.MaskedUnchangedIff | tools/fixed_point_authority_check.py:114-189 | masking leaves a text alone exactly when nothing in it opens a comment or literal |
| RustMasker.MaskingIsIdempotent | tools/fixed_point_authority_check.py:114-189 | masking twice is masking once, for every text |
| FloatScan.ScanFile | tools/fixed_point_authority_check.py:212-230 | the findings are, in order, exactly the places that spell `f32` or `f64` in code with no word character on either side, and such a spelling that runs straight into a raw string's prefix, each with its line and its verbatim text in the original |
| FloatScan.MatchIsVerbatim | tools/fixed_point_authority_check.py:219-229 | a token found in masked text is the original's text at that place and lies wholly in code |
| FloatScan.FoundIff | tools/fixed_point_authority_check.py:212-230 | a place is reported exactly when the original's three characters there are `f32` or `f64` and lie in code, no word character stands before them, and none stands after them or a raw string opens there |
| FloatScan.WordCharsAre | tools/fixed_point_authority_check.py:62-62 | among ASCII characters the word characters are the letters, the digits and the underscore |
| FloatScan.FindingInsideLongerWord | tools/fixed_point_authority_check.py:62-62 | a concrete text where the finding is no word of the original |
| RustTicks.TrueSegmentationIff | tools/fixed_point_authority_check.py:114-189 | the division in which a tick that opens no character literal is code exists for every text and is unique |
| RustTicks.LexIsTrueIff | tools/fixed_point_authority_check.py:114-189 | the masker's division is that one exactly when no tick that opens no literal stands in code |
| RustTicks.MaskingIsTrueIff | tools/fixed_point_authority_check.py:114-189 | the masked text is what that division asks for exactly when no such tick stands in code |
| RustTicks.NoneMissedWithoutLifetimes | tools/fixed_point_authority_check.py:212-230 | in a text without such a tick a place is reported exactly when it spells `f32` or `f64` as a word of true code, or in code runs straight into a raw string |
| RustTicks.FloatIsReported | tools/fixed_point_authority_check.py:212-230 | a concrete declaration without ticks whose one finding is `f64` on line 1 |
| RustTicks.TickHidesIff | tools/fixed_point_authority_check.py:170-184 | a tick met in code hides exactly the characters before the first unescaped newline and up to the first unescaped tick |
| RustTicks.ApostropheHidesRestOfLine | tools/fixed_point_authority_check.py:170-184 | so a lone apostrophe hides the rest of its line up to a further tick or a backslash, and nothing there is found |
| RustTicks.LifetimeHidesFloat | tools/fixed_point_authority_check.py:170-184 | a concrete declaration with a lifetime whose `f32` is a word in code and is not found |
| RustTicks.SecondLifetimeReveals | tools/fixed_point_authority_check.py:170-184 | a concrete declaration whose `f32` is found because a second lifetime ends what the first one hid |
| PyStrings.FindSpec | tools/fixed_point_authority_check.py:108-108 | `find` gives the leftmost match at or after its start, or -1 when there is none |
| PyStrings.CountNewlinesMonotone | tools/fixed_point_authority_check.py:201-202 | line numbers never decrease with the offset and stay equal exactly when no newline lies between |
| PyStrings.LineCountsNewlines | tools/fixed_point_authority_check.py:201-202 | a line number is one more than the number of newlines before the offset |
| JsonText.StringDecodesIff | tools/cgs_schema_validate.py:604-605 | an escaped string decodes to itself exactly when it holds no unmerged surrogate pair |
| JsonText.SurrogatePairCollides | tools/cgs_schema_validate.py:604-605 | a string with a high surrogate before a low one anywhere in it prints exactly like the string with the code point the two spell |
| JsonText.EscapeChoice | tools/cgs_schema_validate.py:604-605 | printable ASCII but quote and backslash stands for itself, those two and five control characters have a two-character escape, every other code point one `\u` escape with lower-case hex or, beyond the first plane, two |
| JsonText.QuotedIsPlain | tools/cgs_schema_validate.py:604-605 | a printed string is printable ASCII, whatever code points it holds |
| JsonText.ParseInt | tools/cgs_schema_validate.py:604-605 | a printed integer followed by anything that may follow a value reads back as that integer |
| JsonText.ParseFloat | tools/cgs_schema_validate.py:604-605 | a float's token reads back as that float |
| JsonDecoder.ValueRoundTrip | tools/cgs_schema_validate.py:604-605 | decoding inverts printing for every value, whatever legal text follows it |
| JsonDecoder.PrintIsCompact | tools/cgs_schema_validate.py:604-605 | what is printed is the parts in brackets with single commas and a colon after each key, with no white space outside strings |
| JsonDecoder.LoadedIsHeld | tools/cgs_end_to_end_proof.py:573-575 | whatever loads is a value Python can hold, with distinct keys and merged surrogates |
| JsonDecoder.CanonicalJsonLoadsIff | tools/cgs_schema_validate.py:604-605 | the canonical text loads back as the key-sorted value exactly when no string holds an unmerged pair |
| Json.SortKeysOfRebuilt | tools/cross_engine_core_hash_compare.py:883-888 | sorting keys again after a rebuild changes nothing |
| Json.SameRebuildsEqual | tools/cross_engine_core_hash_compare.py:883-888 | values that differ only in key order normalise to the same value |
| Json.EqualSortedAreSame | tools/cross_engine_core_hash_compare.py:883-888 | values with the same key-sorted form differ only in key order |
| Json.SortKeysIsCanonical | tools/cgs_schema_validate.py:594-605 | key-sorted forms are equal exactly when the values are equal up to key order at every depth |
| CgsHash.CanonicalTextDecidesEquality | tools/cgs_schema_validate.py:594-605 | canonical texts of normalised values are equal exactly when the values are equal up to key order |
| CgsHash.NormalisedParts | tools/cgs_schema_validate.py:594-601 | normalising rounds every float, keeps lists place by place and keys key by key, sorts the keys of every object, and changes nothing else |
| CgsHash.HashedTextHoldsDocument | tools/cgs_schema_validate.py:585-605 | the hashed text loads as an object with exactly the document's keys, each with its normalised value, and under `metadata` exactly its keys but `cgs_hash`; a `metadata` that is no object is kept |
| CgsHash.HashDecidesEquality | tools/cgs_schema_validate.py:585-591 | unless these two texts collide, hashes are equal exactly when the documents have the same keys and, key by key, the same normalised values, and the same of `metadata` but for `cgs_hash` |
| CgsHash.HashIgnoresDeclared | tools/cgs_schema_validate.py:585-591 | no value of `metadata.cgs_hash` changes the hash |
| CgsHash.HashIgnoresKeyOrder | tools/cgs_schema_validate.py:585-591 | reordering keys at any depth does not change the hash |
| CgsHash.HashIgnoresNormalisation | tools/cgs_schema_validate.py:585-601 | normalising floats beforehand does not change the hash |
| CgsHash.NormaliseIdempotent | tools/cgs_schema_validate.py:594-601 | normalising floats twice is normalising once |
| CgsHash.AcceptedIffSealed | tools/cgs_schema_validate.py:550-591 | the strict hash check accepts exactly the documents that sealing leaves unchanged and whose digest is not all zeros |
| CgsHash.SealIsFixpoint | tools/cgs_schema_validate.py:550-591 | storing the computed hash makes the check pass (digest not all zeros), and sealing again changes nothing |
| CgsModel.ObjectsMembers | tools/cgs_schema_validate.py:629-636 | `objects` keeps exactly the members that are objects |
| CgsModel.AllObjectsKept | tools/cgs_schema_validate.py:629-636 | a list of objects is kept as it is, and only such a list raises no error |
| CgsModel.SemverIff | tools/cgs_schema_validate.py:26-26 | a version is accepted exactly when it is three non-empty digit runs joined by dots |
| Texts.HasInkIff | tools/cgs_schema_validate.py:608-613 | a text is blank exactly when every character is white space |
| CgsModel.TableGrows | tools/cgs_schema_validate.py:233-311 | at every moment of the collection all earlier bindings, reserved ones included, are still there unchanged |
| CgsModel.FirstNameWins | tools/cgs_schema_validate.py:233-311 | an id not there at the start ends with the first name offered for it |
| CgsModel.TableKeysExactly | tools/cgs_schema_validate.py:233-311 | the final ids are the reserved ones and every positive id a schema or an actor's component names, no others |
| CgsModel.TableKeysIgnoreOrder | tools/cgs_schema_validate.py:233-311 | reordering schemas, modes, actors, components or keys leaves the final ids the same |
| CgsValidator.ValidationResult.constructor | tools/cgs_schema_validate.py:60-65 | a fresh result holds no errors and no warnings |
| CgsValidator.ValidationResult.Check | tools/cgs_schema_validate.py:71-72 | adds its issue at the end when the condition fails, else nothing |
| CgsValidator.CheckTopLevel | tools/cgs_schema_validate.py:170-190 | reports exactly when a top-level demand is unmet |
| CgsValidator.CheckMetadata | tools/cgs_schema_validate.py:193-212 | reports exactly when a metadata demand is unmet |
| CgsValidator.CollectDeclaredComponents | tools/cgs_schema_validate.py:233-311 | returns the component table and reports exactly when a schema, an actor or a component is bad or an actor lives in two modes |
| CgsValidator.CollectSystemIds | tools/cgs_schema_validate.py:314-344 | returns all system ids and reports exactly when an id is missing or repeated within its scope |
| CgsValidator.CheckModes | tools/cgs_schema_validate.py:347-376 | reports exactly when a mode or rule is bad, an id repeats, or the default modes are not exactly one |
| CgsValidator.CheckRules | tools/cgs_schema_validate.py:379-392 | reports exactly when a rule field is bad or a rule id repeats |
| CgsValidator.CheckSystems | tools/cgs_schema_validate.py:395-409 | reports exactly when some global or mode-level system is bad |
| CgsValidator.CheckSystem | tools/cgs_schema_validate.py:412-456 | reports exactly when a system field is bad, an access id is undeclared, or a dependency is unknown or the system itself |
| CgsValidator.CheckHash | tools/cgs_schema_validate.py:550-582 | records declared and computed hash; a draft value and a malformed one become a warning or an error as the flags say, another digest is a mismatch error, the right one adds nothing, in each case exactly one issue or none; raises exactly for a list or object |
| CgsValidator.ValidateCgs | tools/cgs_schema_validate.py:136-167 | the whole run adds no error exactly when every pass is silent, and raises exactly when the event check or the hash lookup does |
| CgsExport.ModesIff | tools/cgs_schema_validate.py:233-376 | the passes over modes are silent exactly when every mode is well formed, mode and system ids are distinct, no actor id lives in two modes, and one mode is the default |
| CgsExport.SystemsIff | tools/cgs_schema_validate.py:395-456 | the system passes are silent exactly when ids are distinct, every read and write id is declared somewhere, and every dependency names another system of the document |
| CgsExport.ActorsApartIff | tools/cgs_schema_validate.py:270-311 | the running id-to-mode table raises no conflict exactly when no two modes share an actor id |
| CgsExport.ModesListedIff | tools/cgs_schema_validate.py:314-344 | the running id sets raise no duplicate exactly when no two systems of any modes share an id |
| CgsExport.DocumentIff | tools/cgs_schema_validate.py:136-456 | all four structural passes are silent exactly when schemas, modes and systems meet the declarative demands |
| CgsExport.HashAllowedIff | tools/cgs_schema_validate.py:550-582 | the hash check adds no error exactly for the document's own hash (not all zeros), for a draft value under the draft flag, and for a text of length 8 or 16 under the legacy flag |
| CgsExport.PassesIffAllowed | tools/cgs_schema_validate.py:136-582 | under every combination of flags the validator adds no error exactly when the document meets the declarative structure and its declared hash is its own or one the flags allow |
| CgsExport.StrictPassesIffValid | tools/cgs_schema_validate.py:136-582 | with both allow flags off the validator is sound and complete: no error exactly when the document is a valid export |
| CgsFile.ValidateStrictly | tools/cgs_schema_validate.py:136-167 | run with both allow flags off and not raising, the validator keeps the errors there were, and adds none exactly when the document is a valid export |
| CgsFile.ValidateFile | tools/cgs_schema_validate.py:108-133 | the result is free of errors exactly when the file can be read, its text loads, the document has the declared structure, and its hash is its own or one the flags allow; an unreadable file and a malformed text give one error each |
| CgsFile.AcceptsFile | tools/cgs_schema_validate.py:97-105 | a strict run accepts exactly the files whose text loads as a valid export |
| CgsFile.ListHashRaises | tools/cgs_schema_validate.py:562-563 | a concrete document whose list-valued declared hash makes validation raise |
| PromptSchedule.Schedule | tools/multi_user_soak_check.py:537-549 | for 1 to cycles-1 changes the set is exactly the rounded points, so the fill loop adds nothing; all cycles when as many are asked for; division by zero exactly for zero changes |
| PromptSchedule.ScheduleIsExactAndEven | tools/multi_user_soak_check.py:537-549 | exactly as many cycles as asked, all in range, the last one among them, every gap the floor or the ceiling of the ratio |
| PromptSchedule.GapIsFloorOrCeiling | tools/multi_user_soak_check.py:540-543 | neighbouring points, and the first from zero, are the floor or ceiling of the ratio apart under round-half-even |
| PromptSchedule.PointNear | tools/multi_user_soak_check.py:540-543 | each point is a cycle nearest to its multiple of the ratio, and of two equally near the even one |
| PromptSchedule.Fill | tools/multi_user_soak_check.py:544-548 | the fill loop ends with exactly the number asked for and keeps what was there |
| Rounding.HalfEvenNearest | tools/multi_user_soak_check.py:543-543 | rounding gives a nearest integer, the even one when two are nearest |
| SoakLedger.SoakRun.Cycle | tools/multi_user_soak_check.py:214-318 | one turn of the loop takes the ledger to its specified next value, or raises exactly when that does |
| SoakLedger.SoakRun.Run | tools/multi_user_soak_check.py:214-318 | the loop reaches the specified ledger, raising exactly when some cycle does |
| SoakLedger.RunsIff | tools/multi_user_soak_check.py:214-318 | a run has got through k cycles exactly when every change due by then applies with a new non-empty hash and every restart due restores the CGS those changes lead to; the changes in sequence give its CGS and hash |
| SoakLedger.UnfaithfulRestartRaises | tools/multi_user_soak_check.py:297-306 | a concrete run that raises in its first cycle because a restart does not restore |
| SoakLedger.RunCheck | tools/multi_user_soak_check.py:156-398 | rejects exactly the arguments the code rejects, raises exactly when a due change does not apply or a due restart does not restore, and otherwise ends with the CGS and hash all changes lead to, reporting success exactly when no more changes than cycles were asked for |
| SoakLedger.CountsHold | tools/multi_user_soak_check.py:214-318 | after every cycle of every run, saves, restarts and reconnects equal cycles divided by interval, prompts the scheduled cycles so far, and events their closed form |
| SoakLedger.ReconnectsHold | tools/multi_user_soak_check.py:228-250 | after every cycle all adapters are connected, and the i-th reconnect is of the i-th adapter in turn at the i-th multiple of the interval |
| SoakLedger.ReconnectsAreFair | tools/multi_user_soak_check.py:228-250 | reconnect counts of any two adapters differ by at most one after every cycle |
| SoakLedger.ChainHolds | tools/multi_user_soak_check.py:252-283 | each prompt record starts from the hash the previous one ended with, changes it, and the last one ends at the hash in force |
| SoakLedger.StampsHold | tools/multi_user_soak_check.py:285-318 | every save and restart sits at its multiple of the interval and carries the hash then in force |
| SoakLedger.OneTickPerCycle | tools/multi_user_soak_check.py:333-333 | the trace holds exactly one session tick per cycle |
| SoakLedger.TraceIsLedger | tools/multi_user_soak_check.py:214-318 | the trace is, kind by kind, the ledger's records and one tick per cycle with the hash then in force, and nothing besides, ordered by cycle and within a cycle tick, disconnect, reconnect, prompt, save, restart |
| SoakLedger.CompletedRunChecksIff | tools/multi_user_soak_check.py:332-348 | a completed run passes the five checks on its ledger exactly when no more changes than cycles were asked for |
| SoakLedger.OverlongRequestFails | tools/multi_user_soak_check.py:332-348 | a concrete request that is accepted, runs to the end and fails |
| SoakLedger.CompletedRunEventCount | tools/multi_user_soak_check.py:370-379 | the event count of a completed run as a closed formula of the arguments |
| Framing.UnpackPack | tools/cgs_end_to_end_proof.py:564-570 | the four little-endian bytes of a length decode to that length |
| Framing.PackUnpack | tools/cgs_end_to_end_proof.py:564-570 | every four bytes are the encoding of what they decode to |
| Framing.UnpackIsLittleEndian | tools/cgs_end_to_end_proof.py:570-570 | a header's i-th byte counts for 256 to the power i |
| Framing.PackDigit | tools/cgs_end_to_end_proof.py:564-564 | the i-th byte written is the length divided by 256 to the power i, modulo 256 |
| Framing.ReadExact | tools/cgs_end_to_end_proof.py:578-587 | whatever pieces `recv` returns, the first size bytes are taken and no more; a stream that closes earlier gives an error |
| Framing.WriteFrame | tools/cgs_end_to_end_proof.py:562-565 | appends exactly one frame, or raises and sends nothing when the length does not fit its prefix |
| Framing.ShortFrame | tools/cgs_end_to_end_proof.py:562-565 | the frame of a text shorter than 256 bytes is its length, three zero bytes and the text |
| Framing.EmptyObjectFrame | tools/cgs_end_to_end_proof.py:562-565 | the frame of an empty object, byte by byte |
| Framing.ReadFrame | tools/cgs_end_to_end_proof.py:568-575 | result and bytes left depend on the stream alone, not on the chunking |
| Framing.ReadOkIff | tools/cgs_end_to_end_proof.py:568-575 | a value is read exactly when behind the header a whole body of 1 to 4194304 bytes stands, decodes and loads as an object, and then the bytes left are those after it |
| Framing.ReadFailsIff | tools/cgs_end_to_end_proof.py:568-587 | which failure is given: closed early for a short header or body, invalid size for 0 and above 4 MiB, then invalid UTF-8, then invalid JSON |
| Framing.ReadFrames | tools/cgs_end_to_end_proof.py:568-587 | reading frame after frame from a socket until the stream ends or a read fails gives what the stream determines, whatever the chunking |
| Framing.FrameReadsBackIff | tools/cgs_end_to_end_proof.py:562-575 | a written object reads back, key-sorted, consuming its own bytes only, exactly when its text is within 4 MiB |
| Framing.FramesRoundTrip | tools/cgs_end_to_end_proof.py:562-587 | any list of payloads within the limit reads back whole and in order, ending on a frame boundary |
| Framing.CutFrameFails | tools/cgs_end_to_end_proof.py:578-587 | a frame cut anywhere inside gives the closed-early error, never a shorter frame |
| Framing.TruncatedStream | tools/cgs_end_to_end_proof.py:562-587 | a stream cut anywhere yields exactly its whole frames, then the error unless cut on a boundary |
| Framing.WholeFramesIsMaximal | tools/cgs_end_to_end_proof.py:562-587 | the number of frames so read is the largest that fits in the bytes left |
| Framing.FixedRawToUnits | tools/cgs_end_to_end_proof.py:545-548 | gives the whole units of a non-negative raw value exactly when it is a multiple of the scale, else -1 |
| Records.NormalizeIdempotent | tools/cross_engine_core_hash_compare.py:883-888 | normalising twice is normalising once |
| Records.KeyTextIs | tools/cross_engine_core_hash_compare.py:880-880 | the sort key is the text of the key's value in the record, or of the empty text when the key is missing |
| Records.SortRecordsIsStableSort | tools/cross_engine_core_hash_compare.py:878-880 | the result is the normalised objects, ordered by key text, equal keys in input order |
| Records.SortRecordsIsCanonical | tools/cross_engine_core_hash_compare.py:874-888 | permuting the records and reordering their keys at any depth changes nothing when the key texts are distinct |
| Records.OrderIgnoredIff | tools/cross_engine_core_hash_compare.py:878-880 | the result ignores input order exactly when records with equal key texts are equal |
| PlanSchedule.ScheduledSystemIds | tools/phase1_readiness_score.py:580-594 | the nested loops return the ids of the specified run order, and raise exactly when some sort key does |
| PlanSchedule.FlatteningPermutes | tools/phase1_readiness_score.py:580-594 | flattening loses and invents no slot of the plan |
| PlanSchedule.WrittenIff | tools/phase1_readiness_score.py:580-594 | the slots counted are exactly the systems at some place of some group of some phase that is not skipped |
| PlanSchedule.FlatteningIsOrdered | tools/phase1_readiness_score.py:585-593 | slots run by phase rank, phases of equal rank in document order, within a phase by execution index, ties in document order |
| PlanSchedule.RanksBeforeIff | tools/phase1_readiness_score.py:585-585 | phases named by digits rank first, by number, the others after them by name |
| PlanSchedule.FlatteningIgnoresDictOrder | tools/phase1_readiness_score.py:585-585 | the order of the phases in the document does not matter when their keys rank distinctly |
| PlanSchedule.PlanScheduleMatchesIds | tools/phase1_readiness_score.py:495-500 | returns True exactly when the listed ids are texts, no sort key raises, and the comparisons with the flattened ids hold |
| PlanSchedule.MatchesIffExactlyOnce | tools/phase1_readiness_score.py:495-500 | those comparisons hold exactly when the listed ids strictly increase, each has one phase, group and position in the plan, and no other id has any |
| MarkerSearch.SearchMarker | tools/adapter_package_handoff_wording_check.py:205-220 | the loop terminates for every text and marker, the empty one too, and reports what its visited occurrences give |
| MarkerSearch.ForbiddenMarkerCheck | tools/adapter_package_handoff_wording_check.py:201-226 | findings over all texts and markers in order, ok exactly when there are none |
| MarkerSearch.LineAtIsLineOf | tools/adapter_package_handoff_wording_check.py:273-277 | in a text whose only line break is `\n`, the line looked up by number is the line the occurrence is on |
| MarkerSearch.VisitsEveryLine | tools/adapter_package_handoff_wording_check.py:206-220 | though overlapping occurrences are skipped, every occurrence has a visited one on its own line |
| MarkerSearch.NothingReportedIff | tools/adapter_package_handoff_wording_check.py:201-226 | nothing is reported for a marker exactly when every line holding it is an allowed line |
| MarkerSearch.FindingIff | tools/adapter_package_handoff_wording_check.py:205-220 | a finding is reported exactly for each line number at which the marker occurs and whose looked-up line is not allowed, with the path and marker searched for |
| MarkerSearch.AllowedIff | tools/adapter_package_handoff_wording_check.py:280-281 | a line is allowed exactly when some allowance has its path and a token standing in it |
| MarkerSearch.CheckCleanIff | tools/adapter_package_handoff_wording_check.py:201-226 | the whole check is clean exactly when every line of every text that holds a forbidden marker is an allowed line |
| MarkerSearch.LookupIsRightIff | tools/adapter_package_handoff_wording_check.py:210-211 | for every position the line looked up is the one it is on, exactly when `\n` is the text's only line break |
| MarkerSearch.SearchIsRightIff | tools/adapter_package_handoff_wording_check.py:201-226 | under all allowances every newline-free marker is reported exactly when it stands on a line that is not allowed, exactly when `\n` is the text's only line break |
| MarkerSearch.FormFeedMisleads | tools/adapter_package_handoff_wording_check.py:201-226 | a text with a form feed and an allowance under which a marker on a disallowed line is not reported |
| BraceMatcher.BodyAfterSignature | tools/mutation_gate_apply_path_check.py:26-42 | returns the text between the first brace at or after the signature's first occurrence and the first return to depth zero whenever there is one, and nothing otherwise |
| BraceMatcher.OpenBraceIff | tools/mutation_gate_apply_path_check.py:27-32 | the brace found is exactly the first one at or after the signature's first occurrence |
| BraceMatcher.ClosingIsUnique | tools/mutation_gate_apply_path_check.py:33-41 | an opening brace has at most one such closing index |
| BraceMatcher.ClosesIffBalanced | tools/mutation_gate_apply_path_check.py:33-41 | an index is that closing index exactly when it holds a closing brace and the text between is balanced with every prefix non-negative |
| BraceMatcher.BodyFoundIff | tools/mutation_gate_apply_path_check.py:26-42 | a closing index exists exactly when some balanced body followed by a closing brace does |
| Percentile.PercentileIsOrderStatistic | tools/prompt_corpus_benchmark.py:856-861 | in any ordering of the values the result stands at the rounded index, which is in range without the clamp |
| Percentile.IndexInRange | tools/prompt_corpus_benchmark.py:860-861 | for 0 to 100 the index is in the list, nearest to p percent of the way, the even one of two equally near, and at the ends for 0 and 100 |
| Percentile.PercentileIsMember | tools/prompt_corpus_benchmark.py:856-861 | the result is one of the values and all values lie between the 0th and the 100th percentile |
| Percentile.PercentileMonotone | tools/prompt_corpus_benchmark.py:856-861 | a higher percentage never gives a lower value, also outside 0 to 100 |
| Percentile.PercentileIgnoresOrder | tools/prompt_corpus_benchmark.py:856-861 | permuting the values changes nothing |
| Thresholds.EvaluateThresholds | tools/prompt_corpus_benchmark.py:421-571 | rejects exactly unknown profiles and profiles that are no objects, else returns all checks in order, the failed ones, and what was deferred |
| Thresholds.PassIff | tools/prompt_corpus_benchmark.py:438-571 | the status is pass exactly when every configured demand is met |
| Thresholds.MinimumMeans | tools/prompt_corpus_benchmark.py:586-631 | each minimum, figure by figure and without dividing: counts of cases, matches, and expected-unsupported rows left alone or turned away |
| Thresholds.OutcomeMeans | tools/prompt_corpus_benchmark.py:609-638 | each success minimum is met by passes out of attempts, or out of nothing when nothing was attempted, and the provider's by its reliability when it was called |
| Thresholds.MaximumMeans | tools/prompt_corpus_benchmark.py:632-635 | each maximum bounds its own figure: total cost, cost per case, average and 95th-percentile latency |
| Thresholds.ExecutedMeans | tools/prompt_corpus_benchmark.py:614-621 | required execution means that the provider was called and compiling, running and rolling back were attempted |
| Thresholds.LooseningKeepsPasses | tools/prompt_corpus_benchmark.py:421-571 | lowering minimums, raising maximums or dropping demands never turns a pass into a fail |
| Thresholds.SkippedWorkFails | tools/prompt_corpus_benchmark.py:610-643 | a positive minimum for compiling, running or rolling back passes only if something of the kind was attempted and something succeeded; likewise for the provider and the unsupported rows |
| Thresholds.PerfectRateIff | tools/prompt_corpus_benchmark.py:849-853 | for all counts a success rate reaches 1 exactly when something was attempted and no failure is counted, and counts that are not negative keep it between 0 and 1 |
| Thresholds.DeferredIff | tools/prompt_corpus_benchmark.py:543-557 | outside an executed profile an outcome is listed as deferred exactly when it was not measured |
| Thresholds.ReproducibilityIff | tools/prompt_corpus_benchmark.py:644-650 | reproducibility is complete exactly when run and case hashes have 64 characters, there is one per case, and no two cases share one |
| Sorting.SortByStable | tools/cross_engine_core_hash_compare.py:880-880 | elements that tie keep their input order |
| Sorting.SortByRefined | tools/phase1_readiness_score.py:589-589 | sorting by a key is sorting by the key and then the place in the input |
| Texts.TextLeIff | tools/cross_engine_core_hash_compare.py:880-880 | one text sorts before another exactly when it is a prefix or smaller at the first place they differ |

## Left out

- CgsValidator.CheckTopLevel: keeps the errors already there and says exactly when others are added, not how many or which, nor which warnings.
- CgsValidator.CheckMetadata: keeps the errors already there and says exactly when others are added, not how many or which, nor which warnings.
- CgsValidator.CollectDeclaredComponents: keeps the errors already there and says exactly when others are added, not how many or which, nor which warnings.
- CgsValidator.CollectSystemIds: keeps the errors already there and says exactly when others are added, not how many or which, nor which warnings.
- CgsValidator.CheckModes: keeps the errors already there and says exactly when others are added, not how many or which, nor which warnings.
- CgsValidator.CheckRules: keeps the errors already there and says exactly when others are added, not how many or which, nor which warnings.
- CgsValidator.CheckSystems: keeps the errors already there and says exactly when others are added, not how many or which, nor which warnings.
- CgsValidator.CheckSystem: keeps the errors already there and says exactly when others are added, not how many or which, nor which warnings.
- CgsValidator.ValidateCgs: does not name the errors added, and the semantic-event table and the asset checks are two abstract functions giving their number of errors (the event check may raise); what they demand is not modelled.
- SoakLedger.RunCheck: prompts, runtime restarts and the base state are given outcomes; the subprocess proofs, the persisted files, the final CGS validation and the other report checks are not modelled. What has been recorded when a cycle raises is not stated; exactly when one does is (`SoakLedger.RunsIff`).
- SoakLedger.CompletedRunChecksIff: speaks of the five report checks that the ledger decides, not of those on subprocess proofs, hashes and files.
- PlanSchedule.PlanScheduleMatchesIds: says when the call returns True; whether a list of ids that are not all strings gives False or raises a TypeError is not told apart.
- FloatScan.ScanFile: the float-literal regex and the excerpt attached to a finding are not modelled.
- MarkerSearch.SearchMarker: the reason and the stripped excerpt copied into each finding are not modelled.
- MarkerSearch.ForbiddenMarkerCheck: the reason and the stripped excerpt copied into each finding are not modelled.
- Thresholds.EvaluateThresholds: reading the report and the profile with `int`, `float`, `str` and truth tests is not modelled, so neither are the errors of malformed numbers; scope settings are texts.
- JsonDecoder.LoadedIsHeld: a loaded float keeps the token of the text, which need not be the one `repr` would print, nor finite as a Python float.
- Dependency cycles between systems: the validator does not check them, so nothing is claimed.
- NaN and the infinities: they have no JSON token and are not values of the model.
- Leniencies of `json.loads` beyond the RFC 8259 grammar, such as `NaN`.
- IEEE rounding: `round(x, 6)` is an abstract function on float tokens, and the schedule and the percentile use exact ratios where the code divides floats.
- SHA-256, UTF-8 and regular expressions beyond the word pattern.
- Mappings whose keys are not strings, in the record normaliser.
- The readiness scorecard's other shape checks and area scores, and the benchmark's counting by key: single expressions or a plain tally.
- The engine matrix of the cross-engine comparison, where every row is handed the same hash.
- File discovery, reports, command lines, sockets, subprocesses and the tools that only test for the presence of markers.
