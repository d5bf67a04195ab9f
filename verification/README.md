# Verified models of llama.cpp's text and tensor algorithms

This project models the self-contained algorithms behind tool-call streaming in llama.cpp, and a few
others of its text and tensor helpers, and proves what they promise. Loops that update variables are
Dafny methods; each is proved equal to a specification function (or to a stated property), and the
theorems are about those functions, over all inputs. Objects that are updated in place
(`PegMapper`, `IdsCache`, `Message`) are classes, in-place buffers are arrays, and the LoRA tensors,
which are never updated, are values.

**Streaming tool calls** (`Text`, `Json`, `Quotes`, `QuotesGrowth`, `QuotesMeaning`, `PythonStrings`, `JsonValues`,
`JsonUnchanged`, `PythonNumbers`, `PythonValues`, `Mapper`, `PegMapping`, `Streaming`, `ArgumentsText`, `Calls`, `PythonCalls`, `Chat`, `ChatDiff`, `ToolIds`,
`EndToEnd`, `CallStreams`). A partial output is parsed again whenever it grows; the mapper turns the tagged nodes into
a message; two successive messages are compared and only the differences are sent. The mapper's input
is the sequence of visited nodes, each with its tag and text, enclosing and untagged nodes included;
`Mapper.Relevant` is the part of it that the mapper looks at, and the theorems about growing and complete
lists are stated through it. The main results:

- for visited lists whose relevant part grows (nodes are appended, the last text is extended) comparing
  the two messages throws exactly when the last relevant node is a raw value of a named call whose
  translation is not confirmed by the new text; otherwise the deltas turn the one message into the
  other (`EndToEnd.GrowthStreams`),
  and over a whole stream with stamped ids the comparisons throw exactly when a step does, and otherwise
  the client ends with the final message (`EndToEnd.StreamReplays`);
- exactly which pairs of messages can be compared, what is sent for them, what the client then holds, and
  exactly when that is the new message (`ChatDiff.DiffsApplied`, `ChatDiff.DeltasSent`, `ChatDiff.ReplayExact`);
- the translation of Python literals grows with its input exactly when the decision made at the end of
  the input is confirmed (`QuotesGrowth.NormalizedGrows`); it keeps bracket structure and open strings on
  every input, and leaves exactly the texts without Python notation alone, every text that can be read as
  JSON among them (`JsonUnchanged.ReadableUnchanged`);
- for every Python value (strings in either quotes with all of Python's escapes, numbers in all of
  Python's notations, constants, lists, and dictionaries whose keys are strings, however spaced) the
  translation is the JSON text of the same shape, and it reads as the same value exactly when all escapes
  in it mean the same in JSON and all numbers in it are numbers of JSON (`PythonStrings.LiteralMeaning`,
  `PythonValues.ValueMeaning`);
- a complete call has the same result wherever its name and its id arrive, its arguments are one closed balanced
  object that reads back to the names and values (`Calls.CallResult`, `Calls.CallReadsBack`), and read as
  JSON they are the values Python gives them, under the same exact condition (`PythonCalls.CallMeaning`);
- on every node list the message has the content, the reasoning and the number of calls that the nodes have
  (`Mapper.MessageTexts`, `Mapper.CallCount`), and a pending call has no name, so the flush in `from_ast` is never
  taken; on well-nested lists a dropped pending call is never used. Complete calls are well nested
  (`CallStreams.CallsNest`).

**Diffing rendered templates** (`Segments`, `DiffSplit`). The segmentation is characterised and unique, and the
two-ended diff puts both texts back together exactly unless `LosesText` holds, leaves no segment or text that
both sides have at the same end (`DiffSplit.UnmatchedDiffer`, `DiffSplit.TextTakenOut`), and takes equal texts
for all prefix.

**Base64** (`Bits`, `Base64`, `Base64Encoding`). What the decoder accepts and returns, in terms of the concatenated 6-bit values; round
trips; in-place decoding; sizes (sections 4 and 5 of RFC 4648).

**String algorithms** (`Glob`, `Lcs`, `Escapes`, `CsvRow`, `Delimiters`). The glob matcher decides the
declarative meaning of patterns, the table algorithm finds the first longest common substring, the
in-place unescaper equals a functional one and undoes escaping, CSV parsing undoes quoting (section 2 of
RFC 4180), and message spans tile the tokens.

**Low-rank tensors** (`Tensors`, `Lora`, `LoraParts`, `LoraPermute`, `LoraReshape`, `LoraScale`, `LoraCat`,
`LoraCatRows`). Each operation on the factors `(B, A)` is the same operation on the product, with the exact conditions under
which it succeeds.

## Where the code and its own words differ

The model follows the code; each difference is stated as a lemma.

- The comment in `from_ast` says that a pending call that never got a name is flushed. The guard asks for a name, and a
  pending call never has one: the branch is never taken (`Mapper.FlushNeverTaken`).
- `calculate_diff_split` is meant to split both texts into prefix, own part and suffix. When the segment
  loop uses up exactly one side, a tail case may find that side's last segment a second time
  (`DiffSplit.LosesText`, example in `DiffSplit.DiffSplitLoses`).
- A growing Python literal does not always have a growing translation (`QuotesGrowth.GrowthFails`), and then
  comparing the partial messages throws (`EndToEnd.StreamBreaks`).
- A single-quoted literal with an escape JSON lacks becomes text that is not JSON (`PythonStrings.LiteralMeaningFails`).
- The comment at `normalize_container_value` promises JSON for Python's scalars. A number in a notation that JSON lacks,
  such as `.5`, comes out as it went in and is not JSON (`PythonValues.NumberFails`).
- The comment in `glob_class_match` says that a `]` right after the negation is a literal. The scan for the end of the class
  stops at that `]`, so such a class is empty and takes any character (`Glob.NegatedBracket`).
- `split` ignores a skip that starts inside the skip before it, and every later one (`Delimiters.StartsExactly`,
  `Delimiters.OverlapIgnored`).
- Slicing a `LoraTorchTensor` with leading axes slices both factors even where `A` is shared by all rows
  (`LoraParts.RowSliceDense`, `LoraParts.RowSliceFails`); concatenation has the same limit (`LoraCat.CatSharedLead`, `LoraCat.CatFails`), and
  with an empty tensor in the list it can give a wrong product without any complaint (`LoraCatRows.CatShapes`,
  `LoraCatRows.CatEmptyFails`).

## Model

| member | source | states |
|---|---|---|
| Text.TrimTrailingSpace | llama.cpp/common/chat-peg-parser.cpp:11-21 | removes only trailing white space, at most `max` of it, and all of it when unlimited |
| Text.TrimLeadingSpace | llama.cpp/common/chat-peg-parser.cpp:23-33 | removes only leading white space, at most `max` of it, and stops early only at other text |
| Text.Trim | llama.cpp/common/chat-peg-parser.cpp:35-37 | one leading white-space character at most, all trailing ones |
| Text.TrimRightMeaning | llama.cpp/common/chat-peg-parser.cpp:11-21 | the trailing trim is the prefix that ends in no white space and is followed by nothing else |
| Text.TrimRightMonotone | llama.cpp/common/chat-peg-parser.cpp:11-21 | a text that grows has a trimmed text that grows |
| Text.TrimOnceMeaning | llama.cpp/common/chat-peg-parser.cpp:35-37 | of white space, text and white space, the text is kept if there is at most one white-space character in front |
| Text.Characters | llama.cpp/common/chat-peg-parser.cpp:14-28 | the white-space, digit and word characters of the C locale, listed one by one |
| Json.JsonBraceDepth | llama.cpp/common/chat-peg-parser.cpp:41-67 | the depth is the number of opening minus closing braces outside double-quoted strings, with escapes inside strings honoured |
| Json.BraceDepthPlain | llama.cpp/common/chat-peg-parser.cpp:41-67 | in a text without quotes the depth is the number of `{` minus the number of `}`, whatever else it has |
| Json.EscapeAppend | llama.cpp/common/chat-peg-parser.cpp:70-76 | escaping works character by character, so an escaped prefix is a prefix |
| Json.ReadEscape | llama.cpp/common/chat-peg-parser.cpp:70-76 | reading the escaped text as a JSON string body (section 7 of RFC 8259) gives the text back, for every string |
| Json.EscapeShortest | llama.cpp/common/chat-peg-parser.cpp:70-76 | no JSON string body that stands for a text is shorter than the escaped text, so short escapes are used where there are any and nothing else is escaped |
| Json.EscapeLength | llama.cpp/common/chat-peg-parser.cpp:70-76 | which characters take one, two or more characters; hexadecimal digits are in lower case |
| Quotes.TokenLength | llama.cpp/common/chat-peg-parser.cpp:162-165 | the scan for the end of a bare word finds the maximal run of word characters |
| Quotes.TranslateAt | llama.cpp/common/chat-peg-parser.cpp:92-182 | one round from any position and flags: the piece appended, the flags left and the next position are those of one move of the specification; at least one character is read and both flags are never set |
| Quotes.NormalizeQuotesToJson | llama.cpp/common/chat-peg-parser.cpp:83-185 | the loop computes the translation as a function of the text left to read |
| QuotesGrowth.AdvanceAppend | llama.cpp/common/chat-peg-parser.cpp:92-182 | away from the end of the input a round does not depend on what comes later |
| QuotesGrowth.NormalizedGrows | llama.cpp/common/chat-peg-parser.cpp:83-185 | for all x and y, the output on x is a prefix of the output on x + y if and only if y confirms what was decided at the end of x (a dangling escape in single quotes, or a word that may be a literal); otherwise the outputs disagree at a position both have |
| QuotesGrowth.GrowthFails | llama.cpp/common/chat-peg-parser.cpp:96-178 | two inputs whose output is not extended: `N` grown to `Nope`, and an escaped quote cut in two |
| QuotesMeaning.NormalizedStructure | llama.cpp/common/chat-peg-parser.cpp:41-185 | for every text the brackets, commas and colons outside strings are the same before and after, a string is open at the end of one exactly when one is in the other, and the brace depth of the output is that of the braces outside either kind of quotes in the input |
| QuotesMeaning.NormalizedUnchanged | llama.cpp/common/chat-peg-parser.cpp:83-185 | the output equals the input if and only if outside double-quoted strings there is no single quote and no prefix of a Python literal at a word boundary |
| QuotesMeaning.JsonTextUnchanged | llama.cpp/common/chat-peg-parser.cpp:83-185 | every text with the characters of JSON text outside its strings passes through unchanged |
| JsonUnchanged.ReadableUnchanged | llama.cpp/common/chat-peg-parser.cpp:83-185 | every text that can be read as a JSON value, with white space around it, passes through unchanged |
| PythonStrings.LiteralBecomes | llama.cpp/common/chat-peg-parser.cpp:95-155 | a literal in either quotes becomes a double-quoted one wherever it stands, and what follows it is read outside strings |
| PythonStrings.LiteralMeaning | llama.cpp/common/chat-peg-parser.cpp:95-155 | for every Python string literal in either quotes, with every escape Python has, the JSON value of the translation is its Python value if and only if it uses only escapes with the same meaning in both, no surrogate escape and no raw control character |
| PythonStrings.LiteralMeaningFails | llama.cpp/common/chat-peg-parser.cpp:95-155 | the literal with a bell escape has a Python value and no JSON value |
| PythonNumbers.JsonNumberIsPython | llama.cpp/common/peg-parser.cpp:1327-1412 | the numbers that `python_number` accepts, which are those of JSON, are numbers of Python |
| PythonValues.Translates | llama.cpp/common/chat-peg-parser.cpp:83-185 | the translation of any Python value, however spaced and whatever follows it, is the JSON text of the same shape |
| PythonValues.ValueReads | llama.cpp/common/chat-peg-parser.cpp:83-185 | a JSON reader takes that text to exactly one value and stops behind it, or refuses it because a string or a number in it is refused |
| PythonValues.ValueMeaning | llama.cpp/common/chat-peg-parser.cpp:83-185 | reading the translation as JSON gives the value Python gives the original if and only if all its strings use only shared escapes and all its numbers are numbers of JSON |
| PythonValues.NumberFails | llama.cpp/common/chat-peg-parser.cpp:383-386 | `.5` is a number of Python; it passes unchanged and is not JSON |
| PegMapping.PegMapper.Current | llama.cpp/common/chat-peg-parser.cpp:238-240 | reading through `current_tool` reads the pending call or the last call of the result |
| PegMapping.PegMapper.SetCurrent | llama.cpp/common/chat-peg-parser.cpp:312-335 | writing through `current_tool` changes that call and nothing else |
| PegMapping.PegMapper.ArgsTarget | llama.cpp/common/chat-peg-parser.cpp:238-240 | the buffer until the name is known, then the arguments of the call |
| PegMapping.PegMapper.SetArgsTarget | llama.cpp/common/chat-peg-parser.cpp:238-240 | assigning through the returned reference changes only what it refers to |
| PegMapping.PegMapper.MapOpen | llama.cpp/common/chat-peg-parser.cpp:304-310 | the whole state after a call is opened |
| PegMapping.PegMapper.MapId | llama.cpp/common/chat-peg-parser.cpp:312-318 | the id is the trimmed text without its surrounding quotes; nothing else changes |
| PegMapping.PegMapper.MapName | llama.cpp/common/chat-peg-parser.cpp:320-335 | the name is set, buffered arguments move to the call, and a pending call moves to the result with the pointer following it |
| PegMapping.PegMapper.MapArgs | llama.cpp/common/chat-peg-parser.cpp:337-344 | object text replaces the arguments target, other text is ignored |
| PegMapping.PegMapper.MapArgName | llama.cpp/common/chat-peg-parser.cpp:350-363 | opens the object if needed and adds the separator and the quoted name |
| PegMapping.PegMapper.MapValue | llama.cpp/common/chat-peg-parser.cpp:365-386 | adds the value text, quoted and escaped for strings, and tracks the owed quote |
| PegMapping.PegMapper.MapArgClose | llama.cpp/common/chat-peg-parser.cpp:388-393 | adds the owed quote, if any |
| PegMapping.PegMapper.MapClose | llama.cpp/common/chat-peg-parser.cpp:395-417 | completes quote and braces, and adds or drops a pending call |
| PegMapping.PegMapper.MapTool | llama.cpp/common/chat-peg-parser.cpp:312-417 | dispatches the nodes that act on the current call |
| PegMapping.PegMapper.Map | llama.cpp/common/chat-peg-parser.cpp:277-418 | one node moves the whole state by one step of the specification |
| PegMapping.PegMapper.FromAst | llama.cpp/common/chat-peg-parser.cpp:246-275 | the message is that of the specification run over all nodes |
| PegMapping.PegMapper.FinishResult | llama.cpp/common/chat-peg-parser.cpp:249-274 | the flush and the removal of blank reasoning |
| PegMapping.PegMapper.AllBlank | llama.cpp/common/chat-peg-parser.cpp:264-270 | whether all characters are blanks, tabs or line breaks |
| Mapper.MessageTexts | llama.cpp/common/chat-peg-parser.cpp:247-290 | for every node list the content is the texts of the content nodes and the reasoning that of the reasoning nodes, in order, or empty when those are only blanks, tabs and line ends |
| Mapper.CallCount | llama.cpp/common/chat-peg-parser.cpp:292-417 | for every node list the message has as many calls as get a name before they are closed |
| Mapper.IdTextMeaning | llama.cpp/common/chat-peg-parser.cpp:311-318 | of an id, white space behind it and one pair of double quotes around it are dropped, and nothing else |
| Mapper.CloseClosesString | llama.cpp/common/chat-peg-parser.cpp:388-410 | closing a named call closes its open string as the end of the argument would, from every state |
| Mapper.OpenForgetsString | llama.cpp/common/chat-peg-parser.cpp:346-348 | the opening node of an argument drops an owed closing quote, from every state |
| Mapper.DroppedUsed | llama.cpp/common/chat-peg-parser.cpp:311-417 | exactly which nodes use the storage of a call that was closed before it had a name |
| Mapper.ClosedUnnamed | llama.cpp/common/chat-peg-parser.cpp:395-417 | closing an unnamed call leaves the pointer at its dropped storage |
| Mapper.CloseNameless | llama.cpp/common/chat-peg-parser.cpp:395-412 | closing a call whose name is blank, from every state: the arguments that came after the name replace the others |
| Mapper.FlushAdds | llama.cpp/common/chat-peg-parser.cpp:247-262 | what the flush would add for a pending call that has a name |
| Mapper.StepPendingUnnamed | llama.cpp/common/chat-peg-parser.cpp:277-418 | every step keeps: the pointer denotes the pending call exactly when there is one, points to an existing call otherwise, and a pending call has no name |
| Mapper.RunPendingUnnamed | llama.cpp/common/chat-peg-parser.cpp:277-418 | the same over every run |
| Mapper.FlushNeverTaken | llama.cpp/common/chat-peg-parser.cpp:249-261 | for every node list the flush adds nothing |
| Mapper.RunRelevant | llama.cpp/common/chat-peg-parser.cpp:277-418 | nodes with other tags, arguments text that is no object and the texts of delimiters make no difference, from any state |
| Streaming.PhaseRelevant | llama.cpp/common/chat-peg-parser.cpp:277-418 | nor do they for the nesting of a list |
| Streaming.FitsStep | llama.cpp/common/chat-peg-parser.cpp:277-418 | a node that may come next leaves a state that fits the next phase and a message that continues the last one |
| Streaming.FitsRun | llama.cpp/common/chat-peg-parser.cpp:277-418 | the same over every well-nested continuation |
| Streaming.WellNestedState | llama.cpp/common/chat-peg-parser.cpp:277-418 | on every well-nested list no dropped call is used, and between open and close the pointer denotes the pending call until the name is known and the last result after that |
| ArgumentsText.QuotedText | llama.cpp/common/chat-peg-parser.cpp:70-76 | escaped text in quotes is one closed string whatever the text and whatever follows it |
| ArgumentsText.ValueEndFound | llama.cpp/common/chat-peg-parser.cpp:41-67 | the end of a closed value is found whatever follows, however its brackets and quotes nest |
| Calls.CallResult | llama.cpp/common/chat-peg-parser.cpp:304-417 | the call that the visited nodes of a complete call produce, with enclosing nodes and wrappers anywhere and ids anywhere inside it, in closed form; it is the same whether the name arrives before, between or after the argument groups, and its id is the last one given |
| Calls.ObjectCallResult | llama.cpp/common/chat-peg-parser.cpp:320-344 | for arguments given as one object, name first and name last give the same message, wherever ids arrive |
| Calls.ObjectArguments | llama.cpp/common/chat-peg-parser.cpp:337-410 | an object text that lacks a number of closing braces at its end gets exactly these |
| Calls.StringPieces | llama.cpp/common/chat-peg-parser.cpp:365-379 | a string value that arrives in two pieces is the string of both, from every state |
| Calls.UnnamedDropped | llama.cpp/common/chat-peg-parser.cpp:395-417 | a call that is closed before its name arrives leaves the message as it was |
| Calls.StringTextDecodes | llama.cpp/common/chat-peg-parser.cpp:365-393 | the text written for a string value decodes to the string |
| Calls.CallReadsBack | llama.cpp/common/chat-peg-parser.cpp:304-417 | for every well-formed call the arguments are one closed value whose brackets nest, and read back to exactly the names and values in order; name and id are those given |
| PythonCalls.LiteralIsRaw | llama.cpp/common/chat-peg-parser.cpp:380-386 | every Python value is a well-formed raw value |
| PythonCalls.CallMeaning | llama.cpp/common/chat-peg-parser.cpp:304-417 | for every complete call with declared strings and Python values, the arguments read as JSON are the names with the values Python gives if and only if all escapes are shared and all numbers are numbers of JSON; name and id are those given |
| ChatDiff.ComputeStringDiff | llama.cpp/common/chat.cpp:54-67 | succeeds if and only if one text is a prefix of the other; the old text and the delta then make the longer of the two |
| ChatDiff.ComputeDiffs | llama.cpp/common/chat.cpp:264-330 | the deltas, or the exception, of the specification |
| ChatDiff.PushText | llama.cpp/common/chat.cpp:273-281 | one delta of a text field, if it changed, or the exception |
| ChatDiff.PushCall | llama.cpp/common/chat.cpp:297-322 | one delta of the call that was last before, if it changed, or the exception |
| ChatDiff.PushNewCalls | llama.cpp/common/chat.cpp:323-327 | one delta for each call that was not there before, in order |
| ChatDiff.DiffsApplied | llama.cpp/common/chat.cpp:264-330 | exactly which pairs are compared without an exception, and what the client that held the earlier message holds after all deltas |
| ChatDiff.ReplayExact | llama.cpp/common/chat.cpp:264-330 | the deltas rebuild the later message if and only if it continues the earlier one |
| ChatDiff.DeltasSent | llama.cpp/common/chat.cpp:264-330 | the deltas one by one: one with what was added for each text that has changed, one for the last earlier call if it has changed, with name and id only if one of these has, and one for each new call, in this order |
| ChatDiff.NothingSent | llama.cpp/common/chat.cpp:264-330 | a message that has not changed sends nothing |
| ChatDiff.NothingRepeated | llama.cpp/common/chat.cpp:313-320 | a delta of an earlier call has a name or an id only if that call has changed its name or its id |
| ChatDiff.EmptyDelta | llama.cpp/common/chat.cpp:276-328 | a delta with nothing in it announces a new call or tells that a text, name or id has been erased |
| ChatDiff.DiffsFail | llama.cpp/common/chat.cpp:276-312 | which of the exceptions a pair of messages ends in, with the texts it names |
| ChatDiff.ErasedStopWord | llama.cpp/common/chat.cpp:54-67 | when a text shrinks the client's text still begins with it, field by field, and only the last earlier call can differ |
| ChatDiff.ReplayRun | llama.cpp/tests/test-chat.cpp:1070-1106 | over every run of messages that continue one another nothing throws and the client ends with the last message |
| ChatDiff.ReplayErasedRun | llama.cpp/tests/test-chat.cpp:1070-1106 | the same with a shrinking last step: the client's texts begin with the final ones, and of the calls only the arguments of the last earlier one can differ, which begin with the final ones too |
| ToolIds.Message.SetToolCallIds | llama.cpp/common/chat.h:108-120 | the cache grows to the number of calls and every call takes its id from it |
| ToolIds.FilledMeaning | llama.cpp/common/chat.h:110-120 | places of the cache that were filled stay; a new one gets the call's own id, or a generated one if that is empty |
| ToolIds.StampedExtends | llama.cpp/common/chat.h:108-120 | stamping keeps one message continuing another |
| ToolIds.IdsNeverChange | llama.cpp/common/chat.h:108-120 | a call has the same id in every message of a run that has it |
| ToolIds.StampedRunContinues | llama.cpp/common/chat.h:108-120 | a run whose messages continue one another still does after stamping through one cache |
| ToolIds.StampedReplay | llama.cpp/common/chat.h:108-120 | a stamped run is rebuilt exactly by its deltas |
| EndToEnd.GrowthOutcome | llama.cpp/common/chat-peg-parser.cpp:246-418 | visited lists whose relevant part grows either give a message that continues the earlier one, or change arguments already sent |
| EndToEnd.GrowthStreams | llama.cpp/common/chat.cpp:54-67 | for well-nested visited lists whose relevant part grows, comparing throws if and only if the last raw value of a named call is not confirmed; otherwise the deltas rebuild the new message |
| EndToEnd.StreamBreaks | llama.cpp/common/chat.cpp:54-67 | a pair on which comparing throws |
| EndToEnd.StreamReplays | llama.cpp/common/chat.cpp:264-330 | for every stream of visited lists from nothing, with stamped ids: the comparisons throw if and only if some step changes arguments the client has already seen, and otherwise the client ends with the final message |
| CallStreams.CallsNest | llama.cpp/common/chat-peg-parser.cpp:292-417 | any number of complete calls, with ids or without and wherever their names arrive, is well nested |
| CallStreams.ObjectCallNests | llama.cpp/common/chat-peg-parser.cpp:320-344 | so is a call whose arguments are one object text, before or after the name |
| CallStreams.OthersNest | llama.cpp/common/chat-peg-parser.cpp:279-318 | an id may come wherever no argument is open, and text, reasoning and enclosing nodes anywhere |
| CallStreams.AppendedGrows | llama.cpp/common/chat.cpp:264-330 | nodes behind a well-nested list make it grow and change nothing that has been sent |
| CallStreams.TextGrows | llama.cpp/common/chat-peg-parser.cpp:282-386 | a longer last text of content, reasoning, arguments or an argument value makes a list grow, whatever follows it |
| CallStreams.NodeByNode | llama.cpp/common/chat.cpp:264-330 | every well-nested list that arrives node by node is streamed without an exception, and the client ends with the last message |
| CallStreams.CallsStream | llama.cpp/common/chat.cpp:264-330 | so is any number of complete calls |
| Segments.SegmentizeMarkers | llama.cpp/common/chat-auto-parser-helpers.cpp:269-299 | the loop computes the segments front to back |
| Segments.SegmentedIs | llama.cpp/common/chat-auto-parser-helpers.cpp:269-299 | the segments join to the text; every marker runs from an opener to its first matching closer; texts are non-empty, without openers and never adjacent, except an unclosed marker at the end |
| Segments.SegmentationUnique | llama.cpp/common/chat-auto-parser-helpers.cpp:269-299 | no other list of segments does that |
| Segments.PlainSegmented | llama.cpp/common/chat-auto-parser-helpers.cpp:269-299 | a text without `<` and `[` is one text segment |
| Segments.BracketsSegmented | llama.cpp/common/chat-auto-parser-helpers.cpp:269-299 | `<...>` and `[...]` are one marker up to the first closer of their kind, whatever follows; without a closer they are text |
| DiffSplit.CommonPrefixLen | llama.cpp/common/chat-auto-parser-helpers.cpp:69-76 | the longest common prefix |
| DiffSplit.CommonSuffixLen | llama.cpp/common/chat-auto-parser-helpers.cpp:78-85 | the longest common suffix |
| DiffSplit.AlignSegments | llama.cpp/common/chat-auto-parser-helpers.cpp:102-139 | the loop over four iterators and two flags takes equal segments at the front and the back |
| DiffSplit.AlignAccounted | llama.cpp/common/chat-auto-parser-helpers.cpp:114-139 | what has been taken is the same whole segments on both sides |
| DiffSplit.AlignStops | llama.cpp/common/chat-auto-parser-helpers.cpp:107-139 | the loop stops only when one side is down to one segment or neither end matches |
| DiffSplit.TailSegments | llama.cpp/common/chat-auto-parser-helpers.cpp:141-165 | the cases after the loop |
| DiffSplit.SplitTexts | llama.cpp/common/chat-auto-parser-helpers.cpp:169-183 | the text stage |
| DiffSplit.TextStageKeeps | llama.cpp/common/chat-auto-parser-helpers.cpp:169-183 | for all texts, prefix, own part and suffix of each side add up to what they did before |
| DiffSplit.TextStageStops | llama.cpp/common/chat-auto-parser-helpers.cpp:169-183 | no common text is left at an end where both sides have text |
| DiffSplit.Repair | llama.cpp/common/chat-auto-parser-helpers.cpp:185-204 | the two repairs |
| DiffSplit.CalculateDiffSplit | llama.cpp/common/chat-auto-parser-helpers.cpp:87-207 | all stages together compute the specification |
| DiffSplit.DiffSplitLossless | llama.cpp/common/chat-auto-parser-helpers.cpp:87-207 | for all texts both are reassembled if and only if not: the loop uses up exactly one side, a tail case finds its last segment again, and the last repair does not apply |
| DiffSplit.DiffSplitLoses | llama.cpp/common/chat-auto-parser-helpers.cpp:141-165 | a pair of texts that is not reassembled, and the split that comes back for it |
| DiffSplit.SameTexts | llama.cpp/common/chat-auto-parser-helpers.cpp:185-190 | a text and itself: all of it is prefix |
| DiffSplit.PlainTexts | llama.cpp/common/chat-auto-parser-helpers.cpp:68-207 | texts without brackets: if the left one begins the right one it is the prefix, otherwise the suffix is the longest common one and the prefix the longest common one of what is left, and the parts add up |
| DiffSplit.UnmatchedDiffer | llama.cpp/common/chat-auto-parser-helpers.cpp:111-163 | no whole segment that both sides have at the same end is left, but for a single equal text |
| DiffSplit.TextTakenOut | llama.cpp/common/chat-auto-parser-helpers.cpp:165-183 | where both sides end, or begin, with text, what is left of them differs in the last, or first, character; at other ends nothing is cut off |
| DiffSplit.OneSegmentRight | llama.cpp/common/chat-auto-parser-helpers.cpp:151-159 | a right text of one segment is looked for at the end of the left text first, then at its front |
| DiffSplit.OneSegmentLeft | llama.cpp/common/chat-auto-parser-helpers.cpp:141-150 | the same with the sides exchanged, unless the left text begins the right one |
| Base64.Value | llama.cpp/common/base64.hpp:344-389 | the value of a character and the alphabet it fixes, or not found |
| Base64Encoding.Encode | llama.cpp/common/base64.hpp:80-144 | the encoded text |
| Base64Encoding.PackedBits | llama.cpp/common/base64.hpp:80-144 | the 6-bit values are the bits of the bytes, filled up with zeros |
| Base64.Decode | llama.cpp/common/base64.hpp:200-244 | the loop over `last` and `bits` computes the decoding of the whole text |
| Base64.OnlyPadding | llama.cpp/common/base64.hpp:222-231 | whether only padding follows |
| Bits.UnpackBits | llama.cpp/common/base64.hpp:200-244 | keeping only the last value and a bit count writes exactly the whole bytes of all bits read |
| Base64.DecodeDenotation | llama.cpp/common/base64.hpp:200-244 | decoding succeeds if and only if the part before the first padding character uses one consistent alphabet and (moderate) everything after it is padding; the bytes are the first floor(6n/8) bytes of the concatenated values |
| Base64Encoding.RoundTrip | llama.cpp/common/base64.hpp:80-244 | for every byte string, alphabet, given or detected, and any number of padding characters, decoding the encoding gives the bytes |
| Base64Encoding.EncodedDecodes | llama.cpp/common/base64.hpp:80-244 | the same for the text `encode` writes |
| Base64.DecodeInPlace | llama.cpp/common/base64.hpp:294-313 | decoding over the input accepts the same texts and gives the same bytes, and changes nothing behind them |
| Base64.DecodedFits | llama.cpp/common/base64.hpp:314-327 | the decoded length never exceeds `max_decode_size`, and reaches it for whole groups without padding |
| Base64Encoding.EncodedFits | llama.cpp/common/base64.hpp:328-341 | the encoded length is `required_encode_size` |
| Base64Encoding.DigitTable | llama.cpp/common/base64.hpp:83-86 | the character of every value, against the letters, digits and last two characters of either alphabet in order |
| Base64Encoding.EncodedText | llama.cpp/common/base64.hpp:80-144 | the encoded text is characters of the alphabet and then as many `0x3D` as the last group of three bytes lacks, in all a multiple of four |
| Base64Encoding.Padding | llama.cpp/common/base64.hpp:200-244 | behind a text without `0x3D`, the first `0x3D` ends it: loose decoding ignores everything from there on, moderate decoding refuses anything but more `0x3D` |
| Base64Encoding.PaddingIgnored | llama.cpp/common/base64.hpp:200-244 | any number of `0x3D` behind a text without them changes nothing |
| Base64Encoding.TestVectors | llama.cpp/common/base64.hpp:80-144 | the texts of `f`, `fo` and `foo` in section 10 of RFC 4648 |
| Glob.GlobClassMatch | llama.cpp/common/common.cpp:727-765 | the class loop decides membership in the members and ranges of the class body, negated or not |
| Glob.NegatedBracket | llama.cpp/common/common.cpp:736-796 | a class that begins with a negation and a closing bracket ends there: it is empty and takes any character |
| Glob.FindClassEnd | llama.cpp/common/common.cpp:789-796 | where a class closes, a first `]` or `-` being a member |
| Glob.GlobMatch | llama.cpp/common/common.cpp:768-816 | true if and only if the string splits into one piece for every token of the pattern; it terminates because pattern and string together get shorter |
| Glob.GlobStar | llama.cpp/common/common.cpp:778-784 | the loop over the pieces of `*` decides the same meaning |
| Glob.DenotesCons | llama.cpp/common/common.cpp:768-812 | a pattern matches when its first token takes some prefix and the others the rest |
| Glob.MatchesStar | llama.cpp/common/common.cpp:772-784 | a star takes nothing or one more character, for a single star not a slash |
| Glob.MatchesOne | llama.cpp/common/common.cpp:785-811 | any other token takes exactly one character |
| Glob.Laws | llama.cpp/common/common.cpp:768-787 | what patterns that begin with `**`, `*` and `?` match, in terms of the rest of the pattern: `*` and `?` take no slash |
| Glob.LiteralLaw | llama.cpp/common/common.cpp:808-811 | any other character but `[` matches itself |
| Glob.CharactersLaw | llama.cpp/common/common.cpp:727-765 | a class of single characters, and the same negated |
| Glob.RangeLaw | llama.cpp/common/common.cpp:744-751 | a class that is a range, and the same negated |
| Glob.BracketLaw | llama.cpp/common/common.cpp:788-807 | a first `]` or `-` is a member of its class, and a `[` that is never closed matches itself |
| Lcs.SuffixMeaning | llama.cpp/common/common.cpp:469-488 | a table cell is the length of the longest common suffix of the two prefixes |
| Lcs.StringLcs | llama.cpp/common/common.cpp:469-488 | the result is common to both texts, no common text is longer, and among the longest ones it ends earliest in the first text |
| Escapes.ProcessEscapes | llama.cpp/common/common.cpp:644-679 | overwriting the input gives the left-to-right replacement of the original text |
| Escapes.UnescapeEscape | llama.cpp/common/common.cpp:644-679 | it undoes escaping of line breaks, tabs, quotes and backslashes for every string |
| Escapes.UnescapePlain | llama.cpp/common/common.cpp:644-679 | text without a backslash is not touched |
| Escapes.EscapesReplaced | llama.cpp/common/common.cpp:649-676 | what every kind of escape is replaced with, whatever follows it; unknown and malformed ones are kept |
| CsvRow.ParseCsvRow | llama.cpp/common/arg.cpp:1127-1169 | the loop computes the fields of the specification |
| CsvRow.RoundTrip | llama.cpp/common/arg.cpp:1127-1169 | parsing undoes writing for every non-empty list of fields, each quoted or, without a comma or a quote at its front, bare |
| CsvRow.TextAfterQuotes | llama.cpp/common/arg.cpp:1136-1161 | text behind a closing quote belongs to the field, quotes in it included |
| CsvRow.UnclosedQuotes | llama.cpp/common/arg.cpp:1136-1166 | a field without its closing quote reaches to the end of the row, commas included |
| Delimiters.FindMatch | llama.cpp/common/chat.cpp:160-168 | the first delimiter that matches at a position, if any |
| Delimiters.FirstRoleIs | llama.cpp/common/chat.cpp:160-168 | the role is that of the first delimiter in the list that matches |
| Delimiters.MatchMeaning | llama.cpp/common/chat.cpp:160-168 | a delimiter matches where the tokens go on with its own |
| Delimiters.FindMatches | llama.cpp/common/chat.cpp:154-170 | the matches are exactly the starts, in order; the scan ends even with skips of length zero |
| Delimiters.Split | llama.cpp/common/chat.cpp:150-182 | spans are adjacent, non-empty, tile the tokens from the first start to the end, and begin exactly at the starts with the role found there |
| Delimiters.StartsExactly | llama.cpp/common/chat.cpp:154-170 | for every ordered map of skips a message starts at a position if and only if a delimiter matches there and none of the skips before the first overlap contains it |
| Delimiters.StartsUnskipped | llama.cpp/common/chat.cpp:154-170 | with disjoint skips: at the matches outside all skips |
| Delimiters.OverlapIgnored | llama.cpp/common/chat.cpp:154-159 | skips for which a skipped position is tried |
| Lora.MatrixTerm | llama.cpp/convert_lora_to_gguf.py:41-52 | a term of an element of a matrix product is an entry of the row of `B` times one of the column of `A` |
| Lora.SumSnoc | llama.cpp/convert_lora_to_gguf.py:41-52 | the element is the sum of its terms, one more at a time |
| LoraParts.PartDense | llama.cpp/convert_lora_to_gguf.py:190-206 | a chunk of the factors is the chunk of the product, along every axis |
| LoraParts.SplitDense | llama.cpp/convert_lora_to_gguf.py:190-206 | splitting succeeds if and only if the sizes fit the axis, and gives the chunks of the product in order |
| LoraParts.SplitSucceeds | llama.cpp/convert_lora_to_gguf.py:190-206 | listed sizes are accepted if and only if they add up to the axis, and each chunk begins where the ones before it end; size zero only for an empty axis |
| LoraParts.SplitEvery | llama.cpp/convert_lora_to_gguf.py:190-206 | a split into chunks of one size: the length divided by the size, rounded up and at least one, is their number, and chunk `k` is the part of the product from `k * size` on, as long as `size` or as what is left |
| LoraParts.RowSliceDense | llama.cpp/convert_lora_to_gguf.py:72-76 | for every slice, with missing, negative, too large or stepped bounds: it is refused if and only if its step is not positive; it is the slice of the product, if and only if it does not cut away a shared leading axis of `A` |
| LoraParts.RowSliceFails | llama.cpp/convert_lora_to_gguf.py:72-74 | a row whose slice no longer fits when it is counted from the front, and does when counted from the end |
| LoraParts.SlicePlaces | llama.cpp/convert_lora_to_gguf.py:72-76 | the places of a slice: from its beginning in steps, as far as they are before its end, negative bounds counting from the end |
| LoraPermute.PermuteDense | llama.cpp/convert_lora_to_gguf.py:168-179 | `permute` succeeds if and only if the axes are a permutation that keeps the last axis (with `A` shared by all leading axes) or transposes a matrix, and then permutes the product; a permutation that keeps the last axis with an `A` that is not shared fails an assertion, any other one is not implemented |
| LoraPermute.ReordersMeaning | llama.cpp/convert_lora_to_gguf.py:168-179 | the axes are a permutation if and only if every axis is named exactly once, from the front or, negatively, from the end |
| LoraPermute.PermuteElement | llama.cpp/convert_lora_to_gguf.py:168-179 | every element of the permuted product is the one of the product whose coordinates come in the order of the named axes |
| LoraPermute.FixedDense | llama.cpp/convert_lora_to_gguf.py:171-174 | with the last axis in place, permuting `B` alone permutes the product |
| LoraPermute.SwappedDense | llama.cpp/convert_lora_to_gguf.py:175-176 | the transpose of a product swaps its factors |
| LoraPermute.TransposeDense | llama.cpp/convert_lora_to_gguf.py:181-188 | exactly when exchanging two axes succeeds, and that it exchanges them in the product |
| LoraPermute.TransposeElement | llama.cpp/convert_lora_to_gguf.py:181-188 | every element of the transposed product is the one with the two coordinates exchanged |
| LoraReshape.ReshapeDense | llama.cpp/convert_lora_to_gguf.py:136-160 | a reshape that succeeds has the expanded shape and reshapes the product; the number of elements is kept unless the rank is zero |
| LoraReshape.ReshapeSucceeds | llama.cpp/convert_lora_to_gguf.py:136-160 | for every tensor it succeeds if and only if two or more axes remain, the row length and, unless the rank is zero, the number of rows are kept, and, if `A` is not empty, it is shared by all leading axes |
| LoraReshape.ReshapeFails | llama.cpp/convert_lora_to_gguf.py:136-160 | which error any other reshape ends in, in the order of the tests |
| LoraReshape.ExpandMeaning | llama.cpp/convert_lora_to_gguf.py:145-150 | lengths other than -1 are kept; every -1 becomes the length that, times the product of the others, is the number of elements |
| LoraReshape.ExpandKeepsElements | llama.cpp/convert_lora_to_gguf.py:145-150 | for any number of wildcards, exactly when the expanded shape keeps the number of elements |
| LoraReshape.ExpandFindsLength | llama.cpp/convert_lora_to_gguf.py:145-150 | expansion of one wildcard succeeds if and only if there is a length that keeps the number of elements |
| LoraReshape.FlatDense | llama.cpp/convert_lora_to_gguf.py:155-160 | an element of the product, at a position of its data, in terms of the data of the factors |
| LoraScale.MulDense | llama.cpp/convert_lora_to_gguf.py:211-216 | multiplying by a number or a tensor that is constant along the last axis multiplies the product, with broadcasting; exactly when it succeeds |
| LoraCat.JoinedDense | llama.cpp/convert_lora_to_gguf.py:243-259 | joining the factors joins the products |
| LoraCatRows.CatDense | llama.cpp/convert_lora_to_gguf.py:243-259 | any number of matrices concatenate if and only if they have the same `A`, tensors with leading axes if and only if both factors agree on all axes but the first; the result is the concatenated products for matrices, for tensors none of which shares axis 0, and wherever the rows of both factors fit |
| LoraCatRows.CatShapes | llama.cpp/convert_lora_to_gguf.py:248-252 | with leading axes, for every list of shapes: concatenation gives the concatenated products whatever the data if and only if `A` has one row in all, or both factors have equally many and no tensor shares axis 0 or the products have no terms or no entries |
| LoraCatRows.CatEmptyFails | llama.cpp/convert_lora_to_gguf.py:248-252 | a tensor with a shared `A` and an empty one: the concatenation fits and its product is wrong |
| LoraCat.CatSharedLead | llama.cpp/convert_lora_to_gguf.py:248-252 | the concatenated factors fit each other if and only if their first axes are equally long or that of `A` has length one; without empty tensors, if and only if there is one tensor or none shares axis 0 |
| LoraCat.CatFails | llama.cpp/convert_lora_to_gguf.py:248-252 | two tensors whose concatenation is accepted and does not fit |

## Left out

- The PEG engine that builds the nodes, the JSON library (its string dump is a per-character escape, invalid UTF-8 excluded), the Jinja runtime and the grammar generator.
- `gemma4_to_json` and the other model-specific mappers and parameter builders: wiring over templates and libraries that are not part of this model.
- The auto-parser's template analysis beyond `calculate_diff_split` and `segmentize_markers`: heuristics.
- Messages' role, content parts and tool name, which `compute_diffs` does not compare.
- PegMapping.PegMapper.Map: a node that would use the storage of a dropped pending call is undefined in the original and is excluded by the precondition; `Streaming.WellNestedState` shows that well-nested lists never have one.
- PegMapping.PegMapper.FromAst: the same precondition, over the whole list.
- ToolIds.Message.SetToolCallIds: generated ids are a function of the position in the cache, since their randomness is a parameter.
- Python text beyond one value: string prefixes, triple quotes, adjacent literals, trailing commas, tuples, sets, dictionary keys that are not strings (`{1: 'a'}`), names and expressions other than signs right before a number have no modelled value; numbers are compared as text, whatever their size, and dictionaries member by member, repeated keys included; which characters have a name is a parameter.
- Calls.CallReadsBack: values are kept as text by its reader; `PythonCalls.CallMeaning` says what they mean.
- Escapes.ProcessEscapes: which two characters `strtol` accepts in base 16 is a parameter, as is the character they give.
- Glob.GlobMatch: embedded NUL characters are not modelled; a string ends where its length says.
- Base64Encoding.Encode: characters and bytes are 8-bit values; iterator categories and the overloads that allocate strings are not modelled.
- Floating point in tensors: elements are real numbers, so rounding and the conversion of data types are not modelled.
- LoraParts.RowSliceDense: integer, tuple and ellipsis indices are not modelled.
- LoraCatRows.CatDense: `torch.stack`, and the library's special treatment of empty one-dimensional tensors, are not modelled.
- LoraPermute.PermuteDense: an `A` with several leading matrices is refused, as the original's assertion does.
- Locale-dependent character classes: white space and word characters are those of the C locale.
- Sizes beyond the machine's integer range: lengths and positions are unbounded.
- Option tables, environment, help, downloads, caches, logging, benchmarks, plots, file conversion drivers and all calls into the inference library.
- Learning-rate schedules, embedding normalisation and similarity: floating-point code whose point is rounding.
