# Dafny models of llama.cpp's `common/` library and converters

This project models the stateful and encoding-heavy parts of llama.cpp's `common/` library and of two of its
conversion scripts, and proves what they promise for every input or every run.

- **Streaming chat output** (`ChatMessage`, `ChatDiff`, `JsonText`, `JsonSyntax`, `JsonReader`, `QuoteNormalizer`,
  `ChatMapper`, `ChatTexts`, `ChatArguments`, `ChatReading`, `ChatStreaming`, `ChatCuts`). The mapper turns the tagged nodes of a partial parse into a message with a
  pending call, delayed arguments, a pending closing quote and brace repair; the differ turns successive messages
  into deltas. The end-to-end theorem is `ChatStreaming.StreamingRebuilds`: over any number of partial parses of a
  growing reply the differ never throws, and a client that applies all deltas holds the last parse. It joins two
  exact results: the deltas rebuild a message if and only if the message grew (`ChatDiff.DiffsRebuildIff`), and the
  mapper is monotone on well-formed node streams (`ChatStreaming.MapperMonotone`). A growing reply is one in which, from
  pass to pass, nodes are added and the last node the mapper looks at may get more text; nodes without a tag may come and
  go. `ChatCuts.LastNodeStreamsIff` says, for every kind of node, exactly when the message grows as that node does.
  What the message says is stated on the nodes alone (`ChatTexts.MessageTexts`, `ChatTexts.MessageCalls`), and what the
  arguments mean by a JSON reader that does not share a line with the printer (`ChatReading.TaggedCallReads`).
- **The line editor** (`Bytes`, `Utf8`, `LineEditor`, `LineLoad`, `ReadLine`, `EditorLaws`). A UTF-8 byte buffer, a width vector
  and two cursors refine a code-point editor with history over every run of keys (`ReadLine.PressKeys`), including the
  terminal column, and over any number of lines (`ReadLine.ReadLines`). `EditorLaws` says what the keys of the
  code-point editor mean on the text.
- **The marker-aware diff** (`Segments`, `MarkerDiff`, `MarkerDiffLaws`, `MarkerDiffRuns`, `MarkerDiffEnds`). `MarkerDiffLaws.DiffSplitReconstructsIff`
  gives the exact condition under which prefix, differing part and suffix put both inputs together again; the runs and
  the ends say which segments and which characters go where.
- **Factored tensors** (`Tensors`, `TensorLaws`, `LoraTensor`, `LoraAccepts`, `LoraIndex`). Every operation on the pair (A, B) is the
  same operation on the product B·A, with exact conditions for what is accepted and where broadcasting can fail.
- **Codecs and loaders** (`Base64`, `Escapes`, `PartialStop`, `RepoFolder`, `CsvRow`, `Hex`, `Arithmetic`, `CpuMask`,
  `GgmlLoader`, `GgmlFiles`, `GgmlImage`). Round trips, in-place buffers, and the GGML file layout, byte by byte and
  with a reference writer.

Code that works by loops and assignments is written as methods; each method's postcondition ties it to a function
of its inputs or of its old state, and the theorems are about those functions. Verify with
`dafny verify dfyconfig.toml`.

Where the code and what is said about it disagree, the model follows the code:

- `calculate_diff_split` is meant to be lossless, but a side that is used up by the matching loop is matched a
  second time after it (`MarkerDiffLaws.RepeatedMarkerIsLost`); the exact failing family is `Misaligned`.
- The mapper's end-of-input flush of a named pending call can never fire: a call leaves the pending slot when it is
  named (`ChatMapper.FlushIsIdle`).
- After an unnamed call is closed, the mapper's current-call pointer refers to a discarded call. A second close then
  reads through it (`ChatMapper.SecondCloseReadsDiscarded`); `ChatMapper.RunDefinedIff` says for which streams it happens.
- Streaming is said to be monotonic, but not every value is. A JSON string in an undeclared argument that is cut before
  its closing quote, a number that becomes a word, a list cut inside an escaped quote, and a second, blank value in one
  argument each make the differ throw (`ChatCuts`); an id that is a lone quote and becomes an empty pair is never
  corrected at the client.
- A non-string value that is blank writes nothing, so the object text has a key without a value; the printer in
  `ChatArguments` says the same.
- Tab completion leaves the highlight flag as it was, so Enter can cut a character that is not highlighted
  (`ReadLine.CompletionThenEnterCuts`; the exact condition is `ReadLine.SpecialKeptIff`). If that character takes
  several bytes, what is stored is not UTF-8, and the cursors disagree when it is loaded again.
- An empty line does not leave the place in the history, so the next call goes on from there.
- The newline that Enter appends is removed again before the line is returned, because it is removed for the history.
- The index rule that `convert_lora_to_gguf.py:99` is unsure of is right for batch axes (`LoraIndex.TupleCommutes`).
- Above 0x10FFFF the editor records a width but writes no bytes; `ReadLine.InsertKeepsStepIff` shows that this is
  the only way an insertion gets the two out of step.

## Model

| member | source | states |
|---|---|---|
| ChatMessage.GrowsTransitive | common/chat.cpp:151-217 | the streaming order on messages (texts extend, finished calls frozen, call count never drops) composes along a stream |
| ChatDiff.StringDiff | common/chat.cpp:52-65 | succeeds exactly when one text is a prefix of the other; the delta completes the old text exactly when the old text is the prefix |
| ChatDiff.ComputeLastCallDiff | common/chat.cpp:184-209 | the step for the call that was last before: its exception, its delta, or no delta when nothing changed |
| ChatDiff.ComputeDiffs | common/chat.cpp:151-217 | the loop that appends to the vector returns the specified deltas or exception for every pair of messages |
| ChatDiff.ApplyNewCalls | common/chat.cpp:210-214 | the deltas of the new calls push exactly those calls, in order |
| ChatDiff.ApplyDiffs | tests/test-chat.cpp:892-917 | what a client that appends text and replaces name and id holds after all deltas, for every non-throwing pair |
| ChatDiff.DiffsThrowIff | common/chat.cpp:151-217 | the differ throws exactly when a text neither grew nor shrank, a call disappeared, or the name of the last call became a non-empty one that does not extend it |
| ChatDiff.DeltasAre | common/chat.cpp:151-217 | which deltas are sent, for every non-throwing pair: one for each text that changed, with what was added to it or nothing if it shrank; one for the call that was last, with name and id only if one of them changed, and none if nothing did; one for each new call |
| ChatDiff.DiffsRebuildIff | common/chat.cpp:151-217 | the deltas rebuild the new message if and only if the message grew |
| ChatDiff.ChainRebuilds | common/chat.cpp:453-481 | along every growing chain no exception is thrown and applying all deltas in sequence gives the last message |
| JsonText.TrimLeadingSpace | common/chat-peg-parser.cpp:23-33 | the loop drops at most the given number of leading spaces, or all |
| JsonText.TrimTrailingSpace | common/chat-peg-parser.cpp:11-21 | the same at the end |
| JsonText.TrimTrailingAll | common/chat-peg-parser.cpp:11-21 | unlimited trimming cuts exactly the maximal run of trailing space |
| JsonText.TrimKeyIs | common/chat-peg-parser.cpp:35-37 | a trimmed key is the text without a first space and without all space at its end, on literal space characters |
| JsonText.TrimValueIs | common/chat-peg-parser.cpp:337 | a trimmed value is the text without its first and its last character, as far as they are space |
| JsonText.TrimValueMonotone | common/chat-peg-parser.cpp:337 | the one-space rule for values never has to take text back when the value grows |
| JsonText.TrimTrailingAllMonotone | common/chat-peg-parser.cpp:11-21 | trimming all trailing space is monotone in the text |
| JsonText.EscapePrefixIff | common/chat-peg-parser.cpp:70-76 | escaped texts are in prefix order exactly when the texts are, so escaping loses nothing |
| JsonReader.QuoteReads | common/chat-peg-parser.cpp:70-76 | a string reader after section 7 of RFC 8259, written apart from the printer, reads every printed string, whatever follows, as the string it was printed for |
| JsonReader.QuoteIsPrintable | common/chat-peg-parser.cpp:70-76 | and the printed string holds no control character |
| JsonText.JsonBraceDepth | common/chat-peg-parser.cpp:41-67 | the flag-driven loop computes the depth of the scanning automaton |
| JsonText.ScanEscaped | common/chat-peg-parser.cpp:41-67 | braces and quotes inside an escaped string never move the brace counter or the string flag |
| JsonText.ScanQuoted | common/chat-peg-parser.cpp:41-67 | a printed string is neutral for the brace counter |
| JsonSyntax.OtherJsonBalanced | common/chat-peg-parser.cpp:41-67 | every JSON text other than a string, however nested and spaced, leaves the brace counter where it was |
| JsonSyntax.OtherJsonHead | common/chat-peg-parser.cpp:359-372 | and does not begin with a quote |
| JsonReader.OtherJsonReadsAs | common/chat-peg-parser.cpp:369-372 | in front of a comma or a closing brace, every JSON text other than a string is read whole, so commas and brackets inside it do not end it |
| QuoteNormalizer.Iterate | common/chat-peg-parser.cpp:90-157 | one iteration over the index and two flags is one move of the three-mode transducer |
| QuoteNormalizer.NormalizeQuotes | common/chat-peg-parser.cpp:83-160 | the loop computes the transducer's output |
| QuoteNormalizer.NormalizePreservesMeaning | common/chat-peg-parser.cpp:78-160 | for every text, lexing the output as JSON gives the tokens of lexing the input with both quote styles |
| QuoteNormalizer.NormalizeIdempotent | common/chat-peg-parser.cpp:83-160 | a second pass changes nothing |
| QuoteNormalizer.NormalizeStreamsIff | common/chat-peg-parser.cpp:83-160 | the output of a growing input grows, except exactly when the cut falls between a backslash and a single quote inside a single-quoted string |
| ChatMapper.Mapper.constructor | common/chat-peg-parser.h:10-33 | a new mapper is in the initial state and valid |
| ChatMapper.Mapper.AssignTarget | common/chat-peg-parser.cpp:213-215 | arguments go to the call once it is named and to the buffer before, and nothing else changes |
| ChatMapper.Mapper.MapId | common/chat-peg-parser.cpp:283-289 | the id node's effect on the whole state |
| ChatMapper.Mapper.MapName | common/chat-peg-parser.cpp:291-306 | the name node moves the pending call and its buffered arguments into the message |
| ChatMapper.Mapper.MapArgs | common/chat-peg-parser.cpp:308-315 | a whole JSON object replaces the arguments; other text is ignored |
| ChatMapper.Mapper.MapArgName | common/chat-peg-parser.cpp:321-334 | opening brace, comma and escaped key |
| ChatMapper.Mapper.ValueText | common/chat-peg-parser.cpp:336-386 | what is appended for a value and whether a closing quote is owed, in every branch |
| ChatMapper.Mapper.MapValue | common/chat-peg-parser.cpp:336-389 | the value node's effect on the whole state |
| ChatMapper.Mapper.MapClose | common/chat-peg-parser.cpp:398-420 | closing quote, brace repair, push or discard |
| ChatMapper.Mapper.Map | common/chat-peg-parser.cpp:248-421 | one node takes the mapper to the specified next state and keeps it valid |
| ChatMapper.Mapper.FromAst | common/chat-peg-parser.cpp:217-246 | a whole pass leaves the message of the specified run, with blank reasoning cleared |
| ChatMapper.StepKeepsInv | common/chat-peg-parser.cpp:248-421 | every node keeps the pointer discipline and keeps pending calls unnamed |
| ChatMapper.RunKeepsInv | common/chat-peg-parser.cpp:217-421 | so does every run |
| ChatMapper.RunConcat | common/chat-peg-parser.cpp:217-421 | running a concatenation is running its parts in order |
| ChatMapper.SeenRuns | common/peg-parser.cpp:259-268 | the nodes without a tag, which every grammar rule adds, change neither whether a pass is defined nor its result |
| ChatMapper.RunDefinedIff | common/chat-peg-parser.cpp:248-421 | a pass never reads through a discarded call exactly when, on the nodes alone, no node that uses the current call stands between a close without a name and the next opening |
| ChatMapper.SecondCloseReadsDiscarded | common/chat-peg-parser.cpp:398-420 | a call closed twice without a name reads through a discarded call |
| ChatMapper.FlushIsIdle | common/chat-peg-parser.cpp:220-231 | in every reachable state the end-of-input flush has nothing to push |
| ChatTexts.MessageTexts | common/chat-peg-parser.cpp:233-262 | for every pass, on the nodes alone: the content is the content nodes joined in order, and the reasoning is the reasoning nodes joined in order, or nothing if that is blank |
| ChatTexts.MessageCalls | common/chat-peg-parser.cpp:275-420 | for every pass, on the nodes alone: the message has one call for each call that is opened and named, in order, with the last name and the last id given before the next one is opened |
| ChatArguments.StringValuePrints | common/chat-peg-parser.cpp:336-350 | a declared string prints as the quoted, escaped, trimmed text |
| ChatArguments.ArgEventAccumulates | common/chat-peg-parser.cpp:317-396 | argument nodes have the same effect on the arguments whether these sit in the buffer or in the call |
| ChatArguments.NameKeepsArguments | common/chat-peg-parser.cpp:291-306 | naming a call moves its arguments without changing them |
| ChatArguments.EntriesBalanced | common/chat-peg-parser.cpp:41-67 | the members written by any argument groups leave the brace counter where it was |
| ChatArguments.RepairAddsOneBrace | common/chat-peg-parser.cpp:398-420 | brace repair adds exactly one brace, completing the plain printer's object |
| ChatArguments.TaggedCallPrints | common/chat-peg-parser.cpp:275-420 | for every parser that accepts only JSON and every tagged call, from any state, with the name anywhere among any argument groups, exactly one call is added and its arguments are the plain printer's JSON object |
| ChatReading.ObjectReads | common/chat-peg-parser.cpp:317-420 | an object reader written apart from the printer reads the printed object as the trimmed keys, in order, with the meaning of each value |
| ChatReading.TaggedCallReads | common/chat-peg-parser.cpp:275-420 | so for every tagged call, reading the arguments back gives the trimmed keys and, for declared strings, the trimmed texts |
| ChatReading.CutCallShows | common/chat-peg-parser.cpp:317-389 | a named call cut in a value, after any number of members, has exactly those members, the key, and what there is of the value: a string without closing quote, other JSON as it is, and of a cut list or object what is there |
| ChatReading.JsonCallKeepsText | common/chat-peg-parser.cpp:275-420 | for every call given as JSON, name and arguments in either order among neutral nodes, one call is added with the trimmed text of the arguments, and complete arguments get nothing added |
| ChatReading.RepairCloses | common/chat-peg-parser.cpp:409-412 | brace repair only adds closing braces; outside a string it closes every open one, and text with nothing open is left alone |
| ChatReading.StripQuotesIff | common/chat-peg-parser.cpp:283-289 | the quotes of an id go together or not at all |
| ChatArguments.NamelessCallIsDropped | common/chat-peg-parser.cpp:398-420 | a call that never gets a name leaves the calls unchanged |
| ChatStreaming.StepGrows | common/chat-peg-parser.cpp:248-421 | a further node of a well-formed stream is defined and only grows the message |
| ChatStreaming.RunGrows | common/chat-peg-parser.cpp:217-421 | so do any number of further nodes |
| ChatStreaming.StringsStreamIff | common/chat-peg-parser.cpp:336-350 | a declared string streams, except exactly that with a quote open a blank one must stay blank |
| ChatStreaming.ValueStreamsIff | common/chat-peg-parser.cpp:351-386 | for every undeclared value text and every longer one, with a quote open or not, what was written stays exactly when a condition on the trimmed texts and the parser's verdicts holds |
| ChatStreaming.QuoteRunFollows | common/chat-peg-parser.cpp:336-396 | whether a quote is open can be read off the nodes and the parser's verdicts |
| ChatStreaming.IdsGrowIff | common/chat-peg-parser.cpp:283-289 | an id with more text grows a visible call exactly unless a lone quote becomes an empty pair |
| ChatStreaming.NamesGrow | common/chat-peg-parser.cpp:291-306 | a name with more text always grows the message, a blank one included |
| ChatStreaming.MapperMonotone | common/chat-peg-parser.cpp:217-421 | if one well-formed stream extends another - more nodes, or more text in the last node that is looked at, of any kind and within the stated exact rules, whatever untagged nodes follow it - its message grows in the streaming order |
| ChatStreaming.SeenParses | common/peg-parser.cpp:259-268 | only the nodes that are looked at matter for the message |
| ChatStreaming.StreamingRebuilds | common/chat.cpp:151-217 | over every sequence of growing streams the differ never throws and the deltas rebuild the last parse |
| ChatStreaming.CallStreams | common/chat-peg-parser.cpp:275-420 | a named call whose string argument is cut off anywhere, then completed and closed, is such a sequence |
| ChatStreaming.JsonCallStreams | common/chat-peg-parser.cpp:608-616 | so is a call with a JSON object of arguments that is cut off anywhere, with the grammar's untagged nodes after it in each pass |
| ChatCuts.ValueGrowsIff | common/chat-peg-parser.cpp:336-389 | in a named call, a value with more text grows the message exactly when the rule on texts and verdicts allows it, with a quote open or not |
| ChatCuts.KeysGrowIff | common/chat-peg-parser.cpp:321-334 | a key with more text grows the message of a named call exactly when it is the same key after trimming |
| ChatCuts.LastNodeStreamsIff | common/chat-peg-parser.cpp:217-421 | for every well-formed stream and every kind of last node that is looked at, when that node gets more text the message grows if and only if the stated rule on the texts allows it |
| ChatCuts.CutValueStreamsIff | common/chat-peg-parser.cpp:217-421 | the same for an undeclared value, as a condition on the two texts and the parser |
| ChatCuts.CutValueThrowsIff | common/chat.cpp:151-217 | the differ throws between the two passes exactly when that condition fails and what is written for the longer text does not begin what was written before |
| ChatCuts.BreaksSeen | common/peg-parser.cpp:259-268 | untagged nodes in either pass do not matter for the message failing to grow and the differ throwing |
| ChatCuts.NumberDoesNotStream | common/chat-peg-parser.cpp:351-386 | a number that turns into a word: on a real stream the message does not grow and the differ throws |
| ChatCuts.CutJsonStringDoesNotStream | common/chat-peg-parser.cpp:351-386 | so it is for every JSON string in an undeclared argument that is cut before its closing quote |
| ChatCuts.EscapedQuoteDoesNotStream | common/chat-peg-parser.cpp:83-160 | and for a list of Python strings cut inside an escaped quote |
| ChatCuts.OpenStringStreamsIff | common/chat-peg-parser.cpp:336-350 | while a quote is open, a declared string with more text grows the message, and does not make the differ throw, exactly when it was not blank at first |
| ChatCuts.SecondValueDoesNotStream | common/chat-peg-parser.cpp:336-350 | the failing input: a second, blank string value in one argument that gets text |
| ChatCuts.EmptiedIdDoesNotStream | common/chat.cpp:200-208 | the failing id: nothing is thrown, and the client is left with the old one |
| Segments.SegmentsLossless | common/chat-auto-parser-helpers.cpp:269-299 | the segments join to the text, none is empty, and there are none exactly at the end of the text |
| Segments.SegmentShapes | common/chat-auto-parser-helpers.cpp:269-299 | a marker runs from `<` or `[` to its first closer, text holds no opener, no two such texts follow each other, and only the last segment may be an unclosed marker |
| Segments.ScanChar | common/chat-auto-parser-helpers.cpp:279-294 | one iteration keeps the invariant of the border, the flag and the finished segments |
| Segments.SegmentizeMarkers | common/chat-auto-parser-helpers.cpp:269-299 | the loop returns the specified segments |
| MarkerDiff.ComputePrefixLen | common/chat-auto-parser-helpers.cpp:69-76 | the loop returns the common prefix length |
| MarkerDiff.ComputeSuffixLen | common/chat-auto-parser-helpers.cpp:78-85 | the loop returns the common suffix length |
| MarkerDiff.CommonPrefix | common/chat-auto-parser-helpers.cpp:69-76 | the length is common to both and maximal |
| MarkerDiff.CommonSuffix | common/chat-auto-parser-helpers.cpp:78-85 | the same from the end |
| MarkerDiff.MatchSegments | common/chat-auto-parser-helpers.cpp:102-139 | the two-ended loop with its flags leaves the specified cursors, prefix and suffix |
| MarkerDiffLaws.LeftoverKeepsSound | common/chat-auto-parser-helpers.cpp:141-165 | from an aligned window, the three branches for a side that is down to one segment keep prefix, remainder and suffix adding up to both inputs |
| MarkerDiff.TrimText | common/chat-auto-parser-helpers.cpp:167-183 | shared text at the ends moves to prefix and suffix |
| MarkerDiffLaws.FixUpKeeps | common/chat-auto-parser-helpers.cpp:185-207 | neither fix-up spoils a split that puts both inputs together again |
| MarkerDiff.CalculateDiffSplit | common/chat-auto-parser-helpers.cpp:87-207 | the whole function, for every pair of texts |
| MarkerDiffLaws.MatchSwaps | common/chat-auto-parser-helpers.cpp:114-139 | the matching loop treats its two sides symmetrically |
| MarkerDiffLaws.MatchUsesUp | common/chat-auto-parser-helpers.cpp:114-139 | when one side is half a prefix and half a suffix of the other, the loop uses it up |
| MarkerDiffLaws.MatchStops | common/chat-auto-parser-helpers.cpp:114-139 | otherwise the loop stops with everything matched once |
| MarkerDiffLaws.NothingLeftToMatch | common/chat-auto-parser-helpers.cpp:114-165 | for any two segment lists, afterwards a side is used up, or the rests differ in their first and last segment, or all that is left is one text |
| MarkerDiffRuns.RunsAreMatched | common/chat-auto-parser-helpers.cpp:102-165 | if the common runs of segments at the two ends do not overlap, all of the first goes to the prefix, all of the last to the suffix, and the rest stays |
| MarkerDiffRuns.OverlappingRunsAreMatched | common/chat-auto-parser-helpers.cpp:102-165 | if they overlap, the shorter side is used up, cut where the stated formula says: a segment of both runs goes to the prefix in the first half and to the suffix in the second, unless the side is half prefix and half suffix |
| MarkerDiffRuns.RunsExist | common/chat-auto-parser-helpers.cpp:102-165 | any two segment lists have such runs, so the two rows above cover all lists of different length, with the shorter one named first |
| MarkerDiffEnds.LeftoversDiffer | common/chat-auto-parser-helpers.cpp:167-183 | for every two texts: what is left of the two sides shares no first character if both began with text, and no last one if both ended with it; at a marker nothing is cut |
| MarkerDiffEnds.FixedForms | common/chat-auto-parser-helpers.cpp:185-207 | without a difference the prefix is the left text; if only the right has something left and extends the left text, the prefix is the left text and the rest is the end of the right |
| MarkerDiffEnds.EqualTextsSplit | common/chat-auto-parser-helpers.cpp:87-190 | equal texts, however they are cut into segments, have nothing left |
| MarkerDiffEnds.PlainExtension | common/chat-auto-parser-helpers.cpp:174-207 | a text without openers that extends another: the rest is what is new |
| MarkerDiffEnds.PlainTextsSplit | common/chat-auto-parser-helpers.cpp:174-183 | any other two texts without openers: the suffix is the longest they share, and the prefix the longest shared by what is left in front of it |
| MarkerDiffLaws.DiffSplitReconstructsIff | common/chat-auto-parser-helpers.cpp:87-207 | for every pair of texts, both can be rebuilt from the split if and only if no segment was matched twice |
| MarkerDiffLaws.NoRepeatsReconstructs | common/chat-auto-parser-helpers.cpp:87-207 | in particular whenever neither side repeats a segment |
| MarkerDiffLaws.RepeatedMarkerIsLost | common/chat-auto-parser-helpers.cpp:122-165 | an input whose extra marker is lost |
| Utf8.DecodeEncode | common/console.cpp:365-428 | decoding undoes encoding for every code point in any context |
| Utf8.EncodeInjective | common/console.cpp:411-428 | different texts have different bytes |
| Utf8.DecodeAt | common/console.cpp:365-409 | decoding at a code point's offset in a text gives that code point |
| Utf8.EncodedAs | common/console.cpp:411-428 | the ranges, lead bytes and payload bits of section 3 of RFC 3629 |
| Utf8.DecodeTakes | common/console.cpp:365-409 | for any bytes: a lead byte with the continuation bytes it announces is taken with them, and any other byte is taken alone as the replacement character |
| Utf8.DecodedAs | common/console.cpp:365-409 | and the payload bits give the value |
| Utf8.NextUtf8CharPos | common/console.cpp:441-448 | the loop over continuation bytes returns the specified position |
| Utf8.PrevUtf8CharPos | common/console.cpp:432-439 | the same backwards |
| Utf8.NextIsNextOffset | common/console.cpp:441-448 | stepping forward from a code point reaches the next one |
| Utf8.PrevIsPrevOffset | common/console.cpp:432-439 | stepping back reaches the one before |
| LineEditor.DeleteAtCursor | common/console.cpp:456-482 | removes the code point at the cursor from bytes and widths and leaves both cursors and the column right |
| LineEditor.RedrawTail | common/console.cpp:468-475 | prints exactly the bytes from the position on and returns their width |
| LineLoad.ClearCurrentLine | common/console.cpp:484-495 | prints one space for each column of the line, and one for each character without width, and comes back |
| LineLoad.CoveredEnough | common/console.cpp:484-495 | that covers the line, and exactly it when every character has a width |
| LineLoad.SetLineContents | common/console.cpp:497-527 | for any bytes: one measured width for each unit the decoder takes, both cursors behind the units that end at or before the wanted byte, and the column with them |
| LineLoad.UnitsOfText | common/console.cpp:365-409 | the units of a text are its code points |
| LineLoad.LoadedText | common/console.cpp:497-527 | so loading any text puts the editor in step with it |
| LineEditor.MoveToLineStart | common/console.cpp:529-537 | both cursors and the column go to the start |
| LineEditor.MoveToLineEnd | common/console.cpp:539-547 | and to the end |
| LineEditor.LeftWhile | common/console.cpp:590-612 | one loop of a word move: the character index, its byte offset and the width passed |
| LineEditor.RightWhile | common/console.cpp:628-659 | the same to the right |
| LineEditor.MoveWordLeft | common/console.cpp:581-617 | skips spaces, then a word, on code points |
| LineEditor.MoveWordRight | common/console.cpp:619-664 | skips spaces, a word and spaces |
| EditorLaws.SkipLeftIs | common/console.cpp:590-612 | where a loop of a word move to the left stops, with quantifiers on the text |
| EditorLaws.SkipRightIs | common/console.cpp:628-659 | and to the right |
| EditorLaws.WordLeftIff | common/console.cpp:581-617 | the cursor after a word move to the left is at a place if and only if that is the start of the word before it: only space between the word and the old cursor, no space in the word, and space or nothing in front of it |
| EditorLaws.WordRightIff | common/console.cpp:619-664 | to the right, if and only if the next word begins there behind the rest of this one and the space after it, or the text ends |
| LineEditor.MoveLeft | common/console.cpp:836-843 | one code point to the left |
| LineEditor.MoveRight | common/console.cpp:844-852 | one code point to the right |
| LineEditor.EraseBefore | common/console.cpp:929-957 | removes the code point before the cursor |
| LineEditor.InsertChar | common/console.cpp:958-996 | inserts a code point at the cursor, at the end or in the middle |
| ReadLine.History.Add | common/console.cpp:703-713 | stores a non-empty line unless it repeats the last one, and ends viewing |
| ReadLine.History.Prev | common/console.cpp:714-726 | one entry back, stopping at the first; refuses when empty or not viewing |
| ReadLine.History.Next | common/console.cpp:727-739 | one entry forward, and the backup line after the last |
| ReadLine.History.BeginViewing | common/console.cpp:740-743 | keeps the line being typed |
| ReadLine.HistoryPrev | common/console.cpp:770-779 | the up key refines the abstract history step |
| ReadLine.HistoryNext | common/console.cpp:780-788 | the down key does |
| ReadLine.ApplyCompletion | common/console.cpp:797-809 | completion loads the candidate unless it is the line and the only one |
| EditorLaws.CompletionShows | common/console.cpp:797-809 | the candidate is shown with the cursor behind the characters whose bytes end at or before the wanted byte, and at the end if none is wanted |
| EditorLaws.TypingInserts | common/console.cpp:958-996 | typing any text puts it at the cursor and the cursor behind it |
| EditorLaws.KeysUndo | common/console.cpp:836-957 | backspace undoes an insertion, and so do left and delete |
| EditorLaws.LeftUndone | common/console.cpp:836-852 | right undoes left, and left and delete do what backspace does |
| EditorLaws.HomeAndEnd | common/console.cpp:853-856 | what is typed after Home comes before the text, and after End behind it |
| EditorLaws.UpsShow | common/console.cpp:714-779 | going up n times shows the nth last line, or the first, and keeps the typed line |
| EditorLaws.DownsShow | common/console.cpp:727-788 | going down shows the later lines and then the typed line again |
| ReadLine.PressKey | common/console.cpp:767-1002 | every key takes the buffer, the history and the highlight flag to those of the code-point editor |
| ReadLine.PressKeys | common/console.cpp:767-1002 | over every run of keys: the line is the UTF-8 of the text, one width per code point, both cursors at the same code point, and the column is the width before the cursor |
| ReadLine.SpecialKeptIff | common/console.cpp:797-818 | a key keeps the highlight flag right exactly when it is not a completion that leaves a stale flag |
| ReadLine.SpecialInRuns | common/console.cpp:767-1002 | runs without completion keep it right and never look at the highlight of an empty line |
| ReadLine.Submit | common/console.cpp:1004-1043 | what Enter returns, and what it stores in the history |
| ReadLine.SubmitReturnsText | common/console.cpp:1004-1043 | with the flag right, Enter or the end of input returns the UTF-8 of the submitted text, for every text, and never cuts a code point |
| ReadLine.Enter | common/console.cpp:1004-1043 | and the history is that of the code-point editor again |
| EditorLaws.EnterMeans | common/console.cpp:1004-1043 | in terms of the text: what is returned for a line that ends in a backslash, in a slash, or otherwise, and whether more input is wanted |
| EditorLaws.NextCall | common/console.cpp:703-713 | the next call starts empty; a returned line becomes the last of the history, never twice in a row, and an empty one changes nothing |
| ReadLine.ReadLines | common/console.cpp:753-1043 | over any number of calls of the reader, every line returned is the UTF-8 of its text and the history stays in step |
| ReadLine.SessionsWithoutCompletion | common/console.cpp:753-1043 | which holds for all keys but completion, over any number of lines |
| ReadLine.CutLineIsTextIff | common/console.cpp:1004-1013 | what a stale flag leaves of a line is text exactly when its last character takes one byte |
| ReadLine.CutLineComesBackOutOfStep | common/console.cpp:714-726 | a line cut inside a character comes back in the next call as units over which the two cursors move differently |
| ReadLine.CompletionThenEnterCuts | common/console.cpp:797-809 | a run after which Enter cuts a character that was not highlighted |
| ReadLine.InsertKeepsStepIff | common/console.cpp:411-428 | bytes and widths stay in step after an insertion exactly for values up to 0x10FFFF |
| LoraIndex.IntCommutesIff | convert_lora_to_gguf.py:68-72 | a number is accepted exactly when there are batch axes and it is in range for both factors, and then gives that part of the product |
| LoraIndex.RowSliceCommutes | convert_lora_to_gguf.py:73-77 | in two dimensions any slice, with missing or negative bounds and any step, is the row slice of the product |
| LoraIndex.BatchSliceBroadcastsIff | convert_lora_to_gguf.py:73-77 | with batch axes, exactly when the sliced factors still multiply |
| LoraIndex.BatchSliceCommutes | convert_lora_to_gguf.py:73-77 | and then they give the slice of the product |
| LoraIndex.TupleBroadcastsIff | convert_lora_to_gguf.py:78-113 | a tuple of numbers for batch axes and slices, possibly short, gives factors that multiply exactly when each sliced batch axis of A has extent 1 or is kept whole |
| LoraIndex.TupleCommutes | convert_lora_to_gguf.py:78-113 | and then they give the indexed product; the number taken modulo the extent of A is the right place |
| LoraIndex.VectorsNeverCommute | convert_lora_to_gguf.py:100-113 | a tuple that picks a row or a column is refused, or gives factors whose product has an axis too many |
| Tensors.WholeSlice | convert_lora_to_gguf.py:73-77 | a slice that takes as many positions as there are takes each in its place |
| Tensors.PlaceInside | convert_lora_to_gguf.py:73-77 | a slice takes only positions of its axis |
| TensorLaws.SliceTakes | convert_lora_to_gguf.py:73-77 | a slice takes every step-th position from its first to before its limit |
| TensorLaws.BoundsAre | convert_lora_to_gguf.py:73-77 | a missing bound is an end of the axis, one below zero counts from the end, and one outside is moved to the end |
| TensorLaws.PermuteMoves | convert_lora_to_gguf.py:169-180 | the reference permutation moves the entry at an index to the permuted index |
| TensorLaws.ReshapeKeepsOrder | convert_lora_to_gguf.py:137-161 | the reference reshape gives the entry at the same position in row-major order |
| TensorLaws.FlatMatrix | convert_lora_to_gguf.py:137-161 | which in a matrix is row times row length plus column |
| TensorLaws.StackHolds | convert_lora_to_gguf.py:207-215 | in the reference stack tensor n is tensor n |
| TensorLaws.ConcatHolds | convert_lora_to_gguf.py:216-232 | in the reference concatenation the rows of a tensor stand behind those of the tensors before it |
| TensorLaws.MatrixProduct | convert_lora_to_gguf.py:40-57 | in two dimensions an entry of the product is the sum of row times column |
| TensorLaws.BatchProduct | convert_lora_to_gguf.py:40-57 | with a batch axis the matrices are multiplied one by one, and a single A is used for all |
| LoraTensor.ReshapeCommutes | convert_lora_to_gguf.py:137-161 | whenever a reshape is not refused, -1 included, it is the reshape of the product |
| LoraAccepts.FullShapeIff | convert_lora_to_gguf.py:146-151 | a full shape is the requested one with -1 replaced by the whole quotient of the sizes; there is none if the quotient is not whole or an extent is negative |
| LoraAccepts.FilledSize | convert_lora_to_gguf.py:146-151 | with one -1 it has as many entries as there are |
| LoraAccepts.ReshapeAcceptsIff | convert_lora_to_gguf.py:137-161 | a reshape is accepted if and only if its full shape fits the two factors |
| LoraAccepts.FitsIff | convert_lora_to_gguf.py:153-161 | for factors that are not empty, if and only if the last axis stays, no entry is gained or lost, and A has no batch |
| LoraTensor.PermuteCommutes | convert_lora_to_gguf.py:169-180 | whenever a permutation is not refused, it is the permutation of the product |
| LoraAccepts.PermuteAcceptsIff | convert_lora_to_gguf.py:169-180 | a permutation is accepted if and only if it keeps the last axis and A has no batch, or exchanges the two axes there are |
| LoraTensor.StackCommutes | convert_lora_to_gguf.py:207-215 | stacking the factors stacks the products |
| LoraTensor.ConcatBatchesBroadcastIff | convert_lora_to_gguf.py:216-225 | with batch axes, the concatenated factors multiply exactly when A has one entry in all or as many as B; unless an empty batch brings an entry of A, that is exactly when the batches are own ones |
| LoraTensor.ConcatBatchesCommute | convert_lora_to_gguf.py:216-225 | in those cases they give the concatenation of the products |
| LoraTensor.StrayMisaligns | convert_lora_to_gguf.py:216-225 | an empty batch with an entry of A: the factors multiply, but rows meet the wrong A |
| LoraTensor.ConcatCommutes | convert_lora_to_gguf.py:216-232 | concatenating tensors with a shared A concatenates the products |
| LoraAccepts.ConcatAcceptsIff | convert_lora_to_gguf.py:226-232 | two-dimensional tensors are concatenated if and only if their A have the same shape and entries |
| Base64.EncodeBytes | common/base64.hpp:80-144 | the loop with its early exits writes the specified groups and padding |
| Base64.DigitsAre | common/base64.hpp:84-86 | a digit is the character of the 64-character table at its value (tables 1 and 2 of RFC 4648) |
| Base64.ValuesAre | common/base64.hpp:344-389 | a character has a value if and only if it stands there in a table of its alphabet; without one both tables are looked at, and the last two values decide |
| Base64.GroupsAre | common/base64.hpp:88-141 | three bytes are one number written with four digits to the base 64; a last group is filled up with zero bits and pads |
| Base64.EncodedSize | common/base64.hpp:338-341 | the encoding has the announced length |
| Base64.DecodeUndoesEncode | common/base64.hpp:200-244 | for every byte sequence and alphabet, decoding with that alphabet or with detection returns the input |
| Base64.DecodedSize | common/base64.hpp:324-327 | no input decodes to more than the announced maximum |
| Base64.DecodeAcceptsIff | common/base64.hpp:200-244 | the decoder returns normally exactly on text spelled in one alphabet and, when strict, padded only at the end |
| Base64.OnlyPads | common/base64.hpp:231-241 | the check of the padding |
| Base64.DecodeText | common/base64.hpp:200-244 | the loop over the carried bits writes the specified bytes |
| Base64.DecodeInPlace | common/base64.hpp:294-313 | decoding over the input writes the same bytes as decoding to a new buffer and keeps the rest |
| Escapes.ProcessEscapes | common/common.cpp:579-614 | overwriting the input while reading it gives the unescaped original |
| Escapes.UnescapeUndoesEscape | common/common.cpp:579-614 | it inverts the escaper for newline, return, tab, quotes and backslash on every string |
| Escapes.UnescapeFixes | common/common.cpp:579-614 | text without backslashes is left alone |
| Escapes.EscapesAre | common/common.cpp:585-607 | what each escape stands for; any other character after a backslash stays with it |
| Escapes.HexEscapeIs | common/common.cpp:592-603 | two hexadecimal digits after `\x` give the byte |
| PartialStop.FindPartialStop | common/common.h:775-788 | returns the start of the longest suffix that is a non-empty prefix of the stop word, or nothing when there is none |
| PartialStop.NothingSentTooEarly | common/common.h:775-788 | in every continuation the stop word begins at or after the returned index |
| PartialStop.HeldBackForAReason | common/common.h:775-788 | some continuation puts the stop word exactly there |
| RepoFolder.ReplaceAll | common/common.cpp:441-456 | the find loop replaces every occurrence from the left |
| RepoFolder.ReplaceIsDashed | common/hf-cache.cpp:70-75 | replacing slashes is a character-by-character rewriting |
| RepoFolder.ReplaceIsSlashed | common/hf-cache.cpp:60-68 | replacing double dashes reads pairs from the left |
| RepoFolder.RepoToFolderName | common/hf-cache.cpp:70-75 | the folder name of any id |
| RepoFolder.FolderOfId | common/hf-cache.cpp:70-75 | the folder of owner and name |
| RepoFolder.FolderNameToRepo | common/hf-cache.cpp:60-68 | the id of any folder name, empty without the prefix |
| RepoFolder.FolderRoundTripIff | common/hf-cache.cpp:60-75 | an id comes back from its folder exactly when no dash of it stands before a dash or a slash |
| RepoFolder.RepoRoundTripIff | common/hf-cache.cpp:60-75 | a prefixed folder name survives exactly when it has no slash |
| RepoFolder.IsValidRepoId | common/hf-cache.cpp:105-133 | the automaton accepts exactly ids with one slash whose specials stand between base characters |
| RepoFolder.ValidIdIff | common/hf-cache.cpp:99-133 | an id is valid if and only if it has at most 256 characters, one slash, and only letters, digits and underscores but for specials between two of them |
| RepoFolder.ValidIdsDoNotCollide | common/hf-cache.cpp:60-133 | valid ids come back from their folders, and different valid ids have different folders |
| CsvRow.ParseCsvRow | common/arg.cpp:942-984 | the loop returns the fields of the specified reading, for every input |
| CsvRow.ParseUndoesPrint | common/arg.cpp:942-984 | every non-empty list of fields, each quoted or safely bare, is read back |
| CsvRow.BareFieldIff | common/arg.cpp:942-984 | a single bare field is read back exactly when it has no comma and does not start with a quote |
| CpuMask.ParseCpuMask | common/common.cpp:328-362 | succeeds exactly on hex digits; entry k is or-ed with bit k of the number, nothing is ever cleared and every index is in bounds |
| CpuMask.BitsOfDigits | common/common.cpp:328-362 | bit k of the number is bit k mod 4 of the digit it falls in |
| CpuMask.DigitsCount | common/common.cpp:328-338 | the prefix is optional, and digits after the 128th are ignored |
| Hex.HexDigitsAre | common/common.cpp:340-352 | a character has a value if and only if it stands there among the small or the capital digits |
| GgmlLoader.LoadVocab | convert_llama_ggml_to_gguf.py:84-98 | the loop over entries returns the specified items and offset or raises |
| GgmlLoader.LoadTensors | convert_llama_ggml_to_gguf.py:188-194 | the scan loop ends and returns the specified table and the last index of each name |
| GgmlLoader.ReadTensor | convert_llama_ggml_to_gguf.py:110-131 | a record takes at least twelve bytes, its data ends where the next begins, and padded data starts at a multiple of 32 |
| GgmlLoader.NameMap | convert_llama_ggml_to_gguf.py:188-194 | each name maps to its last index, and no other name is there |
| GgmlLoader.LoadModel | convert_llama_ggml_to_gguf.py:145-200 | header, hyperparameters, eligibility, vocabulary, tensors and feed-forward size, or an exception |
| GgmlFiles.StartIff | convert_llama_ggml_to_gguf.py:145-187 | how a file begins is accepted if and only if it is, byte by byte, one of the three magics with its versions, the seven numbers in order, and a file type on the literal lists of what its format allows |
| GgmlFiles.LoadedFileStarts | convert_llama_ggml_to_gguf.py:145-187 | so begins every file that loads |
| GgmlFiles.ItemIff | convert_llama_ggml_to_gguf.py:84-98 | when an entry is read, and its bytes |
| GgmlFiles.TensorIff | convert_llama_ggml_to_gguf.py:110-131 | when a tensor record is read, and where its extents, name and data stand |
| GgmlFiles.LoadedRecords | convert_llama_ggml_to_gguf.py:180-195 | a file that loads has as many entries as announced, with scores in all formats but the first, and records one behind the other, padded only in GGJT |
| GgmlFiles.FeedForwardIs | convert_llama_ggml_to_gguf.py:53-57 | the feed-forward size is the second extent of the last tensor with the literal name |
| GgmlLoader.TensorsAreLaid | convert_llama_ggml_to_gguf.py:110-131 | scanned records lie one after the other from any offset |
| GgmlLoader.LoadedTensorsAreApart | convert_llama_ggml_to_gguf.py:180-200 | in every file that loads, data ranges are in order and disjoint, and aligned to 32 in GGJT |
| GgmlImage.ItemsRecovered | convert_llama_ggml_to_gguf.py:84-98 | every written vocabulary is read back |
| GgmlImage.RecordsRecovered | convert_llama_ggml_to_gguf.py:110-131 | every written sequence of tensors is read back in order, with the place of its data |
| GgmlImage.FeedForwardRecoveredIff | convert_llama_ggml_to_gguf.py:53-57 | the feed-forward size is found exactly when the last tensor of that name has at least two dimensions, and is its second |
| GgmlImage.LoadUndoesWriteIff | convert_llama_ggml_to_gguf.py:145-200 | loading a written file, whatever precedes it, recovers everything exactly when it has that tensor |

## Left out

- The PEG engine, the Jinja runtime, grammar construction and the per-model templates: tagged nodes are the input.
- nlohmann's JSON parser is a parameter; its printer is modelled for strings per character, without the exception for
  invalid UTF-8. Text of messages is `seq<char>`.
- The reader in `JsonReader` takes what the printer writes: it does not skip space between the parts of a member and does
  not put surrogate pairs together, which the printer never writes.
- Message fields other than content, reasoning and tool calls; OpenAI JSON around a delta.
- ChatStreaming.MapperMonotone: a pass in which a node that is looked at changes its tag or loses its place, because the
  grammar took another branch.
- ChatCuts.LastNodeStreamsIff: for undeclared values, a parser that accepts, besides strings, only JSON texts
  (`ChatMapper.AcceptsJson`); numbers and escapes are described a little more widely than the standard does.
- Windows branches, terminal input and output, escape-sequence parsing of keys, `wcwidth`, spinner and colours: keys
  arrive decoded, measured widths and `iswspace` are parameters, and the column is an integer.
- The line editor's buffer is passed and returned as a value; the original passes four references, so aliasing
  between them is not modelled. The history is an object.
- ReadLine.ApplyCompletion: the candidate is text; for a candidate that is not UTF-8, `LineLoad.SetLineContents` says
  what is loaded, and no code-point editor is refined.
- `readline_simple`, and the list of completion candidates beyond whether there are others.
- Ellipses, tensors as indices, and the error for a step that is not positive; number types and rounding: entries are
  reals.
- LoraTensor.PermuteCommutes: refused permutations end in an assertion in the original and have no result here.
- Masks and shifts of the byte codecs are written as quotients and remainders.
- Python's 64-bit overflow of tensor sizes; scores of vocabulary entries stay four bytes; quantization block sizes are
  a parameter.
- Conversion to GGUF after loading, download code, caches, file systems, the option table, and quantization kernels.
