# NotoJS core, modelled and verified in Dafny

NotoJS is a notebook server: notebooks and package lists live on disk and in an LMDB
environment, code runs in QuickJS contexts and kernel processes, and rendered results are
signed for the page. This project models the parts of it where one function relies on what
others did, and proves what each part is for.

| files | what they model |
|---|---|
| `wrappers.dfy`, `strings.dfy`, `bytes.dfy` | optional values; lines and C strings; octets, UTF-8 octet sequences and strings of 16-bit units |
| `textdecoder.dfy`, `decoderlaws.dfy`, `textencoder.dfy` | `TextDecoder` and `TextEncoder`, against the octet grammar of section 4 of RFC 3629 |
| `install.dfy`, `installoutcome.dfy` | the install-once protocol for the storage key, over threads, processes and crashes |
| `preprocess.dfy`, `preprocesslaws.dfy`, `preprocessblocks.dfy`, `json.dfy` | `Engine::preprocess`, which rewrites the text that it is scanning |
| `notebook.dfy`, `notebooklaws.dfy`, `notebookrun.dfy`, `notebooklines.dfy` | the notebook format: its printer, its grammar, and the two parsers that act on the grammar |
| `packages.dfy`, `packageaccept.dfy`, `packagelaws.dfy`, `packagecleanup.dfy`, `packagelookup.dfy` | the package list, what of it is accepted, its rows in the keyed store, what storing it does to the cache, and what is found of it by name |
| `lexicographic.dfy`, `router.dfy`, `routerlaws.dfy`, `routerorder.dfy` | the sorted table of request paths and its search |
| `kernelpipe.dfy`, `kernelreplies.dfy`, `kernelruns.dfy` | the pipe to a kernel process, from both sides, in runs with and without errors |
| `cache.dfy`, `cachecompiled.dfy`, `cachelaws.dfy`, `cachemoves.dfy` | the versioned cache of compiled notebooks, in front of files that are saved, moved, removed and replaced by results |
| `integerkeys.dfy` | stored keys and values, among them numbers as sortable octets |
| `signature.dfy` | the signature of rendered content, on the server and in the page |

Code that changes things step by step is a class or a method with loops, proved against a
specification function; the properties are lemmas about these functions, over all inputs
and, for the protocols, over all runs of a state machine whose steps are those functions.
Bit operations on octets and words are written as arithmetic (`x & 0x3F` as `x % 64`,
`x >> 6` as `x / 64`).

## What does not hold as one might expect

Each of these is stated by a lemma together with the exact condition or with the family of
inputs that shows it; the model follows the code.

* `decode()` without an argument does not clear the byte-order-mark flag when it fails, so
  the next `decode` of the same object can keep a mark that a fresh one would drop
  (`ArglessCallResets`, `ArglessCallKeepsMark`). A call whose argument is refused clears nothing, even if it is final:
  after `decode(Uint8Array.of(0xE2), {stream: true})` and `decode({})` the octet is still pending
  (`ReachableState`, `RefusedCallKeepsPending`).
* A macro block whose text has an odd number of backticks is not closed by its closing line, and one with a line of its
  own that reads `]]>` outside a template literal is closed there (`OneBlock`). A block on the line right after a
  closed block is left alone; one further on is expanded unless a template literal is open (`SecondBlock`). An open
  block at the end of the text that ends in `]]` and a line break loses that break (`LinesKept`, `LosesAfterBrackets`),
  and any other character there but a backtick (`LastBlock`).
* Two handler cells make the counter of the run-time parser wrap around, and cells behind
  the first handler are taken again (`TakenIsProjection`).
* A comment in the package list whose fourth octet from the end is NUL keeps a cached
  entry alive (`CleanedExactly`, `SetCleansExactly`); of a comment of one or two octets the type octet is
  read from before its row, which the model gives the outcome `Unread` (`ShortRowsOfLines`).
* `find` gives a request a route that does not match it exactly when the request goes with that route through a
  slash where no other route goes on, and then leaves it; the rest of the request may then be taken from
  behind its end (`NoMatchExactly`, `FaithfulExactly`). With signed `char`, the table is in the order of the
  search exactly if no two paths first differ in octets of which one is below 128 and the other is
  not; a table that is not makes `find` miss a declared path (`OrderExactly`, `HighOctetMissed`).
* A kernel's replies go to the handles in the order in which they leave the pipe, whatever becomes of the reads: a read
  that fails and leaves its reply there, or is met by octets that the client sent behind its request, puts those after
  it out of step, even without an error, and a read that takes two replies puts them in step again
  (`RepliesInOrder`, `OutOfStep`, `StaysInStep`, `LostReply`, `StrayResponse`). After a failed write, or a last reply of
  a dead kernel, nothing is finished any more (`RunsThatStall`, `StalledForGood`).
* The result of a run that is put in the place of its notebook, and a file moved to a notebook's name, are not told
  to the plugins, and neither is a notebook that a failed save removes: from then on the version they know is not the
  one on disk, and they run what they have (`KnownExactly`, `StaleResult`, `LostStillRuns`). A move that puts a file in
  place that is older than what is known or waited for is what makes code be kept under a version later than its text
  (`MovesExactly`, `StaleMove`).
* A stored string that starts or ends with NUL, or JSON text that is empty or starts with
  NUL, is not read back as what it was (`ReadBack`).

## Model

| member | source | states |
|---|---|---|
| `Utf8.EncodesWellFormed` | lib/notojs/global.cpp:3422-3444 | The octets appended for any scalar values are well formed in the grammar of section 4 of RFC 3629. |
| `TextDecoding.NextIsGrammar` | lib/notojs/global.cpp:3473-3524 | At any position the decoder takes a character exactly where the grammar has a UTF8-char, of that length, and its code point is the one that encodes to those octets: overlong forms, surrogates and values above 0x10FFFF are out. |
| `TextDecoding.NextStable` | lib/notojs/global.cpp:3494-3521 | A verdict other than "cut short" is not changed by octets that arrive later. |
| `TextDecoding.TextDecoder.constructor` | lib/notojs/global.cpp:3359-3416 | A new decoder has nothing pending and has seen no mark. |
| `TextDecoding.TextDecoder.Emit` | lib/notojs/global.cpp:3455-3462 | Only a mark that is the first scalar of a stream is swallowed, and only without `ignoreBOM`. |
| `TextDecoding.TextDecoder.IsPrefix` | lib/notojs/global.cpp:3496-3498 | True exactly when all octets behind the lead octet are continuation octets. |
| `TextDecoding.TextDecoder.Assemble` | lib/notojs/global.cpp:3509-3514 | The continuation flag and the code point of a sequence of given length. |
| `TextDecoding.TextDecoder.Read` | lib/notojs/global.cpp:3473-3524 | One turn of the loop gives the verdict on the rest of the data and always moves on. |
| `TextDecoding.TextDecoder.DecodeUtf8` | lib/notojs/global.cpp:3446-3537 | The loop with its fields updated in place computes what the specification gives for pending octets and input: result, output, new pending octets and mark flag. |
| `TextDecoding.TextDecoder.DecodeImpl` | lib/notojs/global.cpp:3548-3636 | A call on octets that fails gives no output and leaves the decoder as new; an argument that is refused, or a range outside its buffer, throws and changes nothing. |
| `TextDecoding.TextDecoder.DecodeNone` | lib/notojs/global.cpp:3539-3546 | The call without argument finishes a stream, but leaves the fields as they are when it fails. |
| `TextDecodingLaws.ViewOctets` | lib/notojs/global.cpp:3614-3625 | The octets of a view are those in its range of the buffer, whatever lies before and behind; a range beyond the buffer is refused. |
| `TextDecodingLaws.ScanSplit` | lib/notojs/global.cpp:3446-3537 | Decoding two strings one after the other, the pending octets of the first put before the second, is decoding them joined. |
| `TextDecodingLaws.ChunkInvariance` | lib/notojs/global.cpp:3446-3537 | From any decoder state, any split into chunks, all but the last with `stream` on, gives the output, the failure and the final state of one call on the whole. |
| `TextDecodingLaws.TwoCalls` | lib/notojs/global.cpp:3446-3537 | The same for one cut, call by call. |
| `TextDecodingLaws.PendingIsCut` | lib/notojs/global.cpp:3494-3503 | What stays pending is empty or a lead octet with too few continuation octets, three octets at most. |
| `TextDecodingLaws.NothingPending` | lib/notojs/global.cpp:3527-3535 | After a call without `stream` nothing is pending. |
| `TextDecodingLaws.ReachableState` | lib/notojs/global.cpp:3446-3636 | In every state that any sequence of calls reaches, refused ones included, pending octets are such a cut; after a final or failed `decode_impl` the decoder is as new if and only if the argument was not refused or the decoder was as new before. |
| `TextDecodingLaws.RefusedCallKeepsPending` | lib/notojs/global.cpp:3562-3624 | A lead octet, then a final call with a refused argument: the octet stays pending, and the next text gets a replacement character in front. |
| `TextDecodingLaws.ArglessCallResets` | lib/notojs/global.cpp:3539-3546 | In every reachable state: the call without argument leaves the decoder as new if and only if it is not a fatal decoder with pending octets that has seen its first scalar. |
| `TextDecodingLaws.ArglessCallKeepsMark` | lib/notojs/global.cpp:3539-3546 | A concrete sequence of calls after which a byte-order mark is returned that a new decoder drops. |
| `TextDecodingLaws.FatalScan` | lib/notojs/global.cpp:3464-3525 | Fatal scanning succeeds exactly on well-formed octet strings, and what it emits encodes to them. |
| `TextDecodingLaws.FatalAcceptsExactlyWellFormed` | lib/notojs/global.cpp:3422-3537 | A fatal decoder accepts exactly the well-formed strings of section 4 of RFC 3629 and returns them unchanged, less one leading mark when `ignoreBOM` is off. |
| `TextDecodingLaws.VisibleOctets` | lib/notojs/global.cpp:3455-3462 | Swallowing the mark as a scalar is dropping the three octets EF BB BF. |
| `TextDecodingLaws.NonFatalScan` | lib/notojs/global.cpp:3464-3468 | Without `fatal` no input fails. |
| `TextDecodingLaws.NonFatalEmitsWellFormed` | lib/notojs/global.cpp:3446-3537 | Non-fatal output is well formed for every input, state and stream flag. |
| `TextDecodingLaws.NonFatalRepairs` | lib/notojs/global.cpp:3446-3537 | Told by the grammar of section 4 of RFC 3629 alone: well-formed characters stay, EF BF BD stands for a tail that is cut short, and for any other octet by itself. |
| `TextDecodingLaws.ModesAgree` | lib/notojs/global.cpp:3464-3525 | On well-formed input both modes scan alike. |
| `TextDecodingLaws.NonFatalIdempotent` | lib/notojs/global.cpp:3446-3537 | Decoding what was decoded, with `ignoreBOM`, changes nothing. |
| `TextDecodingLaws.DecodeWellFormed` | lib/notojs/global.cpp:3446-3537 | Well-formed input comes back as it is under `ignoreBOM`, in either mode. |
| `TextEncoding.ReadStep` | lib/notojs/global.cpp:3206-3233 | One turn of the loop reads one scalar: a pair of surrogates as one, a lone one as U+FFFD. |
| `TextEncoding.EncodeString` | lib/notojs/global.cpp:3169-3264 | The loop with its offset and counters computes the specification of `encode_` under a capacity. |
| `TextEncoding.EncodeInto` | lib/notojs/global.cpp:3304-3347 | Only the written range of the buffer changes; when the range does not fit nothing changes and the call fails. |
| `TextEncoding.Copy` | lib/notojs/global.cpp:3340 | The destination holds the source and is otherwise unchanged. |
| `TextEncoding.StepOfCesu8` | lib/notojs/global.cpp:3177-3233 | On the CESU-8 of a UTF-16 string a step reads the first scalar of that string and leaves the CESU-8 of the rest. |
| `TextEncoding.EncodingOfCesu8` | lib/notojs/global.cpp:3204-3260 | One scalar is written if it fits, then the rest of the string is encoded in the room left; otherwise nothing more is. |
| `TextEncoding.ScalarsOfItems` | lib/notojs/global.cpp:3213-3233 | The units of scalar values, written as section 2.1 of RFC 2781 has them, and lone surrogates among them, are read as those values, and as U+FFFD for the lone ones. |
| `TextEncoding.ItemsOf` | lib/notojs/global.cpp:3213-3233 | Every string falls into such scalar values and lone surrogates. |
| `TextEncoding.EncodesLongestPrefix` | lib/notojs/global.cpp:3202-3260 | `encodeInto` writes the UTF-8 of exactly the first `read` units, within the capacity, splits no pair, and is the longest such prefix: if input remains, the next scalar does not fit. |
| `TextEncoding.EncodesAtMostThree` | lib/notojs/global.cpp:3235-3236 | Three octets a unit are always room enough. |
| `TextRoundTrip.EncodeThenDecode` | lib/notojs/global.cpp:3169-3264 | With that room, `read` is the length in units and decoding with `ignoreBOM`, fatal or not, gives the UTF-8 of the string with each lone surrogate replaced by U+FFFD. |
| `TextRoundTrip.EncodesScalars` | lib/notojs/global.cpp:3169-3264 | With room for it, the string of any scalar values is written as the UTF-8 of those values. |
| `TextRoundTrip.EncodesItems` | lib/notojs/global.cpp:3169-3264 | The same for any string, with U+FFFD for its lone surrogates. |
| `Install.InvNext` | lib/notojs/notodb.cpp:149-223 | Every step of every thread, its failures, exceptions and a crash of any process keep the invariant: one lock holder, temporary file private to it, final file complete. |
| `Install.InvRun` | lib/notojs/notodb.cpp:149-223 | The invariant holds after any run. |
| `Install.InstalledStays` | lib/notojs/notodb.cpp:166-171 | No step changes or removes a key file that is in place. |
| `Install.InstalledForever` | lib/notojs/notodb.cpp:149-223 | Once in place in a run, the file and its content stay in the rest of the run. |
| `Install.Agreement` | lib/notojs/notodb.cpp:137-223 | Over every interleaving and crash, all calls that succeed return the same octets, those of the file. |
| `Install.NeverPartial` | lib/notojs/notodb.cpp:173-215 | The file at the final path is at every moment a complete candidate, never a part of one. |
| `Install.OfferedOnly` | std/crypto/crypto.cpp:374-378 | A complete candidate is the file from before, an offered one, or a drawn key of full size. |
| `Install.OneInstaller` | lib/notojs/notodb.cpp:161-164 | At most one call is past the lock at any time. |
| `InstallOutcome.CallsSucceed` | lib/notojs/notodb.cpp:137-223 | In any run, whatever else fails, throws or is killed: a call none of whose own steps fails or throws returns the octets of the file, unless something that is no file is in its place, a plain load looked before there was a file, or a key call met or drew what has not the size of a key. |
| `InstallOutcome.HurtByFailure` | lib/notojs/notodb.cpp:137-223 | Only a failure or an exception of its own thread counts as such. |
| `InstallOutcome.CallEnds` | lib/notojs/notodb.cpp:161-223 | In any reachable state a call ends by its own steps alone, if they go well, unless another call holds the lock. |
| `InstallOutcome.HolderRuns` | lib/notojs/notodb.cpp:161-164 | The lock is free or held by a call that is running. |
| `InstallOutcome.NoneLeftOver` | lib/notojs/notodb.cpp:173-221 | Unless something is thrown or killed or a clean-up fails, a temporary file is in the hands of a running call, or was there before. |
| `Install.KeyAfterCrash` | std/crypto/crypto.cpp:359-385 | Whatever a run with crashes left behind, temporary file included, a later `getkey` alone succeeds: with the installed key, or by installing its own. |
| `Json.NoRawLineBreak` | lib/notojs/engine.cpp:594-599 | A quoted string holds no raw line break. |
| `Json.UnquoteQuote` | lib/notojs/engine.cpp:617-619 | Reading a quoted string back gives the string. |
| `Json.QuotedFirst` | lib/notojs/engine.cpp:617-619 | Two texts that start with quoted strings and are equal quote the same string. |
| `Preprocess.LookOk` | lib/notojs/engine.cpp:547-571 | The saved positions stay ordered and in range from character to character, and at the end of a block leave room for what is rewritten. |
| `Preprocess.MakeSnippet` | lib/notojs/engine.cpp:589-634 | The snippet for a block of a given name and body. |
| `Preprocess.CloseBrackets` | lib/notojs/engine.cpp:577-587 | Only the three closing characters are overwritten. |
| `Preprocess.CloseBlock` | lib/notojs/engine.cpp:572-638 | The edits of the string in place give text before, replaced block, text after, and the position advances by one more than the string grows. |
| `Preprocess.Switch` | lib/notojs/engine.cpp:549-571 | One character moves the seven-state scanner as the reference scanner moves, the fall-through at the end of the text included. |
| `Preprocess.LookShifted` | lib/notojs/engine.cpp:547-571 | On the rewritten string at the shifted position the scanner decides as on the unmodified text. |
| `Preprocess.EditsRest` | lib/notojs/engine.cpp:577-637 | Editing the half-rewritten string is rewriting the block of the unmodified text. |
| `Preprocess.CloseStep` | lib/notojs/engine.cpp:572-638 | At the end of a block all five positions are in range of the current string, and what is done plus what the reference does with the rest stays the same. |
| `Preprocess.Turn` | lib/notojs/engine.cpp:547-646 | One turn of the loop keeps the current string in step with the reference scanner, and the characters left become fewer although the string grows. |
| `Preprocess.Preprocess` | lib/notojs/engine.cpp:537-647 | The in-place expansion ends, keeps its positions in range and returns what the left-to-right scanner over the unmodified text returns. |
| `PreprocessLaws.SnippetNoBreak` | lib/notojs/engine.cpp:589-634 | A snippet holds no line break unless the name does. |
| `PreprocessLaws.ExpandLines` | lib/notojs/engine.cpp:567-638 | From any scanner state: every kept character has as many line breaks before it as in the text, and the totals differ by the one lost break. |
| `PreprocessLaws.LinesKept` | lib/notojs/engine.cpp:567-638 | Every surviving character stays on its line and no line break is added or lost, except one in exactly the case `LosesBreak`. |
| `PreprocessLaws.LosesAfterBrackets` | lib/notojs/engine.cpp:568-572 | That case needs a text that ends in `]]` and a line break. |
| `PreprocessLaws.ExpandOrdered` | lib/notojs/engine.cpp:537-647 | Surviving characters keep their order, and none is doubled. |
| `PreprocessBlocks.QuietUnchanged` | lib/notojs/engine.cpp:552-554 | A text without `<` at the start of a line is left as it is. |
| `PreprocessBlocks.LineStart` | lib/notojs/engine.cpp:562-573 | A line of a block closes it exactly if it starts outside a template literal with `]` and reads `]]>` without the backticks behind that. |
| `PreprocessBlocks.BlockExpands` | lib/notojs/engine.cpp:552-638 | A block at the start of a line, at the end of the text or not, whose text has an even number of backticks and no such line, is closed by its own closing line and expanded, wherever the scanner meets it in its initial state. |
| `PreprocessBlocks.LastBlock` | lib/notojs/engine.cpp:549-638 | A block at the end of a text, behind lines that open no block and leave no template literal open, becomes its snippet and its commented source if and only if its text is of that kind; without a last line break any last character but a backtick will do for the bracket. |
| `PreprocessBlocks.OneBlock` | lib/notojs/engine.cpp:552-638 | A block alone, with or without a last line break, becomes its snippet and its commented source if and only if its text is of that kind. |
| `PreprocessBlocks.ClosedEarly` | lib/notojs/engine.cpp:562-638 | If a line of its text closes a block, the snippet has less than its text. |
| `PreprocessBlocks.Unclosed` | lib/notojs/engine.cpp:549-564 | If its closing line is inside a template literal, a block stays as it is. |
| `PreprocessBlocks.EmptyBlock` | test/test_engine.cpp:8-10 | A block without text, as in the repository's tests. |
| `PreprocessBlocks.KindsOfBlock` | test/test_engine.cpp:40-96 | What a block of each kind of name becomes: bound to the name, exported, printed as a slide, or printed; the block is commented out. |
| `PreprocessBlocks.EchoBlock` | test/test_engine.cpp:110-132 | A block named `!` prints its text as a listing, and the text itself stays to be run. |
| `PreprocessBlocks.NamesExactly` | lib/notojs/engine.cpp:136-139 | A name is letters, digits but for the first place, and underscores, with `:` or `!` only in front. |
| `PreprocessBlocks.BadName` | lib/notojs/engine.cpp:557-561 | With any other character in the name nothing is opened, and the text stays as it is. |
| `PreprocessBlocks.AdjacentBlockKept` | lib/notojs/engine.cpp:636-637 | A block on the line right after a closed block is not expanded. |
| `PreprocessBlocks.SecondBlock` | lib/notojs/engine.cpp:547-646 | Of two blocks with lines between them of which none but the first starts with `<`, the second is expanded if and only if the text between is not empty and, behind its first character, leaves no template literal open. |
| `PreprocessBlocks.BlockThenQuiet` | lib/notojs/engine.cpp:636-637 | What follows a block and has no `<` at the start of a line but the next is kept as it is. |
| `Notebook.PartText` | lib/notojs/folder.cpp:700-713 | The text of one part is that of the format. |
| `Notebook.Printer.constructor` | lib/notojs/folder.cpp:613-618 | A new file holds no parts. |
| `Notebook.Printer.Code` | lib/notojs/folder.cpp:620-626 | A code part is added behind the others. |
| `Notebook.Printer.Data` | lib/notojs/folder.cpp:628-633 | A data part is added behind the others. |
| `Notebook.Printer.Close` | lib/notojs/folder.cpp:635-641 | The text is the file of all parts added. |
| `Notebook.Save` | lib/notojs/folder.cpp:693-716 | Saving prints the code and body parts of the cells in order, each string up to its first NUL. |
| `Notebook.Multipart` | lib/notojs/folder.cpp:322-338 | The grammar's loop makes the calls of the specification, and ends. |
| `Notebook.EditorParser.EndPart` | lib/notojs/folder.cpp:181-216 | What the end of a part does to the editor's parser. |
| `Notebook.EditorParser.Call` | lib/notojs/folder.cpp:164-237 | What any action does to it. |
| `Notebook.EditorParser.Parse` | lib/notojs/folder.cpp:503-545 | Parsing acts by the calls of the grammar, in order. |
| `Notebook.Load` | lib/notojs/folder.cpp:534-541 | The editor's reading of a file. |
| `Notebook.RunnerParser.EndPart` | lib/notojs/folder.cpp:274-289 | What the end of a part does to the run-time parser. |
| `Notebook.RunnerParser.Call` | lib/notojs/folder.cpp:257-314 | What any action does to it, the unsigned counter included. |
| `Notebook.RunnerParser.Parse` | lib/notojs/folder.cpp:547-563 | Parsing acts by the calls of the grammar, in order. |
| `Notebook.LoadForRun` | lib/notojs/folder.cpp:547-563 | The run-time reading of a file. |
| `NotebookLaws.LineItem` | lib/notojs/folder.cpp:331 | A line without CR that does not start with the boundary is read as one text line. |
| `NotebookLaws.SectionItem` | lib/notojs/folder.cpp:327-333 | The head of a printed part is read as boundary, type and role. |
| `NotebookLaws.LinesParsed` | lib/notojs/folder.cpp:331-333 | A clean text is read line by line to its end. |
| `NotebookLaws.FileParsed` | lib/notojs/folder.cpp:322-338 | The calls for a printed file are exactly those for its parts, and the final end. |
| `NotebookLaws.PartsPrinted` | lib/notojs/folder.cpp:700-713 | A part of code and a part of data, as they stand in a file. |
| `NotebookLaws.CutAtNul` | lib/notojs/folder.cpp:697-713 | Of a member that has a NUL in it, what is before goes into the file. |
| `NotebookLaws.EditorParts` | lib/notojs/folder.cpp:164-237 | What the editor's parser makes of them, part by part. |
| `NotebookLaws.CellsWritten` | lib/notojs/folder.cpp:181-216 | The printed parts of a cell list become the objects of its cells. |
| `NotebookLaws.SaveThenLoad` | lib/notojs/folder.cpp:693-716 | For all cell lists with no CR or NUL, no line starting with the boundary, and no `:` or line break in a role: loading what was saved gives back the codes and roles in order, and each body with exactly one line break more. |
| `NotebookRunLaws.RunnerParts` | lib/notojs/folder.cpp:254-320 | What the run-time parser makes of the same calls. |
| `NotebookRunLaws.SaveThenRun` | lib/notojs/folder.cpp:547-563 | Exactly the codes that a run takes of a saved notebook, for any number of handlers. |
| `NotebookRunLaws.TakenIsProjection` | lib/notojs/folder.cpp:280-300 | They are the codes up to and including the first handler if and only if there is at most one handler. |
| `NotebookRunLaws.RunIsProjection` | lib/notojs/folder.cpp:254-320 | On one saved file, the run-time reading is that projection of the editor's reading, each code disabled exactly when its role says so, if and only if there is at most one handler. |
| `NotebookLineEnds.EitherLineEnds` | lib/notojs/folder.cpp:325-338 | A file whose lines end in CR LF is read, by both parsers, as the one whose lines end in LF. |
| `Packages.Match` | lib/notojs/folder.cpp:340 | What the pattern takes for a setting: a non-empty name of name characters, ` = ` and a non-empty rest. |
| `PackageAcceptance.MatchExactly` | lib/notojs/folder.cpp:340 | It finds one in exactly the lines that are one, and its name and its rest. |
| `Packages.Database.SetPackages` | lib/notojs/folder.cpp:839-960 | Either the list is refused with the first error and nothing changes, or both tables become those of the rows; it is accepted exactly if every line is, every key fits the store, and no type octet is read from before its row. |
| `Packages.Database.ReadSource` | lib/notojs/folder.cpp:841-921 | The loop over the lines computes the rows or the first error. |
| `Packages.Database.CollectUrls` | lib/notojs/folder.cpp:923-934 | What the clean-up of the cache takes for listed, unless a row is too short to have a type octet. |
| `Packages.Database.PutRows` | lib/notojs/folder.cpp:949-951 | The table of the rows, unless a key is too long. |
| `Packages.Database.GetPackages` | lib/notojs/folder.cpp:795-837 | The rows, in whatever order the cursor yields them, become the lines printed by number. |
| `PackageAcceptance.AcceptedExactly` | lib/notojs/folder.cpp:841-921 | A list is accepted if and only if each line is empty, a comment, a header or sets a name to a web address, no header comes twice and no name is set twice; each package is of the section of the last header before it; of any other list the error names the first line that makes it so. |
| `PackageAcceptance.FirstError` | lib/notojs/folder.cpp:854-920 | Of any other list the error is of the kind that the line it names gives rise to, told by the lines before it. |
| `PackageAcceptance.UnderHeader` | lib/notojs/folder.cpp:857-885 | The lines behind a header, up to the next one, stand in its section. |
| `PackageLaws.ReadLinesGood` | lib/notojs/folder.cpp:847-921 | An accepted list has one row a line, numbered from one, each row made from its line, and package names that differ. |
| `PackageLaws.KeysDiffer` | lib/notojs/detail/module.hpp:32-55 | Up to 65535 lines no two rows have the same key. |
| `PackageLaws.TextKeysInOrder` | lib/notojs/detail/module.hpp:37-44 | The keys of comments and headers are in the order of their lines. |
| `PackageLaws.StoredRows` | lib/notojs/folder.cpp:949-951 | So the table holds every row under its key and nothing else. |
| `PackageLaws.RowBack` | lib/notojs/folder.cpp:804-823 | A stored row gives back its number and its line. |
| `PackageLaws.FirstOfNumber` | lib/notojs/folder.cpp:804-823 | Of rows with the same number, the one that the cursor comes to first gives the line. |
| `PackageLaws.PrintedJoin` | lib/notojs/folder.cpp:828-832 | Printing the numbered lines joins them by line breaks, less the empty ones in front. |
| `PackageLaws.SetThenGet` | lib/notojs/folder.cpp:795-960 | After an accepted list of at most 65535 lines, in any order of the rows, reading back gives the same lines in order, less leading empty lines. |
| `PackageLookup.FoundExactly` | lib/notojs/engine.cpp:251-255 | After an accepted list is stored, a name is found under a section exactly if a line in that section sets it, and then with the address that the line sets. |
| `PackageLookup.FoundOne` | lib/notojs/folder.cpp:461-471 | It is listed with that address, and with type 0 for a module, 1 for a script and -1 under no section. |
| `PackageLaws.JoinedSource` | lib/notojs/folder.cpp:846-847 | The lines of a text, joined, are the text less its final line break. |
| `PackageLaws.KeptUrls` | lib/notojs/folder.cpp:929-945 | Among the keys that end in NUL, exactly those of packages under a section, and those that a comment of a certain shape names, are kept. |
| `PackageLaws.CleanedExactly` | lib/notojs/folder.cpp:936-947 | Whatever is cached, exactly the NUL-ended keys no longer listed under a section are dropped, if and only if no comment has that shape. |
| `PackageLaws.LookalikeKept` | lib/notojs/folder.cpp:929-945 | The key that such a comment keeps. |
| `PackageCleanup.ShortRowsOfLines` | lib/notojs/detail/module.hpp:57-60 | In the rows of an accepted list a type octet is read from before its row exactly if there is a comment of one or two octets. |
| `PackageCleanup.SetCleansExactly` | lib/notojs/folder.cpp:839-953 | Told from the lines of an accepted list: whatever is cached, storing it drops exactly the NUL-ended keys that no line lists under a section, if and only if no comment has the odd shape. |
| `Lexicographic.Trichotomy` | lib/notojs/detail/router.hpp:32-44 | Two octet strings are equal or exactly one comes first. |
| `Routing.Router.constructor` | lib/notojs/detail/router.hpp:24-49 | For distinct paths the table is sorted and holds each path once, under its position. |
| `Routing.Router.Place` | lib/notojs/detail/router.hpp:29-47 | One turn puts the path behind all smaller ones, or over an equal one, and leaves the slots behind it alone. |
| `Routing.Router.MakeRoom` | lib/notojs/detail/router.hpp:34-38 | The innermost loop shifts a stretch of slots by one. |
| `Routing.PlacedTable` | lib/notojs/detail/router.hpp:24-49 | Placing a further distinct path keeps the table sorted and complete. |
| `Routing.Router.Number` | lib/notojs/detail/router.hpp:51-58 | A declared path gives its position, any other path the number of paths. |
| `Routing.Router.ElementLess` | lib/notojs/detail/router.hpp:63-72 | The first overload is the three-way comparison being negative. |
| `Routing.Router.ValueLess` | lib/notojs/detail/router.hpp:73-82 | The second is the same comparison being positive. |
| `Routing.Monotone` | lib/notojs/detail/router.hpp:60-83 | On sorted paths that agree so far and do not first differ across octet 128, the comparison from there on never goes back: what a search by halving needs. |
| `Routing.Router.LowerBound` | lib/notojs/detail/router.hpp:89 | The loop computes `Lower`, the halving search, on any table. |
| `Routing.LowerParts` | lib/notojs/detail/router.hpp:89 | On an ordered range `Lower` is the first place that is not below the request. |
| `Routing.Router.UpperBound` | lib/notojs/detail/router.hpp:89 | The loop computes `Upper`, on any table. |
| `Routing.UpperParts` | lib/notojs/detail/router.hpp:89 | On an ordered range `Upper` is the first place that is above the request. |
| `Routing.Router.EqualRange` | lib/notojs/detail/router.hpp:95-98 | The range that both searches leave, on any table. |
| `Routing.HalvedIsEqual` | lib/notojs/detail/router.hpp:95-98 | On an ordered range that is what filtering the range gives. |
| `Routing.NextSegment` | lib/notojs/detail/router.hpp:90-95 | Several routes that compare equal share a whole further segment with the request: the next slash exists, and the range is ordered from there on. |
| `Routing.Router.Find` | lib/notojs/detail/router.hpp:85-103 | On a table in the order of the search, `find` ends and returns what filtering all routes segment by segment returns; on any table, if the first search leaves one route or none, that is the answer. |
| `RoutingLaws.NextRange` | lib/notojs/detail/router.hpp:90-98 | Where no path ending in a slash begins another, the early return is never taken, and the narrowed range is one of the same kind. |
| `RoutingLaws.DeclaredPathFound` | lib/notojs/detail/router.hpp:85-103 | For such rooted paths without empty segments: a path that equals the request, or ends in a slash, is not the root and begins it, is the one found, with the rest of the request. |
| `RoutingLaws.NoMatchExactly` | lib/notojs/detail/router.hpp:90-103 | For every rooted request: the outcome is neither a match nor none if and only if the request strays from a route, that is, goes with it alone through a slash inside it and then leaves it, and then it is that route. |
| `RoutingLaws.FaithfulExactly` | lib/notojs/detail/router.hpp:85-103 | Every rooted request gets a route that matches it or none, if and only if below every slash inside a path another path goes on too. |
| `RoutingOrder.OrderExactly` | lib/notojs/detail/router.hpp:60-83 | A sorted table is in the order of the search, for all requests and all ranges, if and only if `char` is unsigned or no two paths first differ in octets of which one is below 128 and the other is not. |
| `RoutingOrder.HighOctetMissed` | lib/notojs/detail/router.hpp:85-103 | A table without that, and a declared path of which the searches leave nothing, so that `find` gives none, although filtering finds it. |
| `KernelPipe.Kernel.Post` | lib/notojs/window.cpp:52-58 | A handle is queued while the kernel lives; a write starts only if it is the only one. |
| `KernelPipe.Kernel.OnWritten` | lib/notojs/window.cpp:90-106 | A written request is read for; after an error or at shut-down nothing more is under way. |
| `KernelPipe.Kernel.OnRead` | lib/notojs/window.cpp:82-87 | The front handle is finished, with the response read or after an error with the one it had, and the next is written while the kernel lives. |
| `KernelPipe.Loop.OnRequest` | lib/notojs/server.cpp:48-52 | A request read is queued behind the others for the one thread. |
| `KernelPipe.Loop.RunJob` | lib/notojs/server.cpp:52-89 | A job is answered in the lasting context, which a PUT replaces by a new one. |
| `KernelPipe.FinishedOnceInOrder` | lib/notojs/window.cpp:52-106 | In any run, with whatever errors: handles are finished in the order queued, each at most once. |
| `KernelReplies.RepliesInOrder` | lib/notojs/window.cpp:76-106 | In any run, with whatever errors, lost octets and octets sent behind requests: the reply that handle k is given is what sequential evaluation gives at place p, the number of replies that left the pipe with the reads before; p is k at most, grows from each reply given to the next, and is less than k only if a read before took none. |
| `KernelPipe.StallsExactly` | lib/notojs/window.cpp:76-106 | The steps after which nothing is under way while handles wait: a write that failed or ended at shut-down, and a reply of a dead kernel while others wait. |
| `KernelPipe.RunsThatStall` | lib/notojs/window.cpp:76-106 | A run comes to that exactly if it takes such a step. |
| `KernelPipe.StalledForGood` | lib/notojs/window.cpp:90-106 | From then on no handle is ever finished. |
| `KernelRuns.NextSerial` | lib/notojs/window.cpp:52-106 | Every step without error, no handle having octets behind its request, keeps the invariant: one request at most in the pipe, the pool or on its way back, and the context is that of the requests answered. |
| `KernelRuns.SequentialEvaluation` | lib/notojs/window.cpp:52-106 | In any run without errors in which no client sends octets behind its request: at most one request is under way, replies come in posting order, and reply k is what evaluating the first k requests in turn gives. |
| `KernelRuns.PutForgets` | lib/notojs/server.cpp:56-60 | What came before a PUT has no effect on the context after it. |
| `KernelRuns.OneSession` | lib/notojs/server.cpp:52-89 | In any run without errors: a restart is answered as such, and any other request is evaluated in the context that the requests since the last restart leave when they are evaluated in turn. |
| `KernelRuns.NoDeadlock` | lib/notojs/window.cpp:76-106 | Without errors, some step can be taken exactly while handles wait. |
| `KernelRuns.Drained` | lib/notojs/window.cpp:76-106 | Taken in any order, those steps come to an end, and then every queued handle is answered. |
| `KernelRuns.OutOfStep` | lib/notojs/window.cpp:82-87 | With one failed read that leaves the reply in the pipe, the second handle is given the reply to the first. |
| `KernelRuns.StaysInStep` | lib/notojs/window.cpp:82-87 | With one failed read that takes the reply with it, the second handle is given its own. |
| `KernelRuns.LostReply` | lib/notojs/window.cpp:82-87 | Two replies go into the buffer of the second of three handles: it is given the first one's, its own is lost, and the third is given its own. |
| `KernelRuns.StrayResponse` | lib/notojs/handle.cpp:48-53 | Without any error: a client that sends a response behind its request is given that back, and the next handle the reply to it. |
| `CodeCache.Cacher.Cache` | lib/notojs/cacher.cpp:15-58 | A fresh entry is returned as it is; otherwise the loaded text is compiled and kept under the version asked for; a failure leaves an older entry and returns it. |
| `CodeCache.Cacher.CompileCells` | lib/notojs/cacher.cpp:31-50 | The loop compiles the enabled cells in order, and nothing results if one fails. |
| `CodeCompiled.CompiledExactly` | lib/notojs/cacher.cpp:36-57 | A notebook compiles exactly if each of its enabled cells does, behind the expansions of those before it, and its code is theirs in order; it fails exactly if one of them does. |
| `CodeCompiled.DisabledSkipped` | lib/notojs/cacher.cpp:38 | A disabled cell makes no difference. |
| `CodeCache.Plugin.Removed` | lib/notojs/plugin.cpp:118-123 | A known notebook becomes one that is known as gone. |
| `CodeCache.Plugin.Updated` | lib/notojs/plugin.cpp:125-130 | Of a known notebook the version of the file as it is now is known. |
| `CodeCache.Plugin.Load` | lib/notojs/plugin.cpp:140-145 | A notebook comes to be known with the version of its file; a known one stays as it is. |
| `CodeCacheLaws.NextSound` | lib/notojs/plugin.cpp:118-161 | Every step of every thread and of the disk thread, results and moves included, keeps what the known versions and the threads' entries are worth. |
| `CodeCacheLaws.LabelsGrow` | lib/notojs/cacher.cpp:20-56 | In any run, from step to step an entry stays or is replaced under a later version; it is dropped exactly by a call that finds its notebook gone. |
| `CodeCacheLaws.KnownExactly` | lib/notojs/folder.cpp:635-728 | In any run, of a notebook that the disk thread is not about to tell of: the known version is the one on disk if and only if, since it was last told or came to be known, no result was put in its place, no file was moved to its name and no failed save removed it; a failed save of one that is known as gone takes back what was put there. |
| `CodeCacheLaws.AskedIsRun` | lib/notojs/cacher.cpp:20-57 | Code asked for at the version that is known and on disk is the compiled form of the text on disk. |
| `CodeCacheLaws.SavedIsRun` | lib/notojs/plugin.cpp:147-161 | In any run: a call asks for the version on disk if and only if nothing was put in place untold; and if that version is known and on disk when the call ends without failure, it runs the compiled form of the text on disk. |
| `CodeCacheLaws.StaleResult` | lib/notojs/router.cpp:248-282 | From any state that a run reaches: once a result is put in the place of a known notebook, a thread that has the known version runs it, although a later text is on disk. |
| `CodeCacheLaws.LostStillRuns` | lib/notojs/folder.cpp:725-728 | After a failed save removed a known notebook, a thread that has the known version goes on running it. |
| `CodeCacheMoves.NextInv` | lib/notojs/plugin.cpp:118-161 | Every step keeps the invariant behind the next row, moves as long as they are orderly: the moved file is at least as new as the version known under its new name and as any that a thread waits for. |
| `CodeCacheMoves.CachedIsCompiled` | lib/notojs/cacher.cpp:15-60 | In any run whose moves are orderly: every cached entry is the compiled form of a text that was on disk at its version or later, and a call without failure returns code at least as new as the version asked for. |
| `CodeCacheMoves.MovesExactly` | lib/notojs/folder.cpp:733-757 | After an orderly run, a move is orderly if and only if, however the run goes on in order, no thread is ever about to load a text older than the version it asked for. |
| `CodeCacheMoves.StaleMove` | lib/notojs/folder.cpp:733-757 | Any move that is not leads to a call that, without failure, gets the moved text under a later version than its own. |
| `IntegerKeys.EncodeKey` | lib/notojs/notodb.cpp:53-58 | On a host of either octet order the nine octets are a NUL and the number counted from the least one, high octet first. |
| `IntegerKeys.SwapIsMirror` | lib/notojs/notodb.cpp:18-35 | Swapping by masks and shifts is reversing octet by octet. |
| `IntegerKeys.StoredBig` | lib/notojs/notodb.cpp:43-58 | Converted and stored, a word lies in memory high octet first on either host. |
| `IntegerKeys.FetchedBig` | lib/notojs/notodb.cpp:48-65 | Fetched and converted, such octets are the word again. |
| `IntegerKeys.DecodeKey` | lib/notojs/notodb.cpp:60-65 | Decoding undoes encoding for every 64-bit number, on either host. |
| `IntegerKeys.OrderPreserved` | lib/notojs/notodb.cpp:53-58 | For all 64-bit signed numbers, one is smaller exactly when its key comes first in octet order. |
| `IntegerKeys.ReadBack` | lib/notojs/notodb.cpp:392-442 | Numbers always, JSON text if and only if it is not empty and does not start with NUL, strings if and only if they are empty or have no NUL at either end, are read back as what was stored. |
| `IntegerKeys.NumbersFirst` | lib/notojs/notodb.cpp:392-398 | A number's key sorts before everything else that can be read back, the empty string aside. |
| `Signature.Fnv1a` | lib/notojs/notojs.cpp:8-13 | The loop computes the hash of the string from a given start. |
| `Signature.XorBitwise` | lib/notojs/notojs.cpp:8-13 | The exclusive or, bit by bit. |
| `Signature.HelloSigned` | test/test_notojs.cpp:658 | `hello` is signed with 4f9f2cab, as in the repository's tests. |
| `Signature.Make` | lib/notojs/notojs.cpp:24-53 | The eight characters are the hexadecimal digits of the hash of the type or, with string data, of type, NUL and data. |
| `Signature.Written` | lib/notojs/notojs.cpp:40-46 | The loop fills the buffer with the digits, the last first. |
| `Signature.Hash` | lib/notojs/bundle/notojs.js:212-223 | The page's loops over code points and octets, in signed 32-bit arithmetic, compute the padded hexadecimal form of its hash. |
| `Signature.PageOctets` | lib/notojs/bundle/notojs.js:215-219 | The page's cases for a code point give its UTF-8 octets, lone surrogates included. |
| `Signature.Verify` | lib/notojs/bundle/notojs.js:211-230 | A part goes to the handler of its type exactly if its sign is the one that the server attaches to that type and data. |
| `Signature.SeparatorKept` | lib/notojs/bundle/notojs.js:226 | No surrogate pair reaches across the NUL, so the page hashes the octets of type, NUL and data. |
| `Signature.SameHash` | lib/notojs/bundle/notojs.js:220 | Signed and unsigned arithmetic agree in all 32 bits, octet by octet. |
| `Signature.SameDigits` | lib/notojs/bundle/notojs.js:222 | Padding on the left gives the digits that the server writes from the right. |
| `Signature.Agreement` | lib/notojs/bundle/notojs.js:211-230 | For every type and every data, the page computes the sign that the server attaches; of data that is no string both hash the type alone. |

## Left out

- Libraries: QuickJS values and reference counts, LMDB beyond a map, an exclusive write
  transaction and keys of at most 511 octets, OpenSSL, `boost::urls`, `std::regex` on other
  patterns than the one modelled, file-system errors other than the failing step of the
  install protocol.
- How `decode_impl` and `encodeInto` find the buffer of a script value, and the copy of the decoded octets into a script
  string: an argument is its buffer and range here, or a value that is refused.
- Counts of replacement characters as the WHATWG Encoding Standard has them: the decoder goes on one
  octet after most errors and drops a cut tail as one error.
- KeyAfterCrash: a crash ends processes; loss of power, and file systems whose rename is not atomic, are not modelled.
- In `Engine::preprocess`: the rapidjson writer is modelled for the octets of strings, without its
  option to escape characters beyond ASCII.
- Library notebooks (`lib/`), the two other parser modes, and the
  mark of a disabled cell in a string's terminator, which is a boolean here.
- SetPackages: of a comment of one or two octets, what happens is undefined in the source; the outcome
  `Unread` stands for it, with nothing changed.
- SetThenGet: ends at 65535 lines, as `KeysDiffer` and `FoundExactly` do, because the stored line number wraps around
  behind it.
- FoundExactly: takes it that no address has a NUL in it, which the URL library refuses, and asks for names that do not
  start with NUL. Modules that are imported by a segment of their address are not modelled.
- Find: asks, where the first search leaves several routes, for rooted paths without empty segments in the order of
  the search; on other tables the source can narrow to no end. The first octet of a request is not looked
  at, as in the code, so the laws on matches are about rooted requests. The rest of a request is not
  percent-decoded.
- Starting, killing and logging of kernel processes; a kernel that has died stays dead here. Requests
  reach the kernel whole or not at all, and one that it refuses to read counts as its end. Of octets in the
  pipe the model knows whose reply they belong to, not what they are.
- CachedIsCompiled: is about the plugins' versions; the timers' own map, which is like it, and the application
  cache of the request router, which asks for the version that it has just read, are not modelled. A
  version read while a save is still writing is not either; the save's own report follows it. A result
  whose renames fail is left out.
- ReadBack: takes JSON values as their text; turning script values into it and back, and script numbers
  into 64-bit integers, is not modelled.
- Signature.Agreement: takes it that the script engine hands out a string's octets as UTF-8 with lone surrogates encoded
  like other code points, and that type and data reach the page unchanged.
- The fetch `Worker`, bridge dispatch, DOM and file-system modules, YAML, zip and gzip wrappers,
  form-data parsing, HTTP plumbing, and the browser interface except `verify`.
