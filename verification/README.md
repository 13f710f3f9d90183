# MARIE: machine, assembler, lints and editor support, verified

This project models the MARIE toolchain of this repository and proves what its parts
promise one another: the micro-coded machine that can run backwards, the line lexer that
reproduces a regular expression by hand, the two-pass assembler, the rename that edits
source text, the control-flow graph whose lints speak about every run, and the position
and token encodings of the language server.

`dafny verify dfyconfig.toml` checks everything.

## How it is laid out

| part | files |
|---|---|
| words, instructions, microcode | `Words`, `Instructions`, `Microcode` |
| devices as operations on a state; the terminal and what is typed at it | `Devices`, `Terminals` |
| the machine: one micro-step forwards and backwards, on values | `Machine` |
| the machine and its journal as objects updated in place | `MarieVM` |
| whole sessions: reverse execution, instruction cycles, replay | `Sessions`, `ReplayedIo` |
| microcode against the instruction set; runs, budgets and slices | `Refinement`, `Running` |
| stalled input; the display | `Stalling`, `DisplayShadow` |
| backtracking patterns and the lexer | `Patterns`, `Lexer`, `LineShapes` |
| literals, syntax, the two passes and what they agree on | `Literals`, `Syntax`, `Parser`, `Assembler`, `Consistency` |
| rename: lines, text, programs, sites, the theorem; the caret; the request | `LineEdits`, `RenamedLines`, `TextEdits`, `Rename`, `RenamedPrograms`, `RenameSites`, `RenameMeaning`, `Carets`, `RenameRequests` |
| the control-flow graph, its lints, their soundness against the machine, and why exactness alone does not give it | `Cfg`, `Soundness`, `LintedRuns`, `SelfRewriting` |
| concrete sources, from their text to their graph | `PlainSources` |
| offsets, positions and highlighting tokens | `Positions`, `Tokens` |

Objects that the source updates in place are classes here (`MarieVM.MarieVMCore`,
`MarieVM.History`, `Parser.LineParser`). Each of their methods is proved equal to a
function on values, and the theorems are about those functions. The loops of the lexer, the
assembler, the prompt, the worklist, the lints, the line index, the column search and the
token encoder are methods with invariants, proved against their
specifications in the same way.

A device is a record of five operations over any state type (`Devices.Device`), so a
theorem about "every device" quantifies over the state and the operations. The character
class of whitespace is a parameter everywhere; the lexer theorems hold for every class that
leaves out `,` and `/`. The assembler theorems hold for every table of mnemonics.

## What came out

- The reverse-execution theorem holds for any interleaving of steps, with the journal limit
  changed and the journal cleared along the way. Undoing restores the machine, not a journal
  that was full: the evicted entry stays gone (`Sessions.ForwardThenBackward`).
- Splitting a run at a budget is invisible exactly when the split does not fall on a
  breakpoint. The debugger's `continue` runs in slices of 200,000 instructions
  (crates/bin/marie/src/debug.rs:332-373), so a breakpoint that falls on the end of a slice
  is run past (`Running.SplitLosesBreakpoint`, `Running.SplitIsInvisibleIff`); a one-word
  program shows it (`Running.JumpLosesBreakpoint`).
- Reverse execution is exact for every device that can take back what it did, and a device
  that draws counts as one as long as its picture fits memory (`Sessions.Redraws`). A frontend
  over any such device is another (`DisplayShadow.DrawingRewindsExactly`).
- The graph's `exact` is documented as what makes "not reachable" sound
  (crates/lib/mrs-lint/src/cfg.rs:11-20, 172-175). It is not enough: a five-line source with an exact graph
  rewrites its own code and executes an instruction the graph calls unreachable
  (`SelfRewriting.ExactIsNotEnough`). With the five other lints silent it is sound
  (`Soundness.LintsAreSound`), and a program so linted runs safely under any budget and any
  breakpoints, in one run or in slices (`LintedRuns.LintAndRun`, `LintedRuns.LintAndDebug`).
  There is such a program (`LintedRuns.HaltIsLinted`).
- A rename accepted by the language server preserves the program for every source that
  assembles, at the level of text: edit, lex, parse and assemble again; and so for the whole
  request, from the client's position to the ranges it gets back.

## Model

| member | source | states |
|---|---|---|
| `Words.ArithmeticIsExactUntilItWraps` | crates/lib/mrs-vm/src/lib.rs:712-732 | `Add` and `Subt` are exact signed arithmetic when the result fits sixteen bits, and undo each other even when it wraps |
| `Instructions.EncodeDecode` | crates/lib/mrs-core/src/instruction.rs:255-299 | encoding and decoding are inverse in both directions, and a word decodes unless its opcode is F |
| `Microcode.Execute` | crates/lib/mrs-vm/src/microcode.rs:84-183 | every execute sequence is non-empty and no longer than five micro-operations |
| `Microcode.ControlInvariant` | crates/lib/mrs-vm/src/lib.rs:557-585 | the control invariant is exactly "a next micro-operation exists"; under it a comparison is only reached with a decoded Skipcond, and the counter stays below ten |
| `Machine.MicroStepKeepsControl` | crates/lib/mrs-vm/src/lib.rs:651-688 | every micro-step keeps the control invariant; one that stops changes nothing but the device; one that runs moves the counter up by one or back to the boundary |
| `Machine.ForwardKeepsOk` | crates/lib/mrs-vm/src/lib.rs:651-678 | a recorded step keeps the journal within its limit and all its control snapshots well-formed |
| `Machine.BackwardKeepsOk` | crates/lib/mrs-vm/src/lib.rs:802-832 | so does a step back, refused or not |
| `MarieVM.History.Record` | crates/lib/mrs-vm/src/history.rs:188-197 | recording appends, evicting the oldest entry of a full journal, and records nothing at limit zero |
| `MarieVM.History.SetLimit` | crates/lib/mrs-vm/src/history.rs:146-155 | shrinking the limit keeps the newest entries |
| `MarieVM.MarieVMCore.LoadProgram` | crates/lib/mrs-vm/src/lib.rs:311-331 | a program that fits is copied to its origin and the machine positioned there with an empty journal; one that does not leaves everything as it was |
| `MarieVM.MarieVMCore.Reset` | crates/lib/mrs-vm/src/lib.rs:626-632 | registers and memory cleared, the latches and the journal too, at address zero; device, breakpoints and journal limit stay |
| `MarieVM.MarieVMCore.SetHistoryLimit` | crates/lib/mrs-vm/src/lib.rs:203-205 | the limit changes and the oldest entries beyond it go, nothing else: the move of a session |
| `MarieVM.MarieVMCore.MicroStep` | crates/lib/mrs-vm/src/lib.rs:651-688 | the in-place micro-step is the step on values: machine, journal and outcome |
| `MarieVM.MarieVMCore.ExecuteMicroOp` | crates/lib/mrs-vm/src/lib.rs:691-782 | each register transfer changes exactly what the step on values says, and returns the effect that reverses it |
| `MarieVM.MarieVMCore.MicroStepBack` | crates/lib/mrs-vm/src/lib.rs:802-832 | the in-place undo is the undo on values, including the entry put back when the device refuses |
| `MarieVM.MarieVMCore.StepInstruction` | crates/lib/mrs-vm/src/lib.rs:635-648 | the instruction loop ends within ten micro-operations, at the boundary or at the stop |
| `MarieVM.MarieVMCore.RunBounded` | crates/lib/mrs-vm/src/lib.rs:367-400 | the run loop with a budget and breakpoints, the first instruction exempt |
| `MarieVM.MarieVMCore.StepBackInstruction` | crates/lib/mrs-vm/src/lib.rs:460-469 | the loop that undoes to an instruction boundary |
| `MarieVM.Uninterrupted` | crates/bin/marie/src/run.rs:138-170 | running in slices with a step budget, and no breakpoints, is one run of as many instructions as the budget and the slices allow |
| `MarieVM.ResumeInSlices` | crates/bin/marie/src/debug.rs:332-373 | the debugger's loop is the sequence of slices that `SlicesAreOneRun` and `SplitIsInvisibleIff` are about |
| `Devices.VecIoIsRewindable` | crates/lib/mrs-vm/src/io.rs:297-322 | the scripted device hands back what was read and retracts what was written, always and exactly |
| `Devices.StdinIoIsHonest` | crates/lib/mrs-vm/src/io.rs:257-269 | the terminal refuses every rewind, and is left as it was by refusing; so it is honest and cannot be rewound |
| `Terminals.Utf16RoundTrips` | crates/lib/mrs-vm/src/io.rs:166-177 | a line typed as UTF-16 is fed one code unit at a time, and the units give back its text, whatever the text |
| `Terminals.TypedWordsMeanTheirInteger` | crates/lib/mrs-vm/src/io.rs:158-165 | in word mode a blank line feeds nothing, and any other exactly the integer its literal spells, modulo 2^16, or it is asked for again |
| `Terminals.TypedLinesAreFed` | crates/lib/mrs-vm/src/io.rs:158-181 | so the terminal feeds a typed line's text, without its ending, in the one mode, and in the other its integer or nothing |
| `Terminals.PromptStdin` | crates/lib/mrs-vm/src/io.rs:196-222 | queued words come first; then lines are asked for until one yields a word, in either mode; when reading ends, at the end of input or with an error, the answer is that failure |
| `Terminals.ReplayIoSimulatesVecIo` | crates/bin/marie/src/debug.rs:85-116 | the debugger's two queues over a terminal are a scripted device fed the pushed-back values, then the queued ones, then what the rest of the lines decode to, in either mode and however reading ends |
| `Sessions.MicroStepThenUndo` | crates/lib/mrs-vm/src/lib.rs:691-832 | undoing what a micro-operation did restores registers, memory, latches and device exactly, drawing devices included, or the device refuses and nothing is touched |
| `Sessions.BackwardIsExact` | crates/lib/mrs-vm/src/lib.rs:802-832 | in any session a step back is the previous machine or a refusal that changes nothing, and `NoHistory` exactly on an empty journal |
| `Sessions.ReverseExecution` | crates/lib/mrs-vm/src/lib.rs:651-832 | after any interleaving the journal is a suffix of the ideal undo stack within the limit, its k-th undo is the machine of k micro-operations ago, and `NoHistory` means it is empty |
| `Sessions.ForwardThenBackward` | crates/lib/mrs-vm/src/lib.rs:651-832 | a step and its undo leave the machine as it was, and the journal too unless it was full |
| `Sessions.RewindThenReplay` | crates/lib/mrs-vm/src/lib.rs:651-832 | after any session from an empty journal, undoing k recorded micro-operations and running k again gives the identical machine and journal |
| `Sessions.StepBackUndoesOneCycle` | crates/lib/mrs-vm/src/lib.rs:460-469 | from a boundary a step back undoes the cycle length of the last instruction and lands on its starting state, part-way the current counter; when it errs the machine is an earlier state of the same run |
| `Sessions.IgnoringIsRedrawing` | crates/lib/mrs-vm/src/io.rs:67-80 | a device without a display hook fits every memory, so all of the above holds of it |
| `ReplayedIo.DebuggerConservesIo` | crates/bin/marie/src/debug.rs:85-116 | over any session the inputs consumed and not undone, followed by what can still be read, never change, and the outputs are those not undone |
| `ReplayedIo.DebuggerRewindsExactly` | crates/bin/marie/src/debug.rs:85-116 | reverse execution over the debugger's device is exact up to how its queues divide the same stream |
| `ReplayedIo.DebuggerReplaysExactly` | crates/bin/marie/src/debug.rs:85-116 | over the debugger's device k undos and k steps give the same machine and journal, up to how its queues divide the same stream |
| `ReplayedIo.PlayCommutes` | crates/lib/mrs-vm/src/io.rs:34-82 | a device that simulates another does so through whole sessions |
| `Refinement.MicrocodeRefinesInstructions` | crates/lib/mrs-vm/src/microcode.rs:84-183 | from a boundary, finishing the cycle changes AC, PC, IN, OUT, memory and device exactly as the instruction of each of the fifteen opcodes says, or stops where it does |
| `Refinement.FinishingPartWay` | crates/lib/mrs-vm/src/lib.rs:410-422 | finishing from any point of a cycle reaches the state finishing from its start does |
| `Refinement.StalledInputRetries` | crates/lib/mrs-vm/src/lib.rs:660-676 | an input that stalls leaves the cycle where it was, and resuming it is exactly the input phase again |
| `Running.StepIsBounded` | crates/lib/mrs-vm/src/lib.rs:635-648 | an instruction step is between one and ten micro-steps, and reaches what finishing the cycle reaches |
| `Running.ControlSafety` | crates/lib/mrs-vm/src/lib.rs:557-632 | in every reachable state, even with registers, memory and journal edited by the host between steps and the machine restarted at any address, the next micro-operation exists, a comparison has its Skipcond, every journal snapshot is well-formed, and a step ends within ten |
| `Running.SplitRun` | crates/lib/mrs-vm/src/lib.rs:371-399 | a run that used up its budget, followed by another, is the run of both budgets, unless the split is on a breakpoint with both budgets positive |
| `Running.SplitLosesBreakpoint` | crates/lib/mrs-vm/src/lib.rs:376-386 | on a breakpoint the single run stops there and the split one goes past it |
| `Running.JumpLosesBreakpoint` | crates/lib/mrs-vm/src/lib.rs:376-386 | it happens: a cleared machine with `Jump 001` loaded at 0, a breakpoint at 1 and a split after one instruction |
| `Running.SplitIsInvisibleIff` | crates/lib/mrs-vm/src/lib.rs:371-399 | the split is invisible for every further budget if and only if it is at the start or off every breakpoint |
| `Running.SlicesAreOneRun` | crates/bin/marie/src/debug.rs:332-373 | slices none of which ends on a breakpoint are one run |
| `Running.StoppingIgnoresBudget` | crates/lib/mrs-vm/src/lib.rs:371-399 | a run that stopped for any other reason is the same under every larger budget |
| `Stalling.DrivenMicroStep` | crates/lib/mrs-vm/src/io.rs:358-370 | resumed at most `stall` times, a micro-step over the stalling decorator is the micro-step over the device itself |
| `Stalling.StallsInPlace` | crates/lib/mrs-vm/src/lib.rs:664-676 | a stalled poll leaves machine, journal and inner device untouched |
| `Stalling.StallingIsAStutter` | crates/lib/mrs-vm/src/io.rs:358-370 | whole runs over the decorator, each micro-step resumed as often as the stall counter says, are runs over the inner device, whatever that device answers |
| `Stalling.ResumingBlindlyIsEnough` | crates/lib/mrs-vm/src/io.rs:358-370 | over a device that always answers, resuming up to `stall` times without looking is the same run |
| `Stalling.ScriptedInputIsOnlyDelayed` | crates/lib/mrs-vm/src/io.rs:358-384 | a scripted device, stalled and resumed without looking, gives the run it gives unstalled |
| `Stalling.SessionsStutter` | crates/lib/mrs-vm/src/io.rs:358-384 | so do whole sessions: any interleaving of driven steps, steps back, limit changes and clears over the decorator is the same moves over the inner device |
| `DisplayShadow.PictureFollowsMemory` | crates/lib/mrs-vm/src/lib.rs:784-792 | a picture painted only by the reported writes stays equal to display memory through any steps forwards and backwards |
| `DisplayShadow.DrawingRewindsExactly` | crates/lib/mrs-vm/src/io.rs:67-80 | a frontend that paints what it is told, over any rewindable device, rewinds exactly: each undo lands on the earlier machine, on the picture it showed, and that picture matches its memory |
| `Patterns.GreedyTakesAll` | crates/lib/mrs-asm/src/lexer.rs:221-229 | a greedy class followed by what cannot match earlier takes its whole run: section 22.2.2 of ECMA-262 made usable |
| `Lexer.StatementSearchIsThePattern` | crates/lib/mrs-asm/src/lexer.rs:279-374 | on every line the hand-written search returns the first match in backtracking order of the statement pattern, with the same four captures, and nothing exactly when there is no match |
| `Lexer.BlankIsThePattern` | crates/lib/mrs-asm/src/lexer.rs:231-241 | likewise for blank and comment lines |
| `Lexer.OriginIsThePattern` | crates/lib/mrs-asm/src/lexer.rs:242-277 | likewise for `ORG` lines |
| `Lexer.SkipWhitespace` | crates/lib/mrs-asm/src/lexer.rs:223-228 | the loop ends at the end of the run |
| `Lexer.SearchStatement` | crates/lib/mrs-asm/src/lexer.rs:279-301 | the loop that gives back leading whitespace finds what the search on values finds |
| `Lexer.SearchWithLabel` | crates/lib/mrs-asm/src/lexer.rs:303-319 | the label loop: up to the first comma or slash, and not empty |
| `Lexer.SearchBody` | crates/lib/mrs-asm/src/lexer.rs:321-343 | the operator loop takes the shortest operator whose remainder matches |
| `Lexer.SearchAfterMnemonic` | crates/lib/mrs-asm/src/lexer.rs:345-366 | the operand loop takes the shortest operand with a consumable tail, and prefers an operand to none |
| `LineShapes.StatementShape` | crates/lib/mrs-asm/src/lexer.rs:279-374 | the parts of a statement are non-empty, in order and apart, the label ends at its comma and the comment at the end of the line |
| `Literals.AddressLiteralsMeanWhatTheySpell` | crates/lib/mrs-asm/src/assembler.rs:218-250 | a hexadecimal operand of any length is accepted exactly when its unbounded value is at most FFF, and then is that value |
| `Literals.SuggestedRepairParses` | crates/lib/mrs-asm/src/assembler.rs:205-216 | whenever a leading zero is suggested, adding it makes a literal of the intended value |
| `Literals.LiteralsMeanTheirInteger` | crates/lib/mrs-core/src/literal.rs:92-108 | in each of the four bases a literal is accepted exactly when its unbounded signed value is in range, and is that value modulo 2^16; every rejection has its reason |
| `Literals.PrefixedLiteralsMeanTheirInteger` | crates/lib/mrs-core/src/literal.rs:110-176 | typed input is accepted exactly when the digits after its prefix spell, in the prefix's base, a signed value in range, and is that value modulo 2^16 |
| `Syntax.MarieIsSane` | crates/lib/mrs-asm/src/parser.rs:269-278 | the actual mnemonic table and Unicode whitespace meet what the theorems ask of a dialect |
| `Syntax.JoinLines` | crates/lib/mrs-asm/src/parser.rs:37-60 | splitting a source at newlines loses nothing |
| `Syntax.LinesJoin` | crates/lib/mrs-asm/src/parser.rs:37-60 | lines without newlines, joined, split into the same lines |
| `Parser.LineParser.ParseSource` | crates/lib/mrs-asm/src/parser.rs:37-99 | the line loop that updates one parse result in place is the first pass on values |
| `Parser.LineParser.OnStatement` | crates/lib/mrs-asm/src/parser.rs:134-211 | one statement line in place: full memory, rejected label, `END`, or a new item |
| `Parser.LineParser.Define` | crates/lib/mrs-asm/src/parser.rs:221-267 | a label is recorded or the first of its faults reported |
| `Assembler.AssembleProgram` | crates/lib/mrs-asm/src/assembler.rs:26-37 | the second pass as its loop: a word per item, references and diagnostics accumulated in order |
| `Assembler.AssembleSource` | crates/lib/mrs-asm/src/lib.rs:233-247 | both passes together |
| `Consistency.TwoPassConsistency` | crates/lib/mrs-asm/src/parser.rs:37-266 | for every source: as many words as items, item i at origin plus i, every label at its item's address or one past the last word on `END`, the source map's directions inverse, `ORG` above every address, everything inside memory, and success exactly when no line and no item was in error |
| `Consistency.ImageHoldsTheWords` | crates/lib/mrs-asm/src/lib.rs:190-199 | an image exists exactly when assembly succeeded; it holds the words at the origin and zero elsewhere |
| `Consistency.WordsMeanTheirLines` | crates/lib/mrs-asm/src/assembler.rs:39-203 | end to end: in a program that assembles, the word of a literal line is the integer written, modulo 2^16, and every other word decodes to the operator written, with the hexadecimal value or the address of the label written after it |
| `Consistency.OriginMeansItsDigits` | crates/lib/mrs-asm/src/parser.rs:121-131 | the digits of every `ORG` line are the origin they spell; neither the fallback nor the mask is ever needed |
| `Consistency.WordsFollowItems` | crates/lib/mrs-asm/src/assembler.rs:26-89 | each word depends on its own item and the addresses of labels only, not on references recorded before it |
| `LineEdits.ReplaceLabel` | crates/lib/mrs-asm/src/lexer.rs:279-319 | a line whose label is replaced by a plain name lexes to the same parts, moved |
| `LineEdits.ReplaceOperand` | crates/lib/mrs-asm/src/lexer.rs:321-374 | a line whose operand is replaced by a plain name lexes to the same parts, the comment moved; no label appears |
| `RenamedLines.AcceptedNamesArePlain` | crates/lib/mrs-lsp/src/features/navigation.rs:92-109 | what the rename accepts has no whitespace, comma or slash and no leading digit |
| `RenamedLines.RenamedLineIsTheSame` | crates/lib/mrs-lsp/src/features/navigation.rs:142-176 | a renamed line is the same statement: same operator, the label and the looked-up operand renamed if they were the name, everything else kept, and never an `ORG` line |
| `TextEdits.ApplyLastFirst` | crates/lib/mrs-lsp/src/features/navigation.rs:158-165 | applying all edits at once is applying them one by one from the end |
| `TextEdits.TextEdited` | crates/lib/mrs-lsp/src/features/navigation.rs:142-176 | edits within lines edit the text line by line, whatever the lines |
| `RenameSites.ReferencesAreUses` | crates/lib/mrs-asm/src/assembler.rs:170-203 | the second pass records exactly the looked-up uses of each label, in source order, and nothing else about it |
| `RenameSites.RenameSpansAreTheSites` | crates/lib/mrs-asm/src/symbols.rs:148-156 | the spans a rename edits are exactly the places, line by line, where the name is a label or a looked-up operand; they are non-empty and no two overlap |
| `RenamedPrograms.LineIsTheSame` | crates/lib/mrs-asm/src/parser.rs:37-266 | a renamed line adds the same item, label and map entry to a renamed program, and stops the parse exactly when the original does |
| `RenamedPrograms.WordIsTheSame` | crates/lib/mrs-asm/src/assembler.rs:39-203 | a renamed item against the renamed table emits the same word |
| `RenameMeaning.RenamePreservesMeaning` | crates/lib/mrs-lsp/src/features/navigation.rs:92-176 | for every source that assembles, every label and every accepted name, the edited text assembles to the same words, origin, source map and labels, the one name replaced |
| `Carets.CaretFindsItsLabel` | crates/lib/mrs-asm/src/symbols.rs:131-146 | for every source, caret and order of the table, the search finds the one label the caret touches in the right role; there is never a second, and nothing is found on none |
| `RenameRequests.ServerFindsItsLabel` | crates/lib/mrs-lsp/src/features/navigation.rs:17-25 | in every encoding the label found under a position, by byte offsets, is the one written around that character |
| `RenameRequests.RangeCoversSpan` | crates/lib/mrs-lsp/src/encoding.rs:133-136 | a range sent to the client reads back as the characters it was made for |
| `RenameRequests.RenameRequestPreservesMeaning` | crates/lib/mrs-lsp/src/features/navigation.rs:142-176 | for every source that assembles, every encoding, position and new name: ranges are sent exactly for a label under the position and a free, fit name; they do not overlap, and replacing what they cover keeps the meaning of the program; otherwise the answer is nothing, or a refusal, each exactly when it should be |
| `Cfg.MarkReachable` | crates/lib/mrs-lint/src/cfg.rs:81-104 | the worklist marks exactly the words some path of in-program edges through code leads to from the first |
| `Cfg.Lint` | crates/lib/mrs-lint/src/lints/flow.rs:29-185 | the six lints together report exactly the words their predicates hold of |
| `Cfg.FindOutside` | crates/lib/mrs-lint/src/lints/flow.rs:161-185 | the loop reports exactly the reachable words with an edge outside the program |
| `Cfg.FindSelfModifying` | crates/lib/mrs-lint/src/lints/hazards.rs:198-228 | the loop reports exactly the stores onto reachable code |
| `Soundness.AssembledProgramsEncode` | crates/lib/mrs-asm/src/assembler.rs:39-89 | the words of an assembled program decode to the opcodes the graph reads off the source |
| `Soundness.LintsAreSound` | crates/lib/mrs-lint/src/cfg.rs:62-134 | if an exact program has none of the five findings, then after any number of micro-steps over any device and any other memory every boundary is on a reachable code word, no reachable word is overwritten, nothing called unreachable runs, and no opcode is invalid |
| `Soundness.LintedRunsAreSafe` | crates/lib/mrs-vm/src/lib.rs:367-400 | so a run of any budget with any breakpoints ends safely and never on an invalid opcode |
| `Soundness.LintedSlicesAreSafe` | crates/bin/marie/src/debug.rs:332-373 | so does `continue`, slice after slice, whether or not a slice ends on a breakpoint |
| `LintedRuns.LintAndRun` | crates/bin/marie/src/run.rs:75-133 | assembling, linting, loading and running in one machine: if the lints are silent about an exact graph, the run is safe, whatever was in the machine |
| `LintedRuns.LintAndRunInSlices` | crates/bin/marie/src/run.rs:75-170 | the same for the command's own loop: without breakpoints, in slices, counting steps against a budget |
| `LintedRuns.LintAndDebug` | crates/bin/marie/src/debug.rs:118-147 | the same for the debugger: with a journal of any limit and any breakpoints, continued in slices |
| `LintedRuns.HaltIsLinted` | crates/lib/mrs-lint/src/cfg.rs:62-134 | the text `Halt` meets every hypothesis of the soundness theorem |
| `SelfRewriting.SourceAssembles` | crates/lib/mrs-asm/src/lib.rs:233-247 | the five-line source assembles, and to the words and the graph of the counterexample |
| `SelfRewriting.ExactIsNotEnough` | crates/lib/mrs-lint/src/cfg.rs:172-175 | that source has an exact graph and executes the instruction its graph calls unreachable |
| `Positions.NewLineIndex` | crates/lib/mrs-asm/src/span.rs:124-135 | one pass over the UTF-8 bytes finds the line starts that the parser's running base counts |
| `Positions.LineIndex.LineOf` | crates/lib/mrs-asm/src/span.rs:147-159 | the last line that starts at or before the offset |
| `Positions.Converter.FindOffset` | crates/lib/mrs-lsp/src/encoding.rs:118-131 | the column loop finds the offset of the specification |
| `Positions.PositionRoundTrips` | crates/lib/mrs-lsp/src/encoding.rs:103-131 | in UTF-8, UTF-16 and UTF-32 the position of every character boundary leads back to it |
| `Positions.PositionsAreMonotone` | crates/lib/mrs-lsp/src/encoding.rs:103-112 | positions are strictly ordered as offsets are |
| `Positions.OffsetIsTheLeastBoundary` | crates/lib/mrs-lsp/src/encoding.rs:114-131 | any position at all: no offset exactly when there is no such line, else the first boundary at or past the column, else the end of the line |
| `Tokens.Tokenize` | crates/lib/mrs-asm/src/lexer.rs:114-123 | the token loop over all lines |
| `Tokens.TokensAreOrdered` | crates/lib/mrs-asm/src/lexer.rs:114-169 | the tokens of any source are non-empty, in order, disjoint, inside it and each on one line |
| `Tokens.Difference` | crates/lib/mrs-lsp/src/features/tokens.rs:79-88 | the two subtractions never go below zero and lead from the last token to the next |
| `Tokens.SemanticTokens` | crates/lib/mrs-lsp/src/features/tokens.rs:44-102 | reading the differences back, as version 3.17 of the Language Server Protocol does, gives the absolute position, length and style of every token |
| `Tokens.DrawnTokensAreApart` | crates/lib/mrs-lsp/src/features/tokens.rs:74-100 | every classified token is drawn, as long as the text it covers, and ends before the next one begins |

## Left out

- The breakpoint bitset (crates/lib/mrs-vm/src/breakpoints.rs): breakpoints are a set of addresses.
- The marker types `Ready`, `Running`, `Stepping` and `Terminated`: every method takes a valid machine.
- `run` without a budget, which need not end; `flash_program` and `flash_memory`, which only overwrite.
- MarieVM.Uninterrupted: Ctrl-C is the number of slices after which it is seen, so a run with no step budget and no Ctrl-C is not covered.
- MarieVM.ResumeInSlices: likewise bounded by the number of slices.
- Registers, the symbol table and the source map are values held in fields that methods reassign, not objects of their own.
- MarieVM.MarieVMCore.MicroStep: the device is a value with a record of operations inside the machine; aliasing of a device between machines is not captured.
- Terminals.ReplayIoSimulatesVecIo: after a failed read every later one fails alike; the message printed about a line that does not parse is left out.
- The in-place `VecIo`, `StdinIo`, `Flaky` and `ReplayIo`, each a few one-step updates: they are the operations of `Devices` and `Terminals`.
- Stalling.StallingIsAStutter: for inner devices without a display hook, since the decorator does not pass the hook on.
- Display colours and channel widening, animation pacing, terminal drawing.
- The spans of the parser and assembler count characters; bytes appear in `Positions` and `RenameRequests`; the line starts of `Positions` are proved to be the parser's bases measured in bytes. The width of a `u32` offset is not modelled.
- Diagnostics keep their code, span and line; wording, help labels, severities and lint levels are left out.
- Lexer.StatementSearchIsThePattern: `.` is any character of the line, and the comment is a named group where the quoted pattern leaves it unnamed.
- The `JumpI` and `StoreI` cases of the lints beyond `exact`, and the lints about Skipcond operands.
- RenameMeaning.RenamePreservesMeaning: says nothing about programs with errors, and not that a name refused because it is taken would have broken the program.
- RenameSites.RenameSpansAreTheSites: states the spans in characters; `RenameRequests` carries them to the client's ranges and back.
- Documents, JSON, hover, completion and hints of the language server.
