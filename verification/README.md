# Models of NuttX shell, audio and Modbus logic

Dafny models of the parts of NuttX and its application tree in which state is carried
across many calls: the NSH script machine, the NSH argument parser and expander, the NSH
variable store, output redirection, `dd`, the `help` listing, the PCM fast-forward decoder,
the composite audio device, the run-length encoder of the bitmap converter and the event
loops of the Modbus master and slave. Code that works in place is modelled in place, on
arrays and object fields, and proved against a specification function; the laws are proved
about the specification functions and hold for every input or every run.

| files | what is modelled |
|---|---|
| ScriptMachine, ScriptTree, ScriptRefinement, ScriptInvariant, ScriptShell | if/then/else/fi, while/until/do/done and break as a flat machine with two stacks, the tree interpreter it refines, the invariant of all scripts, and the machine on the arrays of the console |
| ScriptTelling, ScriptExact, ScriptFrames, ScriptShort, ScriptBreak, ScriptRescue, ScriptIgnored | exactly when the machine agrees with the tree |
| ScriptErrors | keywords out of place |
| ScriptJoined, ScriptSplit, ScriptLayout | scripts with a command on the line of `then`, `else` or `do` |
| Escape, LineBuffer, Expander, ExpansionLaws, ExpansionWhole, Tokenizer, TokenPieces, TokenRoundTrip | backslash escaping, expansion and tokenizing of a command line edited in place |
| VarSpec, VarStore | the packed `name=value` buffer as a map |
| Redirection | who closes the redirection file on each path of a command |
| DdSpec, Dd | the transfer loop of `dd` over short reads and writes |
| HelpList | the column-major command list |
| PcmSpec, PcmDecoder, PcmStream, PcmRuns | in-place sub-sampling across buffers, rate changes, and one WAV stream after another |
| CompositeAudio | switching several devices on and off as one |
| Bytes | bytes and their concatenation, shared by `dd` and the decoder |
| Bitmap | colour quantization and run-length encoding of a row |
| ModbusTable, ModbusSlave, ModbusMaster | handler registration, dispatch, replies and the events of a master request |

Commands, devices, files and handlers are oracles: a list of results, a schedule of short
reads and writes, or a function. Stack depths, table sizes, the number of slaves and the
other CONFIG constants are unconstrained parameters. The build modelled for the parser has
CONFIG_NSH_QUOTE, CONFIG_NSH_ARGCAT and CONFIG_NSH_CMDPARMS.

Where the code does not do what its comments or its documentation suggest, the code is
modelled as it is, and the exact condition under which the expected law holds is proved:

- A loop standing directly in the body of another loop runs its test even when the body is
  skipped, and a `break` below an `if` of its own loop drops the if-stack back to the loop, so
  that the keywords that follow are taken for the wrong `if`. The script machine agrees with
  the tree interpreter exactly on scripts with neither (`ScriptBreak.RefinesIffRegular`). Where
  such a `break` comes first, this is proved for scripts that stop at failures and in which no
  loop with a `break` of its own is around an irregular loop. Both conditions are needed: that
  `break` can put the if-stack right again (`ScriptRescue.RescuedAgrees`), and with failures
  ignored the error at `fi` can pass unnoticed (`ScriptIgnored.IgnoredAgrees`).
- With failures ignored, a failing command drops the rest of its line
  (`ScriptRefinement.FailureDropsLine`, `ScriptExact.RestOfLineDropped`).
- The bytes to skip between samples are kept in 8 bits, so fast forward has the requested
  factor exactly when align*(factor-1) is below 256 (`PcmStream.FactorExact`), and keeps
  samples whole exactly when the truncated skip is a multiple of align
  (`PcmStream.AlignmentExact`), at every rate exactly for alignments that divide 256 or are a
  multiple of it (`PcmStream.EveryRateWhole`).
- Fast forward counts samples from the byte at which it was asked for, so a change from normal
  play keeps samples whole exactly at a multiple of align (`PcmStream.SwitchExactly`).
- A keyword out of place stops a script exactly if it does not fall into a test: a loop keyword
  behind an `if` that awaits its `then`, or an if keyword behind `while` or `until`, is taken for
  the failure of that test (`ScriptErrors.LoopErrorStopsExactly`,
  `ScriptErrors.ItefErrorStopsExactly`, with the input in `ScriptErrors.ErrorSwallowed`).
- Words behind `then` or `else` on its line are run as a command even if they are keywords
  (`ScriptJoined.BehindThen`, `ScriptJoined.BehindElse`).
- The sub-sampling phase is not cleared between streams, so a second stream is sub-sampled
  from its first byte exactly when the payload of the first was a whole number of periods
  (`PcmRuns.SecondStreamExactly`).
- Values of variables are dequoted after expansion, so they arrive unchanged exactly when
  they hold no backslash (`ExpansionLaws.VariableVerbatimExactly`), and an argument is the sum
  of its parts exactly when no part that ends in an open escape is followed by an odd number
  of backslashes (`ExpansionLaws.ExpansionIsCompositional`).
- `dd` counts sectors in 32 bits, so with a skip it loses sectors once the counter wraps
  (`DdSpec.CopiedIsWantedExactly`).
- A redirected command whose handler runs closes its file once exactly if, in the foreground,
  the handler leaves the redirection flag set, and, in the background, leaves it clear, as the
  clone has it. This is for descriptors other than an unopened 1, which is taken for standard
  output and not closed; `Redirection.ClosesOnceExactly` has all cases. A handler that runs
  another command on the same console clears the flag, so a foreground redirection then leaves
  the file open and the console writing to it (`Redirection.NestedForeground`). Even when the
  file is closed once, a message of the shell itself opens the stream of a console that has
  written nothing yet, so the console is as before exactly if its stream was open or no message
  opens it (`Redirection.Execute`, with the input in `Redirection.NestedSpawn`).
- Starting a composite device that is already on can leave it partly on
  (`CompositeAudio.OnAgainExactly`). The started flag of the upper half keeps this from
  happening exactly as long as the last device to start returns OK and not a positive value
  (`CompositeAudio.Upper.StartAll`, `CompositeAudio.PositiveResultMixes`) and every device
  that is stopped does stop (`CompositeAudio.Upper.StopAll`).
- A free slot in the middle of the Modbus handler table hides the handlers behind it
  (`ModbusTable.EarlyStopExactly`, `ModbusTable.HiddenHandler`).
- The event queue of the master port is a word of bits and not a FIFO, so a ticket can be
  merged into a bit that is set. Exactly when that can happen is `ModbusMaster.PostLosesExactly`;
  with one request at a time it cannot (`ModbusMaster.OneAtATimeLosesNothing`).

Some rows pin a definition down and need little proof of their own; the weight lies beside
them: `Redirection.ClosesOnceExactly`, `Redirection.ClosedFile` and `Redirection.Unopened`
(`Redirection.Execute`), `ScriptInvariant.FiAfterBreak` (`ScriptBreak.RefinesIffRegular`),
`ScriptErrors.LoopRefusedExactly` and `ScriptErrors.ItefRefusedExactly`
(`ScriptErrors.LoopErrorStopsExactly`), `CompositeAudio.Outcomes`
(`CompositeAudio.OffResultExactly`), `DdSpec.FullCopy` (`DdSpec.SectorsCoverInput`),
`ModbusMaster.SecondFrameLost` (`ModbusMaster.PostLosesExactly`), `PcmRuns.ServeWants`
(`PcmRuns.JustTheWanted`), and `ModbusSlave.UnknownFunction`, `ModbusSlave.Dropped`,
`ModbusSlave.BroadcastUnanswered` and `ModbusSlave.EventsPass`
(`ModbusSlave.EveryFrameAnswered`).

## Model

| member | source | states |
|---|---|---|
| `ScriptRefinement.ScriptRefinesTree` | apps/nshlib/nsh_script.c:106-146 | for every well-formed and regular tree within the nesting limits (no loop directly in a loop body, no break below an if of its own loop; break elsewhere is allowed) and every sequence of command results, the flat machine comes to rest with the trace, failure flag and return status of the recursive interpreter and with both stacks as they began, and every finite prefix of its run has a prefix of that trace; commands may share lines, except that with failures ignored nothing may follow a plain command on its line |
| `ScriptRefinement.RestsWithinTree` | apps/nshlib/nsh_script.c:106-146 | the same for a script that holds the lines of the tree |
| `ScriptRefinement.PrefixOfRest` | apps/nshlib/nsh_script.c:106-146 | the trace of any number of steps is a prefix of the trace at rest |
| `ScriptRefinement.Run` | apps/nshlib/nsh_parse.c:2367-2449 | simulation of a block that is executed: the machine reaches a configuration that matches the meaning of the block, also when a break of the block leaves the loop |
| `ScriptRefinement.RunStmt` | apps/nshlib/nsh_parse.c:2367-2449 | simulation of one executed statement |
| `ScriptRefinement.RunBranch` | apps/nshlib/nsh_parse.c:2018-2178 | simulation of an executed if, then, else, fi |
| `ScriptRefinement.RunParts` | apps/nshlib/nsh_parse.c:2018-2178 | exactly one of the two parts is executed, the one that the test result and the inversion select |
| `ScriptRefinement.RunThen` | apps/nshlib/nsh_parse.c:2018-2178 | the then part is executed and the else part passed over |
| `ScriptRefinement.RunElse` | apps/nshlib/nsh_parse.c:2085-2125 | the then part is skipped and the else part, if there is one, is executed |
| `ScriptRefinement.RunLoop` | apps/nshlib/nsh_parse.c:1826-2010 | simulation of a while or until loop for every number of iterations |
| `ScriptRefinement.RunBreak` | apps/nshlib/nsh_parse.c:2727-2750 | a break of the loop whose body the block is: nothing more of the body runs, and both stacks are as before but for the loop being switched off |
| `ScriptRefinement.NotBroken` | apps/nshlib/nsh_parse.c:2727-2750 | a regular block without a break as a statement of its own never leaves the loop around it |
| `ScriptRefinement.StepBreak` | apps/nshlib/nsh_parse.c:2727-2750 | break switches the loop off, takes the if-stack back to where the loop began, and succeeds; outside a loop it does nothing |
| `ScriptRefinement.FailureDropsLine` | apps/nshlib/nsh_parse.c:2669-2687 | with failures ignored the rest of the line is dropped behind a failing command: the next command is the one that follows exactly if the failing one is the last on its line |
| `ScriptRefinement.RunLoopOut` | apps/nshlib/nsh_parse.c:1826-2010 | a loop whose test tells it to end runs nothing of its body and ends behind done |
| `ScriptRefinement.RunIteration` | apps/nshlib/nsh_parse.c:1826-2010 | one pass comes back to the line of the test, or is behind done when the body was left by break |
| `ScriptRefinement.Skip` | apps/nshlib/nsh_parse.c:1749-1819 | a block that is not enabled runs no command and leaves the stacks, the failure flag and the trace alone, provided that no loop stands directly in it where only an enclosing loop disables it |
| `ScriptRefinement.SkipStmt` | apps/nshlib/nsh_parse.c:1749-1819 | the same for one statement |
| `ScriptRefinement.SkipBranch` | apps/nshlib/nsh_parse.c:2018-2178 | a disabled if is walked through without running anything, whatever its parts hold |
| `ScriptRefinement.SkipElse` | apps/nshlib/nsh_parse.c:2106-2156 | from the end of a then part that was skipped, the else part is skipped too and fi restores the stack |
| `ScriptRefinement.SkipLoop` | apps/nshlib/nsh_parse.c:1826-2010 | a loop below a disabled if is walked through without running its test |
| `ScriptRefinement.StepIf` | apps/nshlib/nsh_parse.c:2030-2083 | an if line pushes a slot, runs its test only when enabled, and keeps the inverted result |
| `ScriptRefinement.StepThen` | apps/nshlib/nsh_parse.c:2085-2104 | then moves the awaiting slot into the then state |
| `ScriptRefinement.StepElse` | apps/nshlib/nsh_parse.c:2106-2125 | else moves the slot from then to else |
| `ScriptRefinement.StepFi` | apps/nshlib/nsh_parse.c:2127-2156 | fi pops the slot and restores the stack below it |
| `ScriptRefinement.StepLoop` | apps/nshlib/nsh_parse.c:1841-1901 | a while or until line pushes a slot with its own position and runs its test unless an if disables it, also in a disabled loop body |
| `ScriptRefinement.StepDo` | apps/nshlib/nsh_parse.c:1903-1919 | do moves the awaiting loop slot into the do state |
| `ScriptRefinement.StepDone` | apps/nshlib/nsh_parse.c:1923-1985 | done pops the loop and, when the loop is still enabled, seeks back to the line of its test |
| `ScriptRefinement.StepRunsCommand` | apps/nshlib/nsh_parse.c:471-476 | an enabled plain command consumes one result, which becomes the failure flag and, unless failures are ignored, stops the script |
| `ScriptRefinement.StepSkips` | apps/nshlib/nsh_parse.c:2432-2449 | an empty line and a disabled plain command have no effect |
| `ScriptRefinement.SaveLoopTest` | apps/nshlib/nsh_parse.c:435-456 | the result of a loop test enables the loop for while on success and for until on failure |
| `ScriptRefinement.SaveBranchTest` | apps/nshlib/nsh_parse.c:463-469 | the result of an if test is stored inverted or not and does not count as a failure |
| `ScriptBreak.RefinesIffRegular` | apps/nshlib/nsh_parse.c:1749-1766 | the machine agrees with the tree interpreter on all command results if and only if the tree is regular: no loop stands directly in the body of another loop and no break that can be reached stands below an if of its own loop; where such a break is the first irregular place, this is for scripts that stop at failures and in which no loop with a break of its own is around an irregular one |
| `ScriptBreak.BreakShows` | apps/nshlib/nsh_parse.c:2738 | for each such tree whose first irregular place is a break below an if of its own loop there is a sequence of results on which the machine never rests as the interpreter says |
| `ScriptBreak.ReachesBreak` | apps/nshlib/nsh_parse.c:2727-2750 | the machine gets to that break and leaves it with fewer branches on the if-stack than the text has around it |
| `ScriptBreak.BreakMakesShort` | apps/nshlib/nsh_parse.c:2738 | the break itself takes the if-stack below the nesting of the text |
| `ScriptBreak.TreeCompletes` | apps/nshlib/nsh_parse.c:2727-2750 | for the same results the interpreter goes on behind the loop to the end of the script and returns no error |
| `ScriptBreak.NoBreakOfItsOwn` | apps/nshlib/nsh_parse.c:2727-2750 | a loop whose body has no break as a statement has none in its frame of the text |
| `ScriptShort.NeverCompletes` | apps/nshlib/nsh_parse.c:2127-2156 | in a script that stops at failures, a run whose if-stack is lower than the nesting of the text either has stopped with an error or still has it too low, after any number of further steps and for all results |
| `ScriptShort.ShortStep` | apps/nshlib/nsh_script.c:106-146 | every command keeps it so or is an error |
| `ScriptShort.ShortOutcome` | apps/nshlib/nsh_parse.c:2367-2449 | the same for each kind of command |
| `ScriptShort.KeepBreak` | apps/nshlib/nsh_parse.c:2727-2750 | a break keeps the if-stack too low |
| `ScriptShort.TopBelow` | apps/nshlib/nsh_parse.c:2727-2750 | a break never raises the if-stack to the nesting of the text, as the loop that is left began below it |
| `ScriptShort.KeepDone` | apps/nshlib/nsh_parse.c:1923-1985 | done keeps it too low, also when it goes back to the loop line |
| `ScriptShort.KeepPop` | apps/nshlib/nsh_parse.c:2127-2156 | fi keeps it too low |
| `ScriptFrames.BelowLoop` | apps/nshlib/nsh_parse.c:1841-1901 | of what stands around a command, the part below a loop is what stands around the line of the loop |
| `ScriptFrames.FramesBehind` | apps/nshlib/nsh_parse.c:1826-2178 | a well-formed block ends in the frames in which it began |
| `ScriptFrames.BranchFrames` | apps/nshlib/nsh_parse.c:2018-2178 | an if is around its test, both of its parts and its fi, and around nothing behind |
| `ScriptFrames.LoopFrames` | apps/nshlib/nsh_parse.c:1826-2010 | a loop is around its body and its done, and around nothing behind |
| `ScriptFrames.BlockProper` | apps/nshlib/nsh_parse.c:1826-2178 | every command of a well-formed block stands where it may |
| `ScriptIgnored.IgnoredAgrees` | apps/nshlib/nsh_parse.c:2727-2750 | a script that ignores failures, is not regular and yet agrees with its tree for all results: the error at fi is passed over and a last break clears the exit status, so the exactness theorem needs its condition that the script stops at failures |
| `ScriptIgnored.RunIgnored` | apps/nshlib/nsh_parse.c:1826-2010 | the loop of that script does what the tree says up to the exit status, for every number of passes |
| `ScriptIgnored.PassStrayFi` | apps/nshlib/nsh_parse.c:2171-2178 | a fi outside of any if leaves the stacks alone and only sets the exit status |
| `ScriptRescue.RescuedAgrees` | apps/nshlib/nsh_parse.c:2738 | a script that is not regular and yet agrees with its tree for all results: the break of an outer loop puts the if-stack right again, so the last condition of the exactness theorem is needed |
| `ScriptRescue.RunInner` | apps/nshlib/nsh_parse.c:2727-2750 | the inner loop of that script does what the tree says but may leave the if-stack one lower |
| `ScriptRescue.RunMiddle` | apps/nshlib/nsh_parse.c:2018-2178 | so does the if around it |
| `ScriptRescue.OuterBreak` | apps/nshlib/nsh_parse.c:2727-2750 | the break of the outer loop leaves the same stacks in both cases |
| `ScriptRescue.RunOuter` | apps/nshlib/nsh_parse.c:1826-2010 | the outer loop does what the tree says and ends with the stacks as they were |
| `ScriptTelling.BlockBounded` | apps/nshlib/nsh_parse.c:2367-2449 | the interpreter runs only lines of the block and uses up results one by one |
| `ScriptTelling.Finishes` | apps/nshlib/nsh_parse.c:2367-2449 | every block has a sequence of results that takes the interpreter through it, to its end or to a break for a loop around it |
| `ScriptTelling.ToldFinishes` | apps/nshlib/nsh_parse.c:2727-2750 | from the first break below an if on there are results that take the interpreter to the end of the block or out of the loop around it |
| `ScriptTelling.NoLoopToLeave` | apps/nshlib/nsh_parse.c:2727-2750 | outside of a loop a break leaves nothing |
| `ScriptTelling.CompletesWell` | apps/nshlib/nsh_parse.c:471-476 | a block that completes has returned no error, unless failures are ignored |
| `ScriptExact.LoopInLoopShows` | apps/nshlib/nsh_parse.c:435-438 | for each tree whose first irregular place is a loop directly in a loop there is a sequence of results on which the machine never rests as the interpreter says |
| `ScriptExact.RunsInnerTest` | apps/nshlib/nsh_parse.c:1758-1765 | in a disabled loop body the test of a loop standing directly in it is run |
| `ScriptExact.Diverges` | apps/nshlib/nsh_parse.c:1758-1765 | at the telling results the machine runs a line that the interpreter does not run, for any block that holds such a loop |
| `ScriptExact.DivergesHere` | apps/nshlib/nsh_parse.c:1758-1765 | the same where the outer loop itself has the loop in its body |
| `ScriptExact.DivergesBody` | apps/nshlib/nsh_parse.c:1758-1765 | the same where the loop is deeper in the body |
| `ScriptExact.DivergesBranch` | apps/nshlib/nsh_parse.c:1758-1765 | the same where it is in a part of an if |
| `ScriptExact.BreakBelowIfStopsScript` | apps/nshlib/nsh_parse.c:2727-2750 | the shortest such script: a break below an if in a loop makes the following fi fail and stops the script, after exactly the two tests |
| `ScriptExact.RestOfLineDropped` | apps/nshlib/nsh_parse.c:2669-2687 | two commands on one line with failures ignored: when the first fails the second is not run, although the tree runs it |
| `ScriptInvariant.RunKeepsInv` | apps/nshlib/nsh_script.c:106-146 | on every list of commands, however ill-formed, with break and errors, after any number of steps both stack indices are in range, slot 0 of each stack is normal, every loop slot strictly between 0 and the top is in the do state, and slots remember if-stack indices in range |
| `ScriptInvariant.InternalErrorsUnreachable` | apps/nshlib/nsh_parse.c:1936-2151 | neither of the two impossible-state branches of done and fi is reachable in any run |
| `ScriptInvariant.FiAfterBreak` | apps/nshlib/nsh_parse.c:2106-2156 | the keyword that follows a break below an if is taken for the if in which the loop itself stands: fi closes it and else moves it into its else part, and both are rejected exactly where there is no such if |
| `ScriptInvariant.StepKeepsInv` | apps/nshlib/nsh_script.c:106-146 | one step of the script loop keeps the invariant |
| `ScriptInvariant.PerformKeepsInv` | apps/nshlib/nsh_parse.c:2367-2449 | one command keeps the invariant |
| `ScriptInvariant.ParseKeepsInv` | apps/nshlib/nsh_parse.c:2367-2449 | parsing a command keeps the invariant |
| `ScriptInvariant.LoopKeepsInv` | apps/nshlib/nsh_parse.c:1826-2010 | the loop keywords keep the invariant, errors included |
| `ScriptInvariant.ItefKeepsInv` | apps/nshlib/nsh_parse.c:2018-2178 | the if keywords keep the invariant, errors included |
| `ScriptInvariant.BreakKeepsInv` | apps/nshlib/nsh_parse.c:2727-2750 | break keeps the invariant |
| `ScriptInvariant.SaveKeepsInv` | apps/nshlib/nsh_parse.c:420-477 | saving a result keeps the invariant |
| `ScriptShell.Shell.constructor` | apps/nshlib/nsh_console.c:455-497 | a new console has both stacks empty and nothing disabled |
| `ScriptShell.Shell.CmdEnabled` | apps/nshlib/nsh_parse.c:1749-1819 | a command is enabled when both the loop and the if on top allow it, read off the stack arrays |
| `ScriptShell.Shell.SaveResult` | apps/nshlib/nsh_parse.c:420-477 | the in-place update is that of the machine |
| `ScriptShell.Shell.Loop` | apps/nshlib/nsh_parse.c:1826-2010 | while, until, do and done on the arrays give the state, the remaining words and the acceptance of the machine |
| `ScriptShell.Shell.Itef` | apps/nshlib/nsh_parse.c:2018-2178 | if, then, else and fi on the arrays give the state, the remaining words and the acceptance of the machine |
| `ScriptShell.Shell.LoopError` | apps/nshlib/nsh_parse.c:2001-2010 | an error empties the loop stack |
| `ScriptShell.Shell.ItefError` | apps/nshlib/nsh_parse.c:2171-2178 | an error empties the if stack |
| `ScriptShell.Shell.Break` | apps/nshlib/nsh_parse.c:2727-2750 | break restores the remembered if index and switches the loop off |
| `ScriptShell.Shell.Command` | apps/nshlib/nsh_parse.c:2367-2449 | one command of a line, with its result, is one performed command of the machine |
| `ScriptShell.Shell.OneCommand` | apps/nshlib/nsh_parse.c:2610-2720 | one command with the end of its line and of the file is one step of the machine |
| `ScriptShell.Shell.Run` | apps/nshlib/nsh_script.c:106-146 | the loop over the file is the run of the machine, for every script and every list of results |
| `ScriptMachine.StepsAdd` | apps/nshlib/nsh_script.c:106-146 | runs compose |
| `PcmDecoder.CopyDown` | nuttx/audio/pcm_decode.c:647-650 | an overlapping copy down in one buffer moves the bytes unharmed and leaves what lies behind |
| `PcmDecoder.Decoder.Subsample` | nuttx/audio/pcm_decode.c:510-665 | in-place sub-sampling of one buffer leaves in it exactly the kept bytes of its contents and advances the phase as the byte-wise filter does, for every buffer and every starting phase |
| `PcmDecoder.Decoder.CompletePartial` | nuttx/audio/pcm_decode.c:546-597 | a sample begun in an earlier buffer is completed at the front of the buffer |
| `PcmDecoder.Decoder.Chunk` | nuttx/audio/pcm_decode.c:604-658 | one turn of the loop: skip, or copy down one sample or the part of it that is there |
| `PcmDecoder.Decoder.Round` | nuttx/audio/pcm_decode.c:604-658 | a turn keeps the agreement of buffer and filter and makes progress |
| `PcmDecoder.Decoder.MainLoop` | nuttx/audio/pcm_decode.c:604-659 | the loop reaches the end of the buffer |
| `PcmDecoder.Decoder.Configure` | nuttx/audio/pcm_decode.c:436-496 | beginning and ending fast forward clears the phase, a change of rate keeps it |
| `PcmDecoder.Decoder.Enqueue` | nuttx/audio/pcm_decode.c:1029-1177 | one buffer: header parsing, sub-sampling, hand-over and the end of the stream are one served request |
| `PcmDecoder.Decoder.PassDown` | nuttx/audio/pcm_decode.c:1067-1072 | the lower driver gets the bytes between the current and the last byte |
| `PcmSpec.KeptConcat` | nuttx/audio/pcm_decode.c:510-665 | the filter over two pieces of a stream is the filter over the whole |
| `PcmSpec.KeptSkip` | nuttx/audio/pcm_decode.c:608-620 | bytes within the skip are dropped |
| `PcmSpec.KeptSample` | nuttx/audio/pcm_decode.c:624-658 | bytes of one sample are kept and a complete sample starts the next skip |
| `PcmStream.CuttingDoesNotMatter` | nuttx/audio/pcm_decode.c:510-665 | for every cutting of a stream into buffers the concatenated output is the bytes whose index modulo align times factor is below align |
| `PcmStream.FactorExact` | nuttx/audio/pcm_decode.c:436-496 | the filter keeps one sample in `subsample` for all inputs if and only if align*(factor-1) fits in the 8-bit skip field |
| `PcmStream.KeptFromStart` | nuttx/audio/pcm_decode.c:510-665 | without that condition the period is align plus the truncated skip |
| `PcmStream.KeptIsSelect` | nuttx/audio/pcm_decode.c:510-665 | the byte-wise filter at any phase selects by index modulo the period |
| `PcmStream.PlayedIsKept` | nuttx/audio/pcm_decode.c:510-665 | buffer by buffer filtering is filtering of the concatenation, from any phase |
| `PcmStream.StartsFreshExactly` | nuttx/audio/pcm_decode.c:436-496 | the filter selects from the first byte if and only if its phase is clear |
| `PcmStream.RateChangesKeepAlignment` | nuttx/audio/pcm_decode.c:436-496 | the mask of any interleaving of buffers and rate changes, to normal play and back too, consists of whole samples at multiples of align, if each rate keeps samples whole and each change from normal play to fast forward comes at a multiple of align |
| `PcmStream.SwitchExactly` | nuttx/audio/pcm_decode.c:436-496 | a stream that is played normally for k bytes and then in fast forward keeps samples whole, however long it goes on, if and only if k is a multiple of align |
| `PcmStream.OffBeatSwitch` | nuttx/audio/pcm_decode.c:479-489 | otherwise the next align + 1 bytes hold a broken sample |
| `PcmStream.AlignmentExact` | nuttx/audio/pcm_decode.c:436-496 | samples stay whole for streams of every length if and only if the truncated skip is a multiple of align |
| `PcmStream.BrokenSample` | nuttx/audio/pcm_decode.c:436-496 | otherwise the first sample after a skip is broken |
| `PcmStream.WholeSamplesWhen` | nuttx/audio/pcm_decode.c:436-496 | the condition holds within the 8-bit range and, at every rate, for an alignment that divides 256 |
| `PcmStream.EveryRateWhole` | nuttx/audio/pcm_decode.c:436-496 | samples stay whole at every rate if and only if the alignment divides 256 or is a multiple of it, as those of all usual formats |
| `PcmStream.BrokenRate` | nuttx/audio/pcm_decode.c:436-496 | for any other alignment there is a rate that breaks samples |
| `PcmStream.AlignedAdvance` | nuttx/audio/pcm_decode.c:604-658 | one byte keeps the alignment invariant |
| `PcmStream.AlignedRun` | nuttx/audio/pcm_decode.c:436-665 | any run keeps the alignment invariant |
| `PcmStream.KeptIsMasked` | nuttx/audio/pcm_decode.c:510-665 | the kept bytes are those that the mask of positions marks |
| `PcmStream.MaskAt` | nuttx/audio/pcm_decode.c:510-665 | position i is marked when its index modulo the period is below align |
| `PcmStream.Serve` | nuttx/audio/pcm_decode.c:791-1147 | a streaming decoder is ready, and a partly kept sample and a pending skip exclude each other |
| `PcmStream.StreamingExactly` | nuttx/audio/pcm_decode.c:791-1147 | streaming is on exactly when an accepted header came and since then no final buffer, stop or shutdown, for every list of requests |
| `PcmStream.RunningStream` | nuttx/audio/pcm_decode.c:1045-1073 | the buffers of a running stream are handed down sub-sampled one by one |
| `PcmStream.WavStreamArrives` | nuttx/audio/pcm_decode.c:1029-1147 | for a WAV stream with accepting lower driver the bytes handed down are the payload behind the header, sub-sampled at the present rate |
| `PcmRuns.SecondStreamExactly` | nuttx/audio/pcm_decode.c:1029-1147 | when a first WAV stream has been played to its final buffer in fast forward within the 8-bit range, a second one of any alignment within that range is sub-sampled from its first byte, whatever it holds, if and only if the payload of the first was a whole number of periods align times factor |
| `PcmRuns.JustTheWanted` | nuttx/audio/pcm_decode.c:791-1147 | over any run of requests, with buffers refused, failing configurations, stops and streams one after the other, just the buffers of running streams and those behind an accepted header reach the lower driver, one each and in order, and in normal play as they are |
| `PcmRuns.ServeWants` | nuttx/audio/pcm_decode.c:1029-1147 | one request: whether a buffer is handed down and whether the stream goes on; a refused buffer leaves the decoder as it was |
| `PcmRuns.FreshExactly` | nuttx/audio/pcm_decode.c:1029-1147 | a stream is sub-sampled from its first byte, whatever it holds, if and only if the decoder is left with a clear phase |
| `PcmRuns.TooMuchLeft` | nuttx/audio/pcm_decode.c:540-597 | a stream whose samples are no longer than the part of a sample left over before is never sub-sampled from its first byte |
| `PcmRuns.FastForwardKeepsAlignment` | nuttx/audio/pcm_decode.c:436-665 | from the request that begins fast forward on, over any buffers and further rates that each keep samples whole, normal play among them, the bytes handed down are whole samples, each at a multiple of align from there, if fast forward is taken up again only at such places |
| `PcmRuns.WavStreamWithRates` | nuttx/audio/pcm_decode.c:1029-1147 | a WAV stream with any rate changes while it runs, at any rate to begin with: the bytes handed down are those of the payload that the mask of the run marks, and they are whole samples if each rate keeps samples whole and fast forward begins at multiples of align |
| `PcmRuns.FeedingIsMasked` | nuttx/audio/pcm_decode.c:510-665 | a streaming decoder hands down just the bytes that the mask of the run marks, over any buffers and any rate changes, normal play among them |
| `PcmRuns.NormalAgain` | nuttx/audio/pcm_decode.c:436-496 | once the rate is back at normal, every buffer is handed down as it is, whatever the phase was before |
| `PcmRuns.LeftOverExactly` | nuttx/audio/pcm_decode.c:540-659 | after n bytes nothing is left over exactly at a multiple of the period |
| `PcmRuns.PhaseMoves` | nuttx/audio/pcm_decode.c:540-659 | the phase after k bytes and n more is that after k + n |
| `PcmRuns.BehindStream` | nuttx/audio/pcm_decode.c:1029-1147 | the state in which a whole stream leaves the decoder |
| `ScriptLayout.JoinedRefinesTree` | apps/nshlib/nsh_script.c:106-146 | scripts with commands on the line of then, else or do: if splitting these lines gives the lines of a well-formed and regular tree, the script comes to rest with the trace, failure flag and number of commands run that the tree says, up to the numbers of the commands |
| `ScriptLayout.JoinedRests` | apps/nshlib/nsh_script.c:106-146 | a run of the split script that comes to rest is matched by a run of the script itself, for every start on the track |
| `ScriptLayout.PlainStep` | apps/nshlib/nsh_parse.c:2367-2449 | a step at a line that is not split is the step of the split script |
| `ScriptLayout.FirstHalf` | apps/nshlib/nsh_parse.c:2367-2449 | the split script goes over a keyword in one step that runs nothing and leaves the state in which the joint line goes on |
| `ScriptLayout.SecondHalf` | apps/nshlib/nsh_parse.c:2367-2449 | the step behind the keyword is the step of the joint line |
| `ScriptLayout.ErrorHalf` | apps/nshlib/nsh_parse.c:2367-2449 | a keyword out of place stops both at once |
| `ScriptErrors.LoopErrorStopsExactly` | apps/nshlib/nsh_parse.c:2402-2406 | in every reachable state, a loop keyword out of place runs nothing and closes all loops; it stops the script if and only if no if awaits its then, and otherwise is taken for the failure of the test of that if |
| `ScriptErrors.ItefErrorStopsExactly` | apps/nshlib/nsh_parse.c:2412-2416 | an if keyword out of place runs nothing and closes every if; it stops the script if and only if it does not stand behind while or until, where it is taken for the failure of the test |
| `ScriptErrors.LoopRefusedExactly` | apps/nshlib/nsh_parse.c:1826-2010 | which commands nsh_loop refuses: a loop without test, within a test or too deep, a do or any other command where the other is due, a done with words behind it, without a loop or before its do |
| `ScriptErrors.ItefRefusedExactly` | apps/nshlib/nsh_parse.c:2018-2178 | which commands nsh_itef refuses: an if without test, within a test or too deep, a then or any other command where the other is due, an else without then, a fi with words behind it or outside a then or else part |
| `ScriptErrors.ErrorSwallowed` | apps/nshlib/nsh_parse.c:2402-2406 | the script if a, do, then, b, fi ends without an error and does not run b although a succeeds |
| `ScriptJoined.BehindThen` | apps/nshlib/nsh_parse.c:2085-2125 | then with words behind it is then on its own followed by these words as a command, whatever they are: a keyword among them is run as a command |
| `ScriptJoined.BehindElse` | apps/nshlib/nsh_parse.c:2085-2125 | the same for else |
| `ScriptJoined.BehindDo` | apps/nshlib/nsh_parse.c:1903-1919 | the same for do and words that do not begin with a keyword of the if commands |
| `ScriptJoined.KeywordAlone` | apps/nshlib/nsh_parse.c:2367-2449 | a joint line does what its keyword does on its own, running nothing, and then what the words behind it do on their own |
| `ScriptJoined.TrackStep` | apps/nshlib/nsh_parse.c:2367-2449 | over every step of a script of a well-formed tree, errors and breaks included, the machine waits for a then or a do only where one stands |
| `ScriptSplit.PerformMoves` | apps/nshlib/nsh_parse.c:2367-2449 | running a command commutes with the renumbering of the commands |
| `ScriptSplit.ParseMoves` | apps/nshlib/nsh_parse.c:2018-2178 | so does the handling of every keyword |
| `ScriptSplit.SplitAt` | apps/nshlib/nsh_script.c:106-146 | where the two halves of a line stand in the split script |
| `ScriptSplit.NextLinePlace` | apps/nshlib/nsh_parse.c:2669-2687 | the next line behind either half is the next line of the script |
| `Escape.ParityAgrees` | apps/nshlib/nsh_parse.c:1172-1201 | counting backslashes backwards tells the same escaped positions as the forward scan |
| `Escape.DequotedSurviving` | apps/nshlib/nsh_parse.c:1100-1134 | dequoting drops exactly the unescaped backslashes |
| `Escape.VerbatimExactly` | apps/nshlib/nsh_parse.c:1093-1139 | dequoting leaves a string as it is if and only if it holds no backslash |
| `Escape.DequotedConcat` | apps/nshlib/nsh_parse.c:1093-1139 | dequoting splits at every place, the second part beginning escaped if the first ends so |
| `Escape.OpenEscapeBefore` | apps/nshlib/nsh_parse.c:1093-1139 | an open escape in front of a text adds a character exactly if the text begins with an odd number of backslashes |
| `Escape.EscapedPrefix` | apps/nshlib/nsh_parse.c:1012-1030 | whether a position is escaped depends only on what stands before it |
| `Escape.EscapedSuffix` | apps/nshlib/nsh_parse.c:1012-1030 | and not on a part before that ends unescaped |
| `Escape.FirstUnescaped` | apps/nshlib/nsh_parse.c:1007-1031 | the first unescaped member of a set of characters |
| `LineBuffer.Strchr` | apps/nshlib/nsh_parse.c:1007-1031 | finds the first unescaped occurrence of the character or reports none |
| `LineBuffer.ShiftDown` | apps/nshlib/nsh_parse.c:1108-1124 | the rest of the line moves down by one |
| `LineBuffer.Dequote` | apps/nshlib/nsh_parse.c:1093-1139 | in-place dequoting leaves the surviving characters, terminated, and touches nothing outside |
| `Expander.IsQuoted` | apps/nshlib/nsh_parse.c:1174-1185 | the backward parity count tells whether the position is escaped |
| `Expander.Strcspn` | apps/nshlib/nsh_parse.c:1165-1172 | the first special character |
| `Expander.FindSpecial` | apps/nshlib/nsh_parse.c:1165-1202 | the first unescaped special character of the rest of the argument |
| `Expander.CutInPlace` | apps/nshlib/nsh_parse.c:1165-1381 | what is cut off the front: a whole rest, a command in back-quotes, or a variable, with the place to go on |
| `Expander.CutReference` | apps/nshlib/nsh_parse.c:1302-1381 | a variable in braces or up to the end of the argument; a missing brace is an error |
| `Expander.Bracket` | apps/nshlib/nsh_parse.c:1322-1343 | the closing brace is the first unescaped one and ends the name |
| `Expander.DequoteCopy` | apps/nshlib/nsh_parse.c:1212-1239 | dequoting of the assembled argument |
| `Expander.ArgExpand` | apps/nshlib/nsh_parse.c:1147-1396 | the loop over an argument, editing the line in place, returns the expansion of the original text and the state that its back-quoted commands leave, each part being expanded in the state that the commands before it leave; the line outside the argument is left alone |
| `Expander.Resume` | apps/nshlib/nsh_parse.c:1147-1396 | one turn of the loop keeps the assembled text, the rest and the present state in agreement with the expansion of the whole |
| `ExpansionLaws.ExpansionIsCompositional` | apps/nshlib/nsh_parse.c:1147-1396 | an argument put together from literals, braced variables and back-quoted commands expands to the dequoted literals and the dequoted values and outputs in order, each in the state that the commands before it leave, if and only if no piece that ends in an open escape is followed by an odd number of backslashes; the state at the end is that of the last command |
| `ExpansionLaws.StatusOfCommand` | apps/nshlib/nsh_parse.c:903-957 | the exit status behind a back-quoted command is that of the command |
| `ExpansionLaws.ExpandIsReplaced` | apps/nshlib/nsh_parse.c:1147-1396 | the expansion is the dequoted text in which each piece is replaced |
| `ExpansionLaws.ClashShows` | apps/nshlib/nsh_parse.c:1093-1139 | dequoting piece by piece loses at least one character wherever an open escape meets an odd number of backslashes, and nothing otherwise |
| `ExpansionLaws.ClosedDoNotClash` | apps/nshlib/nsh_parse.c:1093-1139 | pieces that do not end in an open escape never meet in this way |
| `ExpansionLaws.OneVariable` | apps/nshlib/nsh_parse.c:1302-1381 | a braced variable alone expands to its dequoted value |
| `ExpansionLaws.BareReferenceIsLast` | apps/nshlib/nsh_parse.c:1344-1381 | an unbraced variable reaches to the end of the argument and is looked up in the state that the commands before it leave |
| `ExpansionLaws.VariableVerbatimExactly` | apps/nshlib/nsh_parse.c:1039-1085 | a value arrives unchanged if and only if it holds no backslash |
| `ExpansionLaws.LookupOrder` | apps/nshlib/nsh_parse.c:1039-1085 | a braced name other than the exit status stands for the dequoted NSH variable, else for the dequoted environment variable, else for nothing |
| `ExpansionLaws.CutAfterLiteral` | apps/nshlib/nsh_parse.c:1165-1202 | a literal in front does not change what is cut |
| `ExpansionLaws.RawVariable` | apps/nshlib/nsh_parse.c:1302-1381 | a braced variable is replaced by its value |
| `ExpansionLaws.RawOutput` | apps/nshlib/nsh_parse.c:1247-1295 | a back-quoted command is replaced by its output and the rest is expanded in the state it leaves |
| `ExpansionLaws.RawOfPieces` | apps/nshlib/nsh_parse.c:1147-1396 | replacement over any list of pieces, the state being handed on |
| `ExpansionLaws.ShowIsDequoted` | apps/nshlib/nsh_parse.c:1093-1139 | dequoting the whole is dequoting each piece, if no piece ends in an open escape |
| `ExpansionWhole.EveryArgument` | apps/nshlib/nsh_parse.c:1147-1396 | every string is a list of literals, braced variables and back-quoted commands with a tail: plain text, a variable without braces, or something not closed; its expansion is the dequoted text in which each of them is replaced, and empty in the unclosed case, whose commands have run all the same |
| `ExpansionWhole.Decomposed` | apps/nshlib/nsh_parse.c:1165-1381 | every string is such a list with such a tail |
| `ExpansionWhole.RawTail` | apps/nshlib/nsh_parse.c:1262-1268 | a back-quote or brace that is not closed gives no text, a variable without braces its value |
| `Tokenizer.ScanFindsFirstEnd` | apps/nshlib/nsh_parse.c:1586-1631 | the prev/quoted pair of the argument scan ends at the first terminator that is neither escaped nor within back-quotes |
| `Tokenizer.FindEnd` | apps/nshlib/nsh_parse.c:1586-1631 | the scan over the line |
| `Tokenizer.SkipBlanks` | apps/nshlib/nsh_parse.c:1494-1498 | leading separators are skipped |
| `Tokenizer.SkipSeparators` | apps/nshlib/nsh_parse.c:1494-1498 | just the leading separators |
| `Tokenizer.Argument` | apps/nshlib/nsh_parse.c:1476-1742 | one call: no argument at the end or at a comment, else the expanded argument, the place to go on, and the rest of the line untouched |
| `Tokenizer.Word` | apps/nshlib/nsh_parse.c:1542-1742 | a word, quoted or not, from where it begins |
| `Tokenizer.Lex` | apps/nshlib/nsh_parse.c:1476-1742 | an argument uses up at least one character |
| `Tokenizer.Arguments` | apps/nshlib/nsh_parse.c:2323-2331 | repeated calls give the first arguments of the line up to the limit, each expanded in the state that the ones before leave, and the state at the end |
| `TokenRoundTrip.PrintedIsReadBack` | apps/nshlib/nsh_parse.c:1476-1742 | for every list of non-empty strings, escaping each special character and joining with blanks, then reading arguments repeatedly, gives back exactly the list, up to the limit, whatever the variables and commands are, and runs no command |
| `TokenRoundTrip.LineIsReadBack` | apps/nshlib/nsh_parse.c:1476-1742 | round trip for whole lines: any list of escaped words, words put together from literals, braced variables and back-quoted commands, the same in double quotes, strings in double quotes (empty ones too) and redirections, with blanks, tabs or newlines between them where they do not end by themselves, and a comment or nothing at the end, is read as exactly the arguments meant, up to the limit, each expanded in the state that the commands before it leave |
| `TokenRoundTrip.TokensSkipBlank` | apps/nshlib/nsh_parse.c:1494-1498 | a blank, tab or newline in front of a line does not matter |
| `TokenRoundTrip.LexItem` | apps/nshlib/nsh_parse.c:1494-1742 | one item at the front of a line, read up to the blank behind it, the end of the line, or its own end |
| `TokenRoundTrip.LexInQuotes` | apps/nshlib/nsh_parse.c:1548-1565 | a string in double quotes is one argument, blanks and all |
| `TokenRoundTrip.LexQuoted` | apps/nshlib/nsh_parse.c:1476-1742 | an escaped word is read back whole and the scan goes on behind its blank |
| `TokenRoundTrip.ScanQuoted` | apps/nshlib/nsh_parse.c:1586-1631 | the scan does not end within an escaped word |
| `TokenRoundTrip.ExpandQuoted` | apps/nshlib/nsh_parse.c:1147-1396 | expansion takes an escaped word back to the original |
| `TokenRoundTrip.QuotedClosed` | apps/nshlib/nsh_parse.c:1093-1139 | an escaped word holds no unescaped special character and dequotes to the original |
| `TokenPieces.LexPieces` | apps/nshlib/nsh_parse.c:1586-1742 | a word of literals, braced variables and back-quoted commands, up to a blank, tab, newline or the end of the line, is read as one argument, the expansion of these pieces |
| `TokenPieces.LexQuotedPieces` | apps/nshlib/nsh_parse.c:1548-1742 | the same within double quotes, where blanks may stand; the closing one may be missing at the end of the line |
| `TokenPieces.ScanWord` | apps/nshlib/nsh_parse.c:1586-1631 | the scan ends at the end of the word: not at a blank within back-quotes and not at an escaped one |
| `TokenPieces.ScanPieces` | apps/nshlib/nsh_parse.c:1586-1631 | the scan goes over every piece |
| `TokenPieces.ExpandWord` | apps/nshlib/nsh_parse.c:1729 | the argument is the dequoted text in which each piece is replaced, in the state that the commands before it leave |
| `TokenPieces.MeansShown` | apps/nshlib/nsh_parse.c:1093-1139 | this is the sum of the dequoted pieces if and only if no open escape meets an odd number of backslashes |
| `VarSpec.PackedInjective` | apps/nshlib/nsh_vars.c:59-121 | the packed buffer determines the list of variables |
| `VarSpec.BelongsExactly` | apps/nshlib/nsh_vars.c:59-75 | the comparison tells the variable of a name from all others if and only if the name has no equals sign |
| `VarSpec.BelongsToName` | apps/nshlib/nsh_vars.c:59-75 | for such a name it is equality of names, and the loop ends within the strings |
| `VarSpec.PackedRemove` | apps/nshlib/nsh_vars.c:154-173 | taking one pair out of the packed buffer is the packed form without it |
| `VarSpec.PackedAppend` | apps/nshlib/nsh_vars.c:261-301 | a pair put at the end extends the packed form |
| `VarSpec.AsMapHas` | apps/nshlib/nsh_vars.c:101-121 | a name is bound exactly when a pair has it |
| `VarSpec.AsMapRemove` | apps/nshlib/nsh_vars.c:139-178 | removing a pair removes just its binding |
| `VarSpec.AsMapAppend` | apps/nshlib/nsh_vars.c:261-301 | appending a pair sets just its binding |
| `VarSpec.LastSetWins` | apps/nshlib/nsh_vars.c:207-364 | after any run of set and unset a name has the value of the last successful set, and is unbound when the last operation on it was an unset or a set that found no memory |
| `VarSpec.OthersUntouched` | apps/nshlib/nsh_vars.c:207-364 | a name that no operation mentions keeps its binding, also when memory runs out |
| `VarStore.CmpName` | apps/nshlib/nsh_vars.c:59-75 | a pair belongs to a name exactly if it begins with the name and an equals sign, for every name on which the loop ends within the two strings |
| `VarStore.Store.constructor` | apps/nshlib/nsh_vars.c:207-231 | no variables at first |
| `VarStore.Store.FindVar` | apps/nshlib/nsh_vars.c:101-121 | finds the place of the pair, or there is none |
| `VarStore.Store.RemoveVar` | apps/nshlib/nsh_vars.c:139-178 | the buffer is shifted down over the pair and stays packed with distinct names |
| `VarStore.Store.GetVar` | apps/nshlib/nsh_vars.c:207-231 | the bound value, also one holding an equals sign, or none |
| `VarStore.Store.SetVar` | apps/nshlib/nsh_vars.c:238-301 | binds the name to the value; without memory it reports failure and only this name is unbound |
| `VarStore.Store.Append` | apps/nshlib/nsh_vars.c:261-301 | the grown buffer holds the old pairs and the new one |
| `VarStore.Store.UnsetVar` | apps/nshlib/nsh_vars.c:309-364 | unbinds the name and nothing else, and exactly when it reports an error |
| `VarStore.Store.ForEach` | apps/nshlib/nsh_vars.c:386-418 | visits the pairs in order, each once, up to the first refusal |
| `VarStore.Store.Run` | apps/nshlib/nsh_vars.c:207-364 | over every run of set and unset the buffer stays packed with distinct names and refines the map |
| `VarStore.CutOut` | apps/nshlib/nsh_vars.c:154-173 | the bytes of the pair are cut out of the buffer |
| `VarStore.WritePair` | apps/nshlib/nsh_vars.c:297-300 | name, equals sign, value and terminator are written |
| `VarStore.ReadValue` | apps/nshlib/nsh_vars.c:222-230 | the value begins behind the first equals sign |
| `VarStore.ReadPair` | apps/nshlib/nsh_vars.c:398-415 | the whole pair as a string |
| `VarStore.PairLength` | apps/nshlib/nsh_vars.c:154 | the length of a pair with its terminator |
| `Redirection.Console.constructor` | apps/nshlib/nsh_console.c:455-497 | a new console writes to standard output and standard error |
| `Redirection.Console.OpenIfNotOpen` | apps/nshlib/nsh_console.c:101-124 | opens a stream on the descriptor only when there is none, and then error output follows it |
| `Redirection.Console.Say` | apps/nshlib/nsh_console.c:101-124 | any number of messages: the first for which the stream can be opened opens it for output and error output, and nothing changes once it is open |
| `Redirection.Console.CloseIfNotClosed` | apps/nshlib/nsh_console.c:135-159 | closes stream or descriptor once, never standard output |
| `Redirection.Console.Redirect` | apps/nshlib/nsh_console.c:364-408 | saves the four fields and directs output to the descriptor |
| `Redirection.Console.Undirect` | apps/nshlib/nsh_console.c:418-429 | restores the four fields and closes the redirected descriptor once, unless it is an unopened descriptor 1 |
| `Redirection.Console.UndirectIfSet` | apps/nshlib/nsh_parse.c:743-752 | what counts at the end of a foreground command is the redirection flag as the handler left it |
| `Redirection.Console.Handle` | apps/nshlib/nsh_console.c:172-256 | output of a command opens the stream once if it can, and keeps to the descriptor |
| `Redirection.Execute` | apps/nshlib/nsh_parse.c:483-782 | the descriptors opened and closed on every path (foreground, background, failures of open, clone, arguments, priority and thread), and the four fields after it; a file that was opened is closed exactly once and the fields are as before if and only if the command closes once and the stream of the console was open or no message on the console opens it |
| `Redirection.ClosesOnceExactly` | apps/nshlib/nsh_parse.c:483-782 | the file is closed once if and only if: in the foreground the handler leaves the flag set and the descriptor is not an unopened 1; in the background the clone or its arguments fail, or the priority or the thread fails and the descriptor is not 1, or the handler runs and exactly one of the flag and the release of the clone closes the descriptor |
| `Redirection.ClosedFile` | apps/nshlib/nsh_parse.c:483-782 | a file other than descriptor 1 is closed unless the handler of a foreground command turned the flag off, never more than twice, and twice exactly by a thread whose handler leaves the flag on |
| `Redirection.Unopened` | apps/nshlib/nsh_parse.c:483-600 | an application or a file that does not open closes nothing and leaves the console its own; and exactly when the shell adds no message to those about applications |
| `Redirection.NestedCommand` | apps/nshlib/nsh_parse.c:2390-2392 | a handler that runs a command on its own console leaves the redirection flag clear, and the fields as the messages of that command do |
| `Redirection.NestedForeground` | apps/nshlib/nsh_parse.c:722-752 | redirected in the foreground, such a handler leaves the file open and the console writing to it |
| `Redirection.NestedBackground` | apps/nshlib/nsh_parse.c:333-362 | redirected in the background, it closes the file once, unless it is an unopened descriptor 1 |
| `Redirection.NestedSpawn` | apps/nshlib/nsh_parse.c:709-719 | a redirected script that has written nothing yet starts a redirected background command: the message about it opens the stream of the script, so the fields are not as before although the command closes its own file |
| `Redirection.Spawn` | apps/nshlib/nsh_parse.c:607-719 | the background path, with each of its failures, closes what the list of the command says, tells the console about a refused priority or thread or a started one, and reports exactly whether the handler was started |
| `Redirection.ReleaseArgs` | apps/nshlib/nsh_parse.c:333-362 | the end of a background command closes the descriptor if the flag is set, and once more with the output of the clone, unless it is an unopened descriptor 1 |
| `Redirection.ExecuteAll` | apps/nshlib/nsh_parse.c:483-782 | over any list of commands that each close their file once, the descriptors closed are those opened, once each, in order, and the fields of the console are as before if and only if its stream was open or no message opens it |
| `Bitmap.QuantizeIsFirstClosest` | apps/tools/bitmap_converter.py:48-57 | the first palette entry at least distance |
| `Bitmap.QuantizedSquares` | apps/tools/bitmap_converter.py:48-57 | the chosen entry has the least sum of squared differences of the three components |
| `Bitmap.EncodeRow` | apps/tools/bitmap_converter.py:60-80 | the entries decode to the quantized row, counts are 1 to 255, and no list of entries with counts up to 255 that decodes to the row is shorter |
| `Bitmap.NoShorter` | apps/tools/bitmap_converter.py:60-80 | any list of entries with counts up to 255 has at least as many entries as the row has maximal runs |
| `Bitmap.CloseRun` | apps/tools/bitmap_converter.py:66-78 | closing a run keeps the count of entries minimal and the decoding in step |
| `Bitmap.RunsShrink` | apps/tools/bitmap_converter.py:60-80 | a suffix has no more runs |
| `Bitmap.ClosestIsLeast` | apps/tools/bitmap_converter.py:48-57 | no palette entry is closer |
| `Bitmap.ClosestIsFirst` | apps/tools/bitmap_converter.py:48-57 | entries before it are strictly farther |
| `CompositeAudio.Composite.constructor` | nuttx/audio/audio_comp.c:929-980 | all devices off |
| `CompositeAudio.Composite.SwitchOn` | nuttx/audio/audio_comp.c:310-360 | start (and likewise resume at 468-518 and reserve at 756-823): every device in order up to the first failure; on a failure the devices before it are undone in reverse order, once each, and the failure is returned |
| `CompositeAudio.Composite.RollBack` | nuttx/audio/audio_comp.c:344-355 | undo of the first n devices, last first |
| `CompositeAudio.Composite.SwitchOff` | nuttx/audio/audio_comp.c:372-408 | stop (and likewise pause at 420-456, shutdown at 274-299 and release at 833-873): every device is visited, an error is reported exactly when some device failed, and it is that of the failing device with the lowest index, the last one met |
| `CompositeAudio.OffCallsExactly` | nuttx/audio/audio_comp.c:344-355 | the undo calls are exactly the devices before the failure that can be undone, each once, in falling order |
| `CompositeAudio.OnCallsExactly` | nuttx/audio/audio_comp.c:324-342 | the start calls are exactly the devices up to the first failure that have the operation, each once, in rising order |
| `CompositeAudio.Outcomes` | nuttx/audio/audio_comp.c:330-342 | a device fails, succeeds, or takes no part, which is to have no such operation or to return -25 |
| `CompositeAudio.OffResultExactly` | nuttx/audio/audio_comp.c:383-407 | what a stop returns: the failure of the lowest failing device, else the result of the lowest device that stopped |
| `CompositeAudio.NothingReturned` | nuttx/audio/audio_comp.c:383-407 | and the initial value if no device has the operation |
| `CompositeAudio.FailureUndoesExactly` | nuttx/audio/audio_comp.c:310-360 | after a failed start all devices are off if and only if every undo of a started device succeeded |
| `CompositeAudio.OnFromOff` | nuttx/audio/audio_comp.c:310-360 | from all off, start ends with all participating devices on when none failed, and all off otherwise |
| `CompositeAudio.OnAgainExactly` | nuttx/audio/audio_comp.c:310-360 | starting again when already on leaves the devices uniform if and only if nothing failed or the failure came before any participating device |
| `CompositeAudio.OkExactly` | nuttx/audio/audio_comp.c:324-359 | a start without failure returns OK exactly if the last device to start does |
| `CompositeAudio.FlagAgrees` | nuttx/audio/audio.c:321-357 | after a start from all off the flag agrees with the devices if and only if a device failed or the last device to start returned OK |
| `CompositeAudio.PositiveResultMixes` | nuttx/audio/audio_comp.c:338-342 | a start in which the last device returns 1 switches all on but does not return OK, and a second start whose second device fails leaves the devices mixed |
| `CompositeAudio.Upper.constructor` | nuttx/audio/audio.c:937-990 | nothing started |
| `CompositeAudio.Upper.StartAll` | nuttx/audio/audio.c:321-357 | after a start all participating devices are on or all are off; the started flag agrees with them if and only if it was set before, a device failed, or the last device to start returned OK |
| `CompositeAudio.Upper.StopAll` | nuttx/audio/audio.c:469-487 | stop clears the flag whatever the devices answer, so the flag agrees with the devices if and only if it was clear or every participating device switched off |
| `CompositeAudio.Upper.Run` | nuttx/audio/audio.c:321-486 | over any run of start and stop in which undo and stop succeed and the last participating device to start returns OK, the participating devices are all on or all off, as the flag says |
| `DdSpec.CopiedIsWantedExactly` | apps/nshlib/nsh_ddcmd.c:325-366 | for every sector size, the loop copies the sectors from skip on, count of them, for every input of n sectors if and only if nothing is skipped, or the input or the part to copy ends before the 32-bit sector counter wraps round |
| `DdSpec.SectorsCoverInput` | apps/nshlib/nsh_ddcmd.c:338-343 | the sectors put together are the input padded with less than one sector of zeros |
| `DdSpec.FullCopy` | apps/nshlib/nsh_ddcmd.c:325-366 | with nothing skipped and count large enough the output is the input padded with zeros |
| `DdSpec.WrapLosesSector` | apps/nshlib/nsh_ddcmd.c:349-366 | otherwise there is an input of which a sector is lost |
| `DdSpec.SectorsOfConcat` | apps/nshlib/nsh_ddcmd.c:326-343 | sectors of one size are the sectors of what they put together |
| `DdSpec.WrittenBeforeWrap` | apps/nshlib/nsh_ddcmd.c:349-366 | before the counter wraps, the sectors written are those from skip on |
| `DdSpec.WrappedIsSkipped` | apps/nshlib/nsh_ddcmd.c:349-366 | with a skip, the sector at which the counter has wrapped to 0 is lost |
| `Dd.Files.Read` | apps/nshlib/nsh_ddcmd.c:147-165 | a read gives any positive part of what was asked for, nothing only at the end |
| `Dd.Files.Write` | apps/nshlib/nsh_ddcmd.c:115-135 | a write takes any positive part |
| `Dd.Transfer.constructor` | apps/nshlib/nsh_ddcmd.c:223-228 | start of a transfer |
| `Dd.Transfer.ReadSector` | apps/nshlib/nsh_ddcmd.c:141-165 | however short the reads are, a whole sector or all that is left is read, and the end is recognised exactly |
| `Dd.Transfer.WriteSector` | apps/nshlib/nsh_ddcmd.c:109-135 | however short the writes are, the whole sector is written; a fault leaves a prefix |
| `Dd.Transfer.Pad` | apps/nshlib/nsh_ddcmd.c:338-343 | the rest of the sector is zero |
| `Dd.Transfer.Fetch` | apps/nshlib/nsh_ddcmd.c:328-343 | the next padded sector is in the buffer, or the input has ended |
| `Dd.Transfer.Step` | apps/nshlib/nsh_ddcmd.c:326-366 | one round keeps the output equal to the sectors written so far |
| `Dd.Transfer.Copy` | apps/nshlib/nsh_ddcmd.c:325-368 | for every schedule of short reads and writes the loop ends and the output is exactly the copied sectors of the padded input, which for an input of up to 4294967296 sectors are those from skip on, count of them; a fault leaves a prefix, and without a fault the copy succeeds |
| `ModbusTable.EarlyStopExactly` | apps/modbus/mb.c:398-411 | the search that stops at a free slot equals a full scan for all function codes if and only if each code behind the first free slot also stands before it |
| `ModbusTable.DispatchStops` | apps/modbus/mb.c:398-411 | the search finds what a full scan finds before the first free slot, and nothing else |
| `ModbusTable.InUseDispatch` | apps/modbus/mb.c:398-411 | in a table without holes it equals a full scan |
| `ModbusTable.Table.constructor` | apps/modbus/mb.c:243-290 | all slots free |
| `ModbusTable.Table.Register` | apps/modbus/mb.c:243-290 | registers in the first slot that is free or has the handler, removes the first slot with the code, or reports a wrong code or a full table, changing nothing |
| `ModbusTable.Table.RegisterAll` | apps/modbus/mb.c:243-290 | over any run of registrations, also with wrong codes, the used slots stay a prefix with different handlers |
| `ModbusTable.HiddenHandler` | apps/modbus/mb.c:265-275 | two registrations and the removal of the first: the second handler is in the table and is not found |
| `ModbusTable.StillInUse` | apps/modbus/mb.c:251-264 | one registration keeps the prefix |
| `ModbusSlave.EveryFrameAnswered` | apps/modbus/mb.c:352-444 | over any run of polls with a table without holes, every good unicast frame for this slave gets exactly one reply, in order, the handler's or the two-byte exception; a broadcast and any other frame get none |
| `ModbusSlave.PollKeepsAnswered` | apps/modbus/mb.c:375-441 | one poll keeps this |
| `ModbusSlave.ReplyIsOwed` | apps/modbus/mb.c:394-435 | the reply is that of the handler found by a full scan, or the exception with the error bit set |
| `ModbusSlave.ErrorBit` | apps/modbus/mb.c:424 | the code of an exception reply is the function code with bit 7 set, which is the code plus 128 for codes below 128 |
| `ModbusSlave.UnknownFunction` | apps/modbus/mb.c:394-435 | a good frame for this slave whose function stands nowhere in the table gets, two polls later, one reply of two bytes: the code plus 128 and exception 1 |
| `ModbusSlave.KnownFunction` | apps/modbus/mb.c:394-435 | a frame whose function stands first in slot i, with no free slot before, gets the response of that handler, or the code plus 128 and its exception |
| `ModbusSlave.BroadcastUnanswered` | apps/modbus/mb.c:395-435 | a good broadcast is executed and nothing is sent |
| `ModbusSlave.Dropped` | apps/modbus/mb.c:382-393 | a bad frame or one for another address is dropped by the next poll |
| `ModbusSlave.EventsPass` | apps/modbus/mb.c:377-441 | a ready port or a sent frame takes one poll, which does nothing else, and the next poll is as if it had not been |
| `ModbusSlave.Stack.Search` | apps/modbus/mb.c:398-411 | the search loop |
| `ModbusSlave.Stack.PollOnce` | apps/modbus/mb.c:352-444 | one poll with the one-place event queue |
| `ModbusSlave.Stack.PollAll` | apps/modbus/mb.c:352-444 | any run of polls |
| `ModbusSlave.Stack.constructor` | apps/modbus/nuttx/portevent.c:54-58 | no event, nothing sent |
| `ModbusMaster.Handle` | apps/modbus/mb_m.c:299-432 | each frame, execute or error event is either passed on as an event of lower rank or releases the run resource, never both; no other event does either |
| `ModbusMaster.OneReleasePerRequest` | apps/modbus/mb_m.c:274-436 | over a lossless FIFO of events and any run of polls and posts, each request is released or pending as often as it entered, and one that entered once is released exactly when it is no longer pending, after one to three handled events |
| `ModbusMaster.PollConserves` | apps/modbus/mb_m.c:299-432 | a poll keeps the accounts of each request |
| `ModbusMaster.PostConserves` | apps/modbus/mb_m.c:299-432 | a post keeps the accounts of each request |
| `ModbusMaster.RunConserves` | apps/modbus/mb_m.c:274-436 | any run keeps the accounts of each request |
| `ModbusMaster.TicketsAccounted` | apps/modbus/nuttx/portevent_m.c:83-150 | over the event word of the port and any run, what entered is released, pending, or was merged into a bit already set |
| `ModbusMaster.StepAccounts` | apps/modbus/nuttx/portevent_m.c:83-150 | one poll or post keeps these accounts |
| `ModbusMaster.OneAtATimeLosesNothing` | apps/modbus/nuttx/portevent_m.c:83-150 | if a request enters only when none is pending, nothing is merged, at most one is pending and all others were released exactly once |
| `ModbusMaster.PollingLosesExactly` | apps/modbus/nuttx/portevent_m.c:97-150 | polling loses no ticket, whatever the lines show, if and only if at most one is pending, or an execute and an error event are and the execution succeeds on every line |
| `ModbusMaster.PostLosesExactly` | apps/modbus/nuttx/portevent_m.c:83-95 | a posted ticket is never merged and merges no other, whatever the lines show, if and only if its bit is not set and either none is pending or the two are kept apart in that way |
| `ModbusMaster.SecondFrameLost` | apps/modbus/nuttx/portevent_m.c:83-95 | two frames posted before a poll: one of them is lost |
| `ModbusMaster.PollingReleasesAll` | apps/modbus/nuttx/portevent_m.c:97-150 | polling alone empties the event word within a bound given by the pending bits and releases all that was not merged |
| `ModbusMaster.FrameOutcome` | apps/modbus/mb_m.c:274-436 | a frame received on its own leads, within three polls, to one release and to exactly the calls of its verdict: receive failure for a bad or foreign frame, execution failure for an exception frame or an unknown function, else the handler calls and their success or failure; an exception frame with code 0 counts as success |
| `ModbusMaster.PerformIsVerdict` | apps/modbus/mb_m.c:324-380 | the execution of a frame agrees with the verdict by a full scan of the table |
| `ModbusMaster.PollWorks` | apps/modbus/nuttx/portevent_m.c:97-150 | each poll lowers that bound |
| `ModbusMaster.Next` | apps/modbus/nuttx/portevent_m.c:107-130 | the fetched bit is one of those set |
| `ModbusMaster.NextIsLowest` | apps/modbus/nuttx/portevent_m.c:107-130 | the fetched event is the one with the lowest bit of those set |
| `ModbusMaster.SendPoll` | apps/modbus/mb_m.c:395-402 | a poll that finds a frame to send and no event of a lower bit sends the send buffer once, to the present destination, and changes nothing else but the event |
| `ModbusMaster.EachSentOnce` | apps/modbus/mb_m.c:274-436 | over any run of polls and posts, the frames sent and the one still to be sent are those before it and one for each post of the event that found its bit clear |
| `ModbusMaster.HandleKeeps` | apps/modbus/mb_m.c:299-432 | what each event leaves alone: ready everything; execution and a bad frame the frame; all but a frame event and execution the kind of error; all but execution and ready the destination |
| `ModbusMaster.FrameIsLast` | apps/modbus/mb_m.c:306-405 | over any run the frame held is the one that the last event to load one loaded: a good frame from the line, or the send buffer at a frame to send or an error |
| `ModbusMaster.Calls` | apps/modbus/mb_m.c:355-367 | a broadcast calls the handler once for each slave, in order |
| `ModbusMaster.Master.constructor` | apps/modbus/nuttx/portevent_m.c:70-81 | no event, nothing done |
| `ModbusMaster.Master.SetBit` | apps/modbus/nuttx/portevent_m.c:83-95 | posting sets the bit |
| `ModbusMaster.Master.Run` | apps/modbus/mb_m.c:350-374 | a broadcast calls the handler for slaves 1 to the last and keeps the last result, otherwise the addressed slave only |
| `ModbusMaster.Master.Dispatched` | apps/modbus/mb_m.c:324-380 | an exception frame, no handler, or the handler's result, with master mode off again afterwards |
| `ModbusMaster.Master.PollOnce` | apps/modbus/mb_m.c:274-436 | one poll is the switch on the fetched bit |
| `ModbusMaster.Master.Act` | apps/modbus/mb_m.c:274-436 | any run of polls and posts |
| `HelpList.EachExactlyOnce` | apps/nshlib/nsh_command.c:636-654 | every command index is printed exactly once, at row k modulo rows and column k divided by rows, and nowhere else |
| `HelpList.CommandList` | apps/nshlib/nsh_command.c:594-655 | the listing has the least number of rows that is enough, at most as many entries per row as fit on a line, and its text is that of these rows |
| `HelpList.PrintRow` | apps/nshlib/nsh_command.c:638-653 | one row is every rows-th index up to the end of the list |
| `HelpList.ColumnWidth` | apps/nshlib/nsh_command.c:606-615 | the widest name and two blanks |
| `HelpList.PerLine` | apps/nshlib/nsh_command.c:619-626 | as many columns as fit in 80 characters, at least one |
| `HelpList.CeilDivision` | apps/nshlib/nsh_command.c:630 | the number of rows is the quotient rounded up |
| `HelpList.NameInColumn` | apps/nshlib/nsh_command.c:638-653 | each name starts at the same place in its column |
| `HelpList.RowInText` | apps/nshlib/nsh_command.c:636-654 | each row of the listing stands in the text on its own line, at the place where the lines before it end |
| `HelpList.CeilExactly` | apps/nshlib/nsh_command.c:630 | the number of rows is the least that is enough exactly for this quotient |
| `HelpList.LineLength` | apps/nshlib/nsh_command.c:638-653 | each line is as wide as its columns |
| `HelpList.Pad` | apps/nshlib/nsh_command.c:643-650 | a name filled up to the column width |

## Left out

- Network, mount, file system, login, telnet, USB, route, codec and system commands, which are thin wrappers over other code.
- Built-in and file applications (`nsh_builtin`, `nsh_fileapp`): their outcome is an oracle.
- `nice` and background commands within scripts, double quotes in script lines and scripts that `source` others: the script machine works on commands already split into words.
- Byte offsets of script lines: a position is the index of a command, and `done` seeks to the line of the test; a failing seek is not modelled.
- Scripts whose first irregular place is a break below an if and which ignore failures or have a loop with a break of its own around an irregular loop: some of these agree with their tree, and the exactness theorem does not decide which; the invariant over all scripts covers them.
- Keywords on the line of `then` or `else`, such as a nested `if`: the code runs them as commands, so no tree stands for such a line; `ScriptJoined.BehindThen` and `ScriptJoined.BehindElse` say what it does.
- Splitting of variable values into several arguments and the bound on the number of argument slots; the model stops at `nsh_argument`.
- Memory exhaustion inside expansion, and the text of messages; that a message opens the stream of a console is modelled for `nsh_execute`, not for messages printed during expansion.
- What a back-quoted command does to the script stacks when its argument stands in the test of an if or a loop; the state handed on is the exit status, the NSH variables and the environment.
- Byte layout and validation of the WAV header: a header is either refused or gives its alignment.
- The two format rejections in the WAV parser that come back as true: such a header counts as accepted, as in the code.
- Session arguments of the audio operations, buffer allocation, capabilities and ioctl forwarding.
- Redirection with an alternate console device.
- ModbusTable.Table.RegisterAll: runs without removals, which leave holes; `ModbusTable.EarlyStopExactly` says when they matter.
- Framing and checksums of Modbus: a frame on the line is good or not; the enabled state of the stacks and the waiters' semaphore of the master are not modelled.
- `help_builtins`, whose rows are computed from another count than the indices printed.
- Image loading, palette extraction and C output of the bitmap converter; an empty palette, for which the original raises an exception, is excluded.
- VarStore.Store.SetVar: names with an equals sign or a terminator are excluded, because `VarSpec.BelongsExactly` shows that the comparison does not tell names with an equals sign apart; values may hold equals signs.
- VarStore.Store.FindVar: the same condition on the name.
- VarStore.Store.GetVar: the same condition on the name.
- VarStore.Store.UnsetVar: the same condition on the name.
- VarStore.Store.Run: the same condition on the names.
- VarStore.CmpName: a name that is the whole of a stored string is excluded, because the loop would run past both terminators.
- PcmDecoder.Decoder.Enqueue: a new header must have an alignment above the bytes left over of a partial sample of an earlier stream, because with less the partial-sample arithmetic of the source goes negative.
- ScriptRefinement.ScriptRefinesTree: when failures are ignored, nothing follows a plain command on its line, because the rest of a line is dropped after a failing command, as ScriptExact.RestOfLineDropped shows.
- ScriptBreak.RefinesIffRegular: the half about break asks that no loop with a break of its own is around an irregular loop, and that the script stops at failures, because the equivalence is false without these, as ScriptRescue.RescuedAgrees and ScriptIgnored.IgnoredAgrees show.
- ScriptShell.Shell.Run: runs are cut after a number of commands, because a script may loop for ever.
- CompositeAudio.Upper.Run: every undo and stop succeeds, devices without an operation never take part, and the last device to start returns OK; `CompositeAudio.FailureUndoesExactly` covers failing undos, `CompositeAudio.Upper.StopAll` failing stops and `CompositeAudio.Upper.StartAll` the other results.
- Redirection.ExecuteAll: each command closes its file once; `Redirection.ClosesOnceExactly` says exactly which do, and `Redirection.Execute` what the others close.
- PcmStream.Serve: the same condition on the alignment of a new header; it excludes alignment 0 as well, with which the sub-sampling loop would not end. The alignment is the one kept in 8 bits.
- PcmRuns.SecondStreamExactly: both alignments fit the 8-bit skip at the given rate, for which the period is align times factor.
- ScriptRefinement.StepRunsCommand: with failures ignored the command is the last on its line; `ScriptRefinement.FailureDropsLine` covers the other case.
- ScriptRefinement.RestsWithinTree: the same condition as for the whole tree.
- ScriptBreak.BreakShows: the same conditions as for the exactness theorem.
- ScriptShort.NeverCompletes: for scripts that stop at failures.
- ScriptShort.ShortStep: for scripts that stop at failures.
- PcmRuns.FastForwardKeepsAlignment: fast forward is taken up again only at multiples of align, because otherwise samples break, as PcmStream.SwitchExactly shows.
- ScriptLayout.JoinedRefinesTree: the conditions of ScriptRefinement.ScriptRefinesTree on the split script, so no keyword stands behind then or else, and no loop keyword behind do.
- TokenRoundTrip.LineIsReadBack: a word in a line is not a variable without braces, which reaches to the end of the argument, as ExpansionLaws.BareReferenceIsLast shows.
- ScriptBreak.ReachesBreak: no loop with a break of its own is around an irregular loop.
