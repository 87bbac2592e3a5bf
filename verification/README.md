# Verified models of jet-live and its libraries

jet-live reloads C++ code into a running program. This project models the logic it stands on and proves properties of
it in Dafny:

- **Code reload** (`CodeReload`, `Relocation`): hooking functions over any number of reloads, and the arithmetic that
  points reloaded code at variables that already live.
- **Compile queue** (`LinkClosure`, `CompileQueue`, `ReloadLoop`, `Dependencies`): background compilation, which
  object files a reload library needs, when it is linked, the run loop around it, and which units a changed file
  touches.
- **xxHash** (`Words`, `BlockFold`, `Mult128`, `Xxh32`, `Xxh32Change`, `Xxh64`, `Xxh3*`): the one-shot hashes, the
  streaming states that have to agree with them, the vector forms, and what XXH32 always detects.
- **Catch2** (`SectionTracker`, `Tracker*`, `Spec*`, `TextFlow`, `Xml*`): the tracker that re-runs a test once per
  path through its sections, the test-spec parser, the line wrapper and the XML encoder.
- **tiny-process-library** (`ProcessUnix`, `ProcessReader`, `JoinArguments`): the life of a child process, the thread
  that reads its output, and Windows command lines.

State that the sources update in place is a class or an array here, and each such method is proved against a function
or a property of its inputs. Choices of the outside world (results of system calls, statuses of compilers, exceptions
in test bodies) are arguments, so that every theorem holds for all of them.

`dafny verify dfyconfig.toml` verifies the whole project.

## Main results

1. `Xxh3Session.Run`: over every sequence of creations, resets of all four kinds, updates and digests, every digest is
   the one-shot hash of the bytes fed since the last reset.
2. `TrackerRun.RunTest`: for every section tree and every pattern of exceptions the run loop ends, no leaf is entered
   twice, and without exceptions each cycle runs exactly one leaf, in source order.
3. `Xxh32Change.ChangeDetected`, `Xxh32Change.OneByteDetected`: XXH32 never maps two inputs to one hash that differ in
   one aligned word or in one byte.
4. `CodeReload.Session`: for every set of programs loaded at the start, every sequence of reloads and every choice of
   refused hooks, it says exactly when all calls end in the newest versions, and for each single function that can be
   told from the others exactly when its calls do: if and only if each later version came with a library and an
   accepted hook. Nothing is asked of the other functions.
5. `SpecRoundTrip.ParsePrinted`: any list of filters is read back from its print, exactly when its tokens are plain.
   `SpecArguments.ParseAll`: several arguments are read each as if alone, unless one leaves text over.
6. `ProcessUnix.Live`: for every outcome of `pipe` and `fork` and every sequence of calls, each descriptor is closed
   exactly once, nothing is signalled after the status was collected, and all reports of the exit status agree with
   it.
7. `TextFlow.Write`, `TextFlow.EndsIff`: wrapping a column ends exactly when no line it reaches is stuck; then every
   line follows the line-end rule and fits, and it is known exactly when all visible characters are kept in order.
8. `XmlLaws`: decoding undoes encoding; the output holds no markup; `]]>` is left exactly when the input begins with
   it; a multi-byte sequence is copied exactly when it is UTF-8, one overlong form apart.
9. `ReloadLoop.Run`: in every run of the loop around the compile queue all events are handled in order, and it is known
   exactly when a compilation is requested while a link is wanted.

## Where the code does not do what one would expect

Each is proved with the exact condition under which the code does meet the property.

- Hooks: names of one address can be separated by a reload, and then calls of one of them stay at an old version
  (`CodeReload.SplitAliases`), unless a later reload brings them together (`CodeReload.RejoinedAliases`). Local
  functions of one name in files of one name are not told apart (`CodeReload.HashClash`), and of a function that
  several programs of the start share only the last one is hooked (`CodeReload.StartDuplicate`). `CodeReload.LandIff`
  gives the exact condition for all functions together, `CodeReload.FunctionLandsIff` for one.
- Relocations: the distance check at `LinkTimeRelocationsStep.cpp:54-69` neither implies nor follows from the patched
  reference reaching the variable. `Relocation.Apply` gives the exact conditions, `Relocation.CheckedButMissed` and
  `Relocation.RefusedThoughReachable` families of inputs on either side. Eight-byte relocations truncate both
  addresses to 32 bits and are right exactly when both lie in the same 2^32 window (`Relocation.WideMissed` is a pair
  that does not).
- `Compiler::compile` asserts that no link is wanted (`Compiler.cpp:133`). Over every run of the loop it finds that
  true at every call if and only if no unit is to be compiled while a request is open, that is, after a request with
  only turns since that left something running or incomplete (`ReloadLoop.Run`). `CompileQueue.ChangeDuringReload` and
  `CompileQueue.ChangeInSameTurn` are runs where it is false. Everything proved of the queue holds all the same,
  because `CompileQueue.Compiler.Compile` does not ask for it.
- `Compiler::remove` keeps the name of a failed file, so that a deleted file refuses later links with status 125
  (`CompileQueue.RemovedStillRefuses`). A link is refused only if the last compilation of some unit failed, and
  whenever one did as long as file names differ (`CompileQueue.Compiler.TryLink`).
- Failed units are remembered by file name, not by path. A library is never linked over a broken unit as long as file
  names differ (`CompileQueue.Compiler.Update`), and any two files that share a name allow it
  (`CompileQueue.ClashHidesFailure`).
- The column iterator asserts room for one character (`catch_amalgamated.cpp:7754-7756`), but with room for exactly
  one it can show an empty line for ever (`TextFlow.NeverEnds`); `TextFlow.EndsIff` states exactly when, and room for
  two is always enough (`TextFlow.WideEnds`). It also drops the whole text when its first line would be empty;
  `TextFlow.Write` states exactly when that loses anything visible.
- The test-spec parser does not keep empty tokens, an `exclude:` in front of a token, and hidden tags such as
  `[.foo]`. `SpecRoundTrip.RoundTrip` is an if-and-only-if. An argument that stops behind a backslash, or with text
  that begins nothing, is prepended to the next argument: `SpecArguments.CleanAfter` says exactly when text is left
  over, and `SpecArguments.LooseShows` that it then always can be seen.
- The encoder tests `idx > 2` for `]]>` and `0x800 < value` for overlong forms (`catch_amalgamated.cpp:8049`,
  `catch_amalgamated.cpp:8117`); see `XmlLaws.OnlyLeadingEnd` and `XmlLaws.AcceptedIsUtf8`.
- `Process::kill` still signals when the child was collected by somebody else, because `closed` is set only when the
  object itself collected the status. After a call has reported a status, `kill` and `signal` are silent if and only
  if that status was not -1 (`ProcessUnix.Process.Signal`, `ProcessUnix.Process.Kill`);
  `ProcessUnix.CollectedByOthers` is a run that ends with such a signal.

## Model

| member | source | states |
|---|---|---|
| CodeReload.FindSymbol | src/jet/live/Utility.cpp:257-281 | the loop over the symbols of a name returns the first that needs no hash or has it |
| CodeReload.FirstMatchFacts | src/jet/live/Utility.cpp:257-281 | what is found is listed and needs no hash or has it, and something is found whenever such a symbol is listed |
| CodeReload.Reloader.constructor | src/jet/live/Live.cpp:286-304 | before the first reload nothing is hooked, whatever functions the programs share |
| CodeReload.Reloader.FindLatest | src/jet/live/FunctionsHookingStep.cpp:19-26 | searching the programs backwards finds the version loaded last |
| CodeReload.Reloader.Hook | libs/dobby/source/InterceptRouting/InlineHookRouting.h:30-70 | an address that is hooked already stays as it is, and any other hook may be refused |
| CodeReload.Reloader.HookFunctions | src/jet/live/FunctionsHookingStep.cpp:17-38 | every function of the new library is hooked behind the last version before it, in the given order, except where there is a hook or it is refused |
| CodeReload.Reloader.Reload | src/jet/live/Live.cpp:189-197 | a reload keeps the invariant on the hooks and every hook that is there, and it hooks every function that can be told apart, has an earlier version and is not refused |
| CodeReload.ReloadHooks | src/jet/live/FunctionsHookingStep.cpp:17-38 | invariant of reloading, in any order of visiting: every hook was made by a later library for the function whose last version was there, and every version that a library should hook is hooked |
| CodeReload.EveryHooked | src/jet/live/FunctionsHookingStep.cpp:17-38 | whatever the other functions are, a function of a library that can be told apart is hooked behind its last version unless that hook is refused: no other hook is there first |
| CodeReload.LandIffSteps | src/jet/live/FunctionsHookingStep.cpp:17-38 | for any tables: all calls end in the newest versions if and only if no single jump leads to a function with another newest version and nothing old is left without a jump |
| CodeReload.LandIff | src/jet/live/FunctionsHookingStep.cpp:17-38 | the same by the tables alone, where the last version before a symbol has the symbol's newest version: if and only if names of one address have their newest versions at one address, and each older version is the last one before some library whose hook was not refused |
| CodeReload.KindsConsistent | src/jet/live/Utility.cpp:257-281 | that is so whenever each name is local everywhere or global everywhere |
| CodeReload.NextAgree | src/jet/live/FunctionsHookingStep.cpp:17-38 | for that it is enough that from each program on the next versions of names of one address share an address |
| CodeReload.HookedIff | src/jet/live/FunctionsHookingStep.cpp:17-38 | a version of a function that can be told apart is hooked if and only if the next one came with a library and was not refused, and then it jumps exactly there |
| CodeReload.FunctionLandsIff | src/jet/live/FunctionsHookingStep.cpp:17-38 | function by function, for any other functions and refusals: a call ends in the newest version if and only if each version after it came with a library and an accepted hook |
| CodeReload.StartDecides | src/jet/live/FunctionsHookingStep.cpp:17-38 | if no hook of the function is refused, that is: its version came with a reload or no later program of the start has the function |
| CodeReload.TellsApart | src/jet/live/Utility.cpp:257-281 | a function can be told apart if its name is local everywhere or global everywhere and each of its versions is found by its own lookup and is the only name of its address |
| CodeReload.Session | src/jet/live/Live.cpp:148-200 | over every sequence of reloads and every choice of refused hooks, the exact conditions for all calls, and for the calls of one function, to end in the newest versions |
| CodeReload.SplitAliases | src/jet/live/FunctionsHookingStep.cpp:17-38 | two names of one address that a reload puts at two: whatever the order of visiting, some call ends in an old version |
| CodeReload.RejoinedAliases | src/jet/live/FunctionsHookingStep.cpp:17-38 | after a second reload that puts both names at one address all calls end in the newest version again |
| CodeReload.HashClash | src/jet/live/Utility.cpp:257-281 | of two local functions with one name and one hash the second is never hooked |
| CodeReload.StartDuplicate | src/jet/live/Live.cpp:286-304 | of a function that two programs of the start share the older one is never hooked |
| CodeReload.OneHome | src/jet/live/LinkTimeRelocationsStep.cpp:41-51 | whatever is loaded later, all reloads point their references at one and the same variable |
| CodeReload.FindVariable | src/jet/live/LinkTimeRelocationsStep.cpp:41-48 | the search over the programs returns the variable of the first program that has it |
| Relocation.Apply | src/jet/live/LinkTimeRelocationsStep.cpp:53-186 | which relocations are applied; a four-byte one then reaches the old variable if and only if the new distance fits 32 bits, an eight-byte one if and only if both variables lie in one 2^32 window |
| Relocation.SignedSum | src/jet/live/LinkTimeRelocationsStep.cpp:172-175 | truncating both addresses before the wrapping 32-bit sum loses nothing |
| Relocation.CheckedButMissed | src/jet/live/LinkTimeRelocationsStep.cpp:54-69 | for every place there is a relocation that passes the distance check and ends 2^32 away from its variable |
| Relocation.WideMissed | src/jet/live/LinkTimeRelocationsStep.cpp:179-186 | an eight-byte relocation between neighbouring addresses in different windows ends 2^32 away from its variable |
| Relocation.RefusedThoughReachable | src/jet/live/LinkTimeRelocationsStep.cpp:54-69 | for every place there is a relocation that is refused although the patched reference would reach its variable |
| LinkClosure.Collect | src/jet/live/Compiler.cpp:234-280 | the search for undefined symbols ends and yields the smallest self-contained set of object files around the ready ones, and each unit that has to be added exactly once |
| LinkClosure.ClosedNeedsNothing | src/jet/live/Compiler.cpp:282-288 | once the missing units are ready the search adds nothing, so the second attempt links |
| CompileQueue.Compiler.constructor | src/jet/live/Compiler.cpp:12-15 | an empty queue satisfies the invariants |
| CompileQueue.Compiler.Compile | src/jet/live/Compiler.cpp:129-158 | a request replaces a running or waiting compilation of the same file; no unit waits twice or while it runs |
| CompileQueue.Compiler.RequestLink | src/jet/live/Compiler.cpp:160-166 | a link request is noted and breaks no invariant |
| CompileQueue.Compiler.Remove | src/jet/live/Compiler.cpp:168-193 | a removed unit is neither running, waiting nor ready, and everything else stays |
| CompileQueue.Compiler.Finish | src/jet/live/Compiler.cpp:34-59 | effect of one result on the ready and failed units; a unit whose last compilation failed is not ready, and is remembered while file names differ |
| CompileQueue.Compiler.FinishTasks | src/jet/live/Compiler.cpp:30-64 | exactly the finished compilations leave the running set; each of their units is ready with its object file or broken by its own status, and what is known of all other units stays |
| CompileQueue.Compiler.StartTasks | src/jet/live/Compiler.cpp:66-73 | no more run than there are workers, no request is lost, what ran goes on, and afterwards nothing waits or all workers are busy |
| CompileQueue.Compiler.DoLink | src/jet/live/Compiler.cpp:225-313 | links if and only if something is ready and it is self-contained, and then exactly the ready object files; otherwise queues the missing units and keeps the request, which is dropped in all other cases |
| CompileQueue.Compiler.TryLink | src/jet/live/Compiler.cpp:75-87 | a failed unit refuses the link with status 125 and drops the request; what is linked is self-contained and nothing is broken; a link is refused only over a broken unit |
| CompileQueue.Compiler.FinishLink | src/jet/live/Compiler.cpp:89-126 | ready units are dropped only when the loaded library holds all of them; a library that cannot be opened gives status 123 and drops none |
| CompileQueue.Compiler.Update | src/jet/live/Compiler.cpp:28-127 | one turn of the run loop: a library is linked only when nothing runs, nothing waits, nothing failed, and it is self-contained; afterwards a link is wanted if and only if it was and something still runs, or nothing failed and what is ready is not self-contained |
| CompileQueue.ClashHidesFailure | src/jet/live/Compiler.cpp:34-53 | for any two source files with the same file name there is a run that links a library while one of them is broken |
| CompileQueue.ChangeDuringReload | src/jet/live/Compiler.cpp:129-134 | for any two files there is a run in which one is compiled while a link is wanted, which the assertion excludes; the link then waits for both |
| CompileQueue.ChangeInSameTurn | src/jet/live/Live.cpp:110-123 | the same with nothing being compiled: a request and a change handled in one turn |
| CompileQueue.RemovedStillRefuses | src/jet/live/Compiler.cpp:168-193 | for any file there is a run in which it fails, is removed, and still refuses the next link |
| ReloadLoop.OpenStep | src/jet/live/Compiler.cpp:75-87 | a request is open after an event or turn if and only if it was just made, or was open and the turn left it |
| ReloadLoop.Live.Handle | src/jet/live/Live.cpp:110-123 | each event is handled with a link wanted if and only if a request is open, and never while linking |
| ReloadLoop.Live.Update | src/jet/live/Live.cpp:73-126 | one turn of the loop: events wait while a link runs and are otherwise handled in order, none lost |
| ReloadLoop.Run | src/jet/live/Live.cpp:73-126 | every run: all events are handled in order of arrival except those still waiting for a link, and the assertion of `compile` holds at every call if and only if no unit is to be compiled while a request is open |
| Dependencies.Tracker.constructor | src/jet/live/LiveContext.hpp:68-72 | empty maps are each other's inverse |
| Dependencies.Tracker.UpdateDependencies | src/jet/live/Live.cpp:202-226 | replaces the dependencies of one unit and keeps the two maps each other's inverse |
| Dependencies.Tracker.RemoveUnit | src/jet/live/Live.cpp:398-405 | forgets a unit and keeps the two maps each other's inverse |
| Dependencies.Tracker.Recompile | src/jet/live/Live.cpp:360-374 | a change of a known dependency queues exactly the units whose current dependencies hold that file; all other waiting and running units stay as they are |
| Words.ReadWrite64 | libs/xxHash/xxhash.h:4913-4917 | reading undoes writing |
| Words.WriteRead64 | libs/xxHash/xxhash.h:3396-3407 | writing what was read restores the eight bytes |
| Words.Memcpy | libs/xxHash/xxhash.h:2400-2403 | exactly the addressed bytes are replaced |
| BlockFold.FoldAppend | libs/xxHash/xxhash.h:3030-3035 | consuming whole blocks and then more is consuming the concatenation, and leaves the same rest |
| Mult128.NoOverflow | libs/xxHash/xxhash.h:4537-4551 | none of the intermediate sums of the portable multiply overflows 64 bits |
| Mult128.OrIsSum | libs/xxHash/xxhash.h:4546 | the bitwise or of the shifted sum and the low half is their sum |
| Mult128.PortableExact | libs/xxHash/xxhash.h:4537-4551 | high * 2^64 + low is the true product for all 64-bit operands |
| Mult128.PortableIsNative | libs/xxHash/xxhash.h:4431-4457 | the portable multiply agrees with the native 128-bit one |
| Xxh32.InitAccs | libs/xxHash/xxhash.h:3002-3009 | the lanes the hash starts from |
| Xxh32.ConsumeLong | libs/xxHash/xxhash.h:3018-3038 | the do-while loop consumes all whole blocks and nothing else, and folds them into the lanes in order |
| Xxh32.FinalizeLoop | libs/xxHash/xxhash.h:3068-3094 | the tail loops compute the tail specification |
| Xxh32.OneShot | libs/xxHash/xxhash.h:3157-3177 | the one-shot hash meets its specification for every length |
| Xxh32.CountBytes | libs/xxHash/xxhash.h:3239-3240 | the wrapping counter and the large-length flag stay right past 2^32: the flag is set exactly when the true total is at least 16 |
| Xxh32.State.constructor | libs/xxHash/xxhash.h:3221-3227 | a reset state has been fed nothing |
| Xxh32.State.Update | libs/xxHash/xxhash.h:3231-3274 | an update appends its input to the bytes fed so far |
| Xxh32.State.FoldAndBuffer | libs/xxHash/xxhash.h:3249-3271 | an input that fills the buffer is folded and buffered without losing or repeating a byte |
| Xxh32.State.Digest | libs/xxHash/xxhash.h:3278-3291 | the digest is the one-shot hash of the bytes fed, for every total |
| Xxh32.HashPieces | libs/xxHash/xxhash.h:3221-3291 | any way of cutting the input into updates gives the hash of the whole |
| Xxh32Change.AvalancheInjective | libs/xxHash/xxhash.h:2985-2993 | the avalanche is a permutation |
| Xxh32Change.RoundInjective | libs/xxHash/xxhash.h:2928-2932 | a round is a permutation in the lane and in the input |
| Xxh32Change.Process4Injective | libs/xxHash/xxhash.h:3075-3079 | a four-byte tail step is a permutation in the hash and in the word |
| Xxh32Change.Process1Injective | libs/xxHash/xxhash.h:3070-3073 | a one-byte tail step is a permutation in the hash and tells bytes apart |
| Xxh32Change.FinalizeInjective | libs/xxHash/xxhash.h:3068-3094 | different heads stay different over any tail |
| Xxh32Change.FoldChange | libs/xxHash/xxhash.h:3018-3038 | a changed word leaves exactly one lane different after all blocks, or is in the tail |
| Xxh32Change.MergeSeesLane | libs/xxHash/xxhash.h:3045-3050 | lanes that differ in one place merge to different sums |
| Xxh32Change.ChangeDetected | libs/xxHash/xxhash.h:3157-3177 | inputs of one length that differ only within one complete aligned word, or in one byte of the tail, hash differently for every seed |
| Xxh32Change.OneByteDetected | libs/xxHash/xxhash.h:3157-3177 | inputs of one length that differ in exactly one byte hash differently for every seed |
| Xxh64.InitAccs | libs/xxHash/xxhash.h:3521-3528 | the lanes the hash starts from |
| Xxh64.ConsumeLong | libs/xxHash/xxhash.h:3537-3566 | the loop consumes all whole blocks and folds them in order |
| Xxh64.FinalizeLoop | libs/xxHash/xxhash.h:3611-3634 | the tail loops compute the tail specification |
| Xxh64.OneShot | libs/xxHash/xxhash.h:3655-3674 | the one-shot hash meets its specification for every length |
| Xxh64.State.constructor | libs/xxHash/xxhash.h:3718-3724 | a reset state has been fed nothing |
| Xxh64.State.Update | libs/xxHash/xxhash.h:3728-3769 | an update appends its input to the bytes fed so far |
| Xxh64.State.FoldAndBuffer | libs/xxHash/xxhash.h:3744-3766 | an input that fills the buffer is folded and buffered without losing or repeating a byte |
| Xxh64.State.Digest | libs/xxHash/xxhash.h:3773-3786 | the digest is the one-shot hash of the bytes fed, for totals below 2^64 |
| Xxh64.HashPieces | libs/xxHash/xxhash.h:3718-3786 | any way of cutting the input into updates gives the hash of the whole |
| Xxh3Kernel.ScalarRound | libs/xxHash/xxhash.h:5778-5794 | one lane's round changes its own lane and its neighbour and nothing else |
| Xxh3Kernel.Accumulate512Scalar | libs/xxHash/xxhash.h:5801-5816 | the in-place lane-by-lane rounds give the parallel form, in which all lanes are read before any is written |
| Xxh3Kernel.LaneAfterAll | libs/xxHash/xxhash.h:5801-5816 | the order of the rounds does not matter |
| Xxh3Kernel.AccumulateScalar | libs/xxHash/xxhash.h:4894-4910 | the loop over stripes folds the parallel form over all of them |
| Xxh3Kernel.ScrambleScalar | libs/xxHash/xxhash.h:5827-5856 | every lane is scrambled with its own key word |
| Xxh3Neon.VectorPair | libs/xxHash/xxhash.h:5350-5433 | the vector operations on two lanes give the parallel form |
| Xxh3Neon.Accumulate512Neon | libs/xxHash/xxhash.h:5308-5433 | for every even split between vector and scalar lanes the NEON round gives the parallel form |
| Xxh3Neon.SplitMultiply | libs/xxHash/xxhash.h:5470-5486 | the two 32-bit multiplications and the shift are multiplication by the prime modulo 2^64 |
| Xxh3Neon.ScramblePair | libs/xxHash/xxhash.h:5459-5487 | the vector scramble of two lanes is the scalar one |
| Xxh3Neon.ScrambleNeon | libs/xxHash/xxhash.h:5437-5490 | for every even split the NEON scramble gives the scalar result |
| Xxh3Neon.AccumulateNeon | libs/xxHash/xxhash.h:5434 | over any number of stripes the NEON form equals the scalar one |
| Xxh3Long.InitAccs | libs/xxHash/xxhash.h:6064-6065 | the accumulators a long hash starts from |
| Xxh3Long.AbsorbSplit | libs/xxHash/xxhash.h:6412-6446 | consuming m and then n stripes from any place in a block is consuming m + n at once |
| Xxh3Long.ConsumeStripes | libs/xxHash/xxhash.h:6412-6446 | accumulators and counter are those of absorbing the stripes one by one, across any number of block ends, and the counter stays below the block size |
| Xxh3Long.HashLongInternalLoop | libs/xxHash/xxhash.h:5988-6018 | the nested block loop absorbs the same stripes in the same order and ends with the last 64 bytes |
| Xxh3Oneshot.InitCustomSecret | libs/xxHash/xxhash.h:5859-5917 | the array is filled with the secret derived from the seed |
| Xxh3Oneshot.ZeroSeedSecret | libs/xxHash/xxhash.h:5859-5917 | seed zero derives the default secret |
| Xxh3Oneshot.GeneratedSecretIsSeed | libs/xxHash/xxhash.h:6199-6210 | for every seed and input, the secret generated from a seed with that seed hashes like the seed alone, in 64 and 128 bits |
| Xxh3Oneshot.HashLong | libs/xxHash/xxhash.h:6068-6081 | the long one-shot hashes meet their specification |
| Xxh3Stream.FillKeeps | libs/xxHash/xxhash.h:6483-6488 | buffering keeps the invariant, also that the buffer's tail holds the last consumed bytes |
| Xxh3Stream.DrainKeeps | libs/xxHash/xxhash.h:6498-6508 | consuming the full buffer keeps it |
| Xxh3Stream.BulkKeeps | libs/xxHash/xxhash.h:6510-6519 | consuming stripes directly from the input keeps it, with the last stripe copied behind |
| Xxh3Stream.RestKeeps | libs/xxHash/xxhash.h:6520-6525 | buffering what is left keeps it |
| Xxh3Stream.LastStripe | libs/xxHash/xxhash.h:6557-6574 | the 64 bytes the digest ends with are the last 64 bytes fed, whether they lie in one piece or wrap around the buffer |
| Xxh3State.State.constructor | libs/xxHash/xxhash.h:1812-1817 | an initialised state satisfies the cache invariant |
| Xxh3State.State.ResetInternal | libs/xxHash/xxhash.h:6325-6349 | all counters are cleared and the secret limit and block size are those of the given secret |
| Xxh3State.State.Reset | libs/xxHash/xxhash.h:6353-6359 | the state is keyed by the default secret and has been fed nothing |
| Xxh3State.State.ResetWithSecret | libs/xxHash/xxhash.h:6362-6370 | accepts exactly secrets of at least 136 bytes; a refused one leaves a state that has to be reset |
| Xxh3State.State.ResetWithSeed | libs/xxHash/xxhash.h:6373-6382 | the state is keyed by the seed, also when the cached secret is not derived again |
| Xxh3State.State.ResetWithSecretAndSeed | libs/xxHash/xxhash.h:6385-6393 | accepts exactly secrets of at least 136 bytes; a refused one changes nothing |
| Xxh3State.State.CompleteBuffer | libs/xxHash/xxhash.h:6498-6508 | fills and drains the buffer |
| Xxh3State.State.TakeStripes | libs/xxHash/xxhash.h:6510-6519 | consumes directly until at most a buffer is left, and never everything |
| Xxh3State.State.BufferRest | libs/xxHash/xxhash.h:6520-6525 | buffers the rest |
| Xxh3State.State.Update | libs/xxHash/xxhash.h:6457-6533 | an update appends its input to the bytes fed so far |
| Xxh3State.State.DigestLong | libs/xxHash/xxhash.h:6545-6579 | computes the accumulators of the one-shot hash without changing the state |
| Xxh3State.State.Digest64 | libs/xxHash/xxhash.h:6582-6595 | the digest is the one-shot hash of the bytes fed, for every kind of reset and totals below 2^64 |
| Xxh3State.State.Digest128 | libs/xxHash/xxhash.h:7080-7094 | the same for 128 bits |
| Xxh3Session.Step | libs/xxHash/xxhash.h:6325-6595 | every operation keeps the state a representation of what was fed since which reset |
| Xxh3Session.Run | libs/xxHash/xxhash.h:6325-6595 | whole sessions: the answers of any legal sequence of operations are the one-shot hashes |
| TrackerRun.Context.constructor | libs/Catch2/catch_amalgamated.cpp:7045-7054 | a started run has an untouched root |
| TrackerRun.Context.OpenChild | libs/Catch2/catch_amalgamated.cpp:7036-7043 | the walk towards the root marks exactly the ancestors that were not yet executing children |
| TrackerRun.Context.Open | libs/Catch2/catch_amalgamated.cpp:7077-7082 | opening a tracker makes it current and marks its ancestors |
| TrackerRun.Context.Acquire | libs/Catch2/catch_amalgamated.cpp:7156-7185 | finds or adds the child and opens it only if the cycle is not completed and it is not complete |
| TrackerRun.Context.CloseCurrent | libs/Catch2/catch_amalgamated.cpp:7090-7111 | the next state of a tracker that closes |
| TrackerRun.Context.Close | libs/Catch2/catch_amalgamated.cpp:7084-7112 | closes trackers still open below, then the tracker |
| TrackerRun.Context.Fail | libs/Catch2/catch_amalgamated.cpp:7113-7119 | a failed tracker makes its parent need another run |
| TrackerRun.Context.SectionStarted | libs/Catch2/catch_amalgamated.cpp:5971-5995 | whether the section is entered |
| TrackerRun.Context.SectionEndedEarly | libs/Catch2/catch_amalgamated.cpp:6060-6069 | the innermost section left by an exception fails, those around it close |
| TrackerRun.Context.RunBody | libs/Catch2/catch_amalgamated.cpp:6040-6069 | running a body over its sections is the specified run, for any place of an exception |
| TrackerRun.Context.RunCycle | libs/Catch2/catch_amalgamated.cpp:5876-5884 | one turn of the loop |
| TrackerLaws.RunKidsLaw | libs/Catch2/catch_amalgamated.cpp:7084-7119 | for any exceptions: a run through the sections of a body enters at most one leaf, no tracker becomes incomplete again, and the trackers left to do shrink |
| TrackerLaws.CycleLaw | libs/Catch2/catch_amalgamated.cpp:5876-5897 | every cycle strictly lowers the number of incomplete trackers |
| TrackerExact.ExactKids | libs/Catch2/catch_amalgamated.cpp:7084-7112 | without exceptions a run enters exactly the first leaf that is left |
| TrackerExact.ExactCycle | libs/Catch2/catch_amalgamated.cpp:5876-5897 | without exceptions a cycle removes exactly the first remaining leaf |
| TrackerExact.LeavesDiffer | libs/Catch2/catch_amalgamated.cpp:7012-7025 | the leaves of a tree whose siblings differ are all different |
| TrackerRun.RunTest | libs/Catch2/catch_amalgamated.cpp:5876-5897 | whole runs: the loop ends, no leaf is entered twice for any exceptions, and without exceptions cycle k runs exactly leaf k |
| SpecParser.VisitTidy | libs/Catch2/catch_amalgamated.cpp:7338-7372 | every accepted character keeps the recorded escapes in order and inside the pattern |
| SpecParser.WithoutStep | libs/Catch2/catch_amalgamated.cpp:7480-7483 | deleting at the shifted position removes exactly the next recorded character |
| SpecParserState.Parser.constructor | libs/Catch2/catch_amalgamated.cpp:7314-7314 | a new parser holds nothing |
| SpecParserState.Parser.Parse | libs/Catch2/catch_amalgamated.cpp:7316-7333 | the text is visited character by character until one is refused, and then the whole argument is listed as invalid |
| SpecParserState.Parser.TakeTestSpec | libs/Catch2/catch_amalgamated.cpp:7334-7337 | hands over all filters, the last one included |
| SpecParserState.Parser.VisitChar | libs/Catch2/catch_amalgamated.cpp:7338-7372 | the five-mode step |
| SpecParserState.Parser.ProcessNoneChar | libs/Catch2/catch_amalgamated.cpp:7376-7393 | which mode a first character starts |
| SpecParserState.Parser.ProcessNameChar | libs/Catch2/catch_amalgamated.cpp:7394-7402 | a bracket ends a name, or turns `exclude:` into an exclusion |
| SpecParserState.Parser.ProcessOtherChar | libs/Catch2/catch_amalgamated.cpp:7403-7409 | the closing character ends a quoted name or a tag |
| SpecParserState.Parser.EndMode | libs/Catch2/catch_amalgamated.cpp:7413-7427 | what ending each mode adds |
| SpecParserState.Parser.AddFilter | libs/Catch2/catch_amalgamated.cpp:7450-7455 | a filter is filed unless it is empty |
| SpecParserState.Parser.Separate | libs/Catch2/catch_amalgamated.cpp:7465-7478 | a comma files the filter, or refuses inside quotes and brackets |
| SpecParserState.Parser.DropEscapes | libs/Catch2/catch_amalgamated.cpp:7480-7484 | the shifting deletes remove exactly the recorded escape characters, for every reachable state |
| SpecParserState.Parser.PreprocessPattern | libs/Catch2/catch_amalgamated.cpp:7480-7494 | the token without escapes and without `exclude:`, and a cleared pattern |
| SpecParserState.Parser.AddNamePattern | libs/Catch2/catch_amalgamated.cpp:7496-7509 | files a name on the required or forbidden side |
| SpecParserState.Parser.AddTagPattern | libs/Catch2/catch_amalgamated.cpp:7511-7534 | files a tag, or the two tags of a hidden one |
| SpecRoundTrip.DropMarks | libs/Catch2/catch_amalgamated.cpp:7480-7484 | deleting the escapes of an escaped token gives the token, for every token |
| SpecRoundTrip.ReadItem | libs/Catch2/catch_amalgamated.cpp:7338-7534 | reading a printed pattern files exactly what it stands for and leaves nothing pending |
| SpecRoundTrip.ReadAll | libs/Catch2/catch_amalgamated.cpp:7316-7337 | reading any printed list of filters yields what they stand for |
| SpecRoundTrip.RoundTrip | libs/Catch2/catch_amalgamated.cpp:7480-7534 | what is read back is what was printed if and only if no filter is empty and every token is plain |
| SpecRoundTrip.ParsePrinted | libs/Catch2/catch_amalgamated.cpp:7316-7534 | the parser object on any printed list: the stored filters, no invalid specs, and equality exactly for plain tokens |
| SpecArguments.CleanAfter | libs/Catch2/catch_amalgamated.cpp:7316-7333 | an argument leaves text over if and only if it is loose by itself, whatever was read before |
| SpecArguments.ReadsAlone | libs/Catch2/catch_amalgamated.cpp:7316-7333 | without leftovers an argument is read as if it were alone |
| SpecArguments.LooseShows | libs/Catch2/catch_amalgamated.cpp:7316-7333 | after every loose argument there is a next one that is read differently |
| SpecArguments.ParseAll | libs/Catch2/catch_amalgamated.cpp:835-841 | all arguments of a command line: if none but the last is loose, filters and invalid arguments are those of reading each alone |
| TextFlow.EmptyLines | libs/Catch2/catch_amalgamated.cpp:7677-7726 | a line is empty exactly when there is room for one character only and no break behind it |
| TextFlow.OneEnd | libs/Catch2/catch_amalgamated.cpp:7677-7726 | the line-end rule determines the line: no two ends satisfy it |
| TextFlow.LineIterator.constructor | libs/Catch2/catch_amalgamated.cpp:7749-7761 | the first line, or the end when that line would be empty |
| TextFlow.LineIterator.CalcLength | libs/Catch2/catch_amalgamated.cpp:7677-7726 | the line ends at a newline or the end of the text if that fits, else at the last boundary that fits with blanks trimmed, else one character early with a hyphen |
| TextFlow.LineIterator.Current | libs/Catch2/catch_amalgamated.cpp:7735-7766 | the written line: indent, text, hyphen |
| TextFlow.LineIterator.Next | libs/Catch2/catch_amalgamated.cpp:7768-7782 | only white space is skipped, the next line start is the one the rule gives, and the iterator stays in place exactly at a stuck line |
| TextFlow.GoodLineFits | libs/Catch2/catch_amalgamated.cpp:7735-7747 | no written line is longer than the column is wide, a newline that opens it not counted |
| TextFlow.EndsIff | libs/Catch2/catch_amalgamated.cpp:7768-7782 | whole runs: iteration ends if and only if no line start that it reaches is stuck |
| TextFlow.WideEnds | libs/Catch2/catch_amalgamated.cpp:7749-7782 | with room for two characters on every line iteration ends and nothing is dropped |
| TextFlow.NeverEnds | libs/Catch2/catch_amalgamated.cpp:7768-7782 | a column that is never finished: its second line is stuck |
| TextFlow.EndsAtOnce | libs/Catch2/catch_amalgamated.cpp:7768-7782 | a column with a stuck position inside a line ends, because no line starts there |
| TextFlow.Write | libs/Catch2/catch_amalgamated.cpp:7790-7801 | for every column whose iteration ends: every line follows the rule and fits, and the lines hold all visible characters in order if and only if the first line is not empty or nothing is visible |
| XmlEncode.CheckSequence | libs/Catch2/catch_amalgamated.cpp:8091-8123 | the byte loop decides whether a multi-byte sequence is accepted |
| XmlEncode.Classify | libs/Catch2/catch_amalgamated.cpp:8037-8127 | the tests on one byte and what follows it choose the unit of the specification |
| XmlEncode.EncodeTo | libs/Catch2/catch_amalgamated.cpp:8024-8132 | the run-copying encoder writes the unit-by-unit specification for every byte string |
| XmlLaws.DecodedEncoded | libs/Catch2/catch_amalgamated.cpp:8024-8132 | decoding the four entities gives the input back, with only control and rejected bytes in hex |
| XmlLaws.EncodedTame | libs/Catch2/catch_amalgamated.cpp:8037-8072 | every raw ampersand begins an entity, no less-than sign and no control byte is left, and attributes hold no quote |
| XmlLaws.HoldsEndMeans | libs/Catch2/catch_amalgamated.cpp:8047-8053 | the recursive form of "holds `]]>`" is the plain one |
| XmlLaws.OnlyLeadingEnd | libs/Catch2/catch_amalgamated.cpp:8047-8053 | the output holds `]]>` if and only if the input begins with it |
| XmlLaws.Utf8Accepted | libs/Catch2/catch_amalgamated.cpp:8103-8127 | the UTF-8 form of every value is copied whole |
| XmlLaws.AcceptedIsUtf8 | libs/Catch2/catch_amalgamated.cpp:8085-8127 | a multi-byte sequence is copied if and only if it is the UTF-8 form of a value or the four-byte form of 0x800 |
| ProcessUnix.Process.constructor | libs/tiny-process-library/process.cpp:5-12 | for every outcome: the process runs exactly when all wanted pipes were made and fork succeeded, a started child runs and nothing of it is collected or reported, and what is open is what it will close |
| ProcessUnix.Process.MakePipes | libs/tiny-process-library/process_unix.cpp:132-151 | either all wanted pipes are open or none |
| ProcessUnix.Process.CloseAll | libs/tiny-process-library/process_unix.cpp:155-169 | after a failed fork nothing is open |
| ProcessUnix.Process.KeepEnds | libs/tiny-process-library/process_unix.cpp:209-221 | the parent keeps exactly its own ends |
| ProcessUnix.Process.Open | libs/tiny-process-library/process_unix.cpp:122-226 | the process is started exactly when everything succeeded, and no descriptor leaks otherwise |
| ProcessUnix.Process.AsyncRead | libs/tiny-process-library/process_unix.cpp:313-317 | a reading thread exists exactly for a started process with a piped output |
| ProcessUnix.Process.GetExitStatus | libs/tiny-process-library/process_unix.cpp:377-405 | reports the collected status, or -1; once settled it never changes; interrupted waits are repeated |
| ProcessUnix.Process.TryGetExitStatus | libs/tiny-process-library/process_unix.cpp:407-437 | reports only a settled status, and does report it when the child has exited |
| ProcessUnix.Process.CloseFds | libs/tiny-process-library/process_unix.cpp:439-455 | everything still open is closed, after the reading thread is joined |
| ProcessUnix.Process.CloseStdin | libs/tiny-process-library/process_unix.cpp:481-488 | the input is closed if it is open and only once |
| ProcessUnix.Process.Kill | libs/tiny-process-library/process_unix.cpp:490-502 | signals group and process unless it never ran or was collected; after any report of a started process it sends nothing if and only if the report was not -1 |
| ProcessUnix.Process.Signal | libs/tiny-process-library/process_unix.cpp:518-524 | the same for any signal |
| ProcessUnix.Process.Destroy | libs/tiny-process-library/process.cpp:43-45 | nothing is left open |
| ProcessUnix.Live | libs/tiny-process-library/process_unix.cpp:122-524 | every life of a process: each opened descriptor is closed exactly once, no signal follows the collection of the status or a report other than -1, and all reports agree with what was collected |
| ProcessUnix.ProperIsQuiet | libs/tiny-process-library/process_unix.cpp:377-524 | in any such log nothing is signalled after a report other than -1 |
| ProcessUnix.CollectedByOthers | libs/tiny-process-library/process_unix.cpp:377-502 | the child exits, somebody else collects it, the status is asked for and `kill` called: the report is -1 and both signals are still sent |
| ProcessReader.Reader.constructor | libs/tiny-process-library/process_unix.cpp:318-332 | which streams are polled, and at which place |
| ProcessReader.Reader.React | libs/tiny-process-library/process_unix.cpp:337-369 | the callback calls a report causes |
| ProcessReader.Reader.Serve | libs/tiny-process-library/process_unix.cpp:336-371 | one descriptor in one round keeps every stream's callbacks equal to what was read from it |
| ProcessReader.Reader.Round | libs/tiny-process-library/process_unix.cpp:334-372 | after a round the loop goes on exactly when a stream is open |
| ProcessReader.Reader.Run | libs/tiny-process-library/process_unix.cpp:332-373 | the loop over any sequence of polls |
| ProcessReader.ReadOutput | libs/tiny-process-library/process_unix.cpp:313-375 | each callback gets exactly the bytes of its own stream in order, close comes once and last, and every prepared stream has closed when the loop ends without a failed poll |
| JoinArguments.AppendEscaped | libs/tiny-process-library/process_win.cpp:74-96 | the loop with the backslash counter writes the escaped argument |
| JoinArguments.ReadEscaped | libs/tiny-process-library/process_win.cpp:74-96 | reading the escaped text and its closing quote gives the argument back |
| JoinArguments.SplitJoined | libs/tiny-process-library/process_win.cpp:57-103 | splitting the joined line by the rules of the Microsoft C runtime gives exactly the arguments |
| JoinArguments.Join | libs/tiny-process-library/process_win.cpp:57-103 | the function as written produces such a line for every list, empty strings and trailing backslashes included |

## Left out

- Reading ELF and Mach-O files, parsing `compile_commands.json` and depfiles, watching directories, event queue and logging: input, output and formats of other programs.
- Relocation.Apply: models the x86-64 branch (lines 172-186) and not the ARM64 instruction patching (lines 73-170), because the latter is decided by instruction encodings.
- Copying statics that could not be relocated (`StaticsCopyStep.cpp`): a bytewise copy from the first program that has the variable.
- CodeReload.Session: asks that no address belongs to two loaded programs, as the loader ensures, and that a library's functions are all visited.
- CodeReload.LandIff: asks that lookups are consistent; for other tables there is the condition on single jumps.
- CodeReload.Reloader.Hook: which hooks fail for other reasons than an earlier one (no room for the jump, address zero) is an argument, a set of pairs of addresses.
- CompileQueue.Compiler.Compile: compiler processes are represented by their exit statuses; killing one is forgetting it. It asks that no link is running, as the source asserts and `Live::update` (`Live.cpp:104-108`) ensures.
- CompileQueue.Compiler.RequestLink: asks that no link is running, because `Live::update` takes no event while one runs (`Live.cpp:104-108`).
- LinkClosure.ClosedNeedsNothing: takes the undefined symbols of an object file as unchanged by compiling it again.
- ReloadLoop.Live.Update: one event stands for one compiled or removed unit, so a changed file is several events in a row; the file watcher is not modelled.
- CompileQueue.Compiler.DoLink: returns without calling the link callback when nothing is ready, as the source does; callbacks are otherwise represented by returned statuses.
- Big-endian machines, alignment, prefetching and memory-access modes of xxHash: loads are little-endian reads.
- The SSE2, AVX2, AVX512, VSX, SVE and LSX forms of XXH3: their lane arithmetic is that of the NEON form.
- Hash quality and collision probability: statistical.
- Xxh32.FinalizeLoop: does not model the switch with fall-through (lines 3095-3136), an unrolled form of the loop that is modelled.
- Xxh32.State.Update: a missing input is modelled as an empty one, likewise for Xxh64 and XXH3.
- Xxh3State.State.Update: asks for an input shorter than 2^64 bytes, the range of its length argument.
- Xxh3State.State.ResetWithSecret: an external secret is a value, so changing the caller's bytes after the reset is not captured.
- Xxh3State.State.DigestLong: the copy of the accumulators on the stack is a value.
- TrackerRun.RunTest: no generators, section filters or abort, and trackers are found by their path instead of by address; siblings have different names or lines.
- Reporters, assertions, totals and output capture of Catch2.
- SpecParserState.Parser.Parse: the alias registry's expansion of the argument is given to it.
- Matching test names against patterns, and `TestSpec::serializeTo`.
- TextFlow.Write: ANSI escape sequences are not skipped; the text is taken to have none. It asks that the iteration ends; `TextFlow.EndsIff` says when it does.
- XmlEncode.EncodeTo: the two guards are as in the code, so it neither escapes a leading `]]>` nor refuses the four-byte form of 0x800.
- The child's side of fork, exec, environments, flatpak and writing to the child's input.
- ProcessUnix.Process.GetExitStatus: calls are atomic, the process id is not given to another child, and waiting fails only for an interrupt or a missing child.
- ProcessUnix.Process.CloseFds: joining assumes that the reading thread ends.
- ProcessReader.Reader.Run: stops where the given poll results end, which stands for a thread that still waits.
- JoinArguments.SplitJoined: the rules are those for arguments after the program name.
