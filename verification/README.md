# Goauld: hook engine and agent cores, modelled and proved

Goauld instruments AArch64 processes. Its native hook engine is a small binary translator with a
runtime: it overwrites the first four instructions of a function with a jump to a scratch page,
moves the displaced instructions there, and surrounds the call with two thunks that spill the
registers and call a dispatcher. Around it live a page-trap monitor, JavaScript timers, a set of
cloaked address ranges and a framed wire protocol.

The project models these parts and proves what they are for:

- **A64 machine** (`A64.dfy`, `Words.dfy`): fetch, decode and execute for the instructions that the
  engine emits or decodes, after the Arm Architecture Reference Manual (DDI 0487), encodings and
  operation from section C6.2, condition codes from section C1.2.4, `DecodeBitMasks` from section
  J1.1. The code bytes are in the machine's own memory, and the results are about running them.
- **Relocation** (`Decoder`, `Encode`, `Relocator`, `Relocation`, `Prologues`, `Streaming`): the words
  emitted for displaced instructions have the meaning of the originals.
- **Hooked programs** (`Thunks`, `ThunkRuns`, `Links`, `Twins`, `HookFlow`, `Dispatch`, `DispatchRuns`,
  `HookedRuns`, `Programs`, `Frames`, `Patch`): the hooked program follows the unhooked one through patched
  entries, both thunks, displaced instructions, bodies and nested calls, over all interleavings of threads,
  and over all orders of installing and removing hooks.
- **Assembler** (`BitmaskImm`, `WriterWords`, `Writer`, `WriterLaws`, `WriterRuns`, `SaveAll`, `CallArgs`,
  `Shifts`): labels, literals, bitmask immediates, save-all, call set-up, shifts.
- **Agent** (`PageMonitor`, `Timers`, `Cloak`, `MemoryMap`, `Framing`).

Code that updates state in place is a class whose methods are specified by functions of the old
state; the laws are lemmas about those functions. Machine words are bounded integers with explicit
wrap-around, and the bitwise or of disjoint fields is written as a sum.

Two machine states *agree* when they are equal except in a set of scratch registers (X16 and X17, which
AAPCS64, section 6.1.1, lets a call destroy) and in hidden memory: the overwritten window and the memory of
the hook and its dispatchers. Bytes below the stack pointer in which a thunk left its traces are hidden until
both machines store there. A hooked call is compared with the call that the same caller makes on the unhooked
machine. Inside it the return addresses differ (the caller's own on the one machine, the leave thunk on the
other), and so do those that a displaced call leaves. Such a pair of values is a *link*; a *view* says which
registers and stack slots hold links, and machines are *alike* when they agree on everything else and hold
the links where the view says. A function may move links about, save and reload them and return through
them; it may not compute with them.

Some promises are false of the code; they are stated with the exact condition under which the code
meets them: `DispatchRuns.OwnLinkComesBack` (a hook that was removed while its call was in progress),
`HookedRuns.EnterArrives` (ids of 65536 and more), `Patch.DetachAllRestoresAlways`, `Patch.DetachAllRestores`
and `Patch.StackedHooksDetached` (overlapping hooks), `Relocation.LiteralCarriedExactly`,
`Relocation.PcRelAddrRuns`, `Relocation.AlwaysBranchLost`, `CallArgs.MovesAreParallel`,
`CallArgs.CallReaches` (31 arguments), `WriterLaws.FixupWordLands`, `WriterLaws.LiteralPlaced`,
`WriterRuns.EveryRefLoadsItsLiteral`, `PageMonitor.DisableRestores`, `PageMonitor.FailedEnableStaysShut`,
`PageMonitor.FailedEnableHarmless`, `Cloak.AddKeepsHidden`, `Framing.PrefixIsLength`.

Where comments and code disagree, the model follows the code: inverting a condition exchanges AL and
NV (the comment says that they stay), the thunks save no vector registers whatever `save_simd` says,
and the monitor gives a page that had no permissions read and write permission when it closes.

Check everything with `dafny verify dfyconfig.toml --resource-limit 2000000`.

## Model

| member | source | states |
|---|---|---|
| `Decoder.InvertNegates` | crates/goauld-native-hook/src/decoder.rs:28-49 | the inverted condition holds exactly when the original does not, for all flags, except for AL and NV |
| `Decoder.CondCodesRoundTrip` | crates/goauld-native-hook/src/decoder.rs:51-70 | condition numbers and conditions are inverse to each other on the low four bits |
| `Encode.DecodeBCond` | crates/goauld-native-hook/src/encode.rs:75-79 | decoding the word gives back the condition and the signed 19-bit offset |
| `Encode.DecodeCbz` | crates/goauld-native-hook/src/encode.rs:82-88 | decoding gives back register, width, polarity and offset |
| `Encode.DecodeTbz` | crates/goauld-native-hook/src/encode.rs:91-98 | decoding gives back register, polarity, offset, and the bit number modulo 64 |
| `Encode.DecodeB` | crates/goauld-native-hook/src/encode.rs:101-107 | a word comes out exactly for distances within 128 MiB, and it lands on its target exactly if the distance is aligned |
| `Encode.DecodeLdrLit` | crates/goauld-native-hook/src/encode.rs:110-117 | a word comes out exactly for distances within 1 MiB, and decodes to register, width and offset |
| `Encode.Off19Exact` | crates/goauld-native-hook/src/encode.rs:75-88 | the truncated 19-bit offset lands on the target if and only if it is aligned and within 1 MiB |
| `Encode.AdrExact` | crates/goauld-native-hook/src/encode.rs:38-45 | ADR computes its target if and only if it is within 1 MiB |
| `Encode.AdrpExact` | crates/goauld-native-hook/src/encode.rs:48-66 | ADRP computes the target's page if and only if it is within 2^20 pages |
| `Encode.DecodeAddImm` | crates/goauld-native-hook/src/encode.rs:69-72 | decoding gives back both registers, the width and the low twelve bits of the immediate |
| `Relocator.ComputePatchInsns` | crates/goauld-native-hook/src/relocator.rs:32-52 | fewer than 16 bytes are refused, otherwise exactly the first four words are decoded at their addresses |
| `Relocator.BuildTrampoline` | crates/goauld-native-hook/src/relocator.rs:66-95 | the loop lays out each instruction's words for the address where they land, then the jump back, in at most 96 bytes |
| `Relocator.RelocateAllConcat` | crates/goauld-native-hook/src/relocator.rs:76-83 | relocating a sequence is relocating its parts, each at the address where the one before ended |
| `Relocation.EverySlot` | crates/goauld-native-hook/src/relocator.rs:98-246 | one displaced instruction and its relocated words take agreeing machines to agreeing machines, stored bytes included, falling through or branching alike, each call with its own return address |
| `Relocation.BlockPreservesMeaning` | crates/goauld-native-hook/src/relocator.rs:66-246 | from any slot, when the unhooked machine leaves the four instructions, the trampoline has brought the hooked machine to the same place in an agreeing state, bytes stored on the way being the same, and the hook's code is intact |
| `Relocation.PcRelAddrRuns` | crates/goauld-native-hook/src/encode.rs:48-66 | the emitted ADR or ADRP and ADD leave exactly the target in the register if and only if it is in reach (for register 31, if the low bits are clear) |
| `Relocation.LiteralCarriedExactly` | crates/goauld-native-hook/src/relocator.rs:98-215 | for every register, a relocated literal load has the displaced one's effect if and only if it is LDR W or X, an LDRSW of a non-negative word or into a register that is not compared, or a vector load that changes nothing |
| `Relocation.AlwaysBranchLost` | crates/goauld-native-hook/src/relocator.rs:217-246 | B.AL and B.NV always branch, relocated they always fall through |
| `Prologues.PlainRunsAlike` | crates/goauld-native-hook/src/relocator.rs:98-103 | every interpreted instruction that reads no scratch register and no hidden byte takes agreeing machines to agreeing machines, and after a store they agree on the stored bytes |
| `Prologues.OrdinaryIsInsulated` | crates/goauld-native-hook/src/relocator.rs:98-103 | such an instruction may be copied verbatim if it stores away from the code |
| `Prologues.FramePushIsCarried` | crates/goauld-native-hook/src/relocator.rs:98-103 | the usual frame push is carried on any stack clear of the code, and the pushed bytes may be reloaded |
| `Prologues.OrdinaryPrologueRelocates` | crates/goauld-native-hook/src/relocator.rs:66-103 | a function entry of four such instructions, loads of what it stored included, runs in the trampoline, jump back included, as it did in place |
| `Streaming.Arm64Relocator.WithSource` | crates/goauld-native-hook/src/relocator.rs:287-293 | a fresh relocator has the whole source to do |
| `Streaming.Arm64Relocator.ReadOne` | crates/goauld-native-hook/src/relocator.rs:332-364 | one more instruction is queued with its end-of-block and end-of-input marks, or the input ends; what is consumed and queued stays the decoded source prefix |
| `Streaming.EndsInputAtBranch` | crates/goauld-native-hook/src/relocator.rs:348-353 | the words that end the input are exactly B, BR, BLR and RET |
| `Streaming.EndsBlockAtBranch` | crates/goauld-native-hook/src/relocator.rs:348-361 | those that end a block are exactly these, BL and the conditional branches |
| `Streaming.InputIsPrefix` | crates/goauld-native-hook/src/relocator.rs:332-364 | a fresh relocator has to do with the words up to and including the first B, BR, BLR or RET, or with all whole words if there is none |
| `Streaming.Arm64Relocator.CopyOne` | crates/goauld-native-hook/src/relocator.rs:375-386 | the next instruction's raw word is emitted and leaves the queue |
| `Streaming.Arm64Relocator.WriteOne` | crates/goauld-native-hook/src/relocator.rs:388-399 | the next instruction's relocated words are emitted and it leaves the queue |
| `Streaming.Arm64Relocator.SkipOne` | crates/goauld-native-hook/src/relocator.rs:401-411 | the next instruction leaves the queue without being emitted |
| `Streaming.Arm64Relocator.WriteAll` | crates/goauld-native-hook/src/relocator.rs:413-426 | the loop terminates and emits exactly the relocation of everything left, nothing lost, nothing twice |
| `Streaming.Arm64Relocator.Reset` | crates/goauld-native-hook/src/relocator.rs:428-438 | everything is to do again |
| `Streaming.StreamMatchesBatch` | crates/goauld-native-hook/src/relocator.rs:76-87 | when none of the first three words is a B, BR, BLR or RET, streaming emits the batch block without its jump back |
| `Thunks.BuildEnterThunk` | crates/goauld-native-hook/src/trampoline.rs:205-262 | the appended bytes are spill, dispatch, restore, and the jump to the block or the return |
| `Thunks.BuildLeaveThunk` | crates/goauld-native-hook/src/trampoline.rs:265-308 | the appended bytes are spill, dispatch, restore and return |
| `ThunkRuns.SpillAndCallRuns` | crates/goauld-native-hook/src/trampoline.rs:205-318 | running the first part of a thunk leaves X0 to X30 in the context slots, passes the context and the hook id, and arrives at the dispatcher with the link behind the call |
| `HookedRuns.EnterArrives` | crates/goauld-native-hook/src/trampoline.rs:205-262 | running the patched entry and the enter thunk reaches the dispatcher with the caller's link, and with the hook's own id if and only if that is below 65536 |
| `HookedRuns.LeaveArrives` | crates/goauld-native-hook/src/trampoline.rs:265-308 | running the leave thunk reaches its dispatcher with the link that the body returned with and the low half of the id |
| `HookFlow.ThunkResumes` | crates/goauld-native-hook/src/trampoline.rs:205-308 | running the rest loads every register from its slot, except X16 and X29, and frees the frame |
| `HookFlow.ThunkTransparent` | crates/goauld-native-hook/src/trampoline.rs:205-318 | around a dispatcher that changes only the link, a thunk keeps all registers that a call may not lose |
| `HookFlow.EnterHooked` | crates/goauld-native-hook/src/trampoline.rs:205-262 | from the patched entry through the enter thunk to the relocated block, or in replace mode straight to the link, whether or not the page has a leave thunk |
| `HookFlow.EnterAlike` | crates/goauld-native-hook/src/patch.rs:50-151 | whatever return address the enter dispatcher puts in place of the caller's, the hooked machine comes to the block alike, and program memory, window and page are kept |
| `HookFlow.LeaveHooked` | crates/goauld-native-hook/src/trampoline.rs:265-308 | from the leave thunk to the link that the dispatcher restored |
| `HookFlow.LeaveAlike` | crates/goauld-native-hook/src/trampoline.rs:265-308 | from machines that are alike, one back at its caller and the other at the leave thunk, the hooked one comes to the link that its dispatcher chose, alike in flags and vectors too |
| `Links.LinksMoveAlike` | crates/goauld-native-hook/src/relocator.rs:98-103 | MOV, LDR, STR, LDP and STP of X registers move links between registers and slots, BR and RET follow them, each machine its own; every other interpreted instruction leaves machines alike if it reads nothing that differs |
| `Links.LinksAreKept` | crates/goauld-native-hook/src/relocator.rs:98-103 | so such an instruction may be run on both machines, in place or copied into the block, if it writes clear of the code |
| `Twins.TwinStep` | crates/goauld-native-hook/src/relocator.rs:66-246 | for one instruction of the unhooked machine, displaced or not, the hooked machine takes its own steps to the corresponding place in an alike state; a displaced call leaves a link, by which its callee comes back into the block |
| `Twins.TwinsRun` | crates/goauld-native-hook/src/relocator.rs:66-246 | for any number of instructions, in and out of the block, through calls made from it and through the body, the hooked machine follows |
| `Twins.RunAdds` | crates/goauld-native-hook/src/relocator.rs:66-246 | what differs behind such a run beyond what differed before: bytes at which a link was stored, registers that hold one |
| `Frames.FramePushSavesLink` | crates/goauld-native-hook/src/relocator.rs:98-103 | the usual frame push puts the link into its stack slot |
| `Frames.FramePopTakesLink` | crates/goauld-native-hook/src/relocator.rs:98-103 | the frame pop takes it back, and RET goes to it |
| `Frames.FrameFunctionReturns` | crates/goauld-native-hook/src/relocator.rs:66-103 | a whole function made of these, all of it displaced, returns to its caller unhooked and to the leave thunk hooked |
| `Frames.FrameFunctionIsTraced` | crates/goauld-native-hook/src/trampoline.rs:107-308 | for it, all premises of the hooked-call results are met, with dispatchers that do what the registry says |
| `HookFlow.ReplacedCallReturns` | crates/goauld-native-hook/src/trampoline.rs:205-262 | a replaced function returns to its caller without reaching the body |
| `DispatchRuns.Registry.BeginEnter` | crates/goauld-native-hook/src/trampoline.rs:107-137 | the first locked section of the enter dispatch: the link is pushed and redirected, the callback taken |
| `DispatchRuns.Registry.EndEnter` | crates/goauld-native-hook/src/trampoline.rs:143-149 | the guarded put-back |
| `DispatchRuns.Registry.BeginLeave` | crates/goauld-native-hook/src/trampoline.rs:153-170 | the leave callback taken |
| `DispatchRuns.Registry.EndLeave` | crates/goauld-native-hook/src/trampoline.rs:176-187 | the put-back, and the innermost saved link popped into the context |
| `DispatchRuns.StepKeepsInv` | crates/goauld-native-hook/src/trampoline.rs:107-187 | each locked section, return, installation and removal, at any time, keeps the invariant below |
| `DispatchRuns.EveryRunKeepsInv` | crates/goauld-native-hook/src/trampoline.rs:107-187 | over every interleaving and nesting, removals during calls included, each registered hook's shadow stack holds exactly the links of its thread's redirected unfinished calls, innermost last, and each callback is in its slot or in one dispatch |
| `DispatchRuns.LeaveRestoresItsLink` | crates/goauld-native-hook/src/trampoline.rs:153-187 | in every reachable state a leave dispatch puts the link of the innermost call in the context if and only if its hook is still registered, and otherwise leaves the context alone |
| `DispatchRuns.OwnLinkComesBack` | crates/goauld-native-hook/src/trampoline.rs:107-187 | a call keeps its hook and link until it leaves, so that its leave dispatch restores the very link that it was entered with, if and only if the hook is still registered |
| `DispatchRuns.FreshIds` | crates/goauld-native-hook/src/trampoline.rs:81-83 | the 32-bit id counter yields an unused id as long as fewer than 2^32 - 1 hooks were installed |
| `DispatchRuns.NeverTwiceAtOnce` | crates/goauld-native-hook/src/trampoline.rs:136-180 | no callback is run by two dispatches at once |
| `DispatchRuns.NoCallbackIsLost` | crates/goauld-native-hook/src/trampoline.rs:136-180 | with no dispatch of a hook in progress, both its callbacks are in their slots |
| `DispatchRuns.EnterGetsCallback` | crates/goauld-native-hook/src/trampoline.rs:117-141 | in every reachable state an enter dispatch of a registered hook gets the callback that the hook was installed with, unless another enter dispatch of it holds it just then |
| `DispatchRuns.LeaveGetsCallback` | crates/goauld-native-hook/src/trampoline.rs:161-174 | the leave dispatch of a redirected call gets the leave callback under the same condition |
| `DispatchRuns.InstalledAsAttached` | crates/goauld-native-hook/src/patch.rs:131-140 | and those are the callbacks, and the leave thunk, that were given when the hook was attached |
| `HookedRuns.ReturnDispatches` | crates/goauld-native-hook/src/trampoline.rs:107-187 | what is asked of dispatchers can be met from every state, for every answer |
| `Programs.ProgramFollows` | crates/goauld-native-hook/src/trampoline.rs:107-308 | over whole runs of a program, calls of the hooked function within its own calls included, and whatever other threads do to the registry, the hooked machine comes to where the unhooked one comes, alike |
| `Programs.EnterOnlyThroughRegistry` | crates/goauld-native-hook/src/trampoline.rs:107-150 | a call that the registry does not redirect comes back to its own caller with the unhooked call's registers and memory, with or without a leave thunk on the page |
| `Programs.CallThroughRegistry` | crates/goauld-native-hook/src/trampoline.rs:107-187 | a redirected call, both dispatchers answering from what the thunks pass them and from the registry at that moment, comes back to the caller that the unhooked call of the same caller comes back to, alike, if and only if the hook is still registered after whatever all threads did in between |
| `Programs.HookedCallIsTransparent` | crates/goauld-native-hook/src/patch.rs:50-151 | it does so with the unhooked call's stack pointer, flags, vectors, registers and memory, except X16, X17 and X30, registers and bytes in which the function left its return address, and thunk frames below the stack pointer |
| `HookedRuns.ReplacedThroughRegistry` | crates/goauld-native-hook/src/trampoline.rs:107-187 | the same for a replaced function |
| `Patch.CodeMemory.AttachWithDecoder` | crates/goauld-native-hook/src/patch.rs:50-151 | memory, registry and id counter after every outcome, failures included: the page filled in, the window overwritten, the entry filed |
| `Patch.AttachOutcome` | crates/goauld-native-hook/src/patch.rs:50-151 | an installation succeeds if and only if a page is mapped, sixteen bytes are given and the target can be written; which error else; a failed one files nothing and changes nothing but its page |
| `Patch.AttachThenDetach` | crates/goauld-native-hook/src/patch.rs:50-199 | removing what was just installed leaves registry and memory as before, but for the page |
| `Patch.CodeMemory.ReplacePtr` | crates/goauld-native-hook/src/patch.rs:154-193 | the same for a bare replacement |
| `Patch.ReplaceOutcome` | crates/goauld-native-hook/src/patch.rs:154-193 | the same exact outcome for a bare replacement |
| `Patch.ReplacementRuns` | crates/goauld-native-hook/src/patch.rs:154-175 | a call of the replaced function arrives at the replacement with every register but X17 intact |
| `Patch.CodeMemory.Detach` | crates/goauld-native-hook/src/patch.rs:195-199 | the entry goes, and with it the jump unless the memory cannot be written |
| `Patch.CodeMemory.DetachAll` | crates/goauld-native-hook/src/patch.rs:202-208 | every hook is detached once, in an order of the registry's choosing |
| `Patch.EveryRunKeepsBook` | crates/goauld-native-hook/src/patch.rs:50-249 | over every run, memory outside the scratch pages is the original image with the live hooks' jumps over it, latest uppermost, and every page holds what was copied into it |
| `Patch.OpKeepsBook` | crates/goauld-native-hook/src/patch.rs:50-199 | one installation or removal keeps that ledger, if no later hook overlaps the removed one |
| `Patch.DetachAllRestoresAlways` | crates/goauld-native-hook/src/patch.rs:202-208 | detaching all leaves the image in every order that the registry may pick if and only if every hook had saved the image's own bytes |
| `Patch.DisjointHooksDetach` | crates/goauld-native-hook/src/patch.rs:202-208 | which hooks on disjoint windows do |
| `Patch.DetachAllRestores` | crates/goauld-native-hook/src/patch.rs:202-208 | for a given order, what is left: every byte is the one that lay below the last detached hook over it |
| `Patch.FirstIsLastRestores` | crates/goauld-native-hook/src/patch.rs:202-208 | it is back when over each address the first placed hook goes last, in particular newest first, or in any order if the hooks are disjoint |
| `Patch.StackedHooksDetached` | crates/goauld-native-hook/src/patch.rs:195-208 | any number of hooks on one function: detached in any order, the function is itself again if and only if the first one placed went last or the function began with the jump that is left behind |
| `Patch.WritePageFits` | crates/goauld-native-hook/src/patch.rs:34-39 | the three parts of a scratch page do not overwrite each other or leave the page |
| `Patch.IntactPageServes` | crates/goauld-native-hook/src/patch.rs:58-105 | an intact page is the machine code of its thunks, one or two, and of the block that the hooked-call results start from |
| `Patch.IntactPageInstallsBlock` | crates/goauld-native-hook/src/patch.rs:58-62 | its block is the relocation of the instructions that the window held |
| `Patch.AttachedIsPatched` | crates/goauld-native-hook/src/patch.rs:50-151 | a successful installation leaves memory as the hooked-call results require it, and the dispatchers' table with the leave thunk's address that they require |
| `Patch.AttachKeepsTable` | crates/goauld-native-hook/src/patch.rs:106-151 | an installation files its entry for patcher and dispatchers under one id, and calls are redirected if and only if somebody wants to see them return; a failed one files nothing |
| `Patch.RunKeepsTable` | crates/goauld-native-hook/src/patch.rs:195-199 | removals and dispatches keep the two views of the table together |
| `BitmaskImm.TryEncodeLogicalImm` | crates/goauld-native-hook/src/writer.rs:163-214 | the nested search returns an encoding exactly when one exists, it decodes to the value, and its element size is the smallest possible |
| `BitmaskImm.AllChunksEqual` | crates/goauld-native-hook/src/writer.rs:182-194 | the inner loop recognises exactly the values tiled by their lowest chunk |
| `Writer.Arm64Writer.PutBImm` | crates/goauld-native-hook/src/writer.rs:323-331 | a branch is emitted exactly when the target is in reach |
| `Writer.Arm64Writer.PutBranchToLabel` | crates/goauld-native-hook/src/writer.rs:347-413 | a placeholder is emitted and its fixup remembered |
| `Writer.Arm64Writer.ResolveFixups` | crates/goauld-native-hook/src/writer.rs:1048-1077 | pending branches are patched in order up to the first failure, and all of them are forgotten |
| `Writer.Arm64Writer.PutLdrRegValue` | crates/goauld-native-hook/src/writer.rs:909-924 | the literal is appended and only the referring word's offset field changes; bad references are refused |
| `WriterLaws.ResolvesWhenAllDo` | crates/goauld-native-hook/src/writer.rs:1048-1077 | resolution succeeds if and only if every label is defined and every branch accepts its distance |
| `WriterLaws.ResolvedBytes` | crates/goauld-native-hook/src/writer.rs:1048-1077 | after success every fixup word is its branch and no other byte has changed |
| `WriterLaws.LabelsResolve` | crates/goauld-native-hook/src/writer.rs:283-289 | each resolved word decodes to a branch of its kind that lands on its label if and only if the label is in reach |
| `WriterLaws.FixupWordLands` | crates/goauld-native-hook/src/writer.rs:1048-1077 | B and BL refuse exactly the distances beyond 128 MiB; every other branch is emitted, and lands on its target if and only if in reach |
| `WriterLaws.LiteralPlaced` | crates/goauld-native-hook/src/writer.rs:902-924 | a literal reference points at its own literal if and only if the distance is below 1 MiB |
| `WriterLaws.LiteralIsLoaded` | crates/goauld-native-hook/src/writer.rs:902-924 | running a load at a place whose literal is in the code puts the literal in the register |
| `WriterRuns.EveryRunKeepsInv` | crates/goauld-native-hook/src/writer.rs:902-924 | over every sequence of emissions, labels, branches, references and literals, each reference's word names its own literal, and references, literals and pending branches do not overlap |
| `WriterRuns.EveryBranchReachesItsLabel` | crates/goauld-native-hook/src/writer.rs:283-413 | after any such sequence and a successful flush, the branch emitted at a place is there, and leads to where its label was put last if and only if that is in reach |
| `WriterRuns.FlushNeedsLabels` | crates/goauld-native-hook/src/writer.rs:1048-1077 | a branch to a label that was never put makes the flush fail |
| `WriterRuns.LiteralStays` | crates/goauld-native-hook/src/writer.rs:902-924 | each reference is that of its load, and its literal the one placed for it last |
| `WriterRuns.EveryRefLoadsItsLiteral` | crates/goauld-native-hook/src/writer.rs:902-924 | after any such sequence and a successful flush, each reference loads its own literal if that is below 1 MiB away, and points there only then |
| `WriterRuns.Perform` | crates/goauld-native-hook/src/writer.rs:275-413 | the writer's own methods produce exactly those runs |
| `Writer.Arm64Writer.PutPushAllXRegisters` | crates/goauld-native-hook/src/writer.rs:739-746 | the emitted words are the pushes of all pairs, then of X30 and the flags |
| `Writer.Arm64Writer.PutPopAllXRegisters` | crates/goauld-native-hook/src/writer.rs:748-758 | the pops in the opposite order |
| `SaveAll.SaveAllXRoundTrip` | crates/goauld-native-hook/src/writer.rs:739-758 | save all, any code that keeps the saved bytes, restore all: X0 to X30, the flags and SP are back, and only the 256 bytes below SP were written |
| `SaveAll.SaveAllQRoundTrip` | crates/goauld-native-hook/src/writer.rs:760-774 | the same for Q0 to Q31 and 512 bytes |
| `WriterWords.DecodePairInsn` | crates/goauld-native-hook/src/writer.rs:690-727 | decoding an STP or LDP word gives back registers, width, mode and scaled offset |
| `CallArgs.MovesAreParallel` | crates/goauld-native-hook/src/writer.rs:1004-1023 | the argument moves place every argument's entry value if and only if no argument reads the register of a later one, unless that one leaves it in place |
| `CallArgs.CallReaches` | crates/goauld-native-hook/src/writer.rs:977-992 | near or far, the emitted call arrives at the function with all arguments and the link behind the call, except that the 31st argument gives way to the link and a far call with 31 arguments goes to address 0 |
| `CallArgs.CallRegReaches` | crates/goauld-native-hook/src/writer.rs:994-1002 | the same through a register, to its entry value, or to its argument if it takes one |
| `Writer.Arm64Writer.PutCallAddressWithArguments` | crates/goauld-native-hook/src/writer.rs:977-992 | the reverse loop emits exactly those words |
| `Shifts.LslComputes` | crates/goauld-native-hook/src/writer.rs:821-829 | the emitted bit field move multiplies by 2^shift modulo the register width |
| `Shifts.LsrComputes` | crates/goauld-native-hook/src/writer.rs:831-837 | it divides by 2^shift, rounding down |
| `Shifts.LslThenLsr` | crates/goauld-native-hook/src/writer.rs:821-837 | running the two emitted words, left then right by the same amount, keeps exactly the low bits |
| `PageMonitor.Monitor.Collect` | crates/goauld-script/src/memory_access.rs:88-112 | the walk finds exactly the pages that meet a range, numbers them from zero without gaps, and records the first range that each meets |
| `PageMonitor.MonitoredIffShared` | crates/goauld-script/src/memory_access.rs:91-110 | a page is monitored exactly if it shares a byte with a range, taken without its tag byte and with at least one byte |
| `PageMonitor.Monitor.Enable` | crates/goauld-script/src/memory_access.rs:83-144 | the outcome and state for success, no ranges, and a page that cannot be protected, which is named |
| `PageMonitor.Monitor.OnFault` | crates/goauld-script/src/memory_access.rs:268-341 | which faults are the monitor's, and what each does to protections, counts and events |
| `PageMonitor.FaultIsAnswered` | crates/goauld-script/src/memory_access.rs:268-341 | after any faults of a session, a fault is the monitor's own if and only if its page is monitored; the page then has its saved protection, no other page changes, and an event with operation, place and address of the access is sent exactly by the first fault of a page |
| `PageMonitor.ClosedIsSilent` | crates/goauld-script/src/memory_access.rs:146-162 | once the monitor is closed no fault is its own or has any effect |
| `PageMonitor.Monitor.Disable` | crates/goauld-script/src/memory_access.rs:146-162 | the loop gives every monitored page its saved protection |
| `PageMonitor.EveryRunTraps` | crates/goauld-script/src/memory_access.rs:268-341 | over every run of faults the count is that of the completed pages, and every page has sent at most one event, correctly numbered |
| `PageMonitor.InaccessibleIffPending` | crates/goauld-script/src/memory_access.rs:83-341 | after any faults a page is inaccessible if and only if it is monitored and not completed, or was inaccessible and is not monitored |
| `PageMonitor.DisableRestores` | crates/goauld-script/src/memory_access.rs:146-162 | after closing every page has the protection that it had, but monitored pages without permissions may be read and written; so all protections are restored exactly if no monitored page was without permissions |
| `PageMonitor.FailedEnableStaysShut` | crates/goauld-script/src/memory_access.rs:119-130 | pages shut before a failure stay shut, even after closing; the protections are what they were if and only if those pages had none |
| `PageMonitor.FailedEnableHarmless` | crates/goauld-script/src/memory_access.rs:113-130 | that is so for every order of the page table if and only if all its pages had none |
| `Timers.Runtime.ScheduleTimer` | crates/goauld-script/src/timers.rs:22-31 | a fresh id is registered and its thread started before the script's entry exists |
| `Timers.Runtime.CancelTimer` | crates/goauld-script/src/timers.rs:60-64 | the flag is set only for a registered timer |
| `Timers.Runtime.ThreadTurn` | crates/goauld-script/src/timers.rs:33-56 | the sections of a timer thread's loop |
| `Timers.Runtime.TakeJob` | crates/goauld-script/src/js_queue.rs:98-124 | the worker runs the oldest job |
| `Timers.Runtime.RunCallback` | crates/goauld-script/src/frida_prelude.inc.js:1122-1129 | a one-shot entry is gone before its callback runs |
| `Timers.EveryRunKeepsInv` | crates/goauld-script/src/timers.rs:22-64 | the invariant behind the next four rows holds over all interleavings of timer threads, queue and worker |
| `Timers.OneShotRunsOnce` | crates/goauld-script/src/frida_prelude.inc.js:1091-1129 | a one-shot callback runs at most once, whatever scripts do through the timer functions |
| `Timers.ClearedNeverRuns` | crates/goauld-script/src/frida_prelude.inc.js:1116-1129 | after it was cleared a timer's callback never starts again, even with a fire job queued |
| `Timers.FireJobFindsCallback` | crates/goauld-script/src/frida_prelude.inc.js:1091-1129 | a fire job of a timer left alone always finds its callback |
| `Timers.OneShotConserved` | crates/goauld-script/src/timers.rs:33-56 | a one-shot timer left alone is in exactly one place: its thread, the queue, or the past |
| `Timers.CancelStopsThread` | crates/goauld-script/src/timers.rs:33-64 | behind the cancel of a scheduled timer its thread posts at most the one job that it was about to post, and once awake it never sleeps again |
| `Timers.IntervalGoesOn` | crates/goauld-script/src/timers.rs:33-56 | an interval that is not cleared stays in its loop: asleep, awake, posting, and asleep again |
| `Timers.QueueIsInOrder` | crates/goauld-script/src/js_queue.rs:98-124 | over every run the worker takes jobs in the order in which they were posted, none lost, none twice |
| `Cloak.Registry.AddRange` | crates/goauld-script/src/cloak.rs:67-76 | ranges that touch the new one are dropped and it is appended |
| `Cloak.ContainsExactly` | crates/goauld-script/src/cloak.rs:14-20 | a range holds its addresses, cut off at the last address of all |
| `Cloak.OverlapsIffShare` | crates/goauld-script/src/cloak.rs:22-24 | non-empty ranges overlap if and only if they share an address |
| `Cloak.TouchesIffNear` | crates/goauld-script/src/cloak.rs:67-76 | and touch if and only if an address of one is an address of the other or next to one |
| `Cloak.AddDrops` | crates/goauld-script/src/cloak.rs:67-76 | an addition drops exactly the stored ranges that touch the new one in this sense, and adds nothing but the new one |
| `Cloak.RemoveHides` | crates/goauld-script/src/cloak.rs:78-81 | a removal uncovers exactly what the one stored range that equals the given one hid |
| `Cloak.AddRemove` | crates/goauld-script/src/cloak.rs:67-81 | a range that touches no stored one is added and removed without a trace |
| `Cloak.EveryRunStaysSeparate` | crates/goauld-script/src/cloak.rs:67-81 | over every sequence of additions and removals the stored ranges neither overlap nor adjoin |
| `Cloak.AddHides` | crates/goauld-script/src/cloak.rs:67-76 | exactly what is hidden after an addition |
| `Cloak.AddKeepsHidden` | crates/goauld-script/src/cloak.rs:67-76 | adding uncovers nothing if and only if every range that it touches lies inside the new one |
| `Cloak.CloakedIffHidden` | crates/goauld-script/src/cloak.rs:87-94 | the test for one enclosing range is exact because stored ranges are separate; what it says of empty probes |
| `Cloak.Registry.ClipRange` | crates/goauld-script/src/cloak.rs:103-151 | the sweep returns the complement of the cloaked set within the query as ascending non-empty fragments, and nothing if and only if nothing is hidden there |
| `MemoryMap.ProtMatches` | crates/goauld-script/src/api.rs:1552-1568 | a protection matches if and only if it grants every permission asked for |
| `MemoryMap.GrantsIsSubset` | crates/goauld-script/src/api.rs:1552-1568 | which among protections as the map writes them is having all permissions named |
| `MemoryMap.CoalesceRanges` | crates/goauld-script/src/api.rs:1570-1586 | the merged list shows the same addresses with the same protection and file, in as many bytes, and no neighbours could be merged further |
| `MemoryMap.MergeableIffOneLine` | crates/goauld-script/src/api.rs:1570-1586 | neighbours are merged if and only if one line, as long as both, shows what both show |
| `MemoryMap.EnumerateRanges` | crates/goauld-script/src/api.rs:1518-1528 | the listed ranges show what the filtered lines show |
| `MemoryMap.ListedIffVisible` | crates/goauld-script/src/api.rs:1518-1528 | a line is listed if and only if it grants what is asked for and none of its addresses is cloaked |
| `MemoryMap.EnumerationIsExact` | crates/goauld-script/src/api.rs:1518-1528 | an address is shown if and only if a matching line that touches no cloaked range holds it, so no cloaked address ever is |
| `Framing.EncodeMessage` | crates/goauld-proto/src/lib.rs:163-175 | the buffer is length prefix, type byte and payload, or the length error |
| `Framing.EncodeDecode` | crates/goauld-proto/src/lib.rs:163-299 | decoding gives back every message whose payload is below 2^32 - 1 bytes, data of no bytes as none, whatever follows |
| `Framing.EncodeFails` | crates/goauld-proto/src/lib.rs:163-168 | encoding fails exactly for payloads one byte short of a multiple of 2^32 |
| `Framing.PrefixIsLength` | crates/goauld-proto/src/lib.rs:163-175 | the length prefix is right if and only if the payload is below 2^32 bytes |
| `Framing.DecodeIgnoresRest` | crates/goauld-proto/src/lib.rs:217-238 | decoding depends on the first frame only |
| `Framing.PrefixIsTruncated` | crates/goauld-proto/src/lib.rs:217-238 | every strict prefix of an encoding is truncated, with the right need |
| `Framing.UnknownTypeExactly` | crates/goauld-proto/src/lib.rs:217-238 | a complete frame is of unknown type if and only if no message type has its type byte |
| `Framing.TruncatedExactly` | crates/goauld-proto/src/lib.rs:217-234 | what is reported as truncated, and what as of bad length |
| `Framing.LaidSendDecodes` | crates/goauld-proto/src/lib.rs:265-299 | a body of two lengths, JSON and data decodes to exactly these |
| `Framing.MalformedExactly` | crates/goauld-proto/src/lib.rs:265-299 | a body is malformed if and only if it is not laid out so |
| `Framing.ClientHearsAgent` | scripts/freedump.py:130-157 | the dump client, with its own type numbers and slices, hears every message of the agent as it was meant |
| `Framing.AgentHearsClient` | scripts/freedump.py:122-127 | the agent decodes the client's frame as the script to load |
| `Framing.Session.ReadFrame` | scripts/freedump.py:202-214 | one frame off the stream however it was cut, or none left |
| `Framing.Session.ReadAll` | scripts/freedump.py:216-235 | reading until the connection closes yields the frames of the stream in order |
| `Framing.StreamDelivers` | scripts/freedump.py:202-214 | any messages, in any pieces, arrive in order and decode to themselves |

## Left out

- Programs.ProgramFollows: the dispatchers enter as the states in which they return; they leave the saved context alone but for the link, keep flags and vectors and write only their own memory. Code that looks at its return address other than to move it or to return (pointer authentication, unwinders), tail calls of the hooked function from within itself, and further hooks on other functions are not covered. The machines run one thread; other threads act on the registry, not on the thread's memory.
- Programs.CallThroughRegistry: hook ids are below 65536, beyond which the thunk names another hook. The unhooked call returns to its own caller; calls nested in it do, too, and their hook stays registered meanwhile.
- Relocation.BlockPreservesMeaning: words outside the interpreted set act through an uninterpreted function of the word and the state, required not to observe scratch registers or hidden bytes; what happens between leaving the block by a call and coming back to its next slot is the callee's.
- Relocation.LiteralCarriedExactly: PRFM literals are not in it; they have no effect in the model, and are carried as they stand.
- Prologues.OrdinaryIsInsulated: covers the interpreted instructions only.
- DispatchRuns.EveryRunKeepsInv: a new hook's id must be free, which `DispatchRuns.FreshIds` shows of the first 2^32 - 2 hooks; callbacks are names.
- WriterRuns.EveryRefLoadsItsLiteral: that a literal 1 MiB away or more is not what is loaded holds of the address, not always of the value.
- WriterRuns.Perform: references are taken below 4 GiB, where their 32-bit offsets are exact.
- CallArgs.CallReaches: argument lists of 32 and more, for which there are no registers.
- CallArgs.CallRegReaches: argument lists of 32 and more.
- Writer.Arm64Writer.PutCallAddressWithArguments: argument lists of 32 and more.
- BitmaskImm.TryEncodeLogicalImm: the source's last shift is without effect at element size 64 and is modelled so.
- PageMonitor.Monitor.Enable: faults that arrive before the new state is stored, and additions that leave 64 bits, are excluded; the completed count is not bounded by the word size.
- Framing.EncodeDecode: JSON is any codec whose decoder inverts its encoder.
- Framing.ClientHearsAgent: the client reads JSON as the agent writes it; what it makes of the JSON inside a payload is not modelled.
- PageMonitor.FaultIsAnswered: what the earlier signal handler does with a fault that is passed on to it is not modelled.
- Framing.Session.ReadFrame: socket timeouts, and the rejection of frames without a type byte by the later decoding step, are not modelled.
- Framing.Session.ReadAll: only the reading of frames until the connection closes; the deadline, the timeouts and what is done with each message are not modelled.
- Timers.OneShotRunsOnce: a script that writes the callback table itself, instead of going through the timer functions, is not a step of the model.
- Timers.FireJobFindsCallback: delays, the conversion of ids to floating point, a thread that cannot be started and an interrupted script are not modelled.
- The flags and vector registers across a thunk: the code saves neither, so only AAPCS64's own rules protect them.
- The context's `pc` field lies over the saved X29, and the slot of X29 is ignored on the way back; `HookFlow.ThunkResumes` says what a callback's write there does, nothing is proved beyond it.
- Pre- and post-indexed single loads and stores, MOVK, PAC and system register helpers, comparison and register arithmetic of the writer: straightforward word tables.
- Instruction cache maintenance, mapping and unmapping of pages, protections of code pages beyond success or failure, `/proc` parsing, sockets, pipes: operating system effects, entering as parameters where they decide a branch.
- Reading instruction words out of process memory in the streaming relocator: only the byte-slice source is modelled.
- Thread and descriptor cloaking, module lists, ELF tables, process injection, JNI, op dispatchers and the command line: they would add only easy members.
