# Verified model of the settlement certificate, the keeper and the governance replay

This project models the parts of the repository whose claims rest on an argument rather than on a sample, and proves
those arguments for all inputs. `dafny verify dfyconfig.toml` checks the whole of it.

**The gas certificate** (`script/certificate/modules`, `script/certificate/protocol`). `Evm`, `ConcreteOracle` and
`ModuleBound` are the decoder, the concrete interpreter with gas and the abstract interpreter over known and unknown
words; `Assembly`, `WordLaws`, `MemoryLaws` and `StepLaws` say what opcodes, word operations, memory accesses and whole steps
mean and cost apart from how they are computed; `Simulation` proves that every concrete instruction is covered by an abstract successor that charges no less,
and `Precision` that where nothing is unknown it is the only one and charges the same;
`LongestPath` is the search over the state graph; `GasBound` is the worklist, the graph and the soundness theorem, and
`AfterStop` the part of a frame after its stop point; `ResolveCalldata` and `ModuleRun` close the loop from the calldata
GameHub sends to the module's bound. `RejoinedProgram`, `RejoinedEntry` and `RejoinedStop` follow one program through both
interpreters and the worklist, to show which terms of the theorems are needed. The theorems state the analyser's assumptions
as hypotheses that can be read off:

- M1: a load or store at a site whose address was unknown runs at or above 0x80 inside allocated memory
  (`StepAdmissible`, for the recorded sites only).
- M2: joining free-memory pointers by maximum is not a value abstraction. The theorem asks that every join met equal or
  unknown words at 0x40 (`JoinsAgree`), a property of the final states that can be checked.
- A calldata or code copy starts inside its source, MSIZE runs only where joined sizes are equal, and sizes stay words.

**The tree component** (`script/certificate/tree`). `TreeBits` is the suffix-query loop and its closed form, `MaxTable`
the tables that keep one maximum per state, `EndpointDp` and `JointDp` the programs over one and two endpoints,
`TreeComponent` and `SuffixSkip` the published maxima. All are proved exact for every height against costs stated
directly on the bits and against explicit sets of touched nodes.

**The nested call budget** (`Composition`): the all-but-one-64th rule of EIP-150 (section "Specification") with explicit
reserves, and the gas an SSTORE must find (EIP-2200, section "Specification") as a check that spends nothing: for one call,
for any nesting of frames, for the folding of calls into one caller total, for the Bank frame with its explicit boundary
charges, and for the last write of every frame of the callback.

**The keeper** (`frontend/apps/keeper`). `KeeperQueue` is the work queue, `VoidOrder` the executor as a step relation over
every interleaving, `BlockRanges`, `Payables` and `PayableRotation` the payable claimer with its failures, lost saves and
restarts, and the order it visits players in.

**The monitor** (`script/ops/config-drift-monitor.py`). `VoidEligibility` compares the closed-form eligibility with the
contract's rule, `VoidMonitor` a whole scan with following the chain log by log, and both with what the logs alone say.

**Governance** (`script/release/verify_governance.py`, `frontend/packages/bet-index/src/governance.ts`). `Numerals`,
`Authority`, `Checkpoint` and `AuthorityReplay` are the replay, its codec and its paging, `AuthorityMeaning` what a replayed
state says of the log alone; `Timelock` is the position-guarded index.

## Where a promise needs a condition

The code does not check these conditions. Each is stated by the lemmas named.

- `concrete_oracle.py:91-94`, `163`: a copy whose source starts past the end of the data returns more bytes than asked for,
  and the slice assignment then grows memory and moves what follows (`CopyKeepsMemoryLength`). Where sizes are exact, a copy
  is simulated if and only if nothing is copied or its source starts inside its data (`CopySimulatedIff`).
- `pure_module_bound.py:341-349`: edges prepay the joined memory size of their target, but nothing prepays the size the
  entry state itself was joined to. The theorem adds that price (`GasSoundness`), and it is needed: a program with a JUMPDEST
  at 0 is analysed to 92 without a cycle, and its run meets every hypothesis and spends 110, the bound and the price of the
  six words joined into its entry (`EntrySizeIsSpent`). The bound holds as it is when no memory was joined into the entry
  (`GasBoundHolds`), which is so for all code without a JUMPDEST at 0 (`EntrySizeZero`).
- `pure_module_bound.py:311-313`: joining two states that both lack 0x40 adds the word 0 there, so a state joined with
  itself equals itself if and only if it tracks 0x40 (`JoinSelf`). When the worklist empties, joining any successor into the
  state of its key changes nothing else (`WorklistCloses`), and changes nothing at all if and only if that state tracks 0x40
  (`AbsorbsUnchangedIff`).
- `frame_bound.py:243-246`: the figures to and from a stop point, which `composition.py:79-80` uses together, leave out what
  memory grows between them: the edge into the stop point does not prepay the size its state is joined to. `afterStop` is no
  bound on what follows, nor is the sum on the whole. The same program measured at its second instruction has 1 to it and 91
  from it; its run arrives there with 1 spent and ends with 110, the sum and the price of the joined six words
  (`StopSumIsShort`). With that growth added both are bounds (`TailBoundHolds`, `StopSumHolds`). The sum alone is one when no
  state at the stop point was joined to more memory than any arrival of the stopped analysis has (`StopSumHolds`).
- `composition.py:98-106`: the explicit charges count what each call withholds once, but not what the Vault withholds for its
  tokens in addition. The sum is enough for every settlement within the terms, sentries included, if and only if, with
  Ret(u) = (u - 1) // 63 and S the sentry, Ret(T + S) + Ret(V + Ret(T + S)) <= Ret(V) + T // 63 + G + 3 S, for T the
  token term, V the Vault's and G the getter charges (`ExplicitChargesSufficeIff`). Every token term of up to 27 million gas
  meets it (`RuleHolds`), which is more than ten times `MAX_CALLBACK_GAS`; with 30 million gas of tokens alone it fails
  (`LargeTokensRunOut`).
- `payables.ts:241-256`: a pass may delete a player although its finalized read lags behind the cursor, and then forgets a
  debt created after that block (`LaggingPassForgets`, from a new process on). It cannot when the finalized block is at or
  above the cursor (`DeletionCoveredIff`), which a pass that reports no `finalizedBehindBy` guarantees (`NoLagMeansAbove`).
- `verify_governance.py:357-360` against `434-450`: the replay accepts pool 0, the checkpoint reader refuses it, so a
  checkpoint of such a history cannot be resumed (`ResumedReplayIsExact`).
- `governance.ts:341-343`: the salt update has no position guard. After a log written in emission order, rewriting any of its
  events is harmless if and only if, for each scheduled call, all salts of its operation are equal and are zero or logged at
  least once after the call's first schedule (`ReplaysHarmlessIff`). The emission order of the contract, one salt for an
  operation and after its calls, is enough (`RewriteChangesNothing`).
- `suffix-skip-joint-dp.py:69`: the fixed choice of the cutoff's low bits gives each row its maximum over all cutoffs, at
  every height from 3 on, if and only if -4000 <= left <= right: each step of the predicate also reads two nodes at 2000
  (`AllMaximaIff`, and `RowMaximumIff` for one width). Outside it the best row is still the maximum over every cutoff if and
  only if no row, with what its fixed low bits lose added, exceeds it (`PreselectLast`). For the predicate's walk alone the
  choice is best at every width if and only if 0 <= left <= right (`ChoiceBestIff`).

## Model

| member | source | states |
|---|---|---|
| Evm.Decode | script/certificate/modules/pure_module_bound.py:45-60 | Every decoded instruction is the one the bytes at its position spell, with PUSH data read from the code, and its successor lies after it. |
| Assembly.DecodesIff | script/certificate/modules/pure_module_bound.py:136-236 | A byte decodes to an instruction if and only if it is one of the opcodes of that instruction, for every instruction without an immediate. |
| Assembly.DecodingReads | script/certificate/modules/pure_module_bound.py:45-58 | Decoding undoes writing: code that spells a list of instructions up to its metadata decodes to exactly them, each at its place. |
| Assembly.MetadataIsCutOff | script/certificate/modules/pure_module_bound.py:47-49 | The metadata and its two length bytes are cut off, and nothing else. |
| Assembly.JumpDestsIff | script/certificate/modules/pure_module_bound.py:59 | A jump may go to exactly the bytes 0x5b that are instructions, not push data. |
| Assembly.AluTable | script/certificate/modules/pure_module_bound.py:29-35 | Operands and prices of the arithmetic opcodes, opcode by opcode. |
| Evm.MemCostMonotone | script/certificate/modules/pure_module_bound.py:62-63 | A larger memory never costs less, which the prepayment of expansions rests on. |
| MemoryLaws.MemCostIs | script/certificate/modules/pure_module_bound.py:62-63 | The price of w words is 3w and the whole part of w^2 / 512. |
| MemoryLaws.NeededIsLeast | script/certificate/modules/pure_module_bound.py:122-131 | An access needs the fewest words that hold its last byte. |
| MemoryLaws.ExpCostIs | script/certificate/modules/pure_module_bound.py:237-240 | EXP is priced by the fewest bytes that hold its exponent. |
| WordLaws.AddCounts | script/certificate/modules/pure_module_bound.py:256 | Addition counts on from its first operand, around the end of the words. |
| WordLaws.MulRepeatsAdd | script/certificate/modules/pure_module_bound.py:257 | Multiplication adds its first operand as often as its second says. |
| WordLaws.ExpIsPower | script/certificate/modules/pure_module_bound.py:241 | The power reduced at every step is the power reduced once. |
| WordLaws.SubUndoesAdd | script/certificate/modules/pure_module_bound.py:258 | Subtraction undoes addition. |
| WordLaws.DivMod | script/certificate/modules/pure_module_bound.py:259-263 | Quotient times divisor plus remainder is the dividend, the remainder below the divisor; by zero both are zero. |
| WordLaws.SignedIs | script/certificate/modules/pure_module_bound.py:106-107 | The signed value lies in the signed range and differs from the word by nothing or 2^256. |
| WordLaws.SignedDivMod | script/certificate/modules/pure_module_bound.py:260-266 | Signed division truncates towards zero, the remainder has the sign of the dividend, and the one quotient out of range wraps. |
| WordLaws.ModularLaws | script/certificate/modules/pure_module_bound.py:267-268 | ADDMOD and MULMOD are below the modulus and congruent to the unreduced sum and product. |
| WordLaws.Comparisons | script/certificate/modules/pure_module_bound.py:273-278 | Comparisons yield 0 or 1, are exclusive and follow the orders on words and on signed values. |
| WordLaws.Bitwise | script/certificate/modules/pure_module_bound.py:279-282 | AND, OR, XOR and NOT work on every bit alone. |
| WordLaws.Shifts | script/certificate/modules/pure_module_bound.py:284-285 | SHL moves every bit up, SHR down; zeros follow. |
| WordLaws.SarBits | script/certificate/modules/pure_module_bound.py:286 | SAR moves every bit down and repeats the sign. |
| WordLaws.SignExtendBits | script/certificate/modules/pure_module_bound.py:269-272 | SIGNEXTEND keeps the bits of the low bytes and repeats the top one of them. |
| WordLaws.ByteIs | script/certificate/modules/pure_module_bound.py:283 | BYTE yields that byte of the word, the first being the most significant. |
| WordLaws.WordBitsDecide | script/certificate/modules/pure_module_bound.py:17 | Words that agree on 256 bits are equal, so the laws on bits determine their operations. |
| ConcreteOracle.Execute | script/certificate/modules/concrete_oracle.py:73-213 | The interpreter loop, with its step limit, computes exactly the step-by-step semantics every theorem is about. |
| MemoryLaws.LoadReads | script/certificate/modules/concrete_oracle.py:147-149 | MLOAD reads 32 bytes, most significant first, zeros beyond what is allocated, and changes no byte. |
| MemoryLaws.CallDataLoadReads | script/certificate/modules/concrete_oracle.py:137-138 | CALLDATALOAD reads 32 bytes of calldata padded with zeros. |
| MemoryLaws.StoreWrites | script/certificate/modules/concrete_oracle.py:150-155 | MSTORE writes the 32 bytes of its word, MSTORE8 its lowest byte, and neither writes elsewhere. |
| MemoryLaws.CopyWrites | script/certificate/modules/concrete_oracle.py:156-168 | A copy from inside its source moves its bytes, zeros past its end, and writes nowhere else; MCOPY takes memory as it was. |
| MemoryLaws.ReturnYields | script/certificate/modules/concrete_oracle.py:132-134 | RETURN yields the bytes it names. |
| MemoryLaws.HashTakes | script/certificate/modules/concrete_oracle.py:169-172 | KECCAK256 hashes the bytes it names. |
| StepLaws.Arranged | script/certificate/modules/concrete_oracle.py:104-212 | DUP copies the entry it names, SWAP exchanges two and moves no other, and any other instruction takes and leaves its number of entries and touches none below. |
| StepLaws.Leaves | script/certificate/modules/concrete_oracle.py:104-212 | The word left by pushes, sizes, powers and arithmetic, with the operands in the order they are popped. |
| StepLaws.Priced | script/certificate/modules/concrete_oracle.py:81-90 | A step is charged the fee of its group, what it pays by the word or byte, and the growth of memory to exactly what it accesses. |
| StepLaws.GoesTo | script/certificate/modules/concrete_oracle.py:116-129 | Execution goes on behind the instruction, and at its operand exactly for a jump without condition or with one other than zero. |
| StepLaws.RaisesIff | script/certificate/modules/concrete_oracle.py:97-213 | A step raises exactly outside the code, on a short stack, on a jump to no JUMPDEST, on an instruction without a price, or on a size no word holds. |
| StepLaws.EndsIff | script/certificate/modules/concrete_oracle.py:130-136 | It ends exactly at STOP and RETURN and reverts exactly at REVERT and INVALID. |
| ConcreteOracle.CopyKeepsMemoryLength | script/certificate/modules/concrete_oracle.py:91-94 | A nonempty copy keeps the memory length if and only if its source starts inside the data. |
| ConcreteOracle.CopyPastTheEndGrowsMemory | script/certificate/modules/concrete_oracle.py:156-168 | A concrete copy past the end that grows memory from 32 to 33 bytes. |
| ModuleBound.CoversReflexive | script/certificate/modules/pure_module_bound.py:304-316 | Covering, the order joins move up in, is reflexive. |
| ModuleBound.CoversTransitive | script/certificate/modules/pure_module_bound.py:304-316 | Covering is transitive. |
| ModuleBound.JoinSelf | script/certificate/modules/pure_module_bound.py:304-316 | A state joined with itself is itself if and only if it tracks 0x40; otherwise only the zero at 0x40 is spelled out. |
| ModuleBound.AbsorbsUnchangedIff | script/certificate/modules/pure_module_bound.py:330-334 | For a state that absorbs another, the worklist's equality test succeeds if and only if it tracks 0x40. |
| ModuleBound.JoinTwice | script/certificate/modules/pure_module_bound.py:300-316 | Joining the same state a second time changes nothing, for equal keys. |
| ModuleBound.AbsorbsStays | script/certificate/modules/pure_module_bound.py:300-316 | What a state absorbs it still absorbs after any further join of its key. |
| ModuleBound.AbsorbsCovers | script/certificate/modules/pure_module_bound.py:300-316 | A state covers every state of its key that it absorbs. |
| ModuleBound.CoversIsWeaker | script/certificate/modules/pure_module_bound.py:308 | Covering does not give absorbing: a tracked zero that the other state does not track is forgotten by the join. |
| ModuleBound.JoinUpperBound | script/certificate/modules/pure_module_bound.py:300-316 | States with equal keys join to a state of the same key that covers both, memory size included. |
| ModuleBound.JoinKnownIff | script/certificate/modules/pure_module_bound.py:304-316 | A join keeps every word both states know alike, and forgets every other but the larger of two known free-memory pointers. |
| Simulation.AluMatches | script/certificate/modules/pure_module_bound.py:246-288 | Every arithmetic, comparison, shift and bitwise result on partly unknown operands is unknown or the exact word, including the zero results that no unknown can change. |
| Simulation.UnknownStore | script/certificate/modules/pure_module_bound.py:201-204 | A store through an unknown address at or above 0x80 inside memory leaves memory its size and costs no expansion, and the words still tracked stay right. |
| Simulation.StoreStep | script/certificate/modules/pure_module_bound.py:199-214 | MSTORE and MSTORE8, aligned or not, at known or unknown addresses, are covered. |
| Simulation.LoadStep | script/certificate/modules/pure_module_bound.py:184-198 | MLOAD is covered: tracked words, untracked zeros, havocked and unaligned reads. |
| Simulation.CopyStep | script/certificate/modules/pure_module_bound.py:215-230 | CALLDATACOPY and CODECOPY from inside their source, and MCOPY, are covered, tracked calldata words and expansion by source and destination included. |
| Simulation.CopySimulatedIff | script/certificate/modules/pure_module_bound.py:215-230 | Where sizes are exact, a copy is covered if and only if nothing is copied or its source starts inside its data. |
| Simulation.LoadCallDataStep | script/certificate/modules/pure_module_bound.py:90-104 | CALLDATALOAD from the abstract calldata yields the concrete word or unknown, selector word and reads past the end included. |
| Simulation.ExpStep | script/certificate/modules/pure_module_bound.py:237-241 | EXP is charged at least its exponent's byte length, 32 bytes when the exponent is unknown. |
| Simulation.JumpStep | script/certificate/modules/pure_module_bound.py:149-163 | A concrete jump is one of the abstract successors; an unknown condition keeps both. |
| Simulation.StepSimulated | script/certificate/modules/pure_module_bound.py:113-290 | One-step simulation over every modelled opcode: a concrete state that lies in an abstract one steps to a state in some abstract successor whose price, memory apart, is no smaller. |
| Simulation.StoredLookup | script/certificate/modules/pure_module_bound.py:206-214 | A store changes what an aligned load sees exactly where it overlaps, to its value or to unknown. |
| Simulation.CopiedLookup | script/certificate/modules/pure_module_bound.py:225-230 | A copy changes it exactly in the copied words: to the calldata words an aligned copy brings, else to unknown. |
| Precision.HavockedLookup | script/certificate/modules/pure_module_bound.py:201-204 | A store through an unknown address forgets the words from 0x80 on and no others. |
| Precision.CalldataKnownIff | script/certificate/modules/pure_module_bound.py:90-104 | Calldata is known exactly past its end, at the selector with a known first word, and at known words. |
| Precision.AluKnownIff | script/certificate/modules/pure_module_bound.py:246-252 | A result is known exactly when all operands are, or when one of them makes it zero. |
| Precision.AnotherResult | script/certificate/modules/pure_module_bound.py:249-250 | An unknown product or conjunction really has operands for which it is zero and others for which it is not. |
| Precision.ExpAttained | script/certificate/modules/pure_module_bound.py:239 | The price of an unknown exponent is that of some exponent. |
| Precision.ForksIff | script/certificate/modules/pure_module_bound.py:157-163 | Only a jump on an unknown condition has two successors, the jump and the fall through. |
| Precision.SameKeyIff | script/certificate/modules/pure_module_bound.py:291-298 | States share a key exactly when they stand at one place and agree on every known word below 2^32. |
| StepLaws.SuccessorsAreAsSaid | script/certificate/modules/pure_module_bound.py:136-289 | Whatever is unknown, every successor has the stack its instruction arranges, the size it accesses, and the fee of the concrete interpreter; an unknown exponent counts as 32 bytes. |
| StepLaws.AGoesTo | script/certificate/modules/pure_module_bound.py:151-163 | Every successor stands at the target of its jump or behind its instruction, with memory unchanged unless it writes. |
| StepLaws.ResultKnownIff | script/certificate/modules/pure_module_bound.py:167-288 | Which results are known, from what is known of operands, calldata and memory. |
| StepLaws.FoundAfter | script/certificate/modules/pure_module_bound.py:198-228 | What is known of every aligned memory word after an instruction, and that only a write through an unknown address forgets them from 0x80 on. |
| StepLaws.FailsIff | script/certificate/modules/pure_module_bound.py:109-289 | The abstract interpreter gives up exactly where the concrete one raises, at a jump target it does not know, and at a nonempty extent it does not know. |
| Precision.EveryStateArises | script/certificate/modules/pure_module_bound.py:318-338 | Every state of the fixpoint is made of the entry by steps of the program and joins of equal keys. |
| Precision.PreciseStep | script/certificate/modules/pure_module_bound.py:113-290 | Where the instruction reads nothing unknown there is exactly one successor, with known words, standing for the concrete one at the same price; where the concrete one raises, so does it. |
| Precision.AnalysisIsExact | script/certificate/modules/pure_module_bound.py:318-384 | A run that meets no unknown word and stands twice at no key is analysed to exactly what it spends, and to no successful path when it reverts. |
| LongestPath.Value | script/certificate/protocol/frame_bound.py:229-231 | The maximum over children is the longest value from the node once all children are done. |
| LongestPath.Visit | script/certificate/protocol/frame_bound.py:217-232 | One pass of the explicit-stack search keeps its invariant and progresses, or closes a real cycle reachable from the start. |
| LongestPath.Longest | script/certificate/protocol/frame_bound.py:214-233 | The search returns the maximum weight over all paths to a terminal, minus infinity when there is none, and raises exactly when a cycle is reachable from the start. |
| GasBound.MergeAll | script/certificate/modules/pure_module_bound.py:326-339 | Processes exactly the successors of one popped state, in order: merged in unless the join changes nothing, a changed key pushed, the state limit raised. |
| GasBound.PassKeeps | script/certificate/modules/pure_module_bound.py:326-339 | One pass keeps the worklist invariant: only keys on the worklist may have successors not yet absorbed. |
| GasBound.WorklistCloses | script/certificate/modules/pure_module_bound.py:325-340 | When the worklist empties the states are closed: every successor's key is present, and joining the successor into its state changes nothing, an untracked 0x40 apart. |
| GasBound.Fixpoint | script/certificate/modules/pure_module_bound.py:320-339 | The loop computes exactly that worklist from the entry state, so what it returns is closed and absorbs the entry. |
| GasBound.BuildGraph | script/certificate/modules/pure_module_bound.py:340-353 | The graph holds every successor of every final state with its prepaid expansion, every terminal with its largest price, and the sites are exactly those of states with an unknown address. |
| GasBound.Analyse | script/certificate/protocol/frame_bound.py:183-233 | Claims nothing exactly when the worklist stops short or a cycle can be reached; otherwise the value is the longest over the graph of the closed states. |
| GasBound.EdgeFollows | script/certificate/modules/pure_module_bound.py:341-349 | Memory prepayment never under-charges: along an edge, abstract gas less the price of abstract memory grows by at least as much as the concrete run's. |
| GasBound.RunFollows | script/certificate/modules/pure_module_bound.py:341-381 | Any admissible run that succeeds is followed by a path to a terminal worth at least what the run still spends. |
| GasBound.GasSoundness | script/certificate/modules/pure_module_bound.py:318-384 | Any admissible successful run spends at most the bound plus the price of the size the entry state was joined to. |
| GasBound.GasBoundHolds | script/certificate/modules/pure_module_bound.py:318-384 | When no memory was joined into the entry state, every admissible successful run, on any calldata the abstract one stands for, spends at most the bound. |
| GasBound.EntrySizeZero | script/certificate/modules/pure_module_bound.py:118-121 | Code without a JUMPDEST at 0 meets that condition. |
| GasBound.StopAtEntry | script/certificate/modules/pure_module_bound.py:164-167 | Code that stops at once, called without calldata, is analysed to a bound of zero and meets every hypothesis of the soundness theorem. |
| GasBound.ArrivalFollows | script/certificate/protocol/frame_bound.py:183-212 | A run that first arrives at the stop point is followed by a path to the stop marker worth at least its gas. |
| GasBound.ArrivalBound | script/certificate/protocol/frame_bound.py:198-206 | What a run has spent at its first arrival, memory apart, is at most the bound less the price of the arriving successor's own memory, which nothing joins. |
| GasBound.StopBoundHolds | script/certificate/protocol/frame_bound.py:235-244 | When no memory was joined into the entry state, the bound to a stop point dominates the gas of every admissible run at its first arrival there. |
| AfterStop.TailFrom | script/certificate/protocol/frame_bound.py:245-246 | The figure after the stop point is the maximum of the longest values from the states there; none when there is no such state, raised exactly when one of them reaches a cycle. |
| AfterStop.TailBoundHolds | script/certificate/protocol/frame_bound.py:245-246 | From its first arrival at the stop point an admissible successful run spends at most that figure plus the price of growing memory to the joined size, and at most the figure when its memory already has that size. |
| AfterStop.StopSumHolds | script/certificate/protocol/frame_bound.py:243-246 | The figures to and from the stop point, with the price of growing memory from the arriving successor's size to the joined one, dominate every admissible successful run that passes it; the figures alone do when no state there was joined to more memory than any arrival has. |
| RejoinedStop.StopSumIsShort | script/certificate/protocol/frame_bound.py:243-246 | A program with 1 to its stop point and 91 from it whose run arrives with 1 spent and ends with 110, their sum and the price of six joined words: only the condition on the sizes is broken. |
| RejoinedEntry.FixedIs | script/certificate/modules/pure_module_bound.py:320-339 | The worklist of a concrete program whose entry state is joined to six words of memory, followed to its end. |
| RejoinedEntry.EntrySizeIsSpent | script/certificate/modules/pure_module_bound.py:341-384 | That program is analysed to 92 with site 9 recorded, every hypothesis of the soundness theorem holds of it and of a run without calldata, and the run spends 110, the bound plus the price of its entry size. |
| ResolveCalldata.CalldataInstantiates | script/certificate/modules/concrete_oracle.py:62-69 | For every value of the unknown words, the calldata GameHub encodes agrees with the abstract calldata at every offset. |
| ResolveCalldata.DecodesAsSent | script/certificate/modules/concrete_oracle.py:62-68 | Following the offsets of the encoded calldata finds the selector and every argument: params with its length, the stake words, the bet id and the one random word. |
| ResolveCalldata.AbstractKnownIff | script/certificate/modules/pure_module_bound.py:65-104 | The abstract calldata knows exactly the offsets, the number of rolls, the lengths, the given params words and the zeros past the end. |
| ResolveCalldata.LoadMatches | script/certificate/modules/pure_module_bound.py:90-104 | A load at any offset of the encoded words matches what the abstract calldata answers. |
| ModuleRun.BoundCase | script/certificate/modules/pure_module_bound.py:318-322 | Decoding and analysing one parameter case yields a certified bound or none. |
| ModuleRun.Worst | script/certificate/modules/pure_module_bound.py:415-420 | The module's figure is one of its cases' bounds and at least each of them. |
| ModuleRun.EveryBetResolvesWithin | script/certificate/modules/pure_module_bound.py:401-427 | For every amount, stop limits, bet, random word and unknown parameters, a bet whose params have an analysed case's words and length resolves within the module's figure. |
| TreeBits.SuffixLoop | script/certificate/tree/query-cold-joint-dp.py:31-39 | The while loop runs as often as the interval's length has bits and reads as often as it has ones, and its assertion that `right` is odd never fails. |
| TreeBits.SubtreeEnd | script/certificate/tree/query-cold-joint-dp.py:23-27 | The subtree's last leaf lies above the offset by the complement of its low bits, and one past it is a multiple of the subtree's width, which is why `right` stays odd. |
| TreeBits.DirectQueryCost | script/certificate/tree/query-cold-joint-dp.py:17-40 | The nested loops compute the closed form over zeros and highest zero, for every height. |
| MaxTable.Extend | script/certificate/tree/query-cold-joint-dp.py:46-58 | One width: every candidate is in the next table or beaten there, and every entry came from a candidate. |
| MaxTable.Pair | script/certificate/tree/query-cold-joint-dp.py:68-75 | The same for the table of pairs. |
| EndpointDp.CostCons | script/certificate/tree/query-cold-joint-dp.py:50-55 | The recurrence's added cost, read from the state alone, is exact for every endpoint. |
| EndpointDp.EndpointTables | script/certificate/tree/query-cold-joint-dp.py:43-59 | Every table is exact: each entry is attained, and no endpoint of that width costs more than its state's entry, so one maximum per state loses nothing. |
| JointDp.OrderIsDivergence | script/certificate/tree/query-cold-joint-dp.py:167-181 | x < y exactly when they part at some width with x left and y right, so the divergence cases cover every ordered pair. |
| JointDp.TouchedSize | script/certificate/tree/query-cold-joint-dp.py:90-91 | One push touches 2h + 1 distinct nodes. |
| JointDp.PushFixedIs | script/certificate/tree/suffix-skip-joint-dp.py:54-55 | The fixed cost of a push is what its steps along the path spend: a call a level, the leaf's, and one store for every touched node but the root. |
| JointDp.UnionSize | script/certificate/tree/query-cold-joint-dp.py:89-92 | Two pushes that part at width j touch 2h - 1 + 2j distinct nodes. |
| JointDp.JointStates | script/certificate/tree/query-cold-joint-dp.py:65-87 | The joint table is exact for all pairs of h bits that part at width j, with either pair of prices. |
| TreeComponent.PlainPhaseCost | script/certificate/tree/query-cold-joint-dp.py:167-181 | With plain prices what the pair tables maximise is the sum of both direct query costs. |
| TreeComponent.JointTable | script/certificate/tree/query-cold-joint-dp.py:62-101 | For every height the result is the maximum over all pairs x <= y of both query costs plus the node weight times the true union, and is attained. |
| TreeComponent.PhasesAreBodies | script/certificate/tree/query-cold-joint-dp.py:104-136 | With the local opcode prices what the tables maximise is the preview phase of x plus the lazy phase of y. |
| TreeComponent.PricesAre | script/certificate/tree/query-cold-joint-dp.py:104-112 | The local prices of profit and loss, each change of a node with its two dirty stores. |
| TreeComponent.WeightedTreeComponent | script/certificate/tree/query-cold-joint-dp.py:104-164 | The published best candidate is the maximum over every pair x <= y, and the one without fallback the maximum over one endpoint, for every height. |
| SuffixSkip.SamePathIsTable | script/certificate/tree/suffix-skip-joint-dp.py:56-60 | Folding the predicate's left and right steps into the lazy prices changes no endpoint's cost. |
| SuffixSkip.SamePath | script/certificate/tree/suffix-skip-joint-dp.py:56-63 | For every height the value is the maximum over all endpoints of the phases and predicate, and the total adds the nodes really touched. |
| SuffixSkip.ChoiceBestAt | script/certificate/tree/suffix-skip-joint-dp.py:69 | At one width the fixed low bits maximise the predicate's walk if and only if the rule for that width holds. |
| SuffixSkip.DearestWalk | script/certificate/tree/suffix-skip-joint-dp.py:69 | For any prices the dearest walk over low bits of one width is that of all ones, a zero and ones, ones and a zero, or all zeros, and its price is attained. |
| SuffixSkip.RowAttained | script/certificate/tree/suffix-skip-joint-dp.py:66-92 | A row falls short of the maximum over all cutoffs of its width by exactly the choice's loss. |
| SuffixSkip.ChoiceBestIff | script/certificate/tree/suffix-skip-joint-dp.py:69 | They maximise the walk at every width if and only if 0 <= left <= right. |
| SuffixSkip.ReadUnion | script/certificate/tree/suffix-skip-joint-dp.py:105-109 | The predicate's reads and the push together touch 2h + 1 + 2 max(d - (h - j + 1), 0) distinct nodes. |
| SuffixSkip.SelectBodyImproves | script/certificate/tree/suffix-skip-joint-dp.py:69-70 | Replacing a cutoff's low bits by the fixed choice lowers the whole cost by at most the choice's loss against the dearest low bits, and not at all under the rule for steps that also read two nodes. |
| SuffixSkip.RowMaximumIff | script/certificate/tree/suffix-skip-joint-dp.py:66-92 | A row is the maximum over all cutoffs that part at its width if and only if that rule holds at the width below it. |
| SuffixSkip.AllMaximaIff | script/certificate/tree/suffix-skip-joint-dp.py:66-92 | All rows are, at height 3 and above, if and only if -4000 <= left <= right; at height 2 if and only if -4000 <= left; at height 1 always. |
| SuffixSkip.PreselectLast | script/certificate/tree/suffix-skip-joint-dp.py:65-93 | For every height the rows are exact for the chosen cutoffs, and every row is the maximum over all cutoffs exactly under that condition. The best is the maximum over every cutoff below the last endpoint exactly when no row with its loss exceeds it, as always under the condition. |
| Composition.NeedIsLeast | script/certificate/composition.py:32-36 | `need` is exactly the least gas that gives the callee its requirement, leaves what is needed afterwards and exceeds a nonzero reserve. |
| Composition.LeastIsExact | script/certificate/composition.py:107-118 | A frame, with all it calls and writes at any depth, runs on a given amount of gas exactly when that is at least its least requirement, in which a callee's unspent gas comes back. |
| Composition.RequirementSuffices | script/certificate/composition.py:107-118 | With the recursively composed requirement at entry no frame of any nesting runs out or misses a sentry, and exactly the work is spent. |
| Composition.RequirementExact | script/certificate/composition.py:35-36 | For frames whose callees spend all they require, a run succeeds if and only if it has the requirement. |
| Composition.BudgetCoversRuns | script/certificate/composition.py:96-118 | A budget composed from bounds carries every run that costs no more at each point, and writes where the bounds write or anywhere before a last write of theirs. |
| Composition.FoldSuffices | script/certificate/composition.py:98-106 | Own work plus the inverted requirement of each call, and one sentry if the caller writes, covers the caller, however calls, writes and work interleave. |
| Composition.FoldFree | script/certificate/composition.py:120-126 | A call folds in at its bare requirement exactly when what follows covers the withheld 64th. |
| Composition.PlainTotalIsExact | script/certificate/composition.py:104-106 | When every call leaves enough for its own withheld 64th and every write a sentry, the plain sum is the requirement. |
| Composition.RetainedAtMost | script/certificate/composition.py:102 | The sum of (u - 1) // 63 over calls is at most the total // 63: the token-body charge. |
| Composition.SlackAtMost | script/certificate/composition.py:98-104 | What a frame needs beyond what it spends is at most one sentry or the most that one of its calls holds back: only one is outstanding at a time. |
| Composition.CallbackNeverRunsOut | script/certificate/composition.py:107-118 | A consumer budget of the composed requirement carries the whole VRFHub to Bank chain, for any run within the terms and any Bank frame within its term. |
| Composition.ConsumerRequirementIs | script/certificate/composition.py:107-118 | The composed figure is the requirement of the chain of frames, and so is each figure inside it: no term counts twice. |
| Composition.ConsumerRequirementIsLeast | script/certificate/composition.py:107-118 | Where what follows each call fits in what is held back at it, a budget carries the chain if and only if it is at least that figure. |
| Composition.ConsumerRequirementIsExact | script/certificate/composition.py:107-118 | And wherever every callee spends all it requires. |
| Composition.SparesAreWhatIsLeft | script/certificate/composition.py:129-140 | Each O2 figure is the gas its caller has left for its last write, when its callee spends all it is given on the least budget. |
| Composition.SpareFits | script/certificate/composition.py:129-141 | With those figures at least a sentry the composed figure is the least budget. |
| Composition.ExplicitChargesSufficeIff | script/certificate/composition.py:96-106 | The explicit sum carries every settlement within the terms, a Bank that calls the Vault, getters and tokens in any order and a Vault that calls tokens, each writing where it likes, if and only if one inequality on the terms holds. |
| Composition.RuleHolds | script/certificate/composition.py:101-103 | Every token term of up to 27 million gas meets that inequality. |
| Composition.LargeTokensRunOut | script/certificate/composition.py:101-103 | With 30 million gas of tokens and no other term a settlement runs out on the explicit sum. |
| Composition.SentryFree | script/certificate/composition.py:129-140 | A sentry after a call adds nothing to the requirement exactly when the reserve, or what the call withholds, leaves it: what the O2 figures compute. |
| Composition.EveryWriteFindsItsSentry | script/certificate/composition.py:120-148 | With the O2 figures of the VRFHub, the GameHub frames, the acknowledgement and the Router at least a sentry, the composed requirement carries every run within the terms, each frame writing as its last step and anywhere before. |
| Composition.SettlementNeverRunsOut | script/certificate/composition.py:96-148 | With the Bank's term composed by the explicit sum under its inequality, and the O2 figures at least a sentry, a consumer budget of the whole requirement carries the callback and every settlement it makes, and every write finds its sentry. |
| KeeperQueue.FinalizeQueue.Enqueue | frontend/apps/keeper/src/queue.ts:21-40 | Merging keeps the earlier availability and result block, the newer reported fields and the attempts. |
| KeeperQueue.FinalizeQueue.NextReady | frontend/apps/keeper/src/queue.ts:42-53 | Hands out the first ready bet by availability and ID, never one in flight, and nothing exactly when none is ready. |
| KeeperQueue.FinalizeQueue.Retry | frontend/apps/keeper/src/queue.ts:59-74 | A retry merges with an event that arrived meanwhile: its fields, the earlier wakeup and result block, the larger attempts plus one. |
| KeeperQueue.FinalizeQueue.Complete | frontend/apps/keeper/src/queue.ts:55-57 | Completing drops the copy in flight and leaves a queued copy alone. |
| KeeperQueue.FinalizeQueue.UnexaminedBefore | frontend/apps/keeper/src/queue.ts:85-89 | True exactly when a lower bet is queued or in flight with no attempts. |
| KeeperQueue.NoLostWakeup | frontend/apps/keeper/src/queue.ts:21-74 | Over any run, until a bet is handed out it stays queued, available no later than it was ever asked for. |
| KeeperQueue.EnqueueWakes | frontend/apps/keeper/src/queue.ts:62-71 | After an enqueue at t with delay d availability stays at most t + d, even when a retry merges with it. |
| KeeperQueue.RunIsTraced | frontend/apps/keeper/src/queue.ts:21-74 | Over any run from an empty queue every copy is available at the earliest time it was asked for, carries of each field what the latest event merged into it says and the earliest result block, and counts the most retries on the way to it. |
| KeeperQueue.UnexaminedIff | frontend/apps/keeper/src/queue.ts:62-89 | Over any run from an empty queue exactly the copies never retried count as unexamined. |
| KeeperQueue.EarliestIsMinimum | frontend/apps/keeper/src/queue.ts:8-13 | The merged result block was reported by some event and is no later than any. |
| VoidOrder.StepKeepsInvariant | frontend/apps/keeper/src/runtime.ts:755-922 | Every step of the executor keeps it: before stop, a bet enqueued but not examined is queued or in flight with no attempts, and every bet up to the recovery cursor, or read from the bet index, was enqueued. |
| VoidOrder.RunKeepsInvariant | frontend/apps/keeper/src/runtime.ts:755-922 | So does every interleaving of enqueues, drains, retries, recovery scans, indexed requeues, void passes and stop. |
| VoidOrder.NoEarlierBetSkipped | frontend/apps/keeper/src/runtime.ts:785-806 | In every run, a turn that attempts to void a bet implies that every lower bet ever enqueued, placed up to the startup head or reported open by the index was examined. |
| VoidOrder.RequestOrderKept | frontend/apps/keeper/src/void.ts:101-106 | With bet IDs following request time, no known bet that comes first in VRF request order is left unexamined by an attempt. |
| VoidOrder.EligibleInOrder | frontend/apps/keeper/src/runtime.ts:782-784 | The pass's list holds exactly the eligible candidates, in request order and then by bet. |
| VoidOrder.PassKeepsRequestOrder | frontend/apps/keeper/src/runtime.ts:782-806 | In every run, whatever else happens meanwhile, the turns between the start and the end of one pass are the first entries of its list, in request order, each eligible when the pass began; a turn without an attempt found its candidate gone. |
| VoidOrder.VoidPass | frontend/apps/keeper/src/runtime.ts:785-805 | With what the queue, the candidates, the stop flag and the backup delay are at each turn, the loop attempts exactly the candidates not gone before the turn at which the pass ends, in order. |
| VoidOrder.TurnIs | frontend/apps/keeper/src/runtime.ts:785-805 | One turn passes over a candidate that is gone, ends the pass where it must wait for the primary or a lower bet, and goes on after an attempt unless its configuration is wrong. |
| VoidOrder.DisposesIff | frontend/apps/keeper/src/runtime.ts:785-805 | A turn disposes of its candidate, attempted or gone, unless it waits. |
| VoidOrder.RunSays | frontend/apps/keeper/src/runtime.ts:755-922 | After any run the process is stopped, latched or through its requeue exactly when a step said so, and its candidates are those noted and not closed since, with their latest reading. |
| VoidOrder.RequeueLeaves | frontend/apps/keeper/src/runtime.ts:397-399 | A requeue leaves a bet that is queued or in flight as it is. |
| BlockRanges.SplitBlockRange | frontend/apps/keeper/src/scan.ts:6-42 | The chunks are consecutive from the first block, within size and count, and stop short only when the cap is reached with full chunks; bad arguments are refused. |
| BlockRanges.HeadMonitor.Seed | frontend/apps/keeper/src/head-monitor.ts:40-42 | A persisted cursor raises the highest known block and nothing else. |
| BlockRanges.HeadMonitor.Observe | frontend/apps/keeper/src/head-monitor.ts:44-79 | A scan's target is what the read reports; lag and stall are reported exactly when the read is below the highest or the head has not advanced for the limit. |
| Payables.Claimer.Discover | frontend/apps/keeper/src/payables.ts:119-185 | Discovery restores a checked state, scans consecutive chunks up to the reported finalized block and keeps what a failed read had already scanned. |
| Payables.Claimer.VisitDue | frontend/apps/keeper/src/payables.ts:187-260 | Each due player ends as its reads say: kept with backoff, kept for finality, or deleted after a finalized zero. |
| Payables.WaitAfterFailures | frontend/apps/keeper/src/payables.ts:215-234 | After n failures in a row a player waits 300000 * 2^(n - 1) milliseconds, at most 21600000. |
| Payables.SuccessClears | frontend/apps/keeper/src/payables.ts:226-228 | A success clears the failures and the wait; a failed read leaves both. |
| Payables.ZeroIsSeen | frontend/apps/keeper/src/payables.ts:213-226 | The block of a zero is that of the payment, or the head it was first read at; a failed claim forgets it. |
| Payables.ZeroStays | frontend/apps/keeper/src/payables.ts:226 | It stays however often zero is read again. |
| Payables.FoundIsDue | frontend/apps/keeper/src/payables.ts:172-177 | A player found is tracked and due at once, one already tracked keeps its failures and wait, and no other appears. |
| Payables.Claimer.Pass | frontend/apps/keeper/src/payables.ts:102-285 | One pass as a function of what it read, with the save it makes. |
| Payables.ScanAllKeeps | frontend/apps/keeper/src/payables.ts:159-180 | Scanning complete chunks keeps every event up to the new cursor tracked or paid. |
| Payables.DeletionCoveredIff | frontend/apps/keeper/src/payables.ts:239-256 | A deletion keeps coverage for every history if and only if its finalized block is not below the cursor. |
| Payables.NoLagMeansAbove | frontend/apps/keeper/src/payables.ts:154-156 | A pass that reports no lag behind the highest finalized block meets that condition. |
| Payables.LaggingPassForgets | frontend/apps/keeper/src/payables.ts:238-256 | From a new process, a first pass scans through block 10 and a second, two blocks behind that cursor, forgets a debt of block 10. |
| Payables.StoreIsCurrent | frontend/apps/keeper/src/payables.ts:262-285 | Skipping a save that would repeat the last never leaves the store stale. |
| Payables.PassKeeps | frontend/apps/keeper/src/payables.ts:102-285 | One pass keeps coverage of the memory and of the store. |
| Payables.StartsCovered | frontend/apps/keeper/src/payables.ts:71-84 | A new process with an empty store covers everything up to its cursor, so the runs below start somewhere. |
| Payables.FreshReadsStore | frontend/apps/keeper/src/payables.ts:119-140 | A new process scans nothing until its store has answered and the chain was asked for the saved block. |
| Payables.CoverageHolds | frontend/apps/keeper/src/payables-state.ts:8-13 | Over every run of passes, failed reads, lost saves and restarts, every event up to the cursor of the memory or of a saved state has its player tracked, or read as owing zero at a finalized block not before it. |
| PayableRotation.RunPass | frontend/apps/keeper/src/payables.ts:187-193 | A pass visits the first due players of the order, at most twenty, and leaves the others in their old order with the visited ones that stay behind them, in the order of their visits. |
| PayableRotation.LeftOutMovesUp | frontend/apps/keeper/src/payables.ts:187-193 | A due player the pass leaves out had twenty due players ahead of it, and is twenty places further up afterwards. |
| PayableRotation.NoStarvation | frontend/apps/keeper/src/payables.ts:191 | A player due at every pass waits at most one pass for each twenty players ahead of it, whatever joins and leaves meanwhile. |
| VoidEligibility.Eligibility | script/ops/config-drift-monitor.py:1310-1326 | The loop over sorted windows finds the window that ends first among those holding the request and opened before the position. |
| VoidEligibility.FirstInstant | script/ops/config-drift-monitor.py:1310-1326 | For every set of windows and every request time after zero, a bet may be voided by the contract's rule at t exactly when t is not before `since`: it is the first such instant and eligibility never lapses. |
| VoidEligibility.DelaysAre | script/ops/config-drift-monitor.py:1310-1326 | Without a window a bet may be voided seven days after its request, in the cohort of one opened in time after one. |
| VoidEligibility.PathIsTheRuleInForce | script/ops/config-drift-monitor.py:1323-1332 | The reported path is the rule that decides at the first instant the delay allows. |
| VoidMonitor.Tracker.TrackResults | script/ops/config-drift-monitor.py:1333-1376 | A scan that first takes in all its windows and then judges its settlements reports, and leaves, what following its logs one by one would. |
| VoidMonitor.LaterWindowIgnored | script/ops/config-drift-monitor.py:1324-1327 | A window opened after the settlement does not change its verdict. |
| VoidMonitor.CutsDoNotMatter | script/ops/config-drift-monitor.py:1333-1376 | The same logs in any cut into scans give the same state and the same reports. |
| VoidMonitor.HeldIff | script/ops/config-drift-monitor.py:1349-1354 | Over any logs the tracker holds exactly the results whose latest log is their receipt. |
| VoidMonitor.SettledIff | script/ops/config-drift-monitor.py:1354-1358 | A log is set aside for judgement exactly when it settles such a result, unless it acknowledges it in the transaction of its receipt. |
| VoidMonitor.WindowsAre | script/ops/config-drift-monitor.py:1345-1348 | The windows of a bank are those opened on it, in order. |
| VoidMonitor.RecordedIs | script/ops/config-drift-monitor.py:1366-1370 | What is recorded for a path is the first void of a tracked bet on it, read off the logs. |
| VoidMonitor.ReportedIff | script/ops/config-drift-monitor.py:1349-1374 | A log adds a line exactly when it acknowledges a tracked bet of the hub that voidBet would have accepted then, after another bet on its path was voided; the line names the first. Tracked, voided and eligible are read off the logs alone. |
| Numerals.PoolTextIff | script/release/verify_governance.py:357-360 | The texts accepted for a pool are exactly the decimal texts of the pools from 1 to 2^64 - 1, and read as them. |
| Numerals.WordTextIff | script/release/verify_governance.py:98-104 | The texts read as a word are exactly its 64 hex digits behind 0x, each in either case. |
| Numerals.AddressTextIff | script/release/verify_governance.py:88-90 | The texts of an address are its 40 hex digits behind 0x, each in either case, and read as the lower-case one. |
| Numerals.TopicAddressIff | script/release/verify_governance.py:107-109 | A topic names an address exactly when its 12 leading bytes are zero: that of its other 20. |
| Numerals.PartitionUndoes | script/release/verify_governance.py:380-383 | Splitting a route key at its first colon gives back the pool's text and the hub. |
| Authority.ApplyKeepsCanonical | script/release/verify_governance.py:423-496 | Every accepted event leaves addresses, words and operation keys in the one form the codec writes. |
| AuthorityMeaning.AppliesAsSaid | script/release/verify_governance.py:423-496 | A log that does not have the form of its event is rejected; any other is applied as what its topics and data say. |
| AuthorityMeaning.AcceptedIff | script/release/verify_governance.py:434-496 | In a state the events before it describe, an event is accepted if and only if those events admit it. |
| AuthorityMeaning.ReplayMeans | script/release/verify_governance.py:644-646 | A history is accepted if and only if every log has its form and is admitted by the ones before, and the state says of each role, hub, route and pool what the latest event says, of each pool and game its registration, of each target all its events in order, of each operation its phase and calls. |
| AuthorityMeaning.OneState | script/release/verify_governance.py:322-325 | The events fix the state: no second one says the same of them. |
| AuthorityMeaning.ReplayFollowsTheLog | script/release/verify_governance.py:618-646 | So for the replay of a chain to a block, accepted or rejected. |
| Checkpoint.Encode | script/release/verify_governance.py:328-347 | The written document lists every part of the state, each entry once. |
| Checkpoint.ReadsObj | script/release/verify_governance.py:371-419 | An object that lists a map in any order reads back as the map when its keys and values do. |
| Checkpoint.DecodeUndoesEncode | script/release/verify_governance.py:328-420 | Reading a written state gives it back, unless it names pool zero: then the reader refuses it. |
| AuthorityReplay.AddPage | script/release/verify_governance.py:244-254 | A page is accepted exactly with its own distinct, watched, in-range logs. |
| AuthorityReplay.AnswersIff | script/release/verify_governance.py:241-254 | What is asked of an honest page, read off its logs: each stands for one of the chain's in its range, each of those is there, and no position twice. |
| AuthorityReplay.Events | script/release/verify_governance.py:229-255 | Whatever the page size, an honest node's logs come out as exactly the chain's, in order; any accepted result is ordered, distinct and in range. |
| AuthorityReplay.Replay | script/release/verify_governance.py:618-646 | From an honest node the replay, fresh or from a checkpoint, is the chain's state or its rejection. |
| AuthorityReplay.ReplayKeepsCanonical | script/release/verify_governance.py:644-646 | Every replayed state is in the form the codec writes. |
| AuthorityReplay.CheckpointReadsBack | script/release/verify_governance.py:597-601 | The checkpoint of an accepted replay reads back as its state, unless it names pool zero. |
| AuthorityReplay.ResumedReplayIsExact | script/release/verify_governance.py:618-646 | Resuming from a checkpoint equals one replay from the start, state or rejection, exactly when the checkpointed state does not name pool zero or the history is rejected anyway. |
| AuthorityReplay.RejectionStands | script/release/verify_governance.py:644-646 | A history rejected by an earlier block stays rejected at every later one. |
| AuthorityReplay.PoolZeroReplaysButDoesNotResume | script/release/verify_governance.py:434-439 | A concrete history that replays and whose checkpoint is refused. |
| AuthorityReplay.LastBlockAtOrBefore | script/release/verify_governance.py:199-221 | For times that never decrease, doubling back and bisecting finds the highest block of the range at or before the timestamp, or the one below the range, whatever the guess. |
| Timelock.ReplayedEventChangesNothing | frontend/packages/bet-index/src/governance.ts:305-382 | Any event already in the log, applied again at any time, leaves every row as it is. |
| Timelock.NextEventExtends | frontend/packages/bet-index/src/governance.ts:305-382 | The next event of a chain turns the rows of the log into the rows of the longer log. |
| Timelock.InOrderIsOrdered | frontend/packages/bet-index/src/governance.ts:222-225 | A batch is applied in chain order, losing and inventing nothing. |
| Timelock.RowsFollowTheLog | frontend/packages/bet-index/src/governance.ts:384-387 | After any writes, overlapping and repeated as they may be, each row is its latest schedule with the latest execution and cancellation strictly after it. |
| Timelock.RewriteChangesNothing | frontend/packages/bet-index/src/governance.ts:458-461 | Rewriting any already written events, in any order, leaves every row unchanged. |
| Timelock.CallsFollowTheLog | frontend/packages/bet-index/src/governance.ts:305-382 | Written in emission order, each row's schedule and marks are those of the log whatever its salts do. |
| Timelock.ReplaysHarmlessIff | frontend/packages/bet-index/src/governance.ts:338-343 | After any log written in emission order, rewriting any of its events leaves every row unchanged if and only if, for each scheduled call, all salts of its operation are equal and are zero or logged after the call's first schedule. |
| Timelock.EarlySaltReplayChangesTheRow | frontend/packages/bet-index/src/governance.ts:341-343 | The shortest failing log: a salt logged before the first schedule is changed by its replay, exactly when it is not zero. |
| Timelock.OneIndex | frontend/packages/bet-index/src/governance.ts:458-461 | A log fixes its rows: a second writer leaves the same ones. |
| Timelock.ChunkingDoesNotMatter | frontend/packages/bet-index/src/governance.ts:384-387 | Two histories of writes that covered the same log end with the same rows. |
| Timelock.StateFollowsTheLog | frontend/packages/bet-index/src/governance.ts:227-234 | What a row reports is what the log says: executed after the latest schedule, else cancelled after it, else ready or waiting by the clock. |
| Timelock.MemoryIndex.Apply | frontend/packages/bet-index/src/governance.ts:305-382 | The in-place update of the two maps is the guarded update of the row, the operation's rows or the delay change. |
| Timelock.ParsesIff | frontend/packages/bet-index/src/governance.ts:150-212 | A log is accepted as an event if and only if it has its name and, field by field, what the event says, with every number in its range. |
| Timelock.MemoryIndex.Write | frontend/packages/bet-index/src/governance.ts:384-387 | A write validates every event before any is applied, and applies them in chain order. |

## Left out

- Fixpoint: takes a fuel bound in place of a termination argument; running out of it claims nothing, like the state limit.
- ModuleRun.EveryBetResolvesWithin: covers bets whose params length was analysed; that the lengths 34 to 63 cost no more than the
  analysed ones (`pure_module_bound.py:396-399`) rests on what the compiler emits, which is not modelled.
- Simulation.CopyStep: requires a nonempty copy to start inside its source; outside it the concrete interpreter itself moves
  memory, and `CopySimulatedIff` shows that no abstract successor covers that.
- Frame analysis beyond the shared graph and search (`frame_bound.py:30-173`): symbolic function words, external calls,
  logs, storage and return-data sizes.
- Gas of opcodes the module interpreter prices without a concrete twin (the environment reads of
  `pure_module_bound.py:178-179`): the concrete interpreter raises on them, so the theorem says nothing about them.
- Keccak-256: an uninterpreted function of the hashed bytes.
- Dictionary iteration order in the tree programs: it only decides which of several equal maxima is reported.
- The certificate's numbers (ledger rows, frame totals, module bounds, opcode coefficients): parameters. In `composition.py` the
  provisioned measure and its O1 figures (`extra` of 0) are not modelled.
- ExplicitChargesSufficeIff: tokens and getters make no calls of their own, and getters do not write.
- DirectQueryCost: works on the bits as a list; the conversion between a bit string and its integer is the value function.
- KeeperQueue.FinalizeQueue.Retry: a queued field that is present but undefined overrides in the source's object spread; the
  model treats a missing and an undefined field alike.
- VoidOrder.StepKeepsInvariant: takes the bets the index reports open as one fixed set, and leaves out what `attemptVoid` sends and the
  clock behind the backup delay; whether a backup still waits is given with each turn.
- Payables.Claimer.VisitDue: takes the due players as any list with their readings (which list a pass takes is in
  `PayableRotation`); error texts and the five-minute grace are left out, as is a chain reorganisation below the finalized block.
- Timelock.MemoryIndex.Write: hex strings and addresses are tokens, checked only for presence; the PostgreSQL statements, the
  query's sorting and its limit are left out.
- Checkpoint.Encode: the entries of an object come in some order, not sorted; the round trip holds for every order. JSON text,
  its digest and documents with missing or extra keys are left out.
- AuthorityReplay.Replay: chain identity, block hash, release fields and contract code checks are left out; an RPC failure is a
  missing page.
- VoidMonitor.Tracker.TrackResults: reads of the contracts are a fixed function of the request and the block; a failed read, which
  aborts the scan, is left out.
- HTTP, WebSocket, file, database and messaging code, the web applications, the Solidity contracts and their bytecode, health
  reporting, and the release-artifact validators.
