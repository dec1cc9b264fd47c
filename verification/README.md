# CV32E40P with AES-128: a verified model

A Dafny model of the parts of the CV32E40P core and its AES-128 accelerator that
carry a correctness claim of their own, with the C program that drives the
accelerator and the script that builds its memory image. `dafny verify dfyconfig.toml`
checks everything. Nothing was executed.

| files | what they model |
|---|---|
| `RiscVDivision`, `SerialDivider`, `FindFirstOne`, `AluDivision` | the serial divider, the find-first-one tree and the ALU's normalisation, against DIV, DIVU, REM and REMU of section 7.2 of the RISC-V Unprivileged ISA (20191213); the width is a parameter |
| `Aligner` | the instruction aligner against a sequential parser, and that against the bits of the memory |
| `AesField`, `Gf2Polynomials`, `Gf2Coefficients`, `GfRing` | bytes as GF(2^8), multiplication as polynomials modulo 0x11b, the ring laws and circulant matrices |
| `AesSpec` | AES-128 as in sections 3.4, 5.1 and 5.2 of FIPS-197 (2001), over any substitution table |
| `AesUnits`, `AesEngine`, `AesInstructions`, `AesPipeline` | the byte-wise instructions, round engine, key schedule unit, the programs on the hidden registers, and the pipeline around them |
| `AesSoftware`, `AesBytewise`, `AesBlock`, `AesEcb` | the C functions, in place over byte arrays |
| `AesInverse`, `AesTables`, `AesSBox` | invertibility of the cipher, the shipped substitution table, and that it is the one of FIPS-197 |
| `AesPlacement` | the exact conditions on the buffers of ECB encryption |
| `ApuDispatcher` | the dispatcher of the auxiliary processing unit as an in-order queue |
| `PartitionedAdder`, `PartitionedShifter` | the ALU's vector adder, comparators, minimum, maximum, absolute value and shifter |
| `Controller` | the main controller with the IF/ID register that it halts |
| `SRecord` | the S-record to COE converter |
| `Bits` | words as bit vectors, least significant bit first |

Blocks that update registers are classes whose methods do one clock edge; the
combinational blocks are functions or methods. Claims about whole runs are lemmas over
sequences of cycles. All AES results hold for every substitution table, passed as a
function; only invertibility needs a table with an inverse. `AesTables` shows that the
shipped table, the same in the C file and in all four hardware units, has one, and
`AesSBox` that it is the substitution of FIPS-197, so that the results hold for AES-128.
Where the units appear in long proofs they are passed as function values, so that the
same theorems hold for any datapath that implements the rounds.

## Assumptions about the surroundings

* Divider: a request is prepared as the ALU prepares it (`SerialDivider.Prepared`, proved
  of the ALU by `AluDivision.FrontEndPrepares`), and the zero flag of the divisor is held
  while the divider is busy.
* Aligner (`Aligner.Fetches`): a word offered by the fetch queue is the memory word at its
  head and stays until it is popped or flushed, as `cv32e40p_if_stage.sv:211-254` pops it;
  nothing is offered in the cycle of a branch (`cv32e40p_prefetch_controller.sv:123`).
* AES pipeline (`AesPipeline.Allowed`): ID is valid only when EX is ready
  (`cv32e40p_id_stage.sv:1668-1669`), a multiplication in progress keeps EX busy
  (`cv32e40p_ex_stage.sv:412-413`), and a misaligned access is not an AES instruction.
* Dispatcher: for the queue over whole runs, responses come only to accepted operations;
  for `NoOvertaking`, the unit keeps the latency class that it was given. What happens
  without the first is stated by `ReportsOldestIff` and `AssertionGap`.
* Absolute value: operand b is zero, as the decoder makes it by rejecting any other second
  source (`cv32e40p_decoder.sv:1432` and `2332-2336`).
* Controller (`Controller.Allowed`): a jump register stall keeps ID from being ready, and
  the debug settings and the privilege level do not change while debug mode is being
  entered. That the instruction in ID is held while IF is halted is not assumed: the
  IF/ID register is part of the model.

## Where the code differs from what it says

* The dispatcher's own assertion (`cv32e40p_apu_disp.sv:233`) allows a response to a request
  that was not granted; such a response names an operation that was never accepted.
  `ApuDispatcher.AssertionTooWeak` gives the cycle and `AssertionGap` the exact condition.
* The dispatcher holds an operation back so that it cannot overtake another one
  (`cv32e40p_apu_disp.sv:196-200`), but it also holds class 3 back behind class 2, where
  it could not overtake: `ApuDispatcher.TypeStallIff`.
* ECB encryption does not check how its buffers overlap. In place it works, but an output
  that overtakes its input spoils what is read later, and an output that runs into the key
  changes the key under way. For the AES-128 of `main.c`, and a key clear of all output but
  the last block, `AesPlacement.ShippedPlacementIff` gives the exact condition: no memory
  comes out wrong exactly if there is one block at most or the output does not overtake the
  input. For a key outside the input that may be overrun, `ShippedSensitiveIff` gives the
  exact condition under the explicit hypothesis that the cipher depends on the first and on
  the last byte of its key. `AesEcb.SafeIff` is only about the loop: it ranges over all
  ciphers.
* A line of an S-record file shorter than four characters ends the parse silently, also
  in the middle of the file. All records are read exactly if none stands behind such a
  line: `SRecord.ShortLineEnds`.
* An S-record line cut short is rejected or taken for a record that ends earlier, depending
  on where it is cut; the last line of a file may lose its last data byte unnoticed:
  `SRecord.TruncatedLine`.

## Model

| member | source | states |
|---|---|---|
| RiscVDivision.ResultFromMagnitudes | hardware/src/design/riscy/cv32e40p_alu_div.sv:99-102 | the architectural result is the quotient or remainder of the magnitudes with the sign put back, and the overflow case needs no case of its own |
| SerialDivider.LoadEstablishes | hardware/src/design/riscy/cv32e40p_alu_div.sv:84-191 | loading a prepared request gives the dividend the divisor's sign without changing its magnitude and establishes the loop invariant, for signed and unsigned operands and for divisor zero |
| SerialDivider.StepKeeps | hardware/src/design/riscy/cv32e40p_alu_div.sv:84-117 | one divide cycle keeps the invariant: dividend = A + q * 2B with A below 2B, B the divisor still aligned, q the reversed quotient so far; after the last one A + q * d with A below d |
| SerialDivider.FinishedShowsResult | hardware/src/design/riscy/cv32e40p_alu_div.sv:99-102 | what the output shows in FINISH is DIV, DIVU, REM or REMU of the operands, by zero and on overflow included |
| SerialDivider.Divider.Load | hardware/src/design/riscy/cv32e40p_alu_div.sv:137-146 | accepting a request starts its divide cycles with the invariant in place |
| SerialDivider.Divider.DivideCycle | hardware/src/design/riscy/cv32e40p_alu_div.sv:149-160 | one cycle in DIVIDE advances the request by one, or finishes it when the shift amount is used up |
| SerialDivider.Divider.Clock | hardware/src/design/riscy/cv32e40p_alu_div.sv:123-213 | every clock edge follows the handshake protocol, and in FINISH the registers do not change |
| SerialDivider.OutVldMeaning | hardware/src/design/riscy/cv32e40p_alu_div.sv:135-168 | output valid is low from acceptance until the result is there |
| SerialDivider.LatencyAndStability | hardware/src/design/riscy/cv32e40p_alu_div.sv:115-173 | a request takes exactly shift + 1 divide cycles, and its result stands until the first cycle in which the consumer is ready |
| FindFirstOne.NodeCorrect | hardware/src/design/riscy/cv32e40p_ff_one.sv:57-85 | every tree node answers for exactly the slice of the vector that it spans, at every level and for every length |
| FindFirstOne.FirstOneCorrect | hardware/src/design/riscy/cv32e40p_ff_one.sv:52-94 | for every length of at least two, no ones is reported exactly on the zero vector and otherwise the lowest set position is returned |
| AluDivision.PopCountZero | hardware/src/design/riscy/cv32e40p_popcnt.sv:36-60 | the population count is zero exactly for the zero word |
| AluDivision.DivShiftFillsWord | hardware/src/design/riscy/cv32e40p_alu.sv:819-843 | the shift amount removes exactly the leading zeros of a non-negative divisor, leaves one sign bit of a negative one, and is the width for zero |
| AluDivision.FrontEndPrepares | hardware/src/design/riscy/cv32e40p_alu.sv:957-980 | for all operands and operators the divider gets its divisor at full width with no significant bit lost, and the right zero and sign flags |
| AluDivision.Execute | hardware/src/design/riscy/cv32e40p_alu.sv:964-987 | a division held until answered, its answer taken after any delay, returns the architectural result after shift + 1 divide cycles, at most one more than the width |
| Aligner.DecodeFollows | hardware/src/design/riscy/cv32e40p_aligner.sv:91-216 | in every state, what is handed on is the instruction at the pc, the next pc is where the parser goes on, and the link between state, pc, queue head, saved half-word and remembered handshake is kept |
| Aligner.Aligner.Clock | hardware/src/design/riscy/cv32e40p_aligner.sv:66-224 | one clock edge: the pc moves exactly with the instructions handed on and the branches, and the queue is popped in step |
| Aligner.Cycled | hardware/src/design/riscy/cv32e40p_aligner.sv:66-224 | one cycle with its fetch queue makes at most one step of the parser or the branch, and one at all if a word is there and IF is free, unless a branch has just gone to an upper half-word |
| Aligner.Run | hardware/src/design/riscy/cv32e40p_aligner.sv:66-224 | for every memory, start, stall pattern and branches to even addresses, the instructions handed on are the sequential parse with each branch where it occurred; told by the bits of the memory, each has four bytes exactly if both low bits of its first half-word are set and two otherwise, and the next one starts behind it modulo 2^32; with words available and IF free at most one cycle passes without one |
| Aligner.SequentialIsConsecutive | hardware/src/design/riscy/cv32e40p_aligner.sv:101-216 | the parser that the aligner follows is the one that reads half-words of bits at byte addresses modulo 2^32 by the length rule of the two low bits |
| AesField.GfMult | software/main.c:81-91 | the shift-and-add loop computes the product of the field |
| Gf2Polynomials.GfMulIsProductModulo | software/main.c:81-91 | that product is the product of the polynomials over GF(2) minus a multiple of x^8 + x^4 + x^3 + x + 1 |
| Gf2Polynomials.RemainderUnique | software/main.c:81-91 | and no other byte is, so it is the remainder |
| AesField.GfMulConstants | hardware/src/design/riscy/cv32e40p_aes_state.sv:139-141 | the products with the constants of MixColumns and its inverse in terms of xtime |
| AesUnits.EsmiColumnMixes | hardware/src/design/riscy/cv32e40p_aes.sv:118-148 | four chained aes32esmi make one column of SubBytes, ShiftRows, MixColumns and AddRoundKey |
| AesBytewise.EsiColumnAdds | hardware/src/design/riscy/cv32e40p_aes_fi.sv:111-126 | four chained aes32esi make one column of a final round |
| AesBytewise.BytewiseMiddleIsEngine | software/main.c:122-157 | sixteen aes32esmi equal mode 0 of the round engine on all states and keys |
| AesBytewise.BytewiseFinalIsEngine | software/main.c:162-193 | sixteen aes32esi equal mode 1 of the round engine on all states and keys |
| AesEngine.RoundIsFips | hardware/src/design/riscy/cv32e40p_aes_state.sv:154-244 | one cycle of the engine is a FIPS-197 middle round, final round or AddRoundKey, by its mode, on all states and keys |
| AesEngine.RconIsPower | hardware/src/design/riscy/cv32e40p_aes_ks.sv:129-136 | the round constant table holds the powers of x |
| AesEngine.ExpandIsFips | hardware/src/design/riscy/cv32e40p_aes_ks.sv:151-169 | one expansion step turns round key n into round key n + 1 of FIPS-197, n below 10 |
| AesInstructions.WiredImplements | hardware/src/design/riscy/cv32e40p_alu.sv:119-154 | engine and key unit, wired as in the ALU, implement the rounds and the schedule of FIPS-197 for every key |
| AesInstructions.KeyStaysInStep | hardware/src/design/riscy/cv32e40p_aes_ks.sv:176-193 | over any program without seed loads and with at most ten expansions in all, the key register holds the round key that its counter says, whatever else is mixed in |
| AesInstructions.KeyScheduleRefines | hardware/src/design/riscy/cv32e40p_aes_ks.sv:129-193 | after loading the four seed words in any order from any prior contents and any program with n <= 10 expansions, the counter is n and the register holds round key n |
| AesInstructions.BlockProgramEncrypts | software/main.c:213-254 | the 33 instructions of a block leave the FIPS-197 ciphertext in the state register for every plaintext, key and prior contents of the hidden registers |
| AesPipeline.Stage.Clock | hardware/src/design/riscy/cv32e40p_alu.sv:115-154 | one clock edge of the commit gates, the two units and the ID/EX registers |
| AesPipeline.CommitOnceInOrder | hardware/src/design/riscy/cv32e40p_alu.sv:110-154 | over any run, each AES instruction issued takes effect exactly once and in order, however long it waits in EX, and the values read are those of sequential execution |
| AesPipeline.StallsDoNotMatter | hardware/src/design/riscy/cv32e40p_aes_ks.sv:171-193 | two runs that issue the same AES instructions end with the same hidden registers and the same values read |
| AesPipeline.RoundReadsLatestKey | hardware/src/design/riscy/cv32e40p_aes_state.sv:238-268 | a round uses the key left by the latest load or expansion before it |
| AesPipeline.OperatorEffects | hardware/src/design/riscy/cv32e40p_alu.sv:115-154 | what each of the six operators does, when it leaves EX, to key, round counter, state and read port |
| AesPipeline.StalledBlocksEncrypt | software/main.c:213-268 | under any stalls, the values that any number of block programs in a row read, four for each, are the ciphertexts of their blocks under their keys |
| AesPipeline.StalledBlockEncrypts | software/main.c:213-254 | the case of one block |
| AesBlock.Core.AllRounds | software/main.c:230-246 | the round loop issues the rounds of the block program in order |
| AesBlock.EncryptBlock | software/main.c:213-254 | with the three buffers anywhere in memory, the 16 output bytes become the cipher of the input bytes under the key bytes and nothing else changes |
| AesEcb.EcbEncrypt | software/main.c:257-268 | for a length divisible by 16 each block read is stored encrypted and nothing else changes, and with safely placed buffers, the same buffer included, the output is the block-wise encryption of the input; for any other length nothing changes |
| AesEcb.EcbBlock | software/main.c:265-267 | block i of the output depends on the key and on block i of the input only |
| AesEcb.SafeIff | software/main.c:257-268 | as a remark on the loop alone: it encrypts block by block for every cipher and memory exactly when the output does not overtake the input and none but its last block runs into the key |
| AesEcb.Aes128EcbEncrypt | software/main.c:257-268 | the outcomes of EcbEncrypt on the wired units with any prior register contents, for every placement, with FIPS-197 as the cipher |
| AesPlacement.Aes128Deciphers | software/main.c:213-254 | AES-128 on byte strings and its inverse undo each other under every key |
| AesPlacement.OvertakingFails | software/main.c:257-268 | an output that overtakes its input leaves some memory wrong, for any invertible cipher, if the key is clear of the output but its last block or of the input |
| AesPlacement.Aes128PlacementIff | software/main.c:257-268 | for AES-128 over any table with an inverse and a key clear of all output but the last block: every memory is encrypted block by block if and only if there is at most one block or the output does not overtake the input |
| AesPlacement.ShippedPlacementIff | software/main.c:7-268 | the same for the table of the source |
| AesPlacement.SensitiveIff | software/main.c:257-268 | for an invertible cipher that depends on the outermost bytes of its key, and a key outside the input: every memory is encrypted block by block if and only if the buffers are safely placed, a key overrun by the output included |
| AesPlacement.ShippedSensitiveIff | software/main.c:7-268 | the same for the cipher of the source, its dependence on those two bytes being the hypothesis |
| AesEcb.ChainsFips | software/main.c:115-193 | the chained byte-wise rounds compute the FIPS-197 rounds |
| AesEcb.InnerRound | software/main.c:122-157 | aes_inner_round does a middle round on a state in memory |
| AesEcb.FinalRoundInMemory | software/main.c:162-193 | aes_final_round does a final round on a state in memory |
| AesSoftware.SubBytesInPlace | software/main.c:65-69 | sub_bytes is SubBytes |
| AesSoftware.ShiftRowsInPlace | software/main.c:72-78 | shift_rows, with its temporaries, is ShiftRows |
| AesSoftware.MixColumnsInPlace | software/main.c:94-106 | mix_columns is MixColumns |
| AesSoftware.AddRoundKeyInPlace | software/main.c:109-113 | add_round_key is AddRoundKey |
| AesSoftware.ExpandKey | software/main.c:37-61 | expand_key writes the 44 words of the FIPS-197 schedule |
| AesSoftware.ExpandedRoundKeys | software/main.c:37-61 | bytes 16n to 16n + 15 of its output are round key n, the contents of the key register after n expansions |
| AesSoftware.ReferenceEncrypt | software/main.c:35-113 | the reference functions, put together in the order of FIPS-197, make up the same cipher that the hardware program computes |
| GfRing.MixInverts | software/main.c:94-106 | the inverse matrix of MixColumns undoes it on every column, on both sides |
| AesInverse.CipherInverts | hardware/src/design/riscy/cv32e40p_aes_state.sv:139-244 | for every key, the inverse rounds with the round keys in reverse order undo the cipher, and the cipher undoes them |
| AesInverse.CipherInjective | hardware/src/design/riscy/cv32e40p_aes_state.sv:139-244 | under one key no two blocks encrypt to the same block |
| AesInverse.BlockDecrypts | software/main.c:213-254 | deciphering what the block program leaves in the state register gives the plaintext back |
| AesTables.TableInverts | software/main.c:7-24 | the shipped substitution table is a permutation with the given inverse |
| AesSBox.TableIsAffineInverse | software/main.c:7-24 | for every byte, the entry of the shipped table is the affine transformation of section 5.1.1 of FIPS-197 applied to the multiplicative inverse of the byte, that of zero being zero |
| AesSBox.InverseUnique | software/main.c:81-91 | a byte has no more than one inverse |
| AesSBox.InverseExists | software/main.c:81-91 | and it has one |
| GfRing.GfMulCommutes | software/main.c:81-91 | the multiplication of the field is commutative |
| AesTables.ShippedCipherInverts | software/main.c:213-254 | invertibility for the cipher over the shipped table, which AesSBox.TableIsAffineInverse shows to be that of AES |
| AesTables.ShippedCipherInjective | software/main.c:213-254 | injectivity for the same cipher |
| ApuDispatcher.Dispatcher.Clock | hardware/src/design/riscy/cv32e40p_apu_disp.sv:86-226 | one clock edge is one step of an in-order queue of capacity two, and the outputs are as the queue says |
| ApuDispatcher.Dispatcher.Drive | hardware/src/design/riscy/cv32e40p_apu_disp.sv:161-226 | a response names the oldest operation, an enabled one is stalled exactly when not accepted, and the dependency flags cover exactly what is outstanding after the cycle and an unanswered request |
| ApuDispatcher.Dispatcher.Latch | hardware/src/design/riscy/cv32e40p_apu_disp.sv:92-159 | the inflight and waiting registers follow the queue, waiting only behind inflight |
| ApuDispatcher.Conserved | hardware/src/design/riscy/cv32e40p_apu_disp.sv:87-142 | over any run what was accepted is what was reported, each once and oldest first, followed by at most two outstanding |
| ApuDispatcher.NeverShorter | hardware/src/design/riscy/cv32e40p_apu_disp.sv:196-202 | an operation is never accepted behind one with a longer latency |
| ApuDispatcher.NoOvertaking | hardware/src/design/riscy/cv32e40p_apu_disp.sv:196-202 | with a unit that keeps its latencies, no two operations complete in one cycle and the one that completes is the oldest and is named |
| ApuDispatcher.TypeStallIff | hardware/src/design/riscy/cv32e40p_apu_disp.sv:196-200 | in a run with a unit that keeps its latencies, an enabled operation makes its request exactly if nothing is outstanding, or one operation that it could not overtake and it is not of class 3; class 3 behind class 2 is held back without need |
| ApuDispatcher.StoredIsLatest | hardware/src/design/riscy/cv32e40p_apu_disp.sv:150-159 | the stored latency class is that of the latest request, granted or not |
| ApuDispatcher.ReportsOldestIff | hardware/src/design/riscy/cv32e40p_apu_disp.sv:210-216 | a response names and takes out the oldest operation exactly if one is outstanding or granted in that cycle |
| ApuDispatcher.AssertionTooWeak | hardware/src/design/riscy/cv32e40p_apu_disp.sv:232-235 | a cycle that meets the source's assertion and yet names an operation never accepted |
| ApuDispatcher.AssertionGap | hardware/src/design/riscy/cv32e40p_apu_disp.sv:232-235 | the cycles for which that assertion is too weak are exactly those with an empty queue and a request that is not granted |
| PartitionedAdder.WideAdditionRipples | hardware/src/design/riscy/cv32e40p_alu.sv:183-244 | the one wide sum with spacer bits is byte-wise addition in which each spacer pair passes, stops or makes the carry |
| PartitionedAdder.AdderIsLaneWise | hardware/src/design/riscy/cv32e40p_alu.sv:171-244 | in each mode every lane of the result is the sum or difference of the lanes modulo the lane size, with no carry between lanes |
| PartitionedAdder.ComparatorsAreLaneWise | hardware/src/design/riscy/cv32e40p_alu.sv:415-479 | the combined byte comparisons compare the lanes, signed or unsigned, in each mode |
| PartitionedAdder.ComparisonHolds | hardware/src/design/riscy/cv32e40p_alu.sv:481-497 | every comparison operator decides its relation on the lanes |
| PartitionedAdder.MinMaxIsLaneWise | hardware/src/design/riscy/cv32e40p_alu.sv:500-516 | lane-wise minimum and maximum |
| PartitionedAdder.AbsIsLaneWise | hardware/src/design/riscy/cv32e40p_alu.sv:506-516 | lane-wise absolute value, the most negative number included |
| PartitionedShifter.LeftShiftIsLaneWise | hardware/src/design/riscy/cv32e40p_alu.sv:286-384 | reversing, shifting right by the amounts of the opposite lanes and reversing back moves each lane up by the number in the same lane of the second operand modulo the lane size |
| PartitionedShifter.LeftShiftMultiplies | hardware/src/design/riscy/cv32e40p_alu.sv:286-384 | which multiplies the lane by a power of two, its exponent the number in the lane of the second operand modulo the lane size, modulo the lane size in values |
| PartitionedShifter.RightShiftDivides | hardware/src/design/riscy/cv32e40p_alu.sv:335-373 | each lane of a right shift is the lane divided by two to the number in the lane of the second operand modulo the lane size, and rounded down, with a sign for the arithmetic shift |
| PartitionedShifter.LaneBit | hardware/src/design/riscy/cv32e40p_alu.sv:335-373 | bit t of lane j is bit 8j + t, 16j + t or t of the word, by the mode |
| Controller.Machine.Clock | hardware/src/design/riscy/cv32e40p_controller.sv:251-1430 | the combinational block, state by state, and the registers, with the IF/ID register that the halt signals hold |
| Controller.JumpRedirectsOnce | hardware/src/design/riscy/cv32e40p_controller.sv:525-599 | in every run, a jump has redirected the fetch exactly once when it leaves ID, however long it stalls, never more than once, and nothing else makes a jump redirect |
| Controller.BranchRedirects | hardware/src/design/riscy/cv32e40p_controller.sv:430-443 | a taken branch in EX makes exactly one redirect, to its target, keeps the controller in DECODE and removes what is in ID, whatever it is |
| Controller.BranchesTold | hardware/src/design/riscy/cv32e40p_controller.sv:430-443 | in every run, the fetch is redirected to a branch target exactly as often as a branch is taken in DECODE or behind a single-stepped branch |
| Controller.BootsOnce | hardware/src/design/riscy/cv32e40p_controller.sv:329-354 | in every run from reset, nothing happens before the redirect to the boot address, and it is made once |
| Controller.ResetUntilEnabled | hardware/src/design/riscy/cv32e40p_controller.sv:329-338 | the controller stays in RESET exactly as long as the fetch is not enabled |
| Controller.BootsIntoDebug | hardware/src/design/riscy/cv32e40p_controller.sv:341-354 | a request pending at boot enters debug mode before the first instruction |
| Controller.Flows | hardware/src/design/riscy/cv32e40p_controller.sv:525-690 | ordinary instructions, jumps, branches and waits in debug mode hold nothing up: the next instruction follows, and only a jump redirects |
| Controller.TrapSequence | hardware/src/design/riscy/cv32e40p_controller.sv:525-1127 | an illegal instruction, environment call or breakpoint makes exactly one cause save and then exactly one redirect for any time in ID and any delay of EX, in debug mode none and one; returns and fences make one redirect, and an access to a status register none; requests, branches and settings do not matter once it is out of ID, except that a single step then enters debug mode; dret leaves debug mode |
| Controller.WaitSleeps | hardware/src/design/riscy/cv32e40p_controller.sv:357-388 | a wait that has emptied the pipeline sleeps without an event until it is woken, by a request into debug mode and otherwise back to DECODE without a redirect |
| Controller.IdOutsideDecode | hardware/src/design/riscy/cv32e40p_controller.sv:329-1240 | while the pipeline is emptied or the core sleeps nothing enters ID and nothing stays valid, behind a stepped branch nothing enters, and otherwise what is fetched enters |
| Controller.SteppedAside | hardware/src/design/riscy/cv32e40p_controller.sv:645-690 | what is single-stepped and does not trap, return or branch enters debug mode with the step as its one cause and without its own redirect |
| Controller.SteppedBranch | hardware/src/design/riscy/cv32e40p_controller.sv:645-690 | a single-stepped branch first makes its redirect, if it is taken, and then enters debug mode with the step as its one cause |
| Controller.EbreakEnters | hardware/src/design/riscy/cv32e40p_controller.sv:550-570 | an ebreak for the debugger enters debug mode with the ebreak as its one cause; in debug mode it only redirects |
| Controller.DebugAssertions | hardware/src/design/riscy/cv32e40p_controller.sv:1565-1585 | the debug assertions of the source hold in every run: entry to DBG_TAKEN_IF, DBG_FLUSH for one cycle, halted exactly in debug mode |
| Controller.DebugEntry | hardware/src/design/riscy/cv32e40p_controller.sv:1153-1197 | in every run from reset, debug mode is entered exactly as often as a cause is saved for it, and each step that raises the debug mode register makes that one save and one redirect to the debugger |
| Controller.RequestEnters | hardware/src/design/riscy/cv32e40p_controller.sv:480-1177 | a debug request or trigger flushes the instruction in ID unexecuted, and debug mode is entered two cycles later with the reason: the trigger before an ebreak before the request |
| Controller.NotedOnlyOnEntry | hardware/src/design/riscy/cv32e40p_controller.sv:1153-1197 | the notes of a request and of a wake-up stand only while debug mode is being entered |
| SRecord.ParsePrinted | software/python_script/srec_to_coe.py:10-37 | parsing any list of segments printed as S1, S2 or S3 records, interleaved with lines of any other kind whose count is legible, the last line ended or not, gives exactly the segments before the first short line |
| SRecord.OthersSkipped | software/python_script/srec_to_coe.py:24-32 | header, count and end records, S0 and S5 to S9, are skipped whatever they hold |
| SRecord.LineOutcomes | software/python_script/srec_to_coe.py:14-37 | a line ends the parse exactly if it is shorter than four characters, with a legible count is skipped exactly if it is not S1, S2 or S3, and is rejected exactly if its count, or the address or data of a data record, is illegible |
| SRecord.UnhexlifyIff | software/python_script/srec_to_coe.py:35 | data is legible exactly if it is an even number of digits |
| SRecord.DigitsIff | software/python_script/srec_to_coe.py:20-34 | a number's digits are legible exactly if they are digits with single underscores between them |
| SRecord.NumberIff | software/python_script/srec_to_coe.py:20-34 | the number fields accept exactly white space, a sign, a prefix, legible digits and white space |
| SRecord.SpacesAre | software/python_script/srec_to_coe.py:20-34 | the ASCII white space that a number may have around it |
| SRecord.NoOtherDigits | software/python_script/srec_to_coe.py:20-35 | the digits are the sixteen in either case |
| SRecord.EitherCase | software/python_script/srec_to_coe.py:35 | data in letters of either case is the same |
| SRecord.ShortLineEnds | software/python_script/srec_to_coe.py:14-16 | for any list of segments, other lines and short lines, all segments are read if and only if none stands behind a short line; no error is raised either way |
| SRecord.TruncatedLine | software/python_script/srec_to_coe.py:20-35 | what becomes of a record line that ends before its count says, with or without a newline: which digits are dropped, and that the line is rejected exactly if an odd number is left |
| SRecord.LenientNumbers | software/python_script/srec_to_coe.py:20-34 | the notations that the number fields accept: white space, a sign, a prefix with or without an underscore, and letters of either case |
| SRecord.RomHoldsLastWrites | software/python_script/srec_to_coe.py:66-83 | the fill succeeds exactly if all writes are in range or forced, and then each byte is the last one written to it or zero |
| SRecord.FirstErrorTold | software/python_script/srec_to_coe.py:67-81 | otherwise the error tells on which side of the ROM the first write out of range lies |
| SRecord.StoreRecord | software/python_script/srec_to_coe.py:39-45 | the bytes of a record go to successive addresses |
| SRecord.FillRom | software/python_script/srec_to_coe.py:66-83 | the loop over the file, in place, with the error of the first offending byte or line |
| SRecord.Emit | software/python_script/srec_to_coe.py:86-103 | the output is the two lines of the header and the ROM's words with their bytes swapped |
| SRecord.OutputDigits | software/python_script/srec_to_coe.py:91-103 | the four pairs of digits of line k are bytes 4k + 3 down to 4k of the ROM, the upper digit first and in upper case, and a newline follows |
| SRecord.WordsRoundTrip | software/python_script/srec_to_coe.py:91-103 | reading the emitted words little-endian gives the ROM back |
| SRecord.Convert | software/python_script/srec_to_coe.py:47-103 | the whole program with its checks of base and size: it succeeds exactly if they are multiples of 16, no line that the parse reaches is rejected, and every write is in range or those that are not are to be ignored |
| SRecord.ParseEnds | software/python_script/srec_to_coe.py:13-37 | the parse fails exactly if a line is rejected before any short one |
| SRecord.ConvertPrinted | software/python_script/srec_to_coe.py:47-103 | converting a printed file yields an output that reads back as the memory that its segments before the first short line describe, hence all of them if none stands behind one, or fails exactly if a byte is out of range and not forced |

## Left out

* Hardware loops (off by default), cluster-only states, `p.elw`, interrupts and memory
  protection errors of the controller; its performance counters, stall and forwarding
  logic, and the CSR side of a return.
* The compressed decoder, the decoder, the core's top level wiring, CSRs, the load-store
  unit, the multiplier and the prefetch buffer; where their behaviour matters it is an
  assumption listed above.
* ALU clip, complex-number operands, rotation, rounding and normalising shifts, bit
  insertion, shuffling and radix reversal.
* Clock gating, reset other than its values, timing and area.
- AesBlock.EncryptBlock: does not model the alignment of the word accesses that the C code makes through casted pointers.
- AesSoftware.ReferenceEncrypt: the order in which it calls the reference functions is that of FIPS-197; the C file keeps the functions but no longer calls them in that order itself.
- Aligner.Run: the flag for a failed fetch and the hardware loop inputs are tied off.
- AluDivision.Execute: the operands are held by its caller for the whole division, as the ID/EX registers hold them.
- AesPlacement.SensitiveIff: that AES-128 depends on the first and the last byte of its key is a hypothesis, since it could only be shown by evaluating the cipher; a key that overlaps the input as well as the output before its last block is only covered by the safe direction.
- Controller.TrapSequence: while the instruction is in ID, no branch is taken in EX and, outside debug mode, no debug request comes in, since either removes the instruction (`Controller.RequestEnters`); an ebreak for the debugger is not a trap.
- Controller.Machine.Clock: one kind of instruction is in ID at a time, as the decoder encodes it; the multiplexer values of redirects that are not made are not modelled.
- PartitionedAdder.AdderIsLaneWise: words are lists of bytes, and the bit above the 36 bits of the sum, which only the clip operation uses, is not modelled.
- SRecord.Convert: files are ASCII text given as lines, so decoding errors and the file system are not modelled; the three error messages are values.
- SRecord.ParsePrinted: any checksum is printed, since the parser ignores it.
