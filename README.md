# WHINT in Dafny

A model of the core of WHINT, a Whitespace interpreter written in C++
(`whint.cpp`). The model covers the interpreter's main loop and everything
that loop does:

- the scanner, which moves the cursor over the NUL-terminated program buffer
  and treats every byte other than SPACE, TAB and LF as a comment, even in
  the middle of an instruction;
- `read_number`, which decodes literals (a sign, then binary digits, then LF);
- the decision tree that turns two to four tokens into one of 22
  instructions;
- the machine they act on: the operand stack, a 1024-slot heap, the call
  stack and the label table;
- the loop `while(pr[p])`, with its final skip over a comment the cursor
  landed on.

The model has the same two layers as a reading of the program:

- **Values.** Pure functions in `Scanner`, `Numbers`, `Decoder` and
  `Semantics` describe each part: `NextWhite`, `DecodeNumber`, `Decode`,
  `Exec`, `Step` and `Run`.
- **Imperative code.** Methods do what the C++ does and are proved against
  those functions:
  - `FindNextWhiteChar` and `ReadNumber` keep the source's loops;
  - `DecodeInstruction` keeps its nested `if`s;
  - the class `Machine.Vm` owns the state and updates it in place, with the
    heap as an array.

The model states the comment rule in terms of the **token stream**:
`TokensFrom(pr, p)` is the sequence of tokens from `p` up to the
terminating NUL. Every decoding lemma is stated for *any* buffer whose
stream from the cursor is a given sequence, so it holds for every placement
of comment bytes.

The source leaves some cases to C++ undefined behaviour: reading the top of
an empty stack, returning with no pending call, an address outside the
heap, division by zero, and overflow of an `int`. The model reports each as
an explicit error, and the state is left as it was. When decoding stops, the
model reports the two conditions the interpreter reports itself, as
`UnexpectedChar(pos)` and `Unfinished`.

Modules, one file each:
- `Base` (`base.dfy`): bytes, the buffer, `int` range, errors, `Result`.
- `Scanner` (`scanner.dfy`).
- `Numbers` (`numbers.dfy`).
- `Decoder` (`decoder.dfy`).
- `Semantics` (`semantics.dfy`).
- `Properties` (`properties.dfy`): lemmas about single instructions and
  single turns.
- `Machine` (`machine.dfy`).
- `Scenarios` (`scenarios.dfy`): whole runs of small programs.

## Model

| member | source | states |
|---|---|---|
| Scanner.NextWhite | whint.cpp:66-70 | the first stop byte (token or NUL) strictly after `p`; it lies inside the buffer |
| Scanner.NextWhiteSkips | whint.cpp:67-68 | every byte the scanner passes over is a comment byte |
| Scanner.NextToken | whint.cpp:75-81 | succeeds exactly when the scanner lands on a token, and then yields that token's position; otherwise yields the "last command is unfinished" error |
| Scanner.TokensFrom | whint.cpp:27-28 | the token stream from `p`: tokens only, headed by the byte at `p` when it is a token, empty at NUL |
| Scanner.SkipComments | whint.cpp:27-28 | comment bytes between two positions do not change the token stream |
| Scanner.TokensAtToken | whint.cpp:66-70 | from a token, the stream is that token followed by the stream where the scanner lands |
| Scanner.NextTokenDrops | whint.cpp:75-81 | scanning from a token drops exactly one token from the stream, and fails exactly when the stream has just that one token |
| Scanner.NextWhiteFromComment | whint.cpp:325-326 | from a comment byte, the scanner lands where the same stream continues |
| Scanner.FindNextWhiteChar | whint.cpp:66-70 | the loop of `find_next_white_char` stops at NextWhite, having passed only comment bytes, and returns false exactly at NUL |
| Scanner.FindNextWhiteCharOrError | whint.cpp:75-81 | the same movement, with Unfinished exactly when it lands on NUL |
| Scanner.Advance | whint.cpp:75-81 | from a token with a successor in the stream, the scanner reaches that successor |
| Scanner.StreamEnds | whint.cpp:75-81 | from the last token of the stream, the scanner reports Unfinished |
| Scanner.NextTokenSame | whint.cpp:27-28 | two cursors with the same tokens ahead see the same token, and the scanner keeps their streams equal |
| Scanner.TokensOfTokens | whint.cpp:27-28 | a comment-free buffer has itself as its stream |
| Numbers.ReadBits | whint.cpp:98-102 | the bit loop either reaches an LF token at or after its start, or reports Unfinished |
| Numbers.DecodeNumber | whint.cpp:94-105 | a decoded literal fits a C++ `int`, is negative only after a TAB sign, and leaves the cursor on a stop byte after the sign; the only errors are Unfinished and Overflow |
| Numbers.ReadNumber | whint.cpp:94-105 | the loop of `read_number`, with its invariant on the bits still to come, computes DecodeNumber |
| Numbers.ReadBitsValue | whint.cpp:98-102 | bits followed by LF, with any comments between them, accumulate to `acc * 2^k` plus their binary value, and the loop stops at that LF |
| Numbers.ReadBitsUnfinished | whint.cpp:98-102 | bits that run into NUL with no LF give Unfinished |
| Numbers.DecodeNumberValue | whint.cpp:83-105 | a sign, bits and LF decode to the signed binary value of the bits (Overflow above 2^31-1), and decoding resumes where the rest of the stream begins |
| Numbers.DecodeNumberUnfinished | whint.cpp:97-101 | a literal cut off before its LF is Unfinished |
| Numbers.NoBitsIsZero | whint.cpp:94-105 | a sign followed directly by LF reads as 0 |
| Numbers.DocumentedExamples | whint.cpp:88-90 | the two literals shown in the comment above `read_number` decode to 10 and -8 |
| Numbers.BinaryValueOfBinary | whint.cpp:86 | the encoder's bit string of `m` has binary value `m` |
| Numbers.RoundTrip | whint.cpp:83-105 | decoding the encoding of `n` gives `n` back for every `n` a literal can hold, whatever comments sit between its tokens, and Overflow otherwise |
| Numbers.ReadBitsSame | whint.cpp:98-102 | the bit loop gives the same value from two cursors with the same tokens ahead |
| Numbers.DecodeNumberSame | whint.cpp:94-105 | literals decode to the same value or the same error from two cursors with the same tokens ahead |
| Decoder.Decode | whint.cpp:135-322 | every decoding result is well formed: an instruction whose literal fits and whose cursor is a later stop byte, or Unfinished, Overflow, or an unexpected character at a later token |
| Decoder.DecodeStackOp | whint.cpp:135-168 | the SPACE branch is well formed and never yields Halt |
| Decoder.DecodeTabOp | whint.cpp:170-273 | the TAB branch is well formed and never yields Halt |
| Decoder.DecodeArith | whint.cpp:172-218 | the arithmetic branch is well formed and never yields Halt |
| Decoder.DecodeIo | whint.cpp:240-272 | the I/O branch is well formed and never yields Halt |
| Decoder.DecodeFlow | whint.cpp:275-323 | the LF branch is well formed |
| Decoder.DecodeJump | whint.cpp:278-299 | label, call and jump decode well formed and never yield Halt |
| Decoder.DecodeBranch | whint.cpp:300-319 | conditional jumps and return decode well formed and never yield Halt |
| Decoder.DecodeInstruction | whint.cpp:134-323 | the nested `if`s of the main loop, using the scanner and `read_number` methods, compute Decode |
| Decoder.AssembleDecodes | whint.cpp:135-323 | every instruction other than Halt decodes from the spelling Assemble gives it (literals as EncodeNumber writes them), with any comments between its tokens, and decoding continues where the rest of the stream begins, except for Return, whose cursor is replaced by the call stack; a literal that does not fit is Overflow |
| Decoder.AssembleStackOp | whint.cpp:135-165 | Push, Dup, Swap and Discard decode from the spelling Assemble gives them, with any comments between tokens, and decoding continues where the rest of the stream begins; a Push literal that does not fit is Overflow |
| Decoder.WithLiteral | whint.cpp:138-142 | the instruction an opcode names, given a literal, is spelled as that opcode followed by the literal |
| Decoder.Opcode | whint.cpp:138-142 | every instruction that carries a literal is spelled as its opcode and its literal, and the opcode with that literal names the instruction again |
| Decoder.LiteralDecodes | whint.cpp:138-142 | an opcode followed by any spelling of a literal (either sign token, any bits, leading zero bits included) decodes to the instruction with the signed binary value of the bits, or to Overflow above 2^31-1, and decoding resumes where the rest of the stream begins |
| Decoder.JumpLiteralDecodes | whint.cpp:278-299 | after LF SPACE, the third token picks Mark, Call or Jump and the label is the signed binary value of any literal spelling, or Overflow above 2^31-1 |
| Decoder.BranchLiteralDecodes | whint.cpp:300-319 | after LF TAB and a non-LF token, that token picks JumpZero or JumpNeg and the label is the signed binary value of any literal spelling, or Overflow above 2^31-1 |
| Decoder.AssembleLiteral | whint.cpp:138-142 | the same for the literal EncodeNumber writes: the instruction gets exactly that literal |
| Decoder.OtherSpellings | whint.cpp:138-142 | `SPACE SPACE TAB SPACE TAB LF` is Push(-1), `SPACE SPACE TAB LF` is Push(0), `LF SPACE SPACE SPACE SPACE LF` is Mark(0), and `SPACE SPACE SPACE SPACE` at the end of the program is Unfinished |
| Decoder.AssembleArith | whint.cpp:172-214 | Add, Sub, Mul, Div and Mod decode from the spelling Assemble gives them, with any comments between tokens, and decoding continues where the rest of the stream begins |
| Decoder.AssembleHeapIo | whint.cpp:220-268 | Store, Load and the four I/O instructions decode from the spelling Assemble gives them, with any comments between tokens, and decoding continues where the rest of the stream begins |
| Decoder.AssembleFlow | whint.cpp:278-318 | Mark, Call, Jump, JumpZero, JumpNeg and Return decode from the spelling Assemble gives them, with any comments between tokens, and decoding continues where the rest of the stream begins, except after Return, whose cursor is replaced by the call stack; a label literal that does not fit is Overflow |
| Decoder.BadSequenceRejected | whint.cpp:167-271 | each of the seven token sequences that name no instruction is rejected as an unexpected character at its last token |
| Decoder.EndOfProgram | whint.cpp:321-322 | LF LF ends the program exactly when the raw byte after the second LF is LF; otherwise it is an unexpected character at the second LF |
| Decoder.HaltSpelledByThreeLf | whint.cpp:321 | conversely, Halt is decoded only where the stream starts with three LF |
| Decoder.CommentTransparency | whint.cpp:27-28 | two cursors with the same tokens ahead decode alike (except a stream that starts LF LF): the same instruction or error, with the same tokens ahead of the resulting cursors |
| Decoder.DecodeSeesOnlyTokens | whint.cpp:27-28 | decoding at `p` agrees with decoding the buffer that holds only the tokens from `p` |
| Decoder.UnfinishedPrefix | whint.cpp:75-81 | a stream that holds only a proper prefix of the spelling Assemble gives an instruction is Unfinished |
| Decoder.FixedPrefixUnfinished | whint.cpp:75-81 | a stream that holds only a proper prefix of an instruction without a literal is Unfinished |
| Decoder.LiteralPrefixUnfinished | whint.cpp:75-81 | a stream that holds only a proper prefix of an opcode and a literal in any spelling is Unfinished |
| Decoder.LiteralCut | whint.cpp:75-81 | an opcode, a sign and any bits with no LF before NUL are Unfinished |
| Semantics.Initial | whint.cpp:122-133 | cursor 0, empty stacks and labels, a heap of 1024 zeros |
| Semantics.TimesIsProduct | whint.cpp:195 | the value Mul computes before the range test is the product of the two operands |
| Semantics.TruncDiv | whint.cpp:205 | C++ `/` on ints: the quotient of the magnitudes, negated when the signs differ; what it promises is stated by TruncDivIsQuotient |
| Semantics.TruncMod | whint.cpp:212 | C++ `%` on ints: the remainder that goes with TruncDiv; what it promises is stated by TruncModIsRemainder |
| Semantics.TruncDivIsQuotient | whint.cpp:205 | the C++ quotient: its magnitude is the floor of the magnitudes' quotient, and its sign is negative exactly when the operand signs differ |
| Semantics.TruncModIsRemainder | whint.cpp:212 | the C++ remainder: quotient times divisor plus remainder is the dividend, it is smaller than the divisor in magnitude, and it takes the dividend's sign |
| Semantics.TruncExamples | whint.cpp:205-212 | -7/2 is -3 and -7%2 is -1 in C++, where Dafny's own operators give -4 and 1 |
| Semantics.ArithValue | whint.cpp:175-214 | `x op= y` fails exactly on a zero divisor (DivisionByZero) or a result or quotient outside `int` (Overflow); otherwise it is the exact value |
| Semantics.ExecStack | whint.cpp:138-165 | stack manipulation fails exactly when the stack is too short, and changes only the stack and the cursor |
| Semantics.ExecArith | whint.cpp:175-214 | arithmetic underflows exactly below two operands, shortens the stack by one, and keeps everything below the two operands |
| Semantics.ExecHeap | whint.cpp:223-236 | heap access underflows exactly when operands are missing, reports the offending address, and changes only stack, heap and cursor |
| Semantics.ExecIo | whint.cpp:243-268 | I/O underflows exactly on an empty stack, reports the address on top when it is outside the heap, keeps the stack, and changes only the cursor, the heap (written by the two reads) and the I/O, of which it only consumes input and appends output; the effect of each instruction is in PrintEffect, ReadCharEffect and ReadNumEffect |
| Semantics.JumpTo | whint.cpp:291-297 | `labels[label]` moves to the recorded position; an unknown label is inserted with position 0 and moves there |
| Semantics.ExecFlow | whint.cpp:280-318 | flow control underflows exactly for a conditional jump on an empty stack, fails with CallStackEmpty only for Return with no calls, and changes only cursor, calls and labels |
| Semantics.Exec | whint.cpp:138-318 | execution underflows exactly when the stack is shorter than the instruction needs, never reports a decoding error, keeps the state well formed, and only consumes input and appends output |
| Semantics.Skip | whint.cpp:325-326 | after an instruction the cursor is at or after where it was, on a token or NUL |
| Semantics.Step | whint.cpp:134-327 | one turn keeps the state well formed and only extends I/O; it halts or fails with the state unchanged, or runs on with the cursor on a stop byte |
| Semantics.Finish | whint.cpp:321-326 | the same for the rest of a turn once decoding has given its result |
| Semantics.Resume | whint.cpp:325-326 | the same once execution has given its result |
| Semantics.Run | whint.cpp:134-327 | a bounded run ends at NUL (Ended, exactly when the cursor is on NUL), at Halt, at an error or out of fuel, and only extends I/O |
| Semantics.RunStops | whint.cpp:134 | at NUL the loop stops without moving |
| Semantics.RunAfterStep | whint.cpp:134-327 | a run is a turn followed by the rest of the run |
| Properties.PushEffect | whint.cpp:139-142 | Push puts its literal on top and changes nothing else |
| Properties.DupEffect | whint.cpp:146-150 | Dup pushes a copy of the top, and fails exactly on an empty stack |
| Properties.SwapEffect | whint.cpp:152-159 | Swap exchanges the two top elements, and fails exactly below two |
| Properties.DiscardEffect | whint.cpp:161-164 | Discard removes the top, and fails exactly on an empty stack |
| Properties.PushThenDiscard | whint.cpp:139-164 | Push then Discard restores the state |
| Properties.SwapEqualTop | whint.cpp:152-159 | Swap of two equal top elements changes only the cursor |
| Properties.DupSwapDiscard | whint.cpp:144-164 | Dup, Swap, Discard in a row leave the machine as before them |
| Properties.ArithEffect | whint.cpp:175-214 | arithmetic replaces `x, y` by `x op y` when ArithValue succeeds, and fails with its error otherwise |
| Properties.DivModRoundTowardZero | whint.cpp:199-214 | Div and Mod on -7 and 2 leave -3 and -1 |
| Properties.QuotientOverflow | whint.cpp:199-214 | INT_MIN divided by -1, and its remainder, are reported as Overflow |
| Properties.StoreEffect | whint.cpp:223-229 | Store writes the top into the slot addressed by the element below it, changes no other slot, and keeps the stack; a bad address is reported |
| Properties.LoadEffect | whint.cpp:231-235 | Load keeps the address and pushes the addressed slot; a bad address is reported |
| Properties.StoreDiscardLoad | whint.cpp:223-235 | Store, Discard, Load leave the stored value on top of the address |
| Properties.StoreThenLoad | whint.cpp:223-235 | Store directly followed by Load uses the stored value as the address |
| Properties.PrintEffect | whint.cpp:243-254 | PrintChar writes the top modulo 256, PrintNum the top; nothing else changes |
| Properties.ReadCharEffect | whint.cpp:259-262 | ReadChar stores the next input value at the address on top, or -1 at end of input |
| Properties.ReadNumEffect | whint.cpp:264-267 | ReadNum stores the next input value at the address on top; at end of input nothing changes |
| Properties.ReadOutOfRange | whint.cpp:257-268 | the read instructions report an address outside the heap |
| Properties.MarkRecords | whint.cpp:280-285 | Mark records its label at the position where the next instruction starts |
| Properties.MarkThenJump | whint.cpp:280-298 | a Jump after a Mark lands where the Mark recorded its label |
| Properties.UndefinedLabel | whint.cpp:286-297 | Jump and Call to a label never marked go to position 0 and record it |
| Properties.JumpZeroEffect | whint.cpp:302-307 | JumpZero moves to its label exactly when the top is 0, and never changes the stack |
| Properties.JumpNegEffect | whint.cpp:308-313 | JumpNeg moves to its label exactly when the top is negative, and never changes the stack |
| Properties.CallEffect | whint.cpp:286-291 | Call to a marked label goes to the recorded position and pushes the position after its literal on the call stack; nothing else changes |
| Properties.CallThenReturn | whint.cpp:286-318 | Return comes back to the position after the Call's literal and pops what the Call pushed |
| Properties.ReturnWithoutCall | whint.cpp:314-318 | Return with no pending call fails with CallStackEmpty |
| Properties.StepAtComment | whint.cpp:325-326 | a turn at a comment byte only moves the cursor, to where the same stream continues |
| Properties.StepAssembled | whint.cpp:134-327 | a turn at an instruction's spelling executes that instruction, continuing where the rest of the stream begins, except for Return, whose cursor is replaced by the call stack |
| Properties.StepHalts | whint.cpp:321 | a turn at LF LF LF halts with the state unchanged |
| Properties.DecodeFamily | whint.cpp:135-275 | the first token picks the family: SPACE stack, TAB arithmetic, heap or I/O, LF flow control |
| Properties.StepSeesOnlyTokens | whint.cpp:27-28 | at cursors with the same tokens ahead and otherwise equal states, a turn at a stack, arithmetic, heap or I/O instruction ends alike in both buffers |
| Properties.ExecSame | whint.cpp:138-268 | an instruction other than flow control has an effect that depends on neither the buffer nor the cursor |
| Machine.Vm.constructor | whint.cpp:122-133 | the new machine is in the initial state, with a fresh heap array |
| Machine.Vm.ExecuteStack | whint.cpp:138-165 | the in-place stack operations do what ExecStack describes |
| Machine.Vm.ExecuteArith | whint.cpp:175-214 | the in-place arithmetic does what ExecArith describes |
| Machine.Vm.ExecuteHeap | whint.cpp:223-236 | writing the heap array in place does what ExecHeap describes |
| Machine.Vm.ExecuteIo | whint.cpp:243-268 | the in-place I/O does what ExecIo describes |
| Machine.Vm.JumpToLabel | whint.cpp:291 | `p = labels[label]` does what JumpTo describes |
| Machine.Vm.ExecuteFlow | whint.cpp:280-318 | the in-place flow control does what ExecFlow describes |
| Machine.Vm.Execute | whint.cpp:135-318 | dispatching a decoded instruction does what Exec describes |
| Machine.Vm.Step | whint.cpp:134-327 | one turn of the loop on the machine's fields does what Step describes |
| Machine.Vm.FinishTurn | whint.cpp:321-326 | after decoding, the fields are updated as Finish describes: a decoding error or Halt stops with the state unchanged; otherwise the instruction is executed and a comment byte the cursor landed on is skipped |
| Machine.Vm.Run | whint.cpp:134-327 | the loop `while(pr[p])`, bounded by fuel, ends as Run describes |
| Machine.Vm.Next | whint.cpp:134-327 | one test of the loop condition and one turn keep the rest of the run equal to Run with the fuel left |
| Machine.Vm.Stop | whint.cpp:134 | where the loop condition fails, the run is over: Ended at NUL, otherwise OutOfFuel |
| Machine.Vm.Turn | whint.cpp:134-327 | one turn leaves the rest of the run to Run with one turn less, or ends it |
| Scenarios.InitialWf | whint.cpp:122-126 | the initial state is a well-formed state |
| Scenarios.ToFirstToken | whint.cpp:325-326 | a leading comment costs one turn and moves only the cursor, onto the first token |
| Scenarios.RunAssembled | whint.cpp:134-327 | a run at an instruction's spelling executes it and continues with one turn less, from where the rest of the stream begins except after Return, whose cursor is replaced by the call stack |
| Scenarios.PushTurn | whint.cpp:139-142 | a run through Push continues with the value pushed |
| Scenarios.ArithTurn | whint.cpp:175-214 | a run through a defined arithmetic instruction continues with the result in place of the operands |
| Scenarios.PrintNumTurn | whint.cpp:250-254 | a run through PrintNum continues with the top written |
| Scenarios.MarkTurn | whint.cpp:280-285 | a run through Mark continues with the label recorded where the stream goes on |
| Scenarios.AddPrintFrom | whint.cpp:175-254 | `+ printnum` at the end of a program prints the sum and ends at NUL |
| Scenarios.PushTwoAddPrintFrom | whint.cpp:134-327 | `2 + printnum` at the end of a program adds 2 to the top, prints the sum and ends at NUL |
| Scenarios.AddPrintAfterPush | whint.cpp:175-254 | after a push of `y`, `+ printnum` replaces the pushed value and the one below it by their sum, prints it and ends at NUL |
| Scenarios.AddAndPrintFrom | whint.cpp:134-327 | `1 2 + printnum` from its first token ends at NUL, with 3 printed and left on top |
| Scenarios.AddAndPrint | whint.cpp:134-327 | the same program, with any comments, ends in at most five turns with output 3 and stack [3], and nothing else changed |
| Scenarios.ReturnFirst | whint.cpp:314-318 | a program that starts with Return fails with CallStackEmpty in the initial state |
| Scenarios.JumpToItself | whint.cpp:293-298 | a Jump to a label recorded at the Jump itself spins with the state unchanged until the fuel is gone |
| Scenarios.MarkJumpFrom | whint.cpp:280-298 | `label l; jump l` runs out of fuel for every fuel, changing only cursor and labels |
| Scenarios.MarkJumpSpins | whint.cpp:280-298 | as a whole program it never ends, halts or fails, and writes nothing |

## Left out

- Command-line handling, opening and reading the file and the usage text (whint.cpp:49, 107-131) are not modelled. The program is given as a buffer that ends with NUL. A NUL byte inside the file ends the program early, in the model as in the source.
- The messages printed for an unexpected character or an unfinished command, `delete[]` and `exit(0)` (whint.cpp:57-61, 75-81) are not modelled. The run reports `Failed(UnexpectedChar(pos))` or `Failed(Unfinished)` instead, where `pos` is the position the source prints.
- Console I/O is not modelled:
  - `putchar` and `printf("%d")` become the output events `CharOut(top % 256)` and `NumOut(top)`.
  - `getchar` and `scanf("%u")` take the next value of an input sequence of `int`s, which is assumed to be in `int` range.
  - The conversion of console text to numbers is left out.
- The source uses C++ `int` operations whose behaviour is undefined: the top of an empty stack, Return with no call, heap indexing outside 0..1023, division by zero, and signed overflow. The model stops with an explicit error and the state unchanged, instead of whatever the C++ would do.
- Numbers.DecodeNumber: a literal of magnitude 2^31 or more is reported as Overflow once its LF is read. It is not given the value of an overflowing `ret <<= 1`, because that shift is undefined behaviour in C++.
- Semantics.Run and Machine.Vm.Run: both take a fuel bound on the number of turns. A program that does not terminate is shown by a run that is OutOfFuel for every fuel (Scenarios.MarkJumpSpins).
- The cursor is `unsigned int` in the source and a `nat` here; wrap-around past 2^32 bytes is not modelled.
- Decoder.AssembleDecodes: states the spelling Assemble gives, whose literal is the one EncodeNumber writes (SPACE sign for 0 and above, no leading zero bit). The other spellings `read_number` accepts are covered by Decoder.LiteralDecodes, which this lemma uses for its literal-carrying instructions.
- Decoder.AssembleStackOp: states the spelling Assemble gives, like Decoder.AssembleDecodes; for Push spelled any other way, Decoder.LiteralDecodes.
- Decoder.AssembleFlow: states the spelling Assemble gives, like Decoder.AssembleDecodes; for labels spelled any other way, Decoder.LiteralDecodes.
- Decoder.UnfinishedPrefix: states proper prefixes of the spelling Assemble gives, like Decoder.AssembleDecodes; for a cut literal spelled any other way, Decoder.LiteralPrefixUnfinished.
- Properties.StepSeesOnlyTokens: this covers only stack, arithmetic, heap and I/O instructions. For flow control the state itself holds raw buffer positions (labels, return positions), so the two runs differ in more than the cursor. The decoder's own transparency (Decoder.CommentTransparency) does cover flow control except LF LF, where the source reads the raw byte after the second LF.

## Behaviour worth knowing

- **Dup, Swap, Discard leaves the stack as it was.** Swap exchanges two
  equal copies, and Discard then removes the copy (Properties.DupSwapDiscard).
- **Store directly followed by Load uses the stored value as its address.**
  Store leaves address and value on the stack with the value on top, so Load
  takes the value as its address (Properties.StoreThenLoad). The stored value
  comes back only after a Discard (Properties.StoreDiscardLoad).
- **A jump to a label never marked goes to position 0.** `labels[label]`
  inserts the label with position 0 (Properties.UndefinedLabel).
- **`label l; jump l; halt` never ends.** The Jump lands on itself and the
  loop goes on for every fuel (Scenarios.MarkJumpSpins).
