/** What each instruction does to the machine, instruction by instruction
    and for some short sequences of instructions (Push then Discard; Dup,
    Swap, Discard; Store then Load), and how one turn of the loop relates to
    an instruction's spelling. */
module Properties {
  import opened Base
  import opened Scanner
  import opened Numbers
  import opened Decoder
  import opened Semantics

  // ---------------------------------------------------------------- stack

  /** Push puts the literal on top and leaves everything below alone. */
  lemma PushEffect(prog: seq<char>, s: State, next: nat, n: int)
    requires Wf(prog, s) && next < |prog| && LiteralFits(n)
    ensures var r := Exec(prog, Push(n), next, s);
      r.Ok? && |r.value.stack| == |s.stack| + 1 &&
      r.value.stack[..|s.stack|] == s.stack && r.value.stack[|s.stack|] == n &&
      r.value == s.(p := next, stack := r.value.stack)
  {
  }

  /** Duplicate pushes a copy of the top; it needs a top. */
  lemma DupEffect(prog: seq<char>, s: State, next: nat)
    requires Wf(prog, s) && next < |prog|
    ensures var r := Exec(prog, Dup, next, s);
      (r.Err? <==> s.stack == []) &&
      (r.Ok? ==> |r.value.stack| == |s.stack| + 1 && r.value.stack[..|s.stack|] == s.stack &&
                 r.value.stack[|s.stack|] == s.stack[|s.stack| - 1] &&
                 r.value == s.(p := next, stack := r.value.stack))
  {
  }

  /** Swap turns [.., b, a] into [.., a, b]; it needs two elements. */
  lemma SwapEffect(prog: seq<char>, s: State, next: nat)
    requires Wf(prog, s) && next < |prog|
    ensures var r := Exec(prog, Swap, next, s); var n := |s.stack|;
      (r.Err? <==> n < 2) &&
      (r.Ok? ==> |r.value.stack| == n && r.value.stack[..n - 2] == s.stack[..n - 2] &&
                 r.value.stack[n - 2] == s.stack[n - 1] && r.value.stack[n - 1] == s.stack[n - 2] &&
                 r.value == s.(p := next, stack := r.value.stack))
  {
  }

  /** Discard removes the top; it needs a top. */
  lemma DiscardEffect(prog: seq<char>, s: State, next: nat)
    requires Wf(prog, s) && next < |prog|
    ensures var r := Exec(prog, Discard, next, s);
      (r.Err? <==> s.stack == []) &&
      (r.Ok? ==> r.value.stack == s.stack[..|s.stack| - 1] &&
                 r.value == s.(p := next, stack := r.value.stack))
  {
  }

  /** Push followed by Discard restores the stack, whatever was on it. */
  lemma PushThenDiscard(prog: seq<char>, s: State, n: int, a: nat, b: nat)
    requires Wf(prog, s) && a < |prog| && b < |prog| && LiteralFits(n)
    ensures Exec(prog, Push(n), a, s).Ok?
    ensures Exec(prog, Discard, b, Exec(prog, Push(n), a, s).value) == Ok(s.(p := b))
  {
    var t := Exec(prog, Push(n), a, s).value;
    assert t.stack[..|t.stack| - 1] == s.stack;
  }

  /** Swap of two equal top elements changes nothing but the cursor. */
  lemma SwapEqualTop(prog: seq<char>, t: State, b: nat)
    requires Wf(prog, t) && b < |prog| && |t.stack| >= 2
    requires t.stack[|t.stack| - 1] == t.stack[|t.stack| - 2]
    ensures Exec(prog, Swap, b, t) == Ok(t.(p := b))
  {
    var n := |t.stack|;
    assert Exec(prog, Swap, b, t) == ExecStack(prog, Swap, b, t);
    assert t.stack[..n - 2] + [t.stack[n - 1], t.stack[n - 2]] == t.stack;
  }

  /** Duplicate, Swap, Discard: Swap exchanges two equal copies, so Discard
      removes the duplicate again and the machine is as before the three. */
  lemma DupSwapDiscard(prog: seq<char>, s: State, a: nat, b: nat, c: nat)
    requires Wf(prog, s) && a < |prog| && b < |prog| && c < |prog| && s.stack != []
    ensures Exec(prog, Dup, a, s).Ok?
    ensures var t1 := Exec(prog, Dup, a, s).value;
      Exec(prog, Swap, b, t1) == Ok(t1.(p := b)) &&
      Exec(prog, Discard, c, t1.(p := b)) == Ok(s.(p := c))
  {
    var t1 := s.(p := a, stack := s.stack + [s.stack[|s.stack| - 1]]);
    assert Exec(prog, Dup, a, s) == ExecStack(prog, Dup, a, s) == Ok(t1);
    SwapEqualTop(prog, t1, b);
    var t2 := t1.(p := b);
    assert t2.stack[..|t2.stack| - 1] == s.stack;
    assert Exec(prog, Discard, c, t2) == ExecStack(prog, Discard, c, t2);
  }

  // ----------------------------------------------------------- arithmetic

  /** Add, Sub, Mul, Div and Mod turn [.., x, y] into [.., x op y] when
      `x op y` is defined on ints, and fail as ArithValue does otherwise. */
  lemma ArithEffect(prog: seq<char>, s: State, next: nat, op: Instr)
    requires Wf(prog, s) && next < |prog| && IsArith(op) && |s.stack| >= 2
    ensures var n := |s.stack|; var v := ArithValue(op, s.stack[n - 2], s.stack[n - 1]);
      var r := Exec(prog, op, next, s);
      (r.Ok? <==> v.Ok?) &&
      (v.Err? ==> r == Err(v.error)) &&
      (v.Ok? ==> r.value.stack == s.stack[..n - 2] + [v.value] &&
                 r.value == s.(p := next, stack := r.value.stack))
  {
  }

  /** Division and remainder round toward zero: -7 / 2 on the stack gives -3
      and -7 % 2 gives -1. */
  lemma DivModRoundTowardZero(prog: seq<char>, s: State, next: nat)
    requires Wf(prog, s) && next < |prog| && s.stack == [-7, 2]
    ensures Exec(prog, Div, next, s) == Ok(s.(p := next, stack := [-3]))
    ensures Exec(prog, Mod, next, s) == Ok(s.(p := next, stack := [-1]))
  {
    TruncExamples();
  }

  /** The one `int` quotient that overflows: INT_MIN / -1, and with it
      INT_MIN % -1, are reported. */
  lemma QuotientOverflow(prog: seq<char>, s: State, next: nat, op: Instr)
    requires Wf(prog, s) && next < |prog| && (op == Div || op == Mod)
    requires s.stack == [-0x8000_0000, -1]
    ensures Exec(prog, op, next, s) == Err(Overflow)
  {
    assert TruncDiv(-0x8000_0000, -1) == 0x8000_0000;
  }

  // ----------------------------------------------------------------- heap

  /** Store writes the top into the slot the element below it addresses,
      and changes no other slot and not the stack. */
  lemma StoreEffect(prog: seq<char>, s: State, next: nat)
    requires Wf(prog, s) && next < |prog| && |s.stack| >= 2
    ensures var n := |s.stack|; var a := s.stack[n - 2]; var r := Exec(prog, Store, next, s);
      (!InHeap(a) ==> r == Err(HeapOutOfRange(a))) &&
      (InHeap(a) ==> r.Ok? && r.value.stack == s.stack && |r.value.heap| == HeapSize &&
                     r.value.heap[a] == s.stack[n - 1] &&
                     (forall k :: 0 <= k < HeapSize && k != a ==> r.value.heap[k] == s.heap[k]) &&
                     r.value == s.(p := next, heap := r.value.heap))
  {
    var n := |s.stack|;
    var a := s.stack[n - 2];
    assert Exec(prog, Store, next, s) == ExecHeap(prog, Store, next, s);
    if InHeap(a) {
      assert ExecHeap(prog, Store, next, s) == Ok(s.(p := next, heap := s.heap[a := s.stack[n - 1]]));
    }
  }

  /** Load keeps the address and pushes the slot it addresses. */
  lemma LoadEffect(prog: seq<char>, s: State, next: nat)
    requires Wf(prog, s) && next < |prog| && |s.stack| >= 1
    ensures var n := |s.stack|; var a := s.stack[n - 1]; var r := Exec(prog, Load, next, s);
      (!InHeap(a) ==> r == Err(HeapOutOfRange(a))) &&
      (InHeap(a) ==> r.Ok? && |r.value.stack| == n + 1 && r.value.stack[..n] == s.stack &&
                     r.value.stack[n] == s.heap[a] && r.value == s.(p := next, stack := r.value.stack))
  {
  }

  /** Store, Discard (of the value), Load: the address is back on top and
      Load pushes the value just stored. */
  lemma StoreDiscardLoad(prog: seq<char>, s: State, a1: nat, a2: nat, a3: nat)
    requires Wf(prog, s) && a1 < |prog| && a2 < |prog| && a3 < |prog|
    requires |s.stack| >= 2 && InHeap(s.stack[|s.stack| - 2])
    ensures var n := |s.stack|;
      var t1 := Exec(prog, Store, a1, s);
      t1.Ok? && Exec(prog, Discard, a2, t1.value).Ok? &&
      Exec(prog, Load, a3, Exec(prog, Discard, a2, t1.value).value).Ok? &&
      Exec(prog, Load, a3, Exec(prog, Discard, a2, t1.value).value).value.stack ==
        s.stack[..n - 1] + [s.stack[n - 1]]
  {
    var n := |s.stack|;
    var t1 := Exec(prog, Store, a1, s).value;
    var t2 := Exec(prog, Discard, a2, t1).value;
    assert t2.stack == s.stack[..n - 1];
  }

  /** Store immediately followed by Load: since Store leaves the value on
      top, Load uses the stored value as its address. */
  lemma StoreThenLoad(prog: seq<char>, s: State, a1: nat, a2: nat)
    requires Wf(prog, s) && a1 < |prog| && a2 < |prog|
    requires |s.stack| >= 2 && InHeap(s.stack[|s.stack| - 2]) && InHeap(s.stack[|s.stack| - 1])
    ensures var n := |s.stack|; var a, v := s.stack[n - 2], s.stack[n - 1];
      var t1 := Exec(prog, Store, a1, s);
      t1.Ok? && Exec(prog, Load, a2, t1.value).Ok? &&
      Exec(prog, Load, a2, t1.value).value.stack == s.stack + [if v == a then v else s.heap[v]]
  {
    StoreEffect(prog, s, a1);
    var t1 := Exec(prog, Store, a1, s).value;
    LoadEffect(prog, t1, a2);
  }

  // ------------------------------------------------------------------ I/O

  /** The output instructions append one event for the top and leave the
      stack, the heap and the input alone. */
  lemma PrintEffect(prog: seq<char>, s: State, next: nat)
    requires Wf(prog, s) && next < |prog| && |s.stack| >= 1
    ensures var top := s.stack[|s.stack| - 1];
      Exec(prog, PrintChar, next, s) == Ok(s.(p := next, output := s.output + [CharOut(top % 256)])) &&
      Exec(prog, PrintNum, next, s) == Ok(s.(p := next, output := s.output + [NumOut(top)]))
  {
  }

  /** ReadChar stores the next input value at the address on top, or -1
      once the input is exhausted; the address stays on the stack. */
  lemma ReadCharEffect(prog: seq<char>, s: State, next: nat)
    requires Wf(prog, s) && next < |prog| && |s.stack| >= 1 && InHeap(s.stack[|s.stack| - 1])
    ensures var a := s.stack[|s.stack| - 1]; var r := Exec(prog, ReadChar, next, s);
      r.Ok? && r.value.stack == s.stack && r.value.output == s.output &&
      r.value.heap == s.heap[a := if s.input == [] then -1 else s.input[0]] &&
      r.value.input == (if s.input == [] then [] else s.input[1..])
  {
  }

  /** ReadNum stores the next input value at the address on top; with no
      input left the slot keeps its value. */
  lemma ReadNumEffect(prog: seq<char>, s: State, next: nat)
    requires Wf(prog, s) && next < |prog| && |s.stack| >= 1 && InHeap(s.stack[|s.stack| - 1])
    ensures var a := s.stack[|s.stack| - 1]; var r := Exec(prog, ReadNum, next, s);
      r.Ok? && r.value.stack == s.stack && r.value.output == s.output &&
      (s.input == [] ==> r.value == s.(p := next)) &&
      (s.input != [] ==> r.value.heap == s.heap[a := s.input[0]] && r.value.input == s.input[1..])
  {
  }

  /** The heap-addressing I/O instructions report an address outside the
      heap. */
  lemma ReadOutOfRange(prog: seq<char>, s: State, next: nat, i: Instr)
    requires Wf(prog, s) && next < |prog| && (i == ReadChar || i == ReadNum)
    requires |s.stack| >= 1 && !InHeap(s.stack[|s.stack| - 1])
    ensures Exec(prog, i, next, s) == Err(HeapOutOfRange(s.stack[|s.stack| - 1]))
  {
  }

  // ----------------------------------------------------------------- flow

  /** Mark records the position it was given (where the next instruction
      starts) for its label, overwriting an earlier one. */
  lemma MarkRecords(prog: seq<char>, s: State, next: nat, l: int)
    requires Wf(prog, s) && next < |prog| && LiteralFits(l)
    ensures Exec(prog, Mark(l), next, s) == Ok(s.(p := next, labels := s.labels[l := next]))
  {
  }

  /** A jump to a marked label lands where Mark recorded it. */
  lemma MarkThenJump(prog: seq<char>, s: State, a: nat, b: nat, l: int)
    requires Wf(prog, s) && a < |prog| && b < |prog| && LiteralFits(l)
    ensures Exec(prog, Mark(l), a, s).Ok?
    ensures var t := Exec(prog, Mark(l), a, s).value;
      Exec(prog, Jump(l), b, t) == Ok(t.(p := a))
  {
    MarkRecords(prog, s, a, l);
    var t := s.(p := a, labels := s.labels[l := a]);
    assert Exec(prog, Jump(l), b, t) == ExecFlow(prog, Jump(l), b, t) == Ok(JumpTo(prog, t, l));
    assert JumpTo(prog, t, l) == t.(p := a);
  }

  /** A label never marked resolves to position 0, and is from then on
      recorded at 0. */
  lemma UndefinedLabel(prog: seq<char>, s: State, next: nat, l: int)
    requires Wf(prog, s) && next < |prog| && l !in s.labels && LiteralFits(l)
    ensures Exec(prog, Jump(l), next, s) == Ok(s.(p := 0, labels := s.labels[l := 0]))
    ensures Exec(prog, Call(l), next, s) ==
      Ok(s.(p := 0, labels := s.labels[l := 0], calls := s.calls + [next]))
  {
  }

  /** Call to a marked label goes to the position recorded for it and
      pushes the position after its operand on the call stack; nothing else
      changes. */
  lemma CallEffect(prog: seq<char>, s: State, next: nat, l: int)
    requires Wf(prog, s) && next < |prog| && l in s.labels && LiteralFits(l)
    ensures Exec(prog, Call(l), next, s) == Ok(s.(p := s.labels[l], calls := s.calls + [next]))
  {
  }

  /** The conditional jumps never touch the stack (nor the heap, the calls,
      the I/O); JumpZero moves to the label iff the top is 0, otherwise it
      goes on after its operand. */
  lemma JumpZeroEffect(prog: seq<char>, s: State, next: nat, l: int)
    requires Wf(prog, s) && next < |prog| && |s.stack| >= 1 && LiteralFits(l)
    ensures var r := Exec(prog, JumpZero(l), next, s);
      r.Ok? && r.value == s.(p := r.value.p, labels := r.value.labels) &&
      (s.stack[|s.stack| - 1] == 0 ==> r.value == JumpTo(prog, s, l)) &&
      (s.stack[|s.stack| - 1] != 0 ==> r.value == s.(p := next))
  {
  }

  /** JumpNeg moves to the label iff the top is negative. */
  lemma JumpNegEffect(prog: seq<char>, s: State, next: nat, l: int)
    requires Wf(prog, s) && next < |prog| && |s.stack| >= 1 && LiteralFits(l)
    ensures var r := Exec(prog, JumpNeg(l), next, s);
      r.Ok? && r.value == s.(p := r.value.p, labels := r.value.labels) &&
      (s.stack[|s.stack| - 1] < 0 ==> r.value == JumpTo(prog, s, l)) &&
      (s.stack[|s.stack| - 1] >= 0 ==> r.value == s.(p := next))
  {
  }

  /** Call pushes the position after its operand; a Return executed with
      that call stack, whatever ran in between, resumes there and pops it. */
  lemma CallThenReturn(prog: seq<char>, s: State, next: nat, l: int, u: State, x: nat)
    requires Wf(prog, s) && next < |prog| && LiteralFits(l)
    requires Wf(prog, u) && x < |prog| && u.calls == s.calls + [next]
    ensures Exec(prog, Call(l), next, s).Ok? && Exec(prog, Call(l), next, s).value.calls == u.calls
    ensures Exec(prog, Return, x, u) == Ok(u.(p := next, calls := s.calls))
  {
  }

  /** Return with no pending call is fatal. */
  lemma ReturnWithoutCall(prog: seq<char>, s: State, x: nat)
    requires Wf(prog, s) && x < |prog| && s.calls == []
    ensures Exec(prog, Return, x, s) == Err(CallStackEmpty)
  {
  }

  // ------------------------------------------------------- loop and steps

  /** A cursor on a comment byte only moves, to where the tokens go on. */
  lemma StepAtComment(prog: seq<char>, s: State)
    requires Wf(prog, s) && !IsStop(prog[s.p])
    ensures Step(prog, s).0 == Running
    ensures Step(prog, s).1 == s.(p := Step(prog, s).1.p)
    ensures TokensFrom(prog, Step(prog, s).1.p) == TokensFrom(prog, s.p)
  {
    NextWhiteFromComment(prog, s.p);
  }

  /** One turn at an instruction's spelling (comments anywhere between its
      tokens) executes that instruction with the cursor `next` where the
      rest of the stream begins, except for Return, whose cursor the call
      stack replaces. */
  lemma StepAssembled(prog: seq<char>, s: State, i: Instr, rest: seq<char>) returns (next: nat)
    requires Wf(prog, s) && TokenAt(prog, s.p) && i != Halt && OperandFits(i)
    requires TokensFrom(prog, s.p) == Assemble(i) + rest
    ensures next < |prog| && IsStop(prog[next])
    ensures i != Return ==> TokensFrom(prog, next) == rest
    ensures Step(prog, s) ==
      match Exec(prog, i, next, s)
      case Err(e) => (Failed(e), s)
      case Ok(t) => (Running, t.(p := Skip(prog, t.p)))
  {
    AssembleDecodes(prog, s.p, i, rest);
    next := Decode(prog, s.p).value.next;
  }

  /** LF LF LF at the cursor halts with the state unchanged. */
  lemma StepHalts(prog: seq<char>, s: State, rest: seq<char>)
    requires Wf(prog, s) && TokenAt(prog, s.p)
    requires TokensFrom(prog, s.p) == [LF, LF] + rest
    requires NextToken(prog, s.p).Ok? && prog[NextToken(prog, s.p).value + 1] == LF
    ensures Step(prog, s) == (Halted, s)
  {
    EndOfProgram(prog, s.p, rest);
  }

  predicate IsFlow(i: Instr) {
    !IsStackOp(i) && !IsArith(i) && !IsHeapOp(i) && !IsIo(i)
  }

  /** The first token picks the family: SPACE stack manipulation, TAB
      arithmetic, heap or I/O, LF flow control. */
  lemma DecodeFamily(pr: seq<char>, p: nat)
    requires Program(pr) && TokenAt(pr, p) && Decode(pr, p).Ok?
    ensures pr[p] == SPACE ==> IsStackOp(Decode(pr, p).value.instr)
    ensures pr[p] == TAB ==> (var i := Decode(pr, p).value.instr; IsArith(i) || IsHeapOp(i) || IsIo(i))
    ensures pr[p] == LF ==> IsFlow(Decode(pr, p).value.instr)
  {
    if pr[p] == SPACE {
      assert Decode(pr, p) == DecodeStackOp(pr, p);
    } else if pr[p] == TAB {
      assert Decode(pr, p) == DecodeTabOp(pr, p);
      var q := NextToken(pr, p).value;
      if pr[q] == SPACE {
        assert DecodeTabOp(pr, p) == DecodeArith(pr, p, q);
      } else if pr[q] == LF {
        assert DecodeTabOp(pr, p) == DecodeIo(pr, p, q);
      }
    } else {
      assert Decode(pr, p) == DecodeFlow(pr, p);
      var q := NextToken(pr, p).value;
      if pr[q] == SPACE {
        assert DecodeFlow(pr, p) == DecodeJump(pr, p, q);
      } else if pr[q] == TAB {
        assert DecodeFlow(pr, p) == DecodeBranch(pr, p, q);
      }
    }
  }

  /** Two ends of a turn, in buffers with the same tokens, that the machine
      cannot tell apart: the same outcome (an unexpected character at
      positions from which the same tokens follow), states equal but for
      the cursor, and cursors with the same tokens ahead after a run-on. */
  ghost predicate Alike(prog1: seq<char>, x1: (Outcome, State), prog2: seq<char>, x2: (Outcome, State))
    requires Program(prog1) && Program(prog2) && x1.1.p < |prog1| && x2.1.p < |prog2|
  {
    var (o1, t1) := x1;
    var (o2, t2) := x2;
    (if o1.Failed? && o1.error.UnexpectedChar? then
       o2.Failed? && o2.error.UnexpectedChar? &&
       o1.error.pos < |prog1| && o2.error.pos < |prog2| &&
       SameStream(prog1, o1.error.pos, prog2, o2.error.pos)
     else o1 == o2) &&
    t2 == t1.(p := t2.p) &&
    (o1.Running? ==> SameStream(prog1, t1.p, prog2, t2.p))
  }

  /** The machine cannot tell comment bytes from their absence: at two
      cursors with the same tokens ahead, and otherwise the same state, a
      stack, arithmetic, heap or I/O instruction ends the same way and
      leaves the same state, with the same tokens ahead of both cursors. */
  lemma StepSeesOnlyTokens(prog1: seq<char>, s1: State, prog2: seq<char>, s2: State)
    requires Wf(prog1, s1) && Wf(prog2, s2) && TokenAt(prog1, s1.p) && TokenAt(prog2, s2.p)
    requires SameStream(prog1, s1.p, prog2, s2.p) && prog1[s1.p] != LF
    requires s2 == s1.(p := s2.p)
    ensures Alike(prog1, Step(prog1, s1), prog2, Step(prog2, s2))
  {
    NextTokenSame(prog1, s1.p, prog2, s2.p);
    CommentTransparency(prog1, s1.p, prog2, s2.p);
    var r1, r2 := Decode(prog1, s1.p), Decode(prog2, s2.p);
    if r1.Ok? {
      DecodeFamily(prog1, s1.p);
    }
    FinishSame(prog1, s1, r1, prog2, s2, r2);
    assert Step(prog1, s1) == Finish(prog1, s1, r1);
    assert Step(prog2, s2) == Finish(prog2, s2, r2);
  }

  /** The rest of the turn after two decodings that agree, of anything but
      flow control, from states that differ only in the cursor. */
  lemma FinishSame(prog1: seq<char>, s1: State, r1: Result<Decoded>, prog2: seq<char>, s2: State, r2: Result<Decoded>)
    requires Wf(prog1, s1) && Wf(prog2, s2) && WellDecoded(prog1, s1.p, r1) && WellDecoded(prog2, s2.p, r2)
    requires Agree(prog1, r1, prog2, r2) && (r1.Ok? ==> !IsFlow(r1.value.instr))
    requires s2 == s1.(p := s2.p)
    ensures Alike(prog1, Finish(prog1, s1, r1), prog2, Finish(prog2, s2, r2))
  {
    if r1.Ok? {
      ExecThenSkipSame(prog1, s1, r1.value, prog2, s2, r2.value);
    }
  }

  /** The same for a decoded instruction. */
  lemma ExecThenSkipSame(prog1: seq<char>, s1: State, d1: Decoded, prog2: seq<char>, s2: State, d2: Decoded)
    requires Wf(prog1, s1) && Wf(prog2, s2) && WellDecoded(prog1, s1.p, Ok(d1)) && WellDecoded(prog2, s2.p, Ok(d2))
    requires d1.instr == d2.instr && SameStream(prog1, d1.next, prog2, d2.next) && !IsFlow(d1.instr)
    requires s2 == s1.(p := s2.p)
    ensures Alike(prog1, Finish(prog1, s1, Ok(d1)), prog2, Finish(prog2, s2, Ok(d2)))
  {
    ExecSame(prog1, d1.instr, d1.next, s1, prog2, d2.next, s2);
    var e1, e2 := Exec(prog1, d1.instr, d1.next, s1), Exec(prog2, d2.instr, d2.next, s2);
    ResumeSame(prog1, s1, e1, d1.next, prog2, s2, e2, d2.next);
    assert Finish(prog1, s1, Ok(d1)) == Resume(prog1, s1, e1);
    assert Finish(prog2, s2, Ok(d2)) == Resume(prog2, s2, e2);
  }

  /** The end of the turn after two executions that failed alike or reached
      the same state at cursors with the same tokens ahead. */
  lemma ResumeSame(prog1: seq<char>, s1: State, e1: Result<State>, n1: nat,
                   prog2: seq<char>, s2: State, e2: Result<State>, n2: nat)
    requires Wf(prog1, s1) && (e1.Ok? ==> Wf(prog1, e1.value) && Extends(s1, e1.value))
    requires Wf(prog2, s2) && (e2.Ok? ==> Wf(prog2, e2.value) && Extends(s2, e2.value))
    requires s2 == s1.(p := s2.p) && SameStream(prog1, n1, prog2, n2)
    requires IsStop(prog1[n1]) && IsStop(prog2[n2])
    requires e1.Err? ==> e2 == e1 && !e1.error.UnexpectedChar?
    requires e1.Ok? ==> e2.Ok? && e1.value.p == n1 && e2.value == e1.value.(p := n2)
    ensures Alike(prog1, Resume(prog1, s1, e1), prog2, Resume(prog2, s2, e2))
  {
    if e1.Ok? {
      assert Skip(prog1, n1) == n1;
      assert Skip(prog2, n2) == n2;
    }
  }

  /** A non-flow instruction's effect does not depend on the cursor or the
      buffer: only the cursor differs. */
  lemma ExecSame(prog1: seq<char>, i: Instr, n1: nat, s1: State, prog2: seq<char>, n2: nat, s2: State)
    requires Wf(prog1, s1) && Wf(prog2, s2) && n1 < |prog1| && n2 < |prog2| && OperandFits(i)
    requires s2 == s1.(p := s2.p) && !IsFlow(i)
    ensures var r1, r2 := Exec(prog1, i, n1, s1), Exec(prog2, i, n2, s2);
      (r1.Err? ==> r2 == r1) &&
      (r1.Ok? ==> r2.Ok? && r1.value.p == n1 && r2.value == r1.value.(p := n2))
  {
    if IsStackOp(i) {
      assert Exec(prog1, i, n1, s1) == ExecStack(prog1, i, n1, s1);
      assert Exec(prog2, i, n2, s2) == ExecStack(prog2, i, n2, s2);
      StackSame(prog1, i, n1, s1, prog2, n2, s2);
    } else if IsArith(i) {
      assert Exec(prog1, i, n1, s1) == ExecArith(prog1, i, n1, s1);
      assert Exec(prog2, i, n2, s2) == ExecArith(prog2, i, n2, s2);
      ArithSame(prog1, i, n1, s1, prog2, n2, s2);
    } else if IsHeapOp(i) {
      assert Exec(prog1, i, n1, s1) == ExecHeap(prog1, i, n1, s1);
      assert Exec(prog2, i, n2, s2) == ExecHeap(prog2, i, n2, s2);
      HeapSame(prog1, i, n1, s1, prog2, n2, s2);
    } else {
      assert Exec(prog1, i, n1, s1) == ExecIo(prog1, i, n1, s1);
      assert Exec(prog2, i, n2, s2) == ExecIo(prog2, i, n2, s2);
      IoSame(prog1, i, n1, s1, prog2, n2, s2);
    }
  }

  /** Two executions that fail alike, or end in states differing only in the
      cursor, each at the position given. */
  predicate SameEffect(r1: Result<State>, n1: nat, r2: Result<State>, n2: nat) {
    (r1.Err? ==> r2 == r1) &&
    (r1.Ok? ==> r2.Ok? && r1.value.p == n1 && r2.value == r1.value.(p := n2))
  }

  lemma StackSame(prog1: seq<char>, i: Instr, n1: nat, s1: State, prog2: seq<char>, n2: nat, s2: State)
    requires Wf(prog1, s1) && Wf(prog2, s2) && n1 < |prog1| && n2 < |prog2| && OperandFits(i)
    requires s2 == s1.(p := s2.p) && IsStackOp(i)
    ensures SameEffect(ExecStack(prog1, i, n1, s1), n1, ExecStack(prog2, i, n2, s2), n2)
  {
  }

  lemma ArithSame(prog1: seq<char>, i: Instr, n1: nat, s1: State, prog2: seq<char>, n2: nat, s2: State)
    requires Wf(prog1, s1) && Wf(prog2, s2) && n1 < |prog1| && n2 < |prog2|
    requires s2 == s1.(p := s2.p) && IsArith(i)
    ensures SameEffect(ExecArith(prog1, i, n1, s1), n1, ExecArith(prog2, i, n2, s2), n2)
  {
  }

  lemma HeapSame(prog1: seq<char>, i: Instr, n1: nat, s1: State, prog2: seq<char>, n2: nat, s2: State)
    requires Wf(prog1, s1) && Wf(prog2, s2) && n1 < |prog1| && n2 < |prog2|
    requires s2 == s1.(p := s2.p) && IsHeapOp(i)
    ensures SameEffect(ExecHeap(prog1, i, n1, s1), n1, ExecHeap(prog2, i, n2, s2), n2)
  {
  }

  lemma IoSame(prog1: seq<char>, i: Instr, n1: nat, s1: State, prog2: seq<char>, n2: nat, s2: State)
    requires Wf(prog1, s1) && Wf(prog2, s2) && n1 < |prog1| && n2 < |prog2|
    requires s2 == s1.(p := s2.p) && IsIo(i)
    ensures SameEffect(ExecIo(prog1, i, n1, s1), n1, ExecIo(prog2, i, n2, s2), n2)
  {
  }
}
