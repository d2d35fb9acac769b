/** Whole runs of small programs, from the initial state: the step lemmas
    composed over the main loop. Every program is given by its token stream
    only, so each statement holds whatever comment bytes the file has
    around and between its tokens. */
module Scenarios {
  import opened Base
  import opened Scanner
  import opened Numbers
  import opened Decoder
  import opened Semantics
  import opened Properties

  /** The initial state is one the interpreter can be in. */
  lemma InitialWf(prog: seq<char>, input: seq<int>)
    requires Program(prog) && AllInt32(input)
    ensures Wf(prog, Initial(input))
  {
    var s := Initial(input);
    assert forall a :: 0 <= a < |s.heap| ==> Int32(s.heap[a]);
  }

  /** Before the first instruction: a leading comment costs one turn and
      moves the cursor, without changing anything else, onto the first
      token. */
  lemma ToFirstToken(prog: seq<char>, s: State, fuel: nat) returns (t: State, f: nat)
    requires Wf(prog, s) && TokensFrom(prog, s.p) != [] && fuel > 0
    ensures Wf(prog, t) && TokenAt(prog, t.p) && t == s.(p := t.p)
    ensures TokensFrom(prog, t.p) == TokensFrom(prog, s.p)
    ensures fuel - 1 <= f <= fuel
    ensures Run(prog, s, fuel) == Run(prog, t, f)
  {
    if IsToken(prog[s.p]) {
      t, f := s, fuel;
    } else {
      assert prog[s.p] != NUL;
      StepAtComment(prog, s);
      var (o, u) := Step(prog, s);
      RunAfterStep(prog, s, fuel, o, u);
      t, f := u, Spend(fuel);
      assert TokensFrom(prog, t.p) != [];
    }
  }

  /** One turn of a run at an instruction's spelling: the instruction is
      executed with its cursor `next` where the rest of the stream begins
      (except for Return, whose cursor the call stack replaces); an error ends the run with the state unchanged, otherwise the run
      goes on with one turn less. */
  lemma RunAssembled(prog: seq<char>, s: State, i: Instr, rest: seq<char>, fuel: nat)
    returns (next: nat)
    requires Wf(prog, s) && TokenAt(prog, s.p) && i != Halt && OperandFits(i) && fuel > 0
    requires TokensFrom(prog, s.p) == Assemble(i) + rest
    ensures next < |prog| && IsStop(prog[next])
    ensures i != Return ==> TokensFrom(prog, next) == rest
    ensures Run(prog, s, fuel) ==
      var r := Exec(prog, i, next, s);
      if r.Err? then (Failed(r.error), s) else Run(prog, r.value.(p := Skip(prog, r.value.p)), Spend(fuel))
  {
    next := StepAssembled(prog, s, i, rest);
    var (o, t) := Step(prog, s);
    RunAfterStep(prog, s, fuel, o, t);
  }

  /** A cursor at a stop byte with tokens after it is at a token; with none
      after it, it is at the terminating NUL. */
  lemma StopKind(prog: seq<char>, p: nat)
    requires Program(prog) && p < |prog| && IsStop(prog[p])
    ensures TokensFrom(prog, p) != [] <==> TokenAt(prog, p)
    ensures TokensFrom(prog, p) == [] <==> prog[p] == NUL
  {
  }

  /** A run through Push n: the value goes on the stack and the run goes on
      from where the rest of the stream begins. */
  lemma PushTurn(prog: seq<char>, s: State, n: int, rest: seq<char>, fuel: nat) returns (t: State)
    requires Wf(prog, s) && TokenAt(prog, s.p) && LiteralFits(n) && fuel > 0
    requires TokensFrom(prog, s.p) == Assemble(Push(n)) + rest
    ensures Wf(prog, t) && t == s.(p := t.p, stack := s.stack + [n])
    ensures TokensFrom(prog, t.p) == rest
    ensures rest != [] ==> TokenAt(prog, t.p)
    ensures rest == [] ==> prog[t.p] == NUL
    ensures Run(prog, s, fuel) == Run(prog, t, Spend(fuel))
  {
    var next := RunAssembled(prog, s, Push(n), rest, fuel);
    PushEffect(prog, s, next, n);
    t := s.(p := next, stack := s.stack + [n]);
    assert Exec(prog, Push(n), next, s) == Ok(t);
    StopKind(prog, next);
  }

  /** A run through an arithmetic instruction whose result is defined: the
      two operands are replaced by the result. */
  lemma ArithTurn(prog: seq<char>, s: State, op: Instr, rest: seq<char>, fuel: nat) returns (t: State)
    requires Wf(prog, s) && TokenAt(prog, s.p) && IsArith(op) && fuel > 0
    requires TokensFrom(prog, s.p) == Assemble(op) + rest
    requires |s.stack| >= 2 && ArithValue(op, s.stack[|s.stack| - 2], s.stack[|s.stack| - 1]).Ok?
    ensures var n := |s.stack|;
      Wf(prog, t) && t == s.(p := t.p, stack := s.stack[..n - 2] +
        [ArithValue(op, s.stack[n - 2], s.stack[n - 1]).value])
    ensures TokensFrom(prog, t.p) == rest
    ensures rest != [] ==> TokenAt(prog, t.p)
    ensures rest == [] ==> prog[t.p] == NUL
    ensures Run(prog, s, fuel) == Run(prog, t, Spend(fuel))
  {
    var next := RunAssembled(prog, s, op, rest, fuel);
    ArithEffect(prog, s, next, op);
    var n := |s.stack|;
    t := s.(p := next, stack := s.stack[..n - 2] + [ArithValue(op, s.stack[n - 2], s.stack[n - 1]).value]);
    assert Exec(prog, op, next, s) == Ok(t);
    StopKind(prog, next);
  }

  /** A run through PrintNum: the top is written as a number. */
  lemma PrintNumTurn(prog: seq<char>, s: State, rest: seq<char>, fuel: nat) returns (t: State)
    requires Wf(prog, s) && TokenAt(prog, s.p) && fuel > 0 && |s.stack| >= 1
    requires TokensFrom(prog, s.p) == Assemble(PrintNum) + rest
    ensures Wf(prog, t) && t == s.(p := t.p, output := s.output + [NumOut(s.stack[|s.stack| - 1])])
    ensures TokensFrom(prog, t.p) == rest
    ensures rest != [] ==> TokenAt(prog, t.p)
    ensures rest == [] ==> prog[t.p] == NUL
    ensures Run(prog, s, fuel) == Run(prog, t, Spend(fuel))
  {
    var next := RunAssembled(prog, s, PrintNum, rest, fuel);
    PrintEffect(prog, s, next);
    t := s.(p := next, output := s.output + [NumOut(s.stack[|s.stack| - 1])]);
    assert Exec(prog, PrintNum, next, s) == Ok(t);
    StopKind(prog, next);
  }

  /** A run through Mark l: the label is recorded at the position where the
      rest of the stream begins. */
  lemma MarkTurn(prog: seq<char>, s: State, l: int, rest: seq<char>, fuel: nat) returns (t: State)
    requires Wf(prog, s) && TokenAt(prog, s.p) && LiteralFits(l) && fuel > 0
    requires TokensFrom(prog, s.p) == Assemble(Mark(l)) + rest
    ensures Wf(prog, t) && t == s.(p := t.p, labels := s.labels[l := t.p])
    ensures TokensFrom(prog, t.p) == rest
    ensures rest != [] ==> TokenAt(prog, t.p)
    ensures rest == [] ==> prog[t.p] == NUL
    ensures Run(prog, s, fuel) == Run(prog, t, Spend(fuel))
  {
    var next := RunAssembled(prog, s, Mark(l), rest, fuel);
    MarkRecords(prog, s, next, l);
    t := s.(p := next, labels := s.labels[l := next]);
    assert Exec(prog, Mark(l), next, s) == Ok(t);
    StopKind(prog, next);
  }

  /** Concatenation regrouped to the right, one instruction at a time. */
  lemma Regroup3(a: seq<char>, b: seq<char>, c: seq<char>)
    ensures a + b + c == a + (b + c)
  {
  }

  lemma Regroup4(a: seq<char>, b: seq<char>, c: seq<char>, d: seq<char>)
    ensures a + b + c + d == a + (b + (c + (d + [])))
  {
    assert d + [] == d;
  }

  /** `+ printnum` as the end of a program: the sum of the two values on
      top replaces them and is printed, and the run ends at NUL. */
  lemma AddPrintFrom(prog: seq<char>, s: State, fuel: nat) returns (t: State)
    requires Wf(prog, s) && TokenAt(prog, s.p) && fuel >= 2 && |s.stack| >= 2
    requires TokensFrom(prog, s.p) == Assemble(Add) + (Assemble(PrintNum) + [])
    requires Int32(s.stack[|s.stack| - 2] + s.stack[|s.stack| - 1])
    ensures Run(prog, s, fuel) == (Ended, t)
    ensures var n := |s.stack|; var v := s.stack[n - 2] + s.stack[n - 1];
      t == s.(p := t.p, stack := s.stack[..n - 2] + [v], output := s.output + [NumOut(v)])
  {
    assert |Assemble(PrintNum)| > 0;
    SumFits(s.stack[|s.stack| - 2], s.stack[|s.stack| - 1]);
    var s1 := ArithTurn(prog, s, Add, Assemble(PrintNum) + [], fuel);
    t := PrintNumTurn(prog, s1, [], Spend(fuel));
    RunStops(prog, t, Spend(Spend(fuel)));
  }

  /** `2 + printnum` as the end of a program: 2 is added to the top, the
      sum replaces it and is printed, and the run ends at NUL. */
  lemma PushTwoAddPrintFrom(prog: seq<char>, s: State, fuel: nat) returns (t: State)
    requires Wf(prog, s) && TokenAt(prog, s.p) && fuel >= 3 && |s.stack| >= 1
    requires Int32(s.stack[|s.stack| - 1] + 2)
    requires TokensFrom(prog, s.p) == Assemble(Push(2)) + (Assemble(Add) + (Assemble(PrintNum) + []))
    ensures Run(prog, s, fuel) == (Ended, t)
    ensures var n := |s.stack|; var v := s.stack[n - 1] + 2;
      t == s.(p := t.p, stack := s.stack[..n - 1] + [v], output := s.output + [NumOut(v)])
  {
    assert |Assemble(Add)| > 0;
    var s1 := PushTurn(prog, s, 2, Assemble(Add) + (Assemble(PrintNum) + []), fuel);
    t := AddPrintAfterPush(prog, s, 2, s1, Spend(fuel));
  }

  /** The last two turns of `2 + printnum`, from the state the push left. */
  lemma AddPrintAfterPush(prog: seq<char>, s: State, y: int, s1: State, fuel: nat) returns (t: State)
    requires |s.stack| >= 1 && Int32(s.stack[|s.stack| - 1] + y)
    requires Wf(prog, s1) && s1 == s.(p := s1.p, stack := s.stack + [y])
    requires TokenAt(prog, s1.p) && fuel >= 2
    requires TokensFrom(prog, s1.p) == Assemble(Add) + (Assemble(PrintNum) + [])
    ensures Run(prog, s1, fuel) == (Ended, t)
    ensures var n := |s.stack|; var v := s.stack[n - 1] + y;
      t == s.(p := t.p, stack := s.stack[..n - 1] + [v], output := s.output + [NumOut(v)])
  {
    var n := |s.stack|;
    assert s1.stack[n - 1] == s.stack[n - 1] && s1.stack[n] == y;
    t := AddPrintFrom(prog, s1, fuel);
    PushThenAdd(s, y, s1, t);
  }

  /** Addition is defined exactly when the sum is an int. */
  lemma SumFits(x: int, y: int)
    requires Int32(x + y)
    ensures ArithValue(Add, x, y) == Ok(x + y)
  {
  }

  /** What pushing `y` and then replacing the two values on top by their
      sum and printing it does to a state. */
  lemma PushThenAdd(s: State, y: int, s1: State, t: State)
    requires |s.stack| >= 1 && s1 == s.(p := s1.p, stack := s.stack + [y])
    requires var n := |s1.stack|; var v := s1.stack[n - 2] + s1.stack[n - 1];
      t == s1.(p := t.p, stack := s1.stack[..n - 2] + [v], output := s1.output + [NumOut(v)])
    ensures var n := |s.stack|; var v := s.stack[n - 1] + y;
      t == s.(p := t.p, stack := s.stack[..n - 1] + [v], output := s.output + [NumOut(v)])
  {
    var n := |s.stack|;
    assert s1.stack[..n - 1] == s.stack[..n - 1];
  }

  /** `1 2 + printnum` from the cursor on its first token: four turns end
      the run at NUL with 3 printed and left on the stack. */
  lemma AddAndPrintFrom(prog: seq<char>, s: State, fuel: nat) returns (t: State)
    requires Wf(prog, s) && TokenAt(prog, s.p) && fuel >= 4
    requires TokensFrom(prog, s.p) ==
      Assemble(Push(1)) + (Assemble(Push(2)) + (Assemble(Add) + (Assemble(PrintNum) + [])))
    ensures Run(prog, s, fuel) == (Ended, t)
    ensures t == s.(p := t.p, stack := s.stack + [3], output := s.output + [NumOut(3)])
  {
    assert |Assemble(Push(2))| > 0;
    var s1 := PushTurn(prog, s, 1, Assemble(Push(2)) + (Assemble(Add) + (Assemble(PrintNum) + [])), fuel);
    assert s1.stack[..|s1.stack| - 1] == s.stack;
    t := PushTwoAddPrintFrom(prog, s1, Spend(fuel));
  }

  /** `1 2 + printnum` as a whole program: the run ends at NUL having
      printed 3, with 3 left on the stack and nothing else changed. Five
      turns are enough even when the file starts with a comment. */
  lemma AddAndPrint(prog: seq<char>, input: seq<int>, fuel: nat)
    requires Program(prog) && AllInt32(input) && fuel >= 5
    requires TokensFrom(prog, 0) ==
      Assemble(Push(1)) + Assemble(Push(2)) + Assemble(Add) + Assemble(PrintNum)
    ensures var (o, t) := Run(prog, Initial(input), fuel);
      o == Ended && t.stack == [3] && t.output == [NumOut(3)] &&
      t == Initial(input).(p := t.p, stack := t.stack, output := t.output)
  {
    InitialWf(prog, input);
    Regroup4(Assemble(Push(1)), Assemble(Push(2)), Assemble(Add), Assemble(PrintNum));
    var s0, f0 := ToFirstToken(prog, Initial(input), fuel);
    var t := AddAndPrintFrom(prog, s0, f0);
  }

  /** A program that begins with Return has no call to return from: the
      first instruction ends the run with CallStackEmpty and the initial
      state. */
  lemma ReturnFirst(prog: seq<char>, input: seq<int>, rest: seq<char>, fuel: nat)
    requires Program(prog) && AllInt32(input) && fuel >= 2
    requires TokensFrom(prog, 0) == Assemble(Return) + rest
    ensures var (o, t) := Run(prog, Initial(input), fuel);
      o == Failed(CallStackEmpty) && t == Initial(input).(p := t.p)
  {
    InitialWf(prog, input);
    var s0, f0 := ToFirstToken(prog, Initial(input), fuel);
    var n := RunAssembled(prog, s0, Return, rest, f0);
    ReturnWithoutCall(prog, s0, n);
  }

  /** A Jump to a label recorded at its own first token leaves the state as
      it is, so the run spins until the fuel is gone. */
  lemma {:induction false} JumpToItself(prog: seq<char>, s: State, l: int, rest: seq<char>, fuel: nat)
    requires Wf(prog, s) && TokenAt(prog, s.p) && LiteralFits(l)
    requires TokensFrom(prog, s.p) == Assemble(Jump(l)) + rest
    requires l in s.labels && s.labels[l] == s.p
    ensures Run(prog, s, fuel) == (OutOfFuel, s)
    decreases fuel
  {
    if fuel == 0 {
      RunStops(prog, s, fuel);
    } else {
      var next := RunAssembled(prog, s, Jump(l), rest, fuel);
      assert Exec(prog, Jump(l), next, s) == ExecFlow(prog, Jump(l), next, s) == Ok(s);
      JumpToItself(prog, s, l, rest, Spend(fuel));
    }
  }

  /** `label l; jump l` from the cursor on its first token: whatever the
      fuel, the run spins with only the label recorded. */
  lemma MarkJumpFrom(prog: seq<char>, s: State, l: int, rest: seq<char>, fuel: nat)
    requires Wf(prog, s) && TokenAt(prog, s.p) && LiteralFits(l)
    requires TokensFrom(prog, s.p) == Assemble(Mark(l)) + (Assemble(Jump(l)) + rest)
    ensures var (o, t) := Run(prog, s, fuel);
      o == OutOfFuel && t == s.(p := t.p, labels := t.labels)
  {
    if fuel == 0 {
      RunStops(prog, s, fuel);
    } else {
      assert |Assemble(Jump(l))| >= 3;
      var s1 := MarkTurn(prog, s, l, Assemble(Jump(l)) + rest, fuel);
      JumpToItself(prog, s1, l, rest, Spend(fuel));
    }
  }

  /** `label l; jump l` is an endless loop: whatever the fuel, the run
      never ends, halts or fails, and nothing is ever written. */
  lemma MarkJumpSpins(prog: seq<char>, input: seq<int>, l: int, rest: seq<char>, fuel: nat)
    requires Program(prog) && AllInt32(input) && LiteralFits(l)
    requires TokensFrom(prog, 0) == Assemble(Mark(l)) + Assemble(Jump(l)) + rest
    ensures var (o, t) := Run(prog, Initial(input), fuel);
      o == OutOfFuel && t.output == [] && t.stack == [] && t.input == input
  {
    InitialWf(prog, input);
    if fuel == 0 {
      RunStops(prog, Initial(input), fuel);
    } else {
      Regroup3(Assemble(Mark(l)), Assemble(Jump(l)), rest);
      var s0, f0 := ToFirstToken(prog, Initial(input), fuel);
      MarkJumpFrom(prog, s0, l, rest, f0);
    }
  }
}
