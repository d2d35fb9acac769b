/** The interpreter as the source runs it: one object owning the program
    buffer, the cursor and the state `main` keeps in local containers (the
    operand stack, the heap vector, the call stack, the label map), plus the
    input still unread and the output written. `Step` is one turn of
    `while(pr[p])`, `Run` the loop itself; both are proved to do what the
    functions of Semantics describe. */
module Machine {
  import opened Base
  import opened Scanner
  import opened Numbers
  import opened Decoder
  import opened Semantics

  class Vm {
    const prog: seq<char>
    var p: nat
    var stack: seq<int>
    const heap: array<int>
    var calls: seq<nat>
    var labels: map<int, nat>
    var input: seq<int>
    var output: seq<Event>

    /** The machine's state as a value. */
    function Value(): State
      reads this, heap
    {
      State(p, stack, heap[..], calls, labels, input, output)
    }

    ghost predicate Valid()
      reads this, heap
    {
      Wf(prog, Value())
    }

    /** The machine's state now is what `r` says executing an instruction
        from `before` gives: the new state, or `before` and the error. */
    ghost predicate Performed(o: Outcome, r: Result<State>, before: State)
      reads this, heap
    {
      match r
      case Err(e) => o == Failed(e) && Value() == before
      case Ok(t) => o == Running && Value() == t
    }

    /** Lines 122-133: a zero-filled heap, empty stacks and labels, cursor 0. */
    constructor (prog: seq<char>, input: seq<int>)
      requires Program(prog) && AllInt32(input)
      ensures Valid() && this.prog == prog && fresh(heap)
      ensures Value() == Initial(input)
    {
      this.prog := prog;
      p := 0;
      stack := [];
      heap := new int[HeapSize](_ => 0);
      calls := [];
      labels := map[];
      this.input := input;
      output := [];
      new;
      assert heap[..] == seq(HeapSize, _ => 0);
    }

    /** Stack manipulation, lines 138-165. */
    method ExecuteStack(i: Instr, next: nat) returns (o: Outcome)
      requires Valid() && next < |prog| && OperandFits(i) && IsStackOp(i)
      modifies this
      ensures Valid() && Performed(o, ExecStack(prog, i, next, old(Value())), old(Value()))
    {
      var n := |stack|;
      if n < Needs(i) {
        return Failed(StackUnderflow);
      }
      if i.Push? {
        stack := stack + [i.n];
      } else if i.Dup? {
        var a := stack[n - 1];
        stack := stack + [a];
      } else if i.Swap? {
        var a := stack[n - 1];
        stack := stack[..n - 1];
        var b := stack[n - 2];
        stack := stack[..n - 2] + [a];
        stack := stack + [b];
      } else {
        stack := stack[..n - 1];
      }
      p := next;
      return Running;
    }

    /** Arithmetic, lines 175-214: pop `y`, then the new top `x` becomes
        `x op y`. */
    method ExecuteArith(i: Instr, next: nat) returns (o: Outcome)
      requires Valid() && next < |prog| && IsArith(i)
      modifies this
      ensures Valid() && Performed(o, ExecArith(prog, i, next, old(Value())), old(Value()))
    {
      var n := |stack|;
      if n < 2 {
        return Failed(StackUnderflow);
      }
      var v := ArithValue(i, stack[n - 2], stack[n - 1]);
      if v.Err? {
        return Failed(v.error);
      }
      stack := stack[..n - 1];
      stack := stack[..n - 2] + [v.value];
      p := next;
      return Running;
    }

    /** Heap access, lines 223-236, writing the heap vector in place. */
    method ExecuteHeap(i: Instr, next: nat) returns (o: Outcome)
      requires Valid() && next < |prog| && IsHeapOp(i)
      modifies this, heap
      ensures Valid() && Performed(o, ExecHeap(prog, i, next, old(Value())), old(Value()))
    {
      var n := |stack|;
      if n < Needs(i) {
        return Failed(StackUnderflow);
      }
      if i.Store? {
        var val := stack[n - 1];
        var a := stack[n - 2];
        if !InHeap(a) {
          return Failed(HeapOutOfRange(a));
        }
        heap[a] := val;
      } else {
        var a := stack[n - 1];
        if !InHeap(a) {
          return Failed(HeapOutOfRange(a));
        }
        var val := heap[a];
        stack := stack + [val];
      }
      p := next;
      return Running;
    }

    /** I/O, lines 243-268: output is appended to the trace, reads take the
        next input value. */
    method ExecuteIo(i: Instr, next: nat) returns (o: Outcome)
      requires Valid() && next < |prog| && IsIo(i)
      modifies this, heap
      ensures Valid() && Performed(o, ExecIo(prog, i, next, old(Value())), old(Value()))
    {
      var n := |stack|;
      if n < 1 {
        return Failed(StackUnderflow);
      }
      var top := stack[n - 1];
      if i.PrintChar? {
        output := output + [CharOut(top % 256)];
      } else if i.PrintNum? {
        output := output + [NumOut(top)];
      } else {
        if !InHeap(top) {
          return Failed(HeapOutOfRange(top));
        }
        if input != [] {
          heap[top] := input[0];
          input := input[1..];
        } else if i.ReadChar? {
          heap[top] := -1;
        }
      }
      p := next;
      return Running;
    }

    /** `p = labels[label]`, inserting 0 for a label never marked. */
    method JumpToLabel(l: int)
      requires Valid()
      modifies this
      ensures Valid() && Value() == JumpTo(prog, old(Value()), l)
    {
      if l !in labels {
        labels := labels[l := 0];
      }
      p := labels[l];
    }

    /** Flow control, lines 280-318. */
    method ExecuteFlow(i: Instr, next: nat) returns (o: Outcome)
      requires Valid() && next < |prog|
      requires !IsStackOp(i) && !IsArith(i) && !IsHeapOp(i) && !IsIo(i)
      modifies this
      ensures Valid() && Performed(o, ExecFlow(prog, i, next, old(Value())), old(Value()))
    {
      o := Running;
      match i
      case Mark(l) =>
        labels := labels[l := next];
        p := next;
      case Call(l) =>
        calls := calls + [next];
        JumpToLabel(l);
      case Jump(l) =>
        JumpToLabel(l);
      case JumpZero(l) =>
        if |stack| < 1 {
          return Failed(StackUnderflow);
        }
        if stack[|stack| - 1] == 0 {
          JumpToLabel(l);
        } else {
          p := next;
        }
      case JumpNeg(l) =>
        if |stack| < 1 {
          return Failed(StackUnderflow);
        }
        if stack[|stack| - 1] < 0 {
          JumpToLabel(l);
        } else {
          p := next;
        }
      case Return =>
        if calls == [] {
          return Failed(CallStackEmpty);
        }
        p := calls[|calls| - 1];
        calls := calls[..|calls| - 1];
      case Halt =>
    }

    /** Executes a decoded instruction. */
    method Execute(i: Instr, next: nat) returns (o: Outcome)
      requires Valid() && next < |prog| && OperandFits(i)
      modifies this, heap
      ensures Valid() && Performed(o, Exec(prog, i, next, old(Value())), old(Value()))
    {
      if IsStackOp(i) {
        o := ExecuteStack(i, next);
      } else if IsArith(i) {
        o := ExecuteArith(i, next);
      } else if IsHeapOp(i) {
        o := ExecuteHeap(i, next);
      } else if IsIo(i) {
        o := ExecuteIo(i, next);
      } else {
        o := ExecuteFlow(i, next);
      }
    }

    /** One turn of the main loop (lines 134-327): decode the instruction
        at the cursor, execute it, then skip a comment the cursor landed
        on. */
    method Step() returns (o: Outcome)
      requires Valid() && prog[p] != NUL
      modifies this, heap
      ensures Valid()
      ensures (o, Value()) == Semantics.Step(prog, old(Value()))
    {
      if !IsToken(prog[p]) {
        var q, _ := FindNextWhiteChar(prog, p);
        p := q;
        return Running;
      }
      var r := DecodeInstruction(prog, p);
      o := FinishTurn(r);
    }

    /** The turn once the instruction at the cursor is decoded as `r`. */
    method FinishTurn(r: Result<Decoded>) returns (o: Outcome)
      requires Valid() && WellDecoded(prog, p, r)
      modifies this, heap
      ensures Valid()
      ensures (o, Value()) == Finish(prog, old(Value()), r)
    {
      if r.Err? {
        return Failed(r.error);
      }
      var d := r.value;
      if d.instr.Halt? {
        return Halted;
      }
      ghost var before := Value();
      o := Execute(d.instr, d.next);
      ghost var e := Exec(prog, d.instr, d.next, before);
      assert Finish(prog, before, r) == Resume(prog, before, e);
      if o.Running? && !IsStop(prog[p]) {
        var q, _ := FindNextWhiteChar(prog, p);
        p := q;
      }
    }

    /** The main loop, for at most `fuel` turns. */
    method Run(fuel: nat) returns (o: Outcome)
      requires Valid()
      modifies this, heap
      ensures Valid()
      ensures (o, Value()) == Semantics.Run(prog, old(Value()), fuel)
    {
      ghost var goal := Semantics.Run(prog, Value(), fuel);
      var f := fuel;
      o := Running;
      while o.Running?
        invariant Valid()
        invariant o.Running? ==> goal == Semantics.Run(prog, Value(), f)
        invariant !o.Running? ==> goal == (o, Value())
        decreases f + if o.Running? then 1 else 0
      {
        o, f := Next(goal, f);
      }
    }

    /** One test of the loop condition and, when it holds, one turn: Running
        when the loop goes on with `f'` turns left, otherwise how the run
        ends. */
    method Next(ghost goal: (Outcome, State), f: nat) returns (o: Outcome, f': nat)
      requires Valid() && goal == Semantics.Run(prog, Value(), f)
      modifies this, heap
      ensures Valid() && f' <= f
      ensures o.Running? ==> f' < f && goal == Semantics.Run(prog, Value(), f')
      ensures !o.Running? ==> goal == (o, Value())
    {
      if prog[p] == NUL || f == 0 {
        o := Stop(goal, f);
        f' := f;
      } else {
        f' := Spend(f);
        o := Turn(goal, f);
      }
    }

    /** The loop condition fails: the run ends here, at NUL or out of fuel. */
    method Stop(ghost goal: (Outcome, State), f: nat) returns (o: Outcome)
      requires Valid() && (prog[p] == NUL || f == 0) && goal == Semantics.Run(prog, Value(), f)
      ensures o == (if prog[p] == NUL then Ended else OutOfFuel)
      ensures goal == (o, Value())
    {
      RunStops(prog, Value(), f);
      o := if prog[p] == NUL then Ended else OutOfFuel;
    }

    /** One turn of the loop, with what it means for the run as a whole. */
    method Turn(ghost goal: (Outcome, State), f: nat) returns (o: Outcome)
      requires Valid() && prog[p] != NUL && f > 0 && goal == Semantics.Run(prog, Value(), f)
      modifies this, heap
      ensures Valid()
      ensures o.Running? ==> goal == Semantics.Run(prog, Value(), Spend(f))
      ensures !o.Running? ==> goal == (o, Value())
    {
      ghost var before := Value();
      o := Step();
      RunAfterStep(prog, before, f, o, Value());
    }
  }
}
