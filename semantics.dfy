/** The machine the main loop drives, as values: the operand stack, the heap,
    the call stack and the label table, with one function per instruction
    family for its effect, `Step` for one turn of `while(pr[p])` and `Run`
    for a bounded number of turns. */
module Semantics {
  import opened Base
  import opened Scanner
  import opened Numbers
  import opened Decoder

  /** What the program writes: `putchar` of a byte, `printf("%d")` of an int. */
  datatype Event = CharOut(c: int) | NumOut(n: int)

  /** The interpreter's state: cursor, operand stack (top last), heap, call
      stack of return positions (top last), label table, the input still
      unread and the output written so far. */
  datatype State = State(
    p: nat,
    stack: seq<int>,
    heap: seq<int>,
    calls: seq<nat>,
    labels: map<int, nat>,
    input: seq<int>,
    output: seq<Event>)

  /** How a turn of the loop, or a run, ends. */
  datatype Outcome = Running | Halted | Ended | OutOfFuel | Failed(error: Error)

  /** The state the interpreter starts in: cursor 0, empty stacks and labels,
      a zero-filled heap of HeapSize slots. */
  function Initial(input: seq<int>): (s: State)
    ensures s.p == 0 && s.stack == [] && s.calls == [] && s.labels == map[]
    ensures |s.heap| == HeapSize && forall a :: 0 <= a < |s.heap| ==> s.heap[a] == 0
  {
    State(0, [], seq(HeapSize, _ => 0), [], map[], input, [])
  }

  /** States the interpreter can be in: positions inside the buffer, a heap
      of HeapSize slots and only C++ `int` values. */
  predicate Wf(prog: seq<char>, s: State) {
    Program(prog) && s.p < |prog| && |s.heap| == HeapSize &&
    AllInt32(s.stack) && AllInt32(s.heap) && AllInt32(s.input) &&
    (forall k :: 0 <= k < |s.calls| ==> s.calls[k] < |prog|) &&
    (forall l :: l in s.labels ==> s.labels[l] < |prog|)
  }

  /** `t` comes from `s` by reading a prefix of the input and writing more
      output after what was written. */
  predicate Extends(s: State, t: State) {
    |s.output| <= |t.output| && t.output[..|s.output|] == s.output &&
    |t.input| <= |s.input| && t.input == s.input[|s.input| - |t.input|..]
  }

  lemma ExtendsTrans(s: State, t: State, u: State)
    requires Extends(s, t) && Extends(t, u)
    ensures Extends(s, u)
  {
    assert u.output[..|s.output|] == u.output[..|t.output|][..|s.output|];
  }

  function Abs(x: int): nat {
    if x < 0 then -x else x
  }

  /** C++ `/` on ints: the quotient rounded toward zero. */
  function TruncDiv(x: int, y: int): int
    requires y != 0
  {
    var m := Abs(x) / Abs(y);
    if (x < 0) == (y < 0) then m else -m
  }

  /** The quotient's magnitude is the floor of the magnitudes' quotient, and
      it is negative exactly when the operand signs differ. */
  lemma TruncDivIsQuotient(x: int, y: int)
    requires y != 0
    ensures var q := TruncDiv(x, y);
      Abs(q) * Abs(y) <= Abs(x) < Abs(q) * Abs(y) + Abs(y) &&
      (q != 0 ==> ((q < 0) <==> ((x < 0) != (y < 0))))
  {
    var m := Abs(x) / Abs(y);
    TruncDivBounds(x, y, m, TruncDiv(x, y));
  }

  lemma TruncDivBounds(x: int, y: int, m: int, q: int)
    requires y != 0 && m == Abs(x) / Abs(y) && q == (if (x < 0) == (y < 0) then m else -m)
    ensures Abs(q) * Abs(y) <= Abs(x) < Abs(q) * Abs(y) + Abs(y)
  {
    var a, b := Abs(x), Abs(y);
    assert a == m * b + a % b;
    assert Abs(q) == m;
  }

  /** C++ `%` on ints: the remainder that goes with TruncDiv, which takes the
      sign of the dividend. */
  function TruncMod(x: int, y: int): int
    requires y != 0
  {
    x - TruncDiv(x, y) * y
  }

  /** Quotient times divisor plus remainder is the dividend, the remainder is
      smaller than the divisor in magnitude and has the dividend's sign. */
  lemma TruncModIsRemainder(x: int, y: int)
    requires y != 0
    ensures var m := TruncMod(x, y);
      TruncDiv(x, y) * y + m == x && Abs(m) < Abs(y) &&
      (m != 0 ==> ((m < 0) <==> (x < 0)))
  {
    TruncModBounds(x, y, TruncDiv(x, y));
  }

  lemma TruncModBounds(x: int, y: int, q: int)
    requires y != 0 && q == TruncDiv(x, y)
    ensures Abs(x - q * y) < Abs(y)
    ensures x - q * y != 0 ==> ((x - q * y < 0) <==> (x < 0))
  {
    var a, b := Abs(x), Abs(y);
    TruncDivIsQuotient(x, y);
    assert Abs(q) * b <= a < Abs(q) * b + b;
    if x < 0 {
      assert q * y == -(Abs(q) * b);
    } else {
      assert q * y == Abs(q) * b;
    }
  }

  /** `x * y` as repeated addition, so that the solver meets a product only
      where a proof asks for one (TimesIsProduct). */
  function Times(x: int, y: int): int
    decreases Abs(y)
  {
    if y == 0 then 0
    else if y > 0 then Times(x, y - 1) + x
    else Times(x, y + 1) - x
  }

  lemma {:induction false} TimesIsProduct(x: int, y: int)
    ensures Times(x, y) == x * y
    decreases Abs(y)
  {
    if y > 0 {
      TimesIsProduct(x, y - 1);
    } else if y < 0 {
      TimesIsProduct(x, y + 1);
    }
  }

  /** Rounding toward zero, unlike Dafny's own Euclidean `/` and `%`. */
  lemma TruncExamples()
    ensures TruncDiv(-7, 2) == -3 && TruncMod(-7, 2) == -1
    ensures TruncDiv(7, -2) == -3 && TruncMod(7, -2) == 1
    ensures TruncDiv(-7, -2) == 3 && TruncMod(-7, -2) == -1
    ensures -7 / 2 == -4 && -7 % 2 == 1
  {
  }

  predicate IsStackOp(i: Instr) {
    i.Push? || i.Dup? || i.Swap? || i.Discard?
  }

  predicate IsArith(i: Instr) {
    i.Add? || i.Sub? || i.Mul? || i.Div? || i.Mod?
  }

  predicate IsHeapOp(i: Instr) {
    i.Store? || i.Load?
  }

  predicate IsIo(i: Instr) {
    i.PrintChar? || i.PrintNum? || i.ReadChar? || i.ReadNum?
  }

  /** How many operands each instruction takes from (or looks at on) the
      operand stack. */
  function Needs(i: Instr): nat {
    match i
    case Swap => 2
    case Add => 2
    case Sub => 2
    case Mul => 2
    case Div => 2
    case Mod => 2
    case Store => 2
    case Dup => 1
    case Discard => 1
    case Load => 1
    case PrintChar => 1
    case PrintNum => 1
    case ReadChar => 1
    case ReadNum => 1
    case JumpZero(_) => 1
    case JumpNeg(_) => 1
    case _ => 0
  }

  /** The exact value of `x op y` with C++ truncating division. */
  function Exact(op: Instr, x: int, y: int): int
    requires IsArith(op) && ((op.Div? || op.Mod?) ==> y != 0)
  {
    if op.Add? then x + y
    else if op.Sub? then x - y
    else if op.Mul? then Times(x, y)
    else if op.Div? then TruncDiv(x, y)
    else TruncMod(x, y)
  }

  /** `x op= y` on C++ ints: division by zero, and any result (or, for `%`,
      quotient) outside the int range, is undefined and reported instead. */
  function ArithValue(op: Instr, x: int, y: int): (r: Result<int>)
    requires IsArith(op)
    ensures r.Err? <==>
      ((op.Div? || op.Mod?) && y == 0) ||
      (!((op.Div? || op.Mod?) && y == 0) &&
       (!Int32(Exact(op, x, y)) || (op.Mod? && !Int32(TruncDiv(x, y)))))
    ensures r.Err? ==> (r.error == DivisionByZero <==> (op.Div? || op.Mod?) && y == 0)
    ensures r.Err? ==> r.error == DivisionByZero || r.error == Overflow
    ensures r.Ok? ==> r.value == Exact(op, x, y) && Int32(r.value)
  {
    if (op.Div? || op.Mod?) && y == 0 then Err(DivisionByZero)
    else if !Int32(Exact(op, x, y)) || (op.Mod? && !Int32(TruncDiv(x, y))) then Err(Overflow)
    else Ok(Exact(op, x, y))
  }

  /** Stack manipulation (whint.cpp:138-165). */
  function ExecStack(prog: seq<char>, i: Instr, next: nat, s: State): (r: Result<State>)
    requires Wf(prog, s) && next < |prog| && OperandFits(i) && IsStackOp(i)
    ensures r.Err? <==> |s.stack| < Needs(i)
    ensures r.Err? ==> r.error == StackUnderflow
    ensures r.Ok? ==> Wf(prog, r.value) && r.value == s.(p := next, stack := r.value.stack)
  {
    var st := s.stack;
    if |st| < Needs(i) then Err(StackUnderflow)
    else
      var st' :=
        if i.Push? then st + [i.n]
        else if i.Dup? then st + [st[|st| - 1]]
        else if i.Swap? then st[..|st| - 2] + [st[|st| - 1], st[|st| - 2]]
        else st[..|st| - 1];
      Ok(s.(p := next, stack := st'))
  }

  /** Arithmetic (whint.cpp:175-214): the top `y` is popped and the new top
      `x` becomes `x op y`. */
  function ExecArith(prog: seq<char>, i: Instr, next: nat, s: State): (r: Result<State>)
    requires Wf(prog, s) && next < |prog| && IsArith(i)
    ensures r == Err(StackUnderflow) <==> |s.stack| < 2
    ensures r.Err? ==> r.error == StackUnderflow || r.error == DivisionByZero || r.error == Overflow
    ensures r.Ok? ==> (
      Wf(prog, r.value) && r.value == s.(p := next, stack := r.value.stack) &&
      |r.value.stack| == |s.stack| - 1 && r.value.stack[..|s.stack| - 2] == s.stack[..|s.stack| - 2])
  {
    var st := s.stack;
    var n := |st|;
    if n < 2 then Err(StackUnderflow)
    else
      var v :- ArithValue(i, st[n - 2], st[n - 1]);
      Ok(s.(p := next, stack := st[..n - 2] + [v]))
  }

  predicate InHeap(a: int) {
    0 <= a < HeapSize
  }

  /** Heap access (whint.cpp:223-236). Store writes the top to the address
      below it; Load pushes the slot the top addresses. Both leave their
      operands on the stack. */
  function ExecHeap(prog: seq<char>, i: Instr, next: nat, s: State): (r: Result<State>)
    requires Wf(prog, s) && next < |prog| && IsHeapOp(i)
    ensures r == Err(StackUnderflow) <==> |s.stack| < Needs(i)
    ensures r.Err? ==> (r.error == StackUnderflow ||
      (r.error.HeapOutOfRange? && r.error.addr == s.stack[|s.stack| - Needs(i)] && !InHeap(r.error.addr)))
    ensures r.Ok? ==> Wf(prog, r.value) && r.value == s.(p := next, stack := r.value.stack, heap := r.value.heap)
  {
    var st := s.stack;
    var n := |st|;
    if n < Needs(i) then Err(StackUnderflow)
    else if i.Store? then
      var a := st[n - 2];
      if !InHeap(a) then Err(HeapOutOfRange(a))
      else Ok(s.(p := next, heap := s.heap[a := st[n - 1]]))
    else
      var a := st[n - 1];
      if !InHeap(a) then Err(HeapOutOfRange(a))
      else Ok(s.(p := next, stack := st + [s.heap[a]]))
  }

  /** I/O (whint.cpp:243-268). Output appends an event; ReadChar stores the
      next input value, or -1 (EOF) when there is none; ReadNum stores the
      next input value and leaves the slot alone when there is none. The
      address stays on the stack. */
  function ExecIo(prog: seq<char>, i: Instr, next: nat, s: State): (r: Result<State>)
    requires Wf(prog, s) && next < |prog| && IsIo(i)
    ensures r == Err(StackUnderflow) <==> |s.stack| < 1
    ensures r.Err? ==> (r.error == StackUnderflow ||
      (r.error.HeapOutOfRange? && r.error.addr == s.stack[|s.stack| - 1] && !InHeap(r.error.addr)))
    ensures r.Ok? ==> (Wf(prog, r.value) && Extends(s, r.value) && r.value.stack == s.stack &&
      r.value == s.(p := next, heap := r.value.heap, input := r.value.input, output := r.value.output))
  {
    var st := s.stack;
    var n := |st|;
    if n < 1 then Err(StackUnderflow)
    else if i.PrintChar? then Ok(s.(p := next, output := s.output + [CharOut(st[n - 1] % 256)]))
    else if i.PrintNum? then Ok(s.(p := next, output := s.output + [NumOut(st[n - 1])]))
    else
      var a := st[n - 1];
      if !InHeap(a) then Err(HeapOutOfRange(a))
      else if s.input == [] then
        if i.ReadChar? then Ok(s.(p := next, heap := s.heap[a := -1])) else Ok(s.(p := next))
      else Ok(s.(p := next, heap := s.heap[a := s.input[0]], input := s.input[1..]))
  }

  /** `p = labels[label]`: the recorded position, or, for a label never
      marked, position 0, which `std::map::operator[]` also records. */
  function JumpTo(prog: seq<char>, s: State, l: int): (t: State)
    requires Wf(prog, s)
    ensures Wf(prog, t)
    ensures l in t.labels && t.p == t.labels[l]
    ensures l in s.labels ==> t.labels == s.labels
    ensures l !in s.labels ==> t.labels == s.labels[l := 0]
    ensures t == s.(p := t.p, labels := t.labels)
  {
    if l in s.labels then s.(p := s.labels[l]) else s.(p := 0, labels := s.labels[l := 0])
  }

  /** Flow control (whint.cpp:280-318); Halt changes nothing. */
  function ExecFlow(prog: seq<char>, i: Instr, next: nat, s: State): (r: Result<State>)
    requires Wf(prog, s) && next < |prog|
    requires !IsStackOp(i) && !IsArith(i) && !IsHeapOp(i) && !IsIo(i)
    ensures r == Err(StackUnderflow) <==> |s.stack| < Needs(i)
    ensures r.Err? ==> r.error == StackUnderflow || (r.error == CallStackEmpty && i.Return? && s.calls == [])
    ensures r.Ok? ==> (Wf(prog, r.value) &&
      r.value == s.(p := r.value.p, calls := r.value.calls, labels := r.value.labels))
  {
    match i
    case Mark(l) => Ok(s.(p := next, labels := s.labels[l := next]))
    case Call(l) => Ok(JumpTo(prog, s.(calls := s.calls + [next]), l))
    case Jump(l) => Ok(JumpTo(prog, s, l))
    case JumpZero(l) =>
      if |s.stack| < 1 then Err(StackUnderflow)
      else if s.stack[|s.stack| - 1] == 0 then Ok(JumpTo(prog, s, l))
      else Ok(s.(p := next))
    case JumpNeg(l) =>
      if |s.stack| < 1 then Err(StackUnderflow)
      else if s.stack[|s.stack| - 1] < 0 then Ok(JumpTo(prog, s, l))
      else Ok(s.(p := next))
    case Return =>
      if s.calls == [] then Err(CallStackEmpty)
      else Ok(s.(p := s.calls[|s.calls| - 1], calls := s.calls[..|s.calls| - 1]))
    case _ => Ok(s)
  }

  /** The effect of one decoded instruction whose tokens end before `next`. */
  function Exec(prog: seq<char>, i: Instr, next: nat, s: State): (r: Result<State>)
    requires Wf(prog, s) && next < |prog| && OperandFits(i)
    ensures r == Err(StackUnderflow) <==> |s.stack| < Needs(i)
    ensures r.Err? ==> !r.error.Unfinished? && !r.error.UnexpectedChar?
    ensures r.Ok? ==> Wf(prog, r.value) && Extends(s, r.value)
  {
    match i
    case Push(_) => ExecStack(prog, i, next, s)
    case Dup => ExecStack(prog, i, next, s)
    case Swap => ExecStack(prog, i, next, s)
    case Discard => ExecStack(prog, i, next, s)
    case Add => ExecArith(prog, i, next, s)
    case Sub => ExecArith(prog, i, next, s)
    case Mul => ExecArith(prog, i, next, s)
    case Div => ExecArith(prog, i, next, s)
    case Mod => ExecArith(prog, i, next, s)
    case Store => ExecHeap(prog, i, next, s)
    case Load => ExecHeap(prog, i, next, s)
    case PrintChar => ExecIo(prog, i, next, s)
    case PrintNum => ExecIo(prog, i, next, s)
    case ReadChar => ExecIo(prog, i, next, s)
    case ReadNum => ExecIo(prog, i, next, s)
    case _ => ExecFlow(prog, i, next, s)
  }

  /** Lines 325-326: a cursor on a comment byte moves to the next token or
      NUL; otherwise it stays. */
  function Skip(prog: seq<char>, p: nat): (q: nat)
    requires Program(prog) && p < |prog|
    ensures p <= q < |prog| && IsStop(prog[q])
  {
    if IsStop(prog[p]) then p else NextWhite(prog, p)
  }

  /** One turn of `while(pr[p])`: decode the instruction at the cursor and
      execute it, then skip a comment the cursor may have landed on. A
      cursor on a comment byte only skips. Halt and every error leave the
      state as it was. */
  function Step(prog: seq<char>, s: State): (r: (Outcome, State))
    requires Wf(prog, s) && prog[s.p] != NUL
    ensures Wf(prog, r.1) && Extends(s, r.1)
    ensures r.0.Running? || r.0.Halted? || r.0.Failed?
    ensures !r.0.Running? ==> r.1 == s
    ensures r.0.Running? ==> IsStop(prog[r.1.p])
  {
    if !IsToken(prog[s.p]) then (Running, s.(p := NextWhite(prog, s.p)))
    else Finish(prog, s, Decode(prog, s.p))
  }

  /** The rest of a turn once decoding has given `r`: an error or Halt
      stops with the state unchanged, an instruction is executed and the
      cursor skips a comment it landed on. */
  function Finish(prog: seq<char>, s: State, r: Result<Decoded>): (res: (Outcome, State))
    requires Wf(prog, s) && WellDecoded(prog, s.p, r)
    ensures Wf(prog, res.1) && Extends(s, res.1)
    ensures res.0.Running? || res.0.Halted? || res.0.Failed?
    ensures !res.0.Running? ==> res.1 == s
    ensures res.0.Running? ==> IsStop(prog[res.1.p])
  {
    match r
    case Err(e) => (Failed(e), s)
    case Ok(d) =>
      if d.instr.Halt? then (Halted, s)
      else Resume(prog, s, Exec(prog, d.instr, d.next, s))
  }

  /** After executing from `s`: an error stops with `s`; otherwise the
      cursor skips a comment it landed on and the loop runs on. */
  function Resume(prog: seq<char>, s: State, e: Result<State>): (res: (Outcome, State))
    requires Wf(prog, s) && (e.Ok? ==> Wf(prog, e.value) && Extends(s, e.value))
    ensures Wf(prog, res.1) && Extends(s, res.1)
    ensures res.0.Running? || res.0.Failed?
    ensures !res.0.Running? ==> res.1 == s
    ensures res.0.Running? ==> IsStop(prog[res.1.p])
  {
    match e
    case Err(err) => (Failed(err), s)
    case Ok(t) => (Running, t.(p := Skip(prog, t.p)))
  }

  /** The fuel left for the rest of a run after one turn. */
  function Spend(fuel: nat): (left: nat)
    requires fuel > 0
    ensures left + 1 == fuel
  {
    fuel - 1
  }

  /** At most `fuel` turns of the loop: it ends at NUL (Ended), at Halt, at an
      error, or when the fuel is used up. */
  function Run(prog: seq<char>, s: State, fuel: nat): (r: (Outcome, State))
    requires Wf(prog, s)
    ensures Wf(prog, r.1) && Extends(s, r.1)
    ensures r.0.Ended? || r.0.Halted? || r.0.Failed? || r.0.OutOfFuel?
    ensures r.0.Ended? <==> prog[r.1.p] == NUL
    decreases fuel
  {
    if prog[s.p] == NUL then (Ended, s)
    else if fuel == 0 then (OutOfFuel, s)
    else
      var (o, t) := Step(prog, s);
      if o.Running? then
        var r := Run(prog, t, Spend(fuel));
        ExtendsTrans(s, t, r.1);
        r
      else (o, t)
  }

  /** `Run` stops at NUL, or when the fuel is gone, without moving. */
  lemma RunStops(prog: seq<char>, s: State, fuel: nat)
    requires Wf(prog, s) && (prog[s.p] == NUL || fuel == 0)
    ensures Run(prog, s, fuel) == (if prog[s.p] == NUL then Ended else OutOfFuel, s)
  {
  }

  /** A turn of `Run` is a `Step`. */
  lemma RunAfterStep(prog: seq<char>, s: State, fuel: nat, o: Outcome, t: State)
    requires Wf(prog, s) && prog[s.p] != NUL && fuel > 0 && (o, t) == Step(prog, s)
    ensures Wf(prog, t)
    ensures Run(prog, s, fuel) == if o.Running? then Run(prog, t, Spend(fuel)) else (o, t)
  {
  }
}
