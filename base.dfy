/** Shared vocabulary of the interpreter: the three token characters, the
    buffer sentinel, the C++ `int` range and the fatal error kinds. */
module Base {

  const SPACE: char := ' '
  const TAB: char := '\t'
  const LF: char := '\n'
  const NUL: char := '\0'

  /** Number of `int` slots of the heap (HEAP_SIZE). */
  const HeapSize: nat := 1024

  /** A byte that carries meaning: SPACE, TAB or LF. */
  predicate IsToken(c: char) {
    c == SPACE || c == TAB || c == LF
  }

  /** A byte the scanner stops at: a token or the sentinel. */
  predicate IsStop(c: char) {
    IsToken(c) || c == NUL
  }

  /** A program buffer as the loader delivers it: the file's bytes followed by
      a terminating NUL (a NUL inside the file ends the program early). */
  predicate Program(pr: seq<char>) {
    |pr| > 0 && pr[|pr| - 1] == NUL
  }

  /** Position `p` of `pr` holds a token; then `p` is not the final sentinel. */
  predicate TokenAt(pr: seq<char>, p: nat) {
    p < |pr| && IsToken(pr[p])
  }

  /** The values of a 32-bit two's-complement C++ `int`. */
  predicate Int32(x: int) {
    -0x8000_0000 <= x < 0x8000_0000
  }

  predicate AllInt32(s: seq<int>) {
    forall i :: 0 <= i < |s| ==> Int32(s[i])
  }

  /** The fatal conditions. The first two are reported by the interpreter
      itself; the others stand for operations whose C++ behaviour is
      undefined, which the model reports instead of executing. */
  datatype Error =
    | Unfinished                 // NUL reached while an instruction still needs a token
    | UnexpectedChar(pos: nat)   // no instruction for the token at `pos`
    | StackUnderflow             // top()/pop() on a too-short operand stack
    | CallStackEmpty             // return with no pending call
    | HeapOutOfRange(addr: int)  // heap index outside [0, HeapSize)
    | DivisionByZero             // `/` or `%` by 0
    | Overflow                   // an `int` result or literal outside Int32

  datatype Result<+T> = Ok(value: T) | Err(error: Error) {
    predicate IsFailure() {
      Err?
    }
    function PropagateFailure<U>(): Result<U>
      requires Err?
    {
      Err(error)
    }
    function Extract(): T
      requires Ok?
    {
      value
    }
  }
}
