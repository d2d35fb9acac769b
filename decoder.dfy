/** The decision tree of the main loop: from the first token of an
    instruction, read two to four tokens (and a literal where one is
    expected) and name the instruction, or report why there is none. */
module Decoder {
  import opened Base
  import opened Scanner
  import opened Numbers

  datatype Instr =
    | Push(n: int) | Dup | Swap | Discard
    | Add | Sub | Mul | Div | Mod
    | Store | Load
    | PrintChar | PrintNum | ReadChar | ReadNum
    | Mark(target: int) | Call(target: int) | Jump(target: int)
    | JumpZero(target: int) | JumpNeg(target: int) | Return | Halt

  /** An instruction and the cursor once its tokens are read: the next token
      or NUL, except for Return and Halt, whose cursor stays on their last
      token (the source overwrites it or stops). */
  datatype Decoded = Decoded(instr: Instr, next: nat)

  /** Result shape shared by every branch of the tree. */
  ghost predicate WellDecoded(pr: seq<char>, p: nat, r: Result<Decoded>)
    requires Program(pr)
  {
    (r.Ok? ==> p < r.value.next < |pr| && IsStop(pr[r.value.next]) && OperandFits(r.value.instr)) &&
    (r.Err? ==> r.error == Unfinished || r.error == Overflow ||
                (r.error.UnexpectedChar? && p < r.error.pos && TokenAt(pr, r.error.pos)))
  }

  /** Decoding at a token: SPACE starts stack manipulation, TAB arithmetic,
      heap access or I/O, LF flow control. */
  function Decode(pr: seq<char>, p: nat): (r: Result<Decoded>)
    requires Program(pr) && TokenAt(pr, p)
    ensures WellDecoded(pr, p, r)
  {
    if pr[p] == SPACE then DecodeStackOp(pr, p)
    else if pr[p] == TAB then DecodeTabOp(pr, p)
    else DecodeFlow(pr, p)
  }

  /** SPACE: Push (SPACE, literal), or Dup, Swap, Discard after LF. */
  function DecodeStackOp(pr: seq<char>, p: nat): (r: Result<Decoded>)
    requires Program(pr) && TokenAt(pr, p)
    ensures WellDecoded(pr, p, r)
    ensures r.Ok? ==> !r.value.instr.Halt?
  {
    var q :- NextToken(pr, p);
    if pr[q] == SPACE then
      var s :- NextToken(pr, q);
      var n :- DecodeNumber(pr, s);
      Ok(Decoded(Push(n.value), n.next))
    else if pr[q] == LF then
      var s :- NextToken(pr, q);
      var op := if pr[s] == SPACE then Dup else if pr[s] == TAB then Swap else Discard;
      Ok(Decoded(op, NextWhite(pr, s)))
    else Err(UnexpectedChar(q))
  }

  /** TAB: arithmetic after SPACE, heap access after TAB, I/O after LF. */
  function DecodeTabOp(pr: seq<char>, p: nat): (r: Result<Decoded>)
    requires Program(pr) && TokenAt(pr, p)
    ensures WellDecoded(pr, p, r)
    ensures r.Ok? ==> !r.value.instr.Halt?
  {
    var q :- NextToken(pr, p);
    if pr[q] == SPACE then DecodeArith(pr, p, q)
    else if pr[q] == TAB then
      var s :- NextToken(pr, q);
      if pr[s] == SPACE then Ok(Decoded(Store, NextWhite(pr, s)))
      else if pr[s] == TAB then Ok(Decoded(Load, NextWhite(pr, s)))
      else Err(UnexpectedChar(s))
    else DecodeIo(pr, p, q)
  }

  /** TAB SPACE: Add, Sub, Mul after SPACE; Div, Mod after TAB. */
  function DecodeArith(pr: seq<char>, p: nat, q: nat): (r: Result<Decoded>)
    requires Program(pr) && p < q && TokenAt(pr, q)
    ensures WellDecoded(pr, p, r)
    ensures r.Ok? ==> !r.value.instr.Halt?
  {
    var s :- NextToken(pr, q);
    if pr[s] == SPACE then
      var t :- NextToken(pr, s);
      var op := if pr[t] == SPACE then Add else if pr[t] == TAB then Sub else Mul;
      Ok(Decoded(op, NextWhite(pr, t)))
    else if pr[s] == TAB then
      var t :- NextToken(pr, s);
      if pr[t] == SPACE then Ok(Decoded(Div, NextWhite(pr, t)))
      else if pr[t] == TAB then Ok(Decoded(Mod, NextWhite(pr, t)))
      else Err(UnexpectedChar(t))
    else Err(UnexpectedChar(s))
  }

  /** TAB LF: output after SPACE, input after TAB. */
  function DecodeIo(pr: seq<char>, p: nat, q: nat): (r: Result<Decoded>)
    requires Program(pr) && p < q && TokenAt(pr, q)
    ensures WellDecoded(pr, p, r)
    ensures r.Ok? ==> !r.value.instr.Halt?
  {
    var s :- NextToken(pr, q);
    if pr[s] == SPACE then
      var t :- NextToken(pr, s);
      if pr[t] == SPACE then Ok(Decoded(PrintChar, NextWhite(pr, t)))
      else if pr[t] == TAB then Ok(Decoded(PrintNum, NextWhite(pr, t)))
      else Err(UnexpectedChar(t))
    else if pr[s] == TAB then
      var t :- NextToken(pr, s);
      if pr[t] == SPACE then Ok(Decoded(ReadChar, NextWhite(pr, t)))
      else if pr[t] == TAB then Ok(Decoded(ReadNum, NextWhite(pr, t)))
      else Err(UnexpectedChar(t))
    else Err(UnexpectedChar(s))
  }

  /** LF: label, call, jump after SPACE; conditional jumps and return after
      TAB; end of program after LF, whose third LF must be the very next
      byte. */
  function DecodeFlow(pr: seq<char>, p: nat): (r: Result<Decoded>)
    requires Program(pr) && TokenAt(pr, p)
    ensures WellDecoded(pr, p, r)
  {
    var q :- NextToken(pr, p);
    if pr[q] == SPACE then DecodeJump(pr, p, q)
    else if pr[q] == TAB then DecodeBranch(pr, p, q)
    else if pr[q + 1] == LF then Ok(Decoded(Halt, q))
    else Err(UnexpectedChar(q))
  }

  /** LF SPACE: Mark after SPACE, Call after TAB, Jump after LF, each with
      its label literal. */
  function DecodeJump(pr: seq<char>, p: nat, q: nat): (r: Result<Decoded>)
    requires Program(pr) && p < q && TokenAt(pr, q)
    ensures WellDecoded(pr, p, r)
    ensures r.Ok? ==> !r.value.instr.Halt?
  {
    var s :- NextToken(pr, q);
    var t :- NextToken(pr, s);
    var n :- DecodeNumber(pr, t);
    var op := if pr[s] == SPACE then Mark(n.value) else if pr[s] == TAB then Call(n.value) else Jump(n.value);
    Ok(Decoded(op, n.next))
  }

  /** LF TAB: JumpZero after SPACE, JumpNeg after TAB (with a label
      literal), Return after LF. */
  function DecodeBranch(pr: seq<char>, p: nat, q: nat): (r: Result<Decoded>)
    requires Program(pr) && p < q && TokenAt(pr, q)
    ensures WellDecoded(pr, p, r)
    ensures r.Ok? ==> !r.value.instr.Halt?
  {
    var s :- NextToken(pr, q);
    if pr[s] == LF then Ok(Decoded(Return, s))
    else
      var t :- NextToken(pr, s);
      var n :- DecodeNumber(pr, t);
      Ok(Decoded(if pr[s] == SPACE then JumpZero(n.value) else JumpNeg(n.value), n.next))
  }

  /** The decision tree as the source runs it, moving the cursor with the
      scanner and reading literals with `read_number`. */
  method DecodeInstruction(pr: seq<char>, p: nat) returns (r: Result<Decoded>)
    requires Program(pr) && TokenAt(pr, p)
    ensures r == Decode(pr, p)
  {
    var q :- FindNextWhiteCharOrError(pr, p);
    if pr[p] == SPACE {
      if pr[q] == SPACE {
        var s :- FindNextWhiteCharOrError(pr, q);
        var n :- ReadNumber(pr, s);
        return Ok(Decoded(Push(n.value), n.next));
      } else if pr[q] == LF {
        var s :- FindNextWhiteCharOrError(pr, q);
        var next, _ := FindNextWhiteChar(pr, s);
        if pr[s] == SPACE {
          return Ok(Decoded(Dup, next));
        } else if pr[s] == TAB {
          return Ok(Decoded(Swap, next));
        } else {
          return Ok(Decoded(Discard, next));
        }
      } else {
        return Err(UnexpectedChar(q));
      }
    } else if pr[p] == TAB {
      if pr[q] == SPACE {
        var s :- FindNextWhiteCharOrError(pr, q);
        if pr[s] == SPACE {
          var t :- FindNextWhiteCharOrError(pr, s);
          var next, _ := FindNextWhiteChar(pr, t);
          if pr[t] == SPACE {
            return Ok(Decoded(Add, next));
          } else if pr[t] == TAB {
            return Ok(Decoded(Sub, next));
          } else {
            return Ok(Decoded(Mul, next));
          }
        } else if pr[s] == TAB {
          var t :- FindNextWhiteCharOrError(pr, s);
          if pr[t] == SPACE {
            var next, _ := FindNextWhiteChar(pr, t);
            return Ok(Decoded(Div, next));
          } else if pr[t] == TAB {
            var next, _ := FindNextWhiteChar(pr, t);
            return Ok(Decoded(Mod, next));
          } else {
            return Err(UnexpectedChar(t));
          }
        } else {
          return Err(UnexpectedChar(s));
        }
      } else if pr[q] == TAB {
        var s :- FindNextWhiteCharOrError(pr, q);
        if pr[s] == SPACE {
          var next, _ := FindNextWhiteChar(pr, s);
          return Ok(Decoded(Store, next));
        } else if pr[s] == TAB {
          var next, _ := FindNextWhiteChar(pr, s);
          return Ok(Decoded(Load, next));
        } else {
          return Err(UnexpectedChar(s));
        }
      } else {
        var s :- FindNextWhiteCharOrError(pr, q);
        if pr[s] == SPACE {
          var t :- FindNextWhiteCharOrError(pr, s);
          if pr[t] == SPACE {
            var next, _ := FindNextWhiteChar(pr, t);
            return Ok(Decoded(PrintChar, next));
          } else if pr[t] == TAB {
            var next, _ := FindNextWhiteChar(pr, t);
            return Ok(Decoded(PrintNum, next));
          } else {
            return Err(UnexpectedChar(t));
          }
        } else if pr[s] == TAB {
          var t :- FindNextWhiteCharOrError(pr, s);
          if pr[t] == SPACE {
            var next, _ := FindNextWhiteChar(pr, t);
            return Ok(Decoded(ReadChar, next));
          } else if pr[t] == TAB {
            var next, _ := FindNextWhiteChar(pr, t);
            return Ok(Decoded(ReadNum, next));
          } else {
            return Err(UnexpectedChar(t));
          }
        } else {
          return Err(UnexpectedChar(s));
        }
      }
    } else {
      if pr[q] == SPACE {
        var s :- FindNextWhiteCharOrError(pr, q);
        var t :- FindNextWhiteCharOrError(pr, s);
        var n :- ReadNumber(pr, t);
        if pr[s] == SPACE {
          return Ok(Decoded(Mark(n.value), n.next));
        } else if pr[s] == TAB {
          return Ok(Decoded(Call(n.value), n.next));
        } else {
          return Ok(Decoded(Jump(n.value), n.next));
        }
      } else if pr[q] == TAB {
        var s :- FindNextWhiteCharOrError(pr, q);
        if pr[s] == LF {
          return Ok(Decoded(Return, s));
        }
        var t :- FindNextWhiteCharOrError(pr, s);
        var n :- ReadNumber(pr, t);
        if pr[s] == SPACE {
          return Ok(Decoded(JumpZero(n.value), n.next));
        } else {
          return Ok(Decoded(JumpNeg(n.value), n.next));
        }
      } else if pr[q + 1] == LF {
        return Ok(Decoded(Halt, q));
      } else {
        return Err(UnexpectedChar(q));
      }
    }
  }

  /** The token spelling of each instruction, literals as EncodeNumber
      writes them. */
  function Assemble(i: Instr): seq<char> {
    match i
    case Push(n) => [SPACE, SPACE] + EncodeNumber(n)
    case Dup => [SPACE, LF, SPACE]
    case Swap => [SPACE, LF, TAB]
    case Discard => [SPACE, LF, LF]
    case Add => [TAB, SPACE, SPACE, SPACE]
    case Sub => [TAB, SPACE, SPACE, TAB]
    case Mul => [TAB, SPACE, SPACE, LF]
    case Div => [TAB, SPACE, TAB, SPACE]
    case Mod => [TAB, SPACE, TAB, TAB]
    case Store => [TAB, TAB, SPACE]
    case Load => [TAB, TAB, TAB]
    case PrintChar => [TAB, LF, SPACE, SPACE]
    case PrintNum => [TAB, LF, SPACE, TAB]
    case ReadChar => [TAB, LF, TAB, SPACE]
    case ReadNum => [TAB, LF, TAB, TAB]
    case Mark(l) => [LF, SPACE, SPACE] + EncodeNumber(l)
    case Call(l) => [LF, SPACE, TAB] + EncodeNumber(l)
    case Jump(l) => [LF, SPACE, LF] + EncodeNumber(l)
    case JumpZero(l) => [LF, TAB, SPACE] + EncodeNumber(l)
    case JumpNeg(l) => [LF, TAB, TAB] + EncodeNumber(l)
    case Return => [LF, TAB, LF]
    case Halt => [LF, LF, LF]
  }

  /** The literal of an instruction, if it has one, is one `read_number`
      can deliver. */
  predicate OperandFits(i: Instr) {
    match i
    case Push(n) => LiteralFits(n)
    case Mark(l) => LiteralFits(l)
    case Call(l) => LiteralFits(l)
    case Jump(l) => LiteralFits(l)
    case JumpZero(l) => LiteralFits(l)
    case JumpNeg(l) => LiteralFits(l)
    case _ => true
  }

  /** The opcodes a literal follows: Push's, then those of Mark, Call, Jump,
      JumpZero and JumpNeg. */
  const LiteralOpcodes: seq<seq<char>> := [
    [SPACE, SPACE],
    [LF, SPACE, SPACE], [LF, SPACE, TAB], [LF, SPACE, LF],
    [LF, TAB, SPACE], [LF, TAB, TAB]
  ]

  /** The instruction an opcode names, with `n` as its literal. */
  function WithLiteral(op: seq<char>, n: int): (i: Instr)
    requires op in LiteralOpcodes
    ensures HasLiteral(i) && Literal(i) == n
    ensures Assemble(i) == op + EncodeNumber(n)
  {
    if op == [SPACE, SPACE] then Push(n)
    else if op == [LF, SPACE, SPACE] then Mark(n)
    else if op == [LF, SPACE, TAB] then Call(n)
    else if op == [LF, SPACE, LF] then Jump(n)
    else if op == [LF, TAB, SPACE] then JumpZero(n)
    else JumpNeg(n)
  }

  /** The instructions that carry a literal. */
  predicate HasLiteral(i: Instr) {
    i.Push? || i.Mark? || i.Call? || i.Jump? || i.JumpZero? || i.JumpNeg?
  }

  function Literal(i: Instr): int
    requires HasLiteral(i)
  {
    if i.Push? then i.n else i.target
  }

  /** The opcode of an instruction that carries a literal: its spelling is
      the opcode and then the literal, and the opcode with that literal
      names the instruction again. */
  function Opcode(i: Instr): (op: seq<char>)
    requires HasLiteral(i)
    ensures op in LiteralOpcodes && WithLiteral(op, Literal(i)) == i
    ensures Assemble(i) == op + EncodeNumber(Literal(i))
    ensures OperandFits(i) <==> LiteralFits(Literal(i))
  {
    match i
    case Push(_) => [SPACE, SPACE]
    case Mark(_) => [LF, SPACE, SPACE]
    case Call(_) => [LF, SPACE, TAB]
    case Jump(_) => [LF, SPACE, LF]
    case JumpZero(_) => [LF, TAB, SPACE]
    case JumpNeg(_) => [LF, TAB, TAB]
  }

  lemma Walk2(pr: seq<char>, p: nat, a: char, b: char, rest: seq<char>) returns (q: nat)
    requires Program(pr) && TokenAt(pr, p) && TokensFrom(pr, p) == [a, b] + rest
    ensures NextToken(pr, p) == Ok(q) && pr[q] == b
    ensures TokensFrom(pr, q) == [b] + rest
  {
    q := Advance(pr, p, [b] + rest);
  }

  lemma Walk3(pr: seq<char>, p: nat, a: char, b: char, c: char, rest: seq<char>) returns (q: nat, s: nat)
    requires Program(pr) && TokenAt(pr, p) && TokensFrom(pr, p) == [a, b, c] + rest
    ensures NextToken(pr, p) == Ok(q) && pr[q] == b
    ensures NextToken(pr, q) == Ok(s) && pr[s] == c
    ensures TokensFrom(pr, s) == [c] + rest
    ensures TokensFrom(pr, NextWhite(pr, s)) == rest
  {
    q := Advance(pr, p, [b, c] + rest);
    s := Advance(pr, q, [c] + rest);
    TokensAtToken(pr, s);
    assert TokensFrom(pr, NextWhite(pr, s)) == TokensFrom(pr, s)[1..];
  }

  lemma Walk4(pr: seq<char>, p: nat, a: char, b: char, c: char, d: char, rest: seq<char>)
    returns (q: nat, s: nat, t: nat)
    requires Program(pr) && TokenAt(pr, p) && TokensFrom(pr, p) == [a, b, c, d] + rest
    ensures NextToken(pr, p) == Ok(q) && pr[q] == b
    ensures NextToken(pr, q) == Ok(s) && pr[s] == c
    ensures NextToken(pr, s) == Ok(t) && pr[t] == d
    ensures TokensFrom(pr, t) == [d] + rest
    ensures TokensFrom(pr, NextWhite(pr, t)) == rest
  {
    q := Advance(pr, p, [b, c, d] + rest);
    s, t := Walk3(pr, q, b, c, d, rest);
  }

  /** An opcode and then any spelling of a literal: either sign token and
      any bits, leading zero bits included. The instruction gets the signed
      binary value of the bits, or decoding reports Overflow when that
      magnitude does not fit; decoding resumes where the rest of the stream
      begins. */
  lemma LiteralDecodes(pr: seq<char>, p: nat, op: seq<char>, sign: char, ds: seq<char>, rest: seq<char>)
    requires Program(pr) && TokenAt(pr, p) && op in LiteralOpcodes && AllBits(ds)
    requires TokensFrom(pr, p) == op + ([sign] + ds + [LF]) + rest
    ensures BinaryValue(ds) <= MaxMagnitude ==>
      Decode(pr, p).Ok? &&
      Decode(pr, p).value.instr == WithLiteral(op, Signed(sign, BinaryValue(ds))) &&
      TokensFrom(pr, Decode(pr, p).value.next) == rest
    ensures BinaryValue(ds) > MaxMagnitude ==> Decode(pr, p) == Err(Overflow)
  {
    if op == [SPACE, SPACE] {
      PushLiteralDecodes(pr, p, sign, ds, rest);
    } else {
      FlowLiteralDecodes(pr, p, op, sign, ds, rest);
      assert Decode(pr, p) == DecodeFlow(pr, p);
    }
  }

  lemma PushLiteralDecodes(pr: seq<char>, p: nat, sign: char, ds: seq<char>, rest: seq<char>)
    requires Program(pr) && TokenAt(pr, p) && AllBits(ds)
    requires TokensFrom(pr, p) == [SPACE, SPACE] + ([sign] + ds + [LF]) + rest
    ensures BinaryValue(ds) <= MaxMagnitude ==>
      Decode(pr, p).Ok? &&
      Decode(pr, p).value.instr == Push(Signed(sign, BinaryValue(ds))) &&
      TokensFrom(pr, Decode(pr, p).value.next) == rest
    ensures BinaryValue(ds) > MaxMagnitude ==> Decode(pr, p) == Err(Overflow)
  {
    var lit := [sign] + ds + [LF];
    LiteralAfterPush(pr, p, lit, rest);
    var q := NextToken(pr, p).value;
    var s := NextToken(pr, q).value;
    DecodeNumberValue(pr, s, sign, ds, rest);
    assert Decode(pr, p) == DecodeStackOp(pr, p);
  }

  lemma FlowLiteralDecodes(pr: seq<char>, p: nat, op: seq<char>, sign: char, ds: seq<char>, rest: seq<char>)
    requires op != [SPACE, SPACE]
    requires Program(pr) && TokenAt(pr, p) && op in LiteralOpcodes && AllBits(ds)
    requires TokensFrom(pr, p) == op + ([sign] + ds + [LF]) + rest
    ensures BinaryValue(ds) <= MaxMagnitude ==>
      DecodeFlow(pr, p).Ok? &&
      DecodeFlow(pr, p).value.instr == WithLiteral(op, Signed(sign, BinaryValue(ds))) &&
      TokensFrom(pr, DecodeFlow(pr, p).value.next) == rest
    ensures BinaryValue(ds) > MaxMagnitude ==> DecodeFlow(pr, p) == Err(Overflow)
  {
    var q, s, t := LiteralAfterFlow(pr, p, op, [sign] + ds + [LF], rest);
    var v := Signed(sign, BinaryValue(ds));
    if op[1] == SPACE {
      assert WithLiteral(op, v) == if pr[s] == SPACE then Mark(v) else if pr[s] == TAB then Call(v) else Jump(v);
      JumpLiteralDecodes(pr, p, q, s, t, sign, ds, rest);
    } else {
      assert pr[s] != LF;
      assert WithLiteral(op, v) == if pr[s] == SPACE then JumpZero(v) else JumpNeg(v);
      BranchLiteralDecodes(pr, p, q, s, t, sign, ds, rest);
    }
  }

  /** LF SPACE x and a literal: the label, call or jump reads the literal. */
  lemma JumpLiteralDecodes(pr: seq<char>, p: nat, q: nat, s: nat, t: nat, sign: char, ds: seq<char>, rest: seq<char>)
    requires Program(pr) && TokenAt(pr, p) && AllBits(ds)
    requires NextToken(pr, p) == Ok(q) && pr[q] == SPACE
    requires NextToken(pr, q) == Ok(s) && NextToken(pr, s) == Ok(t) && TokenAt(pr, t)
    requires TokensFrom(pr, t) == [sign] + ds + [LF] + rest
    ensures var v := Signed(sign, BinaryValue(ds));
      BinaryValue(ds) <= MaxMagnitude ==>
      DecodeFlow(pr, p).Ok? &&
      DecodeFlow(pr, p).value.instr == (if pr[s] == SPACE then Mark(v) else if pr[s] == TAB then Call(v) else Jump(v)) &&
      TokensFrom(pr, DecodeFlow(pr, p).value.next) == rest
    ensures BinaryValue(ds) > MaxMagnitude ==> DecodeFlow(pr, p) == Err(Overflow)
  {
    DecodeNumberValue(pr, t, sign, ds, rest);
    assert DecodeFlow(pr, p) == DecodeJump(pr, p, q);
  }

  /** LF TAB x with x not LF, and a literal: the conditional jump reads the
      literal. */
  lemma BranchLiteralDecodes(pr: seq<char>, p: nat, q: nat, s: nat, t: nat, sign: char, ds: seq<char>, rest: seq<char>)
    requires Program(pr) && TokenAt(pr, p) && AllBits(ds)
    requires NextToken(pr, p) == Ok(q) && pr[q] == TAB
    requires NextToken(pr, q) == Ok(s) && pr[s] != LF && NextToken(pr, s) == Ok(t) && TokenAt(pr, t)
    requires TokensFrom(pr, t) == [sign] + ds + [LF] + rest
    ensures var v := Signed(sign, BinaryValue(ds));
      BinaryValue(ds) <= MaxMagnitude ==>
      DecodeFlow(pr, p).Ok? &&
      DecodeFlow(pr, p).value.instr == (if pr[s] == SPACE then JumpZero(v) else JumpNeg(v)) &&
      TokensFrom(pr, DecodeFlow(pr, p).value.next) == rest
    ensures BinaryValue(ds) > MaxMagnitude ==> DecodeFlow(pr, p) == Err(Overflow)
  {
    DecodeNumberValue(pr, t, sign, ds, rest);
    assert DecodeFlow(pr, p) == DecodeBranch(pr, p, q);
  }

  /** SPACE SPACE and a literal: the scanner reaches the literal's sign. */
  lemma LiteralAfterPush(pr: seq<char>, p: nat, lit: seq<char>, rest: seq<char>)
    requires Program(pr) && TokenAt(pr, p) && lit != []
    requires TokensFrom(pr, p) == [SPACE, SPACE] + lit + rest
    ensures NextToken(pr, p).Ok? && pr[NextToken(pr, p).value] == SPACE
    ensures NextToken(pr, NextToken(pr, p).value).Ok?
    ensures TokensFrom(pr, NextToken(pr, NextToken(pr, p).value).value) == lit + rest
    ensures TokenAt(pr, NextToken(pr, NextToken(pr, p).value).value)
  {
    var q := Walk2(pr, p, SPACE, SPACE, lit + rest);
    var s := Advance(pr, q, lit + rest);
  }

  /** A three-token flow opcode and a literal: the scanner reaches the
      literal's sign `t`, past the opcode tokens `q` and `s`. */
  lemma LiteralAfterFlow(pr: seq<char>, p: nat, op: seq<char>, lit: seq<char>, rest: seq<char>)
    returns (q: nat, s: nat, t: nat)
    requires Program(pr) && TokenAt(pr, p) && |op| == 3 && lit != []
    requires TokensFrom(pr, p) == op + lit + rest
    ensures NextToken(pr, p) == Ok(q) && pr[q] == op[1]
    ensures NextToken(pr, q) == Ok(s) && pr[s] == op[2]
    ensures NextToken(pr, s) == Ok(t) && TokenAt(pr, t)
    ensures TokensFrom(pr, t) == lit + rest
  {
    assert TokensFrom(pr, p) == [op[0], op[1], op[2]] + (lit + rest);
    q, s := Walk3(pr, p, op[0], op[1], op[2], lit + rest);
    t := Advance(pr, s, lit + rest);
  }

  /** The spelling Assemble gives: the opcode and the literal EncodeNumber
      writes decode to the instruction with that literal. */
  lemma AssembleLiteral(pr: seq<char>, p: nat, op: seq<char>, n: int, rest: seq<char>)
    requires Program(pr) && TokenAt(pr, p) && op in LiteralOpcodes
    requires TokensFrom(pr, p) == op + EncodeNumber(n) + rest
    ensures LiteralFits(n) ==>
      Decode(pr, p).Ok? && Decode(pr, p).value.instr == WithLiteral(op, n) &&
      TokensFrom(pr, Decode(pr, p).value.next) == rest
    ensures !LiteralFits(n) ==> Decode(pr, p) == Err(Overflow)
  {
    var m: nat := if n < 0 then -n else n;
    var sign := if n < 0 then TAB else SPACE;
    BinaryValueOfBinary(m);
    assert EncodeNumber(n) == [sign] + Binary(m) + [LF];
    LiteralDecodes(pr, p, op, sign, Binary(m), rest);
  }

  /** Spellings EncodeNumber never writes, which `read_number` accepts all
      the same: a leading zero bit, a TAB sign on zero, a zero bit alone;
      and a Push cut off after a leading zero bit. */
  lemma OtherSpellings(pr: seq<char>, p: nat, rest: seq<char>)
    requires Program(pr) && TokenAt(pr, p)
    ensures TokensFrom(pr, p) == [SPACE, SPACE, TAB, SPACE, TAB, LF] + rest ==>
      Decode(pr, p).Ok? && Decode(pr, p).value.instr == Push(-1)
    ensures TokensFrom(pr, p) == [SPACE, SPACE, TAB, LF] + rest ==>
      Decode(pr, p).Ok? && Decode(pr, p).value.instr == Push(0)
    ensures TokensFrom(pr, p) == [LF, SPACE, SPACE, SPACE, SPACE, LF] + rest ==>
      Decode(pr, p).Ok? && Decode(pr, p).value.instr == Mark(0)
    ensures TokensFrom(pr, p) == [SPACE, SPACE, SPACE, SPACE] ==> Decode(pr, p) == Err(Unfinished)
  {
    var push, mark := [SPACE, SPACE], [LF, SPACE, SPACE];
    if TokensFrom(pr, p) == [SPACE, SPACE, TAB, SPACE, TAB, LF] + rest {
      assert BinaryValue([SPACE, TAB]) == 1 by {
        assert [SPACE, TAB][1..] == [TAB];
        assert BinaryValue([TAB]) == 1 by { assert [TAB][1..] == []; }
      }
      assert TokensFrom(pr, p) == push + ([TAB] + [SPACE, TAB] + [LF]) + rest;
      LiteralDecodes(pr, p, push, TAB, [SPACE, TAB], rest);
    }
    if TokensFrom(pr, p) == [SPACE, SPACE, TAB, LF] + rest {
      assert TokensFrom(pr, p) == push + ([TAB] + [] + [LF]) + rest;
      LiteralDecodes(pr, p, push, TAB, [], rest);
    }
    if TokensFrom(pr, p) == [LF, SPACE, SPACE, SPACE, SPACE, LF] + rest {
      assert BinaryValue([SPACE]) == 0 by { assert [SPACE][1..] == []; }
      assert TokensFrom(pr, p) == mark + ([SPACE] + [SPACE] + [LF]) + rest;
      LiteralDecodes(pr, p, mark, SPACE, [SPACE], rest);
    }
    if TokensFrom(pr, p) == [SPACE, SPACE, SPACE, SPACE] {
      assert TokensFrom(pr, p) == push + ([SPACE] + [SPACE]);
      LiteralCut(pr, p, push, SPACE, [SPACE]);
    }
  }

  /** Every instruction other than Halt decodes from its spelling, whatever
      comment bytes sit between its tokens; decoding resumes where the rest
      of the stream begins, except after Return, whose cursor the call stack
      replaces. A literal that does not fit is an Overflow. */
  lemma AssembleDecodes(pr: seq<char>, p: nat, i: Instr, rest: seq<char>)
    requires Program(pr) && TokenAt(pr, p) && i != Halt
    requires TokensFrom(pr, p) == Assemble(i) + rest
    ensures OperandFits(i) ==> Decode(pr, p).Ok? && Decode(pr, p).value.instr == i
    ensures OperandFits(i) && i != Return ==> TokensFrom(pr, Decode(pr, p).value.next) == rest
    ensures !OperandFits(i) ==> Decode(pr, p) == Err(Overflow)
  {
    match i
    case Push(_) => AssembleStackOp(pr, p, i, rest);
    case Dup => AssembleStackOp(pr, p, i, rest);
    case Swap => AssembleStackOp(pr, p, i, rest);
    case Discard => AssembleStackOp(pr, p, i, rest);
    case Add => AssembleArith(pr, p, i, rest);
    case Sub => AssembleArith(pr, p, i, rest);
    case Mul => AssembleArith(pr, p, i, rest);
    case Div => AssembleArith(pr, p, i, rest);
    case Mod => AssembleArith(pr, p, i, rest);
    case Store => AssembleHeapIo(pr, p, i, rest);
    case Load => AssembleHeapIo(pr, p, i, rest);
    case PrintChar => AssembleHeapIo(pr, p, i, rest);
    case PrintNum => AssembleHeapIo(pr, p, i, rest);
    case ReadChar => AssembleHeapIo(pr, p, i, rest);
    case ReadNum => AssembleHeapIo(pr, p, i, rest);
    case Mark(_) => AssembleFlow(pr, p, i, rest);
    case Call(_) => AssembleFlow(pr, p, i, rest);
    case Jump(_) => AssembleFlow(pr, p, i, rest);
    case JumpZero(_) => AssembleFlow(pr, p, i, rest);
    case JumpNeg(_) => AssembleFlow(pr, p, i, rest);
    case Return => AssembleFlow(pr, p, i, rest);
  }

  lemma AssembleStackOp(pr: seq<char>, p: nat, i: Instr, rest: seq<char>)
    requires Program(pr) && TokenAt(pr, p) && (i.Push? || i.Dup? || i.Swap? || i.Discard?)
    requires TokensFrom(pr, p) == Assemble(i) + rest
    ensures OperandFits(i) ==> Decode(pr, p).Ok? && Decode(pr, p).value.instr == i
    ensures OperandFits(i) ==> TokensFrom(pr, Decode(pr, p).value.next) == rest
    ensures !OperandFits(i) ==> Decode(pr, p) == Err(Overflow)
  {
    assert Decode(pr, p) == DecodeStackOp(pr, p);
    match i
    case Push(n) => AssembleLiteral(pr, p, Opcode(i), n, rest);
    case Dup => var q, s := Walk3(pr, p, SPACE, LF, SPACE, rest);
    case Swap => var q, s := Walk3(pr, p, SPACE, LF, TAB, rest);
    case Discard => var q, s := Walk3(pr, p, SPACE, LF, LF, rest);
  }

  lemma AssembleArith(pr: seq<char>, p: nat, i: Instr, rest: seq<char>)
    requires Program(pr) && TokenAt(pr, p) && (i.Add? || i.Sub? || i.Mul? || i.Div? || i.Mod?)
    requires TokensFrom(pr, p) == Assemble(i) + rest
    ensures Decode(pr, p).Ok? && Decode(pr, p).value.instr == i
    ensures TokensFrom(pr, Decode(pr, p).value.next) == rest
  {
    var q, s, t;
    match i
    case Add | Sub | Mul =>
      var last := if i.Add? then SPACE else if i.Sub? then TAB else LF;
      q, s, t := Walk4(pr, p, TAB, SPACE, SPACE, last, rest);
      assert DecodeArith(pr, p, q) == Ok(Decoded(i, NextWhite(pr, t)));
    case Div | Mod =>
      q, s, t := Walk4(pr, p, TAB, SPACE, TAB, if i.Div? then SPACE else TAB, rest);
      assert DecodeArith(pr, p, q) == Ok(Decoded(i, NextWhite(pr, t)));
    assert Decode(pr, p) == DecodeTabOp(pr, p) == DecodeArith(pr, p, q);
  }

  lemma AssembleHeapIo(pr: seq<char>, p: nat, i: Instr, rest: seq<char>)
    requires Program(pr) && TokenAt(pr, p)
    requires i.Store? || i.Load? || i.PrintChar? || i.PrintNum? || i.ReadChar? || i.ReadNum?
    requires TokensFrom(pr, p) == Assemble(i) + rest
    ensures Decode(pr, p).Ok? && Decode(pr, p).value.instr == i
    ensures TokensFrom(pr, Decode(pr, p).value.next) == rest
  {
    assert Decode(pr, p) == DecodeTabOp(pr, p);
    match i
    case Store => var q, s := Walk3(pr, p, TAB, TAB, SPACE, rest);
    case Load => var q, s := Walk3(pr, p, TAB, TAB, TAB, rest);
    case PrintChar =>
      var q, s, t := Walk4(pr, p, TAB, LF, SPACE, SPACE, rest);
      assert DecodeTabOp(pr, p) == DecodeIo(pr, p, q);
    case PrintNum =>
      var q, s, t := Walk4(pr, p, TAB, LF, SPACE, TAB, rest);
      assert DecodeTabOp(pr, p) == DecodeIo(pr, p, q);
    case ReadChar =>
      var q, s, t := Walk4(pr, p, TAB, LF, TAB, SPACE, rest);
      assert DecodeTabOp(pr, p) == DecodeIo(pr, p, q);
    case ReadNum =>
      var q, s, t := Walk4(pr, p, TAB, LF, TAB, TAB, rest);
      assert DecodeTabOp(pr, p) == DecodeIo(pr, p, q);
  }

  lemma AssembleFlow(pr: seq<char>, p: nat, i: Instr, rest: seq<char>)
    requires Program(pr) && TokenAt(pr, p)
    requires i.Mark? || i.Call? || i.Jump? || i.JumpZero? || i.JumpNeg? || i.Return?
    requires TokensFrom(pr, p) == Assemble(i) + rest
    ensures OperandFits(i) ==> Decode(pr, p).Ok? && Decode(pr, p).value.instr == i
    ensures OperandFits(i) && i != Return ==> TokensFrom(pr, Decode(pr, p).value.next) == rest
    ensures !OperandFits(i) ==> Decode(pr, p) == Err(Overflow)
  {
    if i.Return? {
      var q, s := Walk3(pr, p, LF, TAB, LF, rest);
      assert Decode(pr, p) == DecodeFlow(pr, p) == DecodeBranch(pr, p, q);
    } else {
      AssembleLiteral(pr, p, Opcode(i), Literal(i), rest);
    }
  }

  /** The token sequences that name no instruction; the last token of each
      is the offending one. */
  const BadSequences: seq<seq<char>> := [
    [SPACE, TAB],
    [TAB, SPACE, LF],
    [TAB, SPACE, TAB, LF],
    [TAB, TAB, LF],
    [TAB, LF, LF],
    [TAB, LF, SPACE, LF],
    [TAB, LF, TAB, LF]
  ]

  /** A stream that starts with a bad sequence is rejected at the position
      of its last token, wherever comments put that token. */
  lemma BadSequenceRejected(pr: seq<char>, p: nat, b: seq<char>, rest: seq<char>)
    requires Program(pr) && TokenAt(pr, p) && b in BadSequences
    requires TokensFrom(pr, p) == b + rest
    ensures Decode(pr, p).Err? && Decode(pr, p).error.UnexpectedChar?
    ensures TokensFrom(pr, Decode(pr, p).error.pos) == [b[|b| - 1]] + rest
  {
    if b == [SPACE, TAB] {
      var q := Walk2(pr, p, SPACE, TAB, rest);
      assert Decode(pr, p) == DecodeStackOp(pr, p) == Err(UnexpectedChar(q));
    } else if b == [TAB, SPACE, LF] {
      var q, s := Walk3(pr, p, TAB, SPACE, LF, rest);
      assert Decode(pr, p) == DecodeTabOp(pr, p) == DecodeArith(pr, p, q) == Err(UnexpectedChar(s));
    } else if b == [TAB, SPACE, TAB, LF] {
      var q, s, t := Walk4(pr, p, TAB, SPACE, TAB, LF, rest);
      assert Decode(pr, p) == DecodeTabOp(pr, p) == DecodeArith(pr, p, q) == Err(UnexpectedChar(t));
    } else if b == [TAB, TAB, LF] {
      var q, s := Walk3(pr, p, TAB, TAB, LF, rest);
      assert Decode(pr, p) == DecodeTabOp(pr, p) == Err(UnexpectedChar(s));
    } else if b == [TAB, LF, LF] {
      var q, s := Walk3(pr, p, TAB, LF, LF, rest);
      assert Decode(pr, p) == DecodeTabOp(pr, p) == DecodeIo(pr, p, q) == Err(UnexpectedChar(s));
    } else if b == [TAB, LF, SPACE, LF] {
      var q, s, t := Walk4(pr, p, TAB, LF, SPACE, LF, rest);
      assert Decode(pr, p) == DecodeTabOp(pr, p) == DecodeIo(pr, p, q) == Err(UnexpectedChar(t));
    } else {
      var q, s, t := Walk4(pr, p, TAB, LF, TAB, LF, rest);
      assert Decode(pr, p) == DecodeTabOp(pr, p) == DecodeIo(pr, p, q) == Err(UnexpectedChar(t));
    }
  }

  /** LF LF ends the program only when the byte right after the second LF
      is a third LF; anything else there, a comment byte included, is
      reported at the second LF. */
  lemma EndOfProgram(pr: seq<char>, p: nat, rest: seq<char>)
    requires Program(pr) && TokenAt(pr, p)
    requires TokensFrom(pr, p) == [LF, LF] + rest
    ensures NextToken(pr, p).Ok?
    ensures TokensFrom(pr, NextToken(pr, p).value) == [LF] + rest
    ensures pr[NextToken(pr, p).value + 1] == LF ==>
      Decode(pr, p) == Ok(Decoded(Halt, NextToken(pr, p).value))
    ensures pr[NextToken(pr, p).value + 1] != LF ==>
      Decode(pr, p) == Err(UnexpectedChar(NextToken(pr, p).value))
  {
    var q := Walk2(pr, p, LF, LF, rest);
  }

  /** Conversely, Halt is decoded only from three LF tokens. */
  lemma HaltSpelledByThreeLf(pr: seq<char>, p: nat)
    requires Program(pr) && TokenAt(pr, p)
    requires Decode(pr, p).Ok? && Decode(pr, p).value.instr == Halt
    ensures |TokensFrom(pr, p)| >= 3 && TokensFrom(pr, p)[..3] == [LF, LF, LF]
  {
    assert Decode(pr, p) == DecodeFlow(pr, p);
    var q := NextToken(pr, p).value;
    assert pr[q + 1] == LF;
    TokensAtToken(pr, p);
    TokensAtToken(pr, q);
    assert NextWhite(pr, q) == q + 1;
    assert TokensFrom(pr, q + 1)[0] == LF;
  }

  /** Two decoding results that correspond across buffers with the same
      tokens: the same instruction or error kind, and cursors (or error
      positions) from which the same tokens follow. */
  ghost predicate Agree(pr1: seq<char>, r1: Result<Decoded>, pr2: seq<char>, r2: Result<Decoded>)
    requires Program(pr1) && Program(pr2)
  {
    match r1
    case Ok(d1) =>
      r2.Ok? && d1.instr == r2.value.instr && SameStream(pr1, d1.next, pr2, r2.value.next)
    case Err(UnexpectedChar(a)) =>
      r2.Err? && r2.error.UnexpectedChar? && SameStream(pr1, a, pr2, r2.error.pos)
    case Err(e) => r2 == Err(e)
  }

  /** A stream that starts LF LF: the one place where the source looks at a
      raw byte instead of the next token. */
  predicate StartsEndOfProgram(ts: seq<char>) {
    |ts| >= 2 && ts[0] == LF && ts[1] == LF
  }

  /** Comment transparency of the decoder: buffers with the same tokens from
      the cursor on decode alike, except for the end-of-program check. */
  lemma CommentTransparency(pr1: seq<char>, p1: nat, pr2: seq<char>, p2: nat)
    requires SameStream(pr1, p1, pr2, p2) && TokenAt(pr1, p1) && TokenAt(pr2, p2)
    requires !StartsEndOfProgram(TokensFrom(pr1, p1))
    ensures Agree(pr1, Decode(pr1, p1), pr2, Decode(pr2, p2))
  {
    NextTokenSame(pr1, p1, pr2, p2);
    if pr1[p1] == SPACE {
      StackOpSame(pr1, p1, pr2, p2);
    } else if pr1[p1] == TAB {
      TabOpSame(pr1, p1, pr2, p2);
    } else {
      FlowSame(pr1, p1, pr2, p2);
    }
  }

  lemma StackOpSame(pr1: seq<char>, p1: nat, pr2: seq<char>, p2: nat)
    requires SameStream(pr1, p1, pr2, p2) && TokenAt(pr1, p1) && TokenAt(pr2, p2)
    ensures Agree(pr1, DecodeStackOp(pr1, p1), pr2, DecodeStackOp(pr2, p2))
  {
    NextTokenSame(pr1, p1, pr2, p2);
    if NextToken(pr1, p1).Ok? {
      var q1, q2 := NextToken(pr1, p1).value, NextToken(pr2, p2).value;
      NextTokenSame(pr1, q1, pr2, q2);
      if pr1[q1] != TAB && NextToken(pr1, q1).Ok? {
        var s1, s2 := NextToken(pr1, q1).value, NextToken(pr2, q2).value;
        NextTokenSame(pr1, s1, pr2, s2);
        DecodeNumberSame(pr1, s1, pr2, s2);
      }
    }
  }

  lemma TabOpSame(pr1: seq<char>, p1: nat, pr2: seq<char>, p2: nat)
    requires SameStream(pr1, p1, pr2, p2) && TokenAt(pr1, p1) && TokenAt(pr2, p2)
    ensures Agree(pr1, DecodeTabOp(pr1, p1), pr2, DecodeTabOp(pr2, p2))
  {
    NextTokenSame(pr1, p1, pr2, p2);
    if NextToken(pr1, p1).Ok? {
      var q1, q2 := NextToken(pr1, p1).value, NextToken(pr2, p2).value;
      NextTokenSame(pr1, q1, pr2, q2);
      if NextToken(pr1, q1).Ok? {
        var s1, s2 := NextToken(pr1, q1).value, NextToken(pr2, q2).value;
        NextTokenSame(pr1, s1, pr2, s2);
        if NextToken(pr1, s1).Ok? {
          NextTokenSame(pr1, NextToken(pr1, s1).value, pr2, NextToken(pr2, s2).value);
        }
      }
      if pr1[q1] == SPACE {
        assert DecodeTabOp(pr1, p1) == DecodeArith(pr1, p1, q1);
      } else if pr1[q1] == LF {
        assert DecodeTabOp(pr1, p1) == DecodeIo(pr1, p1, q1);
      }
    }
  }

  lemma FlowSame(pr1: seq<char>, p1: nat, pr2: seq<char>, p2: nat)
    requires SameStream(pr1, p1, pr2, p2) && TokenAt(pr1, p1) && TokenAt(pr2, p2)
    requires pr1[p1] == LF && !StartsEndOfProgram(TokensFrom(pr1, p1))
    ensures Agree(pr1, DecodeFlow(pr1, p1), pr2, DecodeFlow(pr2, p2))
  {
    NextTokenSame(pr1, p1, pr2, p2);
    if NextToken(pr1, p1).Ok? {
      var q1, q2 := NextToken(pr1, p1).value, NextToken(pr2, p2).value;
      NextTokenDrops(pr1, p1);
      assert pr1[q1] == TokensFrom(pr1, p1)[1];
      NextTokenSame(pr1, q1, pr2, q2);
      if pr1[q1] == SPACE {
        assert DecodeFlow(pr1, p1) == DecodeJump(pr1, p1, q1);
        assert DecodeFlow(pr2, p2) == DecodeJump(pr2, p2, q2);
        JumpSame(pr1, p1, q1, pr2, p2, q2);
      } else {
        assert DecodeFlow(pr1, p1) == DecodeBranch(pr1, p1, q1);
        assert DecodeFlow(pr2, p2) == DecodeBranch(pr2, p2, q2);
        BranchSame(pr1, p1, q1, pr2, p2, q2);
      }
    }
  }

  lemma JumpSame(pr1: seq<char>, p1: nat, q1: nat, pr2: seq<char>, p2: nat, q2: nat)
    requires SameStream(pr1, q1, pr2, q2) && p1 < q1 && p2 < q2 && TokenAt(pr1, q1) && TokenAt(pr2, q2)
    ensures Agree(pr1, DecodeJump(pr1, p1, q1), pr2, DecodeJump(pr2, p2, q2))
  {
    NextTokenSame(pr1, q1, pr2, q2);
    if NextToken(pr1, q1).Ok? {
      var s1, s2 := NextToken(pr1, q1).value, NextToken(pr2, q2).value;
      NextTokenSame(pr1, s1, pr2, s2);
      if NextToken(pr1, s1).Ok? {
        DecodeNumberSame(pr1, NextToken(pr1, s1).value, pr2, NextToken(pr2, s2).value);
      }
    }
  }

  lemma BranchSame(pr1: seq<char>, p1: nat, q1: nat, pr2: seq<char>, p2: nat, q2: nat)
    requires SameStream(pr1, q1, pr2, q2) && p1 < q1 && p2 < q2 && TokenAt(pr1, q1) && TokenAt(pr2, q2)
    ensures Agree(pr1, DecodeBranch(pr1, p1, q1), pr2, DecodeBranch(pr2, p2, q2))
  {
    NextTokenSame(pr1, q1, pr2, q2);
    if NextToken(pr1, q1).Ok? {
      var s1, s2 := NextToken(pr1, q1).value, NextToken(pr2, q2).value;
      NextTokenSame(pr1, s1, pr2, s2);
      if NextToken(pr1, s1).Ok? {
        DecodeNumberSame(pr1, NextToken(pr1, s1).value, pr2, NextToken(pr2, s2).value);
      }
    }
  }

  /** The decoder sees only the tokens: decoding at `p` agrees with
      decoding the comment-free buffer of the tokens that follow `p`. */
  lemma DecodeSeesOnlyTokens(pr: seq<char>, p: nat)
    requires Program(pr) && TokenAt(pr, p) && !StartsEndOfProgram(TokensFrom(pr, p))
    ensures Program(Stripped(pr, p)) && TokenAt(Stripped(pr, p), 0)
    ensures Agree(pr, Decode(pr, p), Stripped(pr, p), Decode(Stripped(pr, p), 0))
  {
    TokensOfTokens(TokensFrom(pr, p));
    CommentTransparency(pr, p, Stripped(pr, p), 0);
  }

  /** Running into NUL inside an instruction: a stream that holds only a
      proper prefix of an instruction's spelling is Unfinished. (Halt's
      prefix LF LF is the end-of-program check, see EndOfProgram.) */
  lemma UnfinishedPrefix(pr: seq<char>, p: nat, i: Instr, k: nat)
    requires Program(pr) && TokenAt(pr, p) && i != Halt && 0 < k < |Assemble(i)|
    requires TokensFrom(pr, p) == Assemble(i)[..k]
    ensures Decode(pr, p) == Err(Unfinished)
  {
    var a := Assemble(i);
    var ts := TokensFrom(pr, p);
    if HasLiteral(i) {
      var n := Literal(i);
      var m: nat := if n < 0 then -n else n;
      var sign := if n < 0 then TAB else SPACE;
      assert a == Opcode(i) + ([sign] + Binary(m) + [LF]);
      LiteralPrefixUnfinished(pr, p, Opcode(i), sign, Binary(m), k);
    } else {
      FixedPrefixUnfinished(pr, p, i, k);
    }
  }

  /** An instruction without a literal, cut off before its last token. */
  lemma FixedPrefixUnfinished(pr: seq<char>, p: nat, i: Instr, k: nat)
    requires Program(pr) && TokenAt(pr, p) && i != Halt && !HasLiteral(i) && 0 < k < |Assemble(i)|
    requires TokensFrom(pr, p) == Assemble(i)[..k]
    ensures Decode(pr, p) == Err(Unfinished)
  {
    var a := Assemble(i);
    var ts := TokensFrom(pr, p);
    if k == 1 {
      OneToken(pr, p);
    } else if k == 2 {
      assert ts == [a[0], a[1]];
      TwoTokens(pr, p);
    } else {
      assert ts == [a[0], a[1], a[2]];
      ThreeTokens(pr, p);
    }
  }

  /** An opcode and a literal in any spelling, cut off anywhere before the
      literal's LF: running into NUL there is Unfinished. */
  lemma LiteralPrefixUnfinished(pr: seq<char>, p: nat, op: seq<char>, sign: char, ds: seq<char>, k: nat)
    requires Program(pr) && TokenAt(pr, p) && op in LiteralOpcodes && AllBits(ds)
    requires 0 < k < |op| + |ds| + 2
    requires TokensFrom(pr, p) == (op + ([sign] + ds + [LF]))[..k]
    ensures Decode(pr, p) == Err(Unfinished)
  {
    var a := op + ([sign] + ds + [LF]);
    var ts := TokensFrom(pr, p);
    if k == 1 {
      OneToken(pr, p);
    } else if k == 2 {
      assert ts == [a[0], a[1]] == op[..2];
      TwoTokens(pr, p);
    } else if k <= |op| {
      assert ts == [a[0], a[1], a[2]] == op;
      ThreeTokens(pr, p);
    } else {
      var bits := ds[..k - |op| - 1];
      assert ts == op + ([sign] + bits);
      LiteralCut(pr, p, op, sign, bits);
    }
  }

  lemma OneToken(pr: seq<char>, p: nat)
    requires Program(pr) && TokenAt(pr, p) && |TokensFrom(pr, p)| == 1
    ensures Decode(pr, p) == Err(Unfinished)
  {
    StreamEnds(pr, p);
  }

  lemma TwoTokens(pr: seq<char>, p: nat)
    requires Program(pr) && TokenAt(pr, p) && |TokensFrom(pr, p)| == 2
    requires TokensFrom(pr, p) != [SPACE, TAB] && TokensFrom(pr, p) != [LF, LF]
    ensures Decode(pr, p) == Err(Unfinished)
  {
    var ts := TokensFrom(pr, p);
    var q := Advance(pr, p, ts[1..]);
    StreamEnds(pr, q);
    if pr[p] == TAB {
      if pr[q] == SPACE {
        assert DecodeTabOp(pr, p) == DecodeArith(pr, p, q);
      } else if pr[q] == LF {
        assert DecodeTabOp(pr, p) == DecodeIo(pr, p, q);
      }
    } else if pr[p] == LF {
      assert ts == [LF, pr[q]];
      if pr[q] == SPACE {
        assert DecodeFlow(pr, p) == DecodeJump(pr, p, q);
      } else {
        assert DecodeFlow(pr, p) == DecodeBranch(pr, p, q);
      }
    } else {
      assert ts == [SPACE, pr[q]];
    }
  }

  /** The three-token prefixes after which the tree still asks for a token. */
  predicate OpensLonger(ts: seq<char>) {
    ts in [[TAB, SPACE, SPACE], [TAB, SPACE, TAB], [TAB, LF, SPACE], [TAB, LF, TAB],
           [SPACE, SPACE, SPACE], [SPACE, SPACE, TAB], [SPACE, SPACE, LF],
           [LF, SPACE, SPACE], [LF, SPACE, TAB], [LF, SPACE, LF], [LF, TAB, SPACE], [LF, TAB, TAB]]
  }

  lemma ThreeTokens(pr: seq<char>, p: nat)
    requires Program(pr) && TokenAt(pr, p) && |TokensFrom(pr, p)| == 3
    requires OpensLonger(TokensFrom(pr, p))
    ensures Decode(pr, p) == Err(Unfinished)
  {
    var ts := TokensFrom(pr, p);
    var q, s := Walk3(pr, p, ts[0], ts[1], ts[2], []);
    StreamEnds(pr, s);
    if pr[p] == TAB {
      if pr[q] == SPACE {
        assert DecodeTabOp(pr, p) == DecodeArith(pr, p, q);
      } else {
        assert DecodeTabOp(pr, p) == DecodeIo(pr, p, q);
      }
    } else if pr[p] == LF {
      if pr[q] == SPACE {
        assert DecodeFlow(pr, p) == DecodeJump(pr, p, q);
      } else {
        assert DecodeFlow(pr, p) == DecodeBranch(pr, p, q);
      }
    }
  }

  /** An opcode, then a literal's sign and bits with no LF after them. */
  lemma LiteralCut(pr: seq<char>, p: nat, op: seq<char>, sign: char, ds: seq<char>)
    requires Program(pr) && TokenAt(pr, p) && op in LiteralOpcodes && AllBits(ds)
    requires TokensFrom(pr, p) == op + ([sign] + ds)
    ensures Decode(pr, p) == Err(Unfinished)
  {
    var cut := [sign] + ds;
    assert cut[1..] == ds;
    assert TokensFrom(pr, p) == op + cut + [];
    if op == [SPACE, SPACE] {
      LiteralAfterPush(pr, p, cut, []);
      var s := NextToken(pr, NextToken(pr, p).value).value;
      DecodeNumberUnfinished(pr, s);
      assert Decode(pr, p) == DecodeStackOp(pr, p);
    } else {
      var q, s, t := LiteralAfterFlow(pr, p, op, cut, []);
      DecodeNumberUnfinished(pr, t);
      assert Decode(pr, p) == DecodeFlow(pr, p);
      if op[1] == SPACE {
        assert DecodeFlow(pr, p) == DecodeJump(pr, p, q);
      } else {
        assert DecodeFlow(pr, p) == DecodeBranch(pr, p, q);
      }
    }
  }
}
