/** The number decoder `read_number`: a sign token (TAB is minus, anything
    else plus) followed by the magnitude in binary, most significant bit
    first, SPACE = 0 and TAB = 1, terminated by LF. */
module Numbers {
  import opened Base
  import opened Scanner

  predicate IsBit(c: char) {
    c == SPACE || c == TAB
  }

  predicate AllBits(ds: seq<char>) {
    forall i :: 0 <= i < |ds| ==> IsBit(ds[i])
  }

  function BitValue(c: char): nat {
    if c == TAB then 1 else 0
  }

  function Pow2(k: nat): (r: nat)
    ensures r >= 1
  {
    if k == 0 then 1 else 2 * Pow2(k - 1)
  }

  /** Reference meaning of a bit string: the first token is the most
      significant bit. */
  function BinaryValue(ds: seq<char>): nat {
    if ds == [] then 0 else BitValue(ds[0]) * Pow2(|ds| - 1) + BinaryValue(ds[1..])
  }

  /** The largest magnitude a literal may have: the source accumulates in a
      C++ `int`, so a larger one overflows. */
  const MaxMagnitude: nat := 0x7FFF_FFFF

  /** A value `read_number` can deliver: magnitude at most MaxMagnitude. */
  predicate LiteralFits(n: int) {
    -0x8000_0000 < n < 0x8000_0000
  }

  /** The sign applied to a magnitude, as `neg ? -ret : ret`. */
  function Signed(sign: char, m: nat): int {
    if sign == TAB then -(m as int) else m
  }

  datatype Bits = Bits(value: nat, lf: nat)
  datatype Num = Num(value: int, next: nat)

  /** The loop of `read_number`: from the token at `q`, shift in one bit per
      token until the LF; `lf` is where the LF sits. */
  function ReadBits(pr: seq<char>, q: nat, acc: nat): (r: Result<Bits>)
    requires Program(pr) && TokenAt(pr, q)
    ensures r.Ok? ==> TokenAt(pr, r.value.lf) && pr[r.value.lf] == LF && q <= r.value.lf
    ensures r.Err? ==> r.error == Unfinished
    decreases |pr| - q
  {
    if pr[q] == LF then Ok(Bits(acc, q))
    else
      var q' :- NextToken(pr, q);
      ReadBits(pr, q', 2 * acc + BitValue(pr[q]))
  }

  /** `read_number` at the sign token `p`: the value and the cursor after the
      terminating LF (the next token or NUL). */
  function DecodeNumber(pr: seq<char>, p: nat): (r: Result<Num>)
    requires Program(pr) && TokenAt(pr, p)
    ensures r.Ok? ==> p < r.value.next < |pr| && IsStop(pr[r.value.next])
    ensures r.Ok? ==> LiteralFits(r.value.value)
    ensures r.Ok? && r.value.value < 0 ==> pr[p] == TAB
    ensures r.Err? ==> r.error == Unfinished || r.error == Overflow
  {
    var q :- NextToken(pr, p);
    var b :- ReadBits(pr, q, 0);
    if b.value > MaxMagnitude then Err(Overflow)
    else Ok(Num(Signed(pr[p], b.value), NextWhite(pr, b.lf)))
  }

  /** `read_number`, with the loop of the source. The accumulator is an
      unbounded integer and the overflow the C++ shift would hit is reported
      once the LF is reached. */
  method ReadNumber(pr: seq<char>, p: nat) returns (r: Result<Num>)
    requires Program(pr) && TokenAt(pr, p)
    ensures r == DecodeNumber(pr, p)
  {
    var ret: nat := 0;
    var neg := pr[p] == TAB;
    var q :- FindNextWhiteCharOrError(pr, p);
    while pr[q] != LF
      invariant TokenAt(pr, q)
      invariant ReadBits(pr, q, ret) == ReadBits(pr, NextWhite(pr, p), 0)
      decreases |pr| - q
    {
      ret := 2 * ret;
      if pr[q] == TAB {
        ret := ret + 1;
      }
      q :- FindNextWhiteCharOrError(pr, q);
    }
    var next, _ := FindNextWhiteChar(pr, q);
    if ret > MaxMagnitude {
      return Err(Overflow);
    }
    r := Ok(Num(if neg then -(ret as int) else ret, next));
  }

  /** Bits followed by LF, wherever comments sit between them, accumulate
      to their binary value. */
  lemma {:induction false} ReadBitsValue(pr: seq<char>, q: nat, acc: nat, ds: seq<char>, rest: seq<char>)
    requires Program(pr) && TokenAt(pr, q) && AllBits(ds)
    requires TokensFrom(pr, q) == ds + [LF] + rest
    ensures ReadBits(pr, q, acc).Ok?
    ensures ReadBits(pr, q, acc).value.value == acc * Pow2(|ds|) + BinaryValue(ds)
    ensures TokensFrom(pr, ReadBits(pr, q, acc).value.lf) == [LF] + rest
    decreases |ds|
  {
    if ds == [] {
      assert TokensFrom(pr, q)[0] == LF;
    } else {
      assert pr[q] == ds[0];
      NextTokenDrops(pr, q);
      assert TokensFrom(pr, q)[1..] == ds[1..] + [LF] + rest;
      var q' := NextToken(pr, q).value;
      var acc' := 2 * acc + BitValue(ds[0]);
      ReadBitsValue(pr, q', acc', ds[1..], rest);
      ShiftIn(acc, BitValue(ds[0]), |ds| - 1);
    }
  }

  lemma ShiftIn(acc: nat, b: nat, k: nat)
    ensures (2 * acc + b) * Pow2(k) == acc * Pow2(k + 1) + b * Pow2(k)
  {
    calc {
      (2 * acc + b) * Pow2(k);
      2 * acc * Pow2(k) + b * Pow2(k);
      acc * (2 * Pow2(k)) + b * Pow2(k);
    }
  }

  /** Bits that run into NUL before any LF leave the number unfinished. */
  lemma {:induction false} ReadBitsUnfinished(pr: seq<char>, q: nat, acc: nat)
    requires Program(pr) && TokenAt(pr, q) && AllBits(TokensFrom(pr, q))
    ensures ReadBits(pr, q, acc) == Err(Unfinished)
    decreases |pr| - q
  {
    NextTokenDrops(pr, q);
    if NextToken(pr, q).Ok? {
      ReadBitsUnfinished(pr, NextToken(pr, q).value, 2 * acc + BitValue(pr[q]));
    }
  }

  /** What `read_number` yields for a well-formed literal: the signed binary
      value of the bits, or Overflow when it does not fit; the cursor is left
      where the rest of the stream begins. */
  lemma DecodeNumberValue(pr: seq<char>, p: nat, sign: char, ds: seq<char>, rest: seq<char>)
    requires Program(pr) && TokenAt(pr, p) && AllBits(ds)
    requires TokensFrom(pr, p) == [sign] + ds + [LF] + rest
    ensures BinaryValue(ds) > MaxMagnitude ==> DecodeNumber(pr, p) == Err(Overflow)
    ensures BinaryValue(ds) <= MaxMagnitude ==>
      DecodeNumber(pr, p).Ok? &&
      DecodeNumber(pr, p).value.value == Signed(sign, BinaryValue(ds)) &&
      TokensFrom(pr, DecodeNumber(pr, p).value.next) == rest
  {
    NextTokenDrops(pr, p);
    assert TokensFrom(pr, p)[1..] == ds + [LF] + rest;
    var q := NextToken(pr, p).value;
    ReadBitsValue(pr, q, 0, ds, rest);
    var lf := ReadBits(pr, q, 0).value.lf;
    NextTokenDrops(pr, lf);
    assert [LF] + rest == TokensFrom(pr, lf);
  }

  /** A literal whose bits reach NUL before an LF is unfinished. */
  lemma DecodeNumberUnfinished(pr: seq<char>, p: nat)
    requires Program(pr) && TokenAt(pr, p) && AllBits(TokensFrom(pr, p)[1..])
    ensures DecodeNumber(pr, p) == Err(Unfinished)
  {
    NextTokenDrops(pr, p);
    if NextToken(pr, p).Ok? {
      ReadBitsUnfinished(pr, NextToken(pr, p).value, 0);
    }
  }

  /** A sign followed directly by LF reads as 0, whatever the sign. */
  lemma NoBitsIsZero(pr: seq<char>, p: nat, rest: seq<char>)
    requires Program(pr) && TokenAt(pr, p)
    requires TokensFrom(pr, p) == [pr[p], LF] + rest
    ensures DecodeNumber(pr, p).Ok? && DecodeNumber(pr, p).value.value == 0
  {
    DecodeNumberValue(pr, p, pr[p], [], rest);
  }

  lemma BinaryDigits()
    ensures BinaryValue([TAB, SPACE, TAB, SPACE]) == 10
    ensures BinaryValue([TAB, SPACE, SPACE, SPACE]) == 8
  {
    assert Pow2(1) == 2 && Pow2(2) == 4 && Pow2(3) == 8;
    assert BinaryValue([SPACE]) == 0 by { assert [SPACE][1..] == []; }
    assert BinaryValue([TAB, SPACE]) == 2 by { assert [TAB, SPACE][1..] == [SPACE]; }
    assert BinaryValue([SPACE, SPACE]) == 0 by { assert [SPACE, SPACE][1..] == [SPACE]; }
    assert BinaryValue([SPACE, TAB, SPACE]) == 2 by { assert [SPACE, TAB, SPACE][1..] == [TAB, SPACE]; }
    assert BinaryValue([SPACE, SPACE, SPACE]) == 0 by { assert [SPACE, SPACE, SPACE][1..] == [SPACE, SPACE]; }
    assert [TAB, SPACE, TAB, SPACE][1..] == [SPACE, TAB, SPACE];
    assert [TAB, SPACE, SPACE, SPACE][1..] == [SPACE, SPACE, SPACE];
  }

  /** The two example literals in the source comment beside `read_number`. */
  lemma DocumentedExamples(pr: seq<char>, p: nat, rest: seq<char>)
    requires Program(pr) && TokenAt(pr, p)
    ensures TokensFrom(pr, p) == [SPACE, TAB, SPACE, TAB, SPACE, LF] + rest ==>
      DecodeNumber(pr, p).Ok? && DecodeNumber(pr, p).value.value == 10
    ensures TokensFrom(pr, p) == [TAB, TAB, SPACE, SPACE, SPACE, LF] + rest ==>
      DecodeNumber(pr, p).Ok? && DecodeNumber(pr, p).value.value == -8
  {
    if TokensFrom(pr, p) == [SPACE, TAB, SPACE, TAB, SPACE, LF] + rest {
      assert BinaryValue([TAB, SPACE, TAB, SPACE]) == 10 by {
        BinaryDigits();
      }
      DecodeNumberValue(pr, p, SPACE, [TAB, SPACE, TAB, SPACE], rest);
    }
    if TokensFrom(pr, p) == [TAB, TAB, SPACE, SPACE, SPACE, LF] + rest {
      assert BinaryValue([TAB, SPACE, SPACE, SPACE]) == 8 by {
        BinaryDigits();
      }
      DecodeNumberValue(pr, p, TAB, [TAB, SPACE, SPACE, SPACE], rest);
    }
  }

  /** The shortest bit string of a magnitude (none for 0). */
  function Binary(m: nat): (ds: seq<char>)
    ensures AllBits(ds)
  {
    if m == 0 then [] else Binary(m / 2) + [if m % 2 == 1 then TAB else SPACE]
  }

  /** The literal of `n`: sign, magnitude bits, LF. */
  function EncodeNumber(n: int): seq<char> {
    [if n < 0 then TAB else SPACE] + Binary(if n < 0 then -n else n) + [LF]
  }

  lemma {:induction false} BinaryValueSnoc(ds: seq<char>, d: char)
    ensures BinaryValue(ds + [d]) == 2 * BinaryValue(ds) + BitValue(d)
    decreases |ds|
  {
    if ds == [] {
      assert ds + [d] == [d];
    } else {
      assert (ds + [d])[1..] == ds[1..] + [d];
      BinaryValueSnoc(ds[1..], d);
      calc {
        BinaryValue(ds + [d]);
        BitValue(ds[0]) * Pow2(|ds|) + BinaryValue(ds[1..] + [d]);
        BitValue(ds[0]) * (2 * Pow2(|ds| - 1)) + 2 * BinaryValue(ds[1..]) + BitValue(d);
        2 * BinaryValue(ds) + BitValue(d);
      }
    }
  }

  lemma {:induction false} BinaryValueOfBinary(m: nat)
    ensures BinaryValue(Binary(m)) == m
  {
    if m > 0 {
      BinaryValueOfBinary(m / 2);
      BinaryValueSnoc(Binary(m / 2), if m % 2 == 1 then TAB else SPACE);
    }
  }

  /** Encoding then decoding is the identity on every value a literal can
      hold, in any buffer whose tokens spell the literal with any comments
      in between; larger magnitudes are reported as Overflow. */
  lemma RoundTrip(pr: seq<char>, p: nat, n: int, rest: seq<char>)
    requires Program(pr) && TokenAt(pr, p)
    requires TokensFrom(pr, p) == EncodeNumber(n) + rest
    ensures LiteralFits(n) ==>
      DecodeNumber(pr, p).Ok? && DecodeNumber(pr, p).value.value == n &&
      TokensFrom(pr, DecodeNumber(pr, p).value.next) == rest
    ensures !LiteralFits(n) ==> DecodeNumber(pr, p) == Err(Overflow)
  {
    var m: nat := if n < 0 then -n else n;
    BinaryValueOfBinary(m);
    var sign := if n < 0 then TAB else SPACE;
    assert TokensFrom(pr, p) == [sign] + Binary(m) + [LF] + rest;
    DecodeNumberValue(pr, p, sign, Binary(m), rest);
  }

  /** Comment bytes do not change what the bit loop accumulates. */
  lemma {:induction false} ReadBitsSame(pr1: seq<char>, q1: nat, pr2: seq<char>, q2: nat, acc: nat)
    requires SameStream(pr1, q1, pr2, q2) && TokenAt(pr1, q1) && TokenAt(pr2, q2)
    ensures ReadBits(pr1, q1, acc).Ok? <==> ReadBits(pr2, q2, acc).Ok?
    ensures ReadBits(pr1, q1, acc).Ok? ==>
      ReadBits(pr1, q1, acc).value.value == ReadBits(pr2, q2, acc).value.value &&
      SameStream(pr1, ReadBits(pr1, q1, acc).value.lf, pr2, ReadBits(pr2, q2, acc).value.lf)
    decreases |pr1| - q1
  {
    NextTokenSame(pr1, q1, pr2, q2);
    if pr1[q1] != LF && NextToken(pr1, q1).Ok? {
      ReadBitsSame(pr1, NextToken(pr1, q1).value, pr2, NextToken(pr2, q2).value,
                   2 * acc + BitValue(pr1[q1]));
    }
  }

  /** Comment transparency of literals: two buffers with the same tokens
      from the sign on decode to the same value or the same error, and
      continue with the same tokens. */
  lemma DecodeNumberSame(pr1: seq<char>, p1: nat, pr2: seq<char>, p2: nat)
    requires SameStream(pr1, p1, pr2, p2) && TokenAt(pr1, p1) && TokenAt(pr2, p2)
    ensures DecodeNumber(pr1, p1).Err? ==> DecodeNumber(pr2, p2) == DecodeNumber(pr1, p1)
    ensures DecodeNumber(pr1, p1).Ok? ==>
      DecodeNumber(pr2, p2).Ok? &&
      DecodeNumber(pr1, p1).value.value == DecodeNumber(pr2, p2).value.value &&
      SameStream(pr1, DecodeNumber(pr1, p1).value.next, pr2, DecodeNumber(pr2, p2).value.next)
  {
    NextTokenSame(pr1, p1, pr2, p2);
    if NextToken(pr1, p1).Ok? {
      var q1, q2 := NextToken(pr1, p1).value, NextToken(pr2, p2).value;
      ReadBitsSame(pr1, q1, pr2, q2, 0);
      if ReadBits(pr1, q1, 0).Ok? {
        NextTokenSame(pr1, ReadBits(pr1, q1, 0).value.lf, pr2, ReadBits(pr2, q2, 0).value.lf);
      }
    }
  }
}
