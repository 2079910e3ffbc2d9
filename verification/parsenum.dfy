/**
 * The strnto<T> integer parsers of kissc/parsenum.c, generated there by two
 * macros for int8_t .. int64_t and uint8_t .. uint64_t, modelled once and
 * parameterised by the integer type.
 *
 * The text is the sequence of characters between nptr and end; the
 * character read at end (by the prefix tests) is taken to be NUL, as it is
 * for the strto<T> wrappers that pass nptr + strlen(nptr). The optional
 * min and max bounds are Option values, and what the routine stores in
 * *ret is returned as an Option (None: *ret is not written).
 */
module ParseNum {
  import opened Common

  datatype ParseNumError =
    | NoErr
    | InvalidBase
    | NoDigitFound
    | NonDigitFound
    | TooSmall
    | TooLarge
    | LessThanMin
    | GreaterThanMax

  /** One of the eight instantiations: signedness and width in bits. */
  datatype IntType = IntType(signed: bool, bits: nat)

  predicate ValidType(t: IntType) {
    t.bits == 8 || t.bits == 16 || t.bits == 32 || t.bits == 64
  }

  /** 2^bits, the number of values of the type. */
  function Modulus(t: IntType): nat
    requires ValidType(t)
  {
    if t.bits == 8 then 0x100
    else if t.bits == 16 then 0x1_0000
    else if t.bits == 32 then 0x1_0000_0000
    else 0x1_0000_0000_0000_0000
  }

  /** 2^(bits-1), the magnitude of the smallest signed value. */
  function Half(t: IntType): nat
    requires ValidType(t)
    ensures 2 * Half(t) == Modulus(t)
  {
    if t.bits == 8 then 0x80
    else if t.bits == 16 then 0x8000
    else if t.bits == 32 then 0x8000_0000
    else 0x8000_0000_0000_0000
  }

  function TypeMin(t: IntType): int
    requires ValidType(t)
  {
    if t.signed then -(Half(t) as int) else 0
  }

  function TypeMax(t: IntType): int
    requires ValidType(t)
  {
    if t.signed then Half(t) - 1 else Modulus(t) - 1
  }

  /**
   * The conversion of an unsigned accumulator value (or its negation) into
   * the type: reduction modulo 2^bits, then two's complement for signed types.
   */
  function Narrow(t: IntType, x: int): (r: int)
    requires ValidType(t)
    ensures TypeMin(t) <= r <= TypeMax(t)
    ensures TypeMin(t) <= x <= TypeMax(t) ==> r == x
  {
    var m := x % Modulus(t);
    if t.signed && m >= Half(t) then m - Modulus(t) else m
  }

  /**
   * The largest magnitude the scan accepts: |min| for a negative signed
   * number, max otherwise (also for a negative unsigned one).
   */
  function Limit(t: IntType, negative: bool): (l: nat)
    requires ValidType(t)
    ensures l < Modulus(t)
  {
    if negative && t.signed then Half(t) else TypeMax(t)
  }

  /** How letters are valued: as the code does, or as a strtol-style parser means to. */
  datatype LetterRule = AsWritten | Intended

  function LetterValue(c: char, first: char, rule: LetterRule): int {
    match rule
    case AsWritten => c as int - first as int - 10
    case Intended => c as int - first as int + 10
  }

  /** The value of character c as a digit of base, or None when it is not one. */
  function DigitOf(c: char, base: int, rule: LetterRule): (r: Option<int>)
    ensures r.Some? ==> r.value < base
    ensures '0' <= c <= '9' ==> r == if c as int - '0' as int < base then Some(c as int - '0' as int) else None
  {
    var v :=
      if '0' <= c <= '9' then Some(c as int - '0' as int)
      else if base > 10 && 'A' <= c <= 'Z' then Some(LetterValue(c, 'A', rule))
      else if base > 10 && 'a' <= c <= 'z' then Some(LetterValue(c, 'a', rule))
      else None;
    if v.Some? && v.value >= base then None else v
  }

  /** The character at index i, or NUL at and past the end. */
  function CharAt(s: string, i: nat): char {
    if i < |s| then s[i] else '\0'
  }

  /** What the scan has after each step: the accumulator and the `any` flag (-1, 0 or 1). */
  datatype ScanState = ScanState(acc: int, any: int)

  /** One accepted digit: overflow sets any to -1 for good, otherwise acc = acc * base + c. */
  function Step(st: ScanState, c: int, base: int, cutoff: int, cutlim: int, m: nat): ScanState
    requires m > 0
  {
    if st.any < 0 || st.acc > cutoff || (st.acc == cutoff && c > cutlim) then ScanState(st.acc, -1)
    else ScanState((st.acc * base + c) % m, 1)
  }

  datatype ScanResult = ScanResult(st: ScanState, err: ParseNumError, pos: nat)

  /** The digit loop from index p to the end, or to the first character that is not a digit. */
  function ScanFrom(s: string, p: nat, base: int, rule: LetterRule, cutoff: int, cutlim: int, m: nat, st: ScanState): (r: ScanResult)
    requires p <= |s| && m > 0
    ensures p <= r.pos <= |s|
    decreases |s| - p
  {
    if p == |s| then ScanResult(st, NoErr, p)
    else match DigitOf(s[p], base, rule) {
      case None => ScanResult(st, NonDigitFound, p)
      case Some(c) => ScanFrom(s, p + 1, base, rule, cutoff, cutlim, m, Step(st, c, base, cutoff, cutlim, m))
    }
  }

  /** Where the digits start, the base they are read in, and the sign. */
  datatype Prefix = Prefix(start: nat, base: int, negative: bool)

  function SignEnd(s: string): nat {
    if s != [] && (s[0] == '-' || s[0] == '+') then 1 else 0
  }

  /** The sign, then the "0b"/"0B" and "0x"/"0X" prefixes, then base auto-detection. */
  function ReadPrefix(s: string, base: int): (pre: Prefix)
    requires s != []
    ensures pre.start <= |s|
  {
    var negative := s[0] == '-';
    var p := SignEnd(s);
    var (p, base) :=
      if (base == 0 || base == 2) && CharAt(s, p) == '0' && |s| - p > 1 && (s[p + 1] == 'b' || s[p + 1] == 'B')
      then (p + 2, 2) else (p, base);
    var (p, base) :=
      if (base == 0 || base == 16) && CharAt(s, p) == '0' && |s| - p > 1 && (s[p + 1] == 'x' || s[p + 1] == 'X')
      then (p + 2, 16) else (p, base);
    var base := if base == 0 then (if CharAt(s, p) == '0' then 8 else 10) else base;
    Prefix(p, base, negative)
  }

  datatype Outcome = Outcome(err: ParseNumError, ret: Option<int>, endpos: nat)

  /** The bounds checks, done only when nothing else went wrong; max is tested last. */
  function BoundsCheck(v: int, min: Option<int>, max: Option<int>): ParseNumError {
    if max.Some? && v > max.value then GreaterThanMax
    else if min.Some? && v < min.value then LessThanMin
    else NoErr
  }

  /** Overflow: the bound in the direction of the sign is stored. */
  function Overflowed(t: IntType, negative: bool, pos: nat): Outcome
    requires ValidType(t)
  {
    if t.signed && negative then Outcome(TooSmall, Some(TypeMin(t)), pos)
    else Outcome(TooLarge, Some(TypeMax(t)), pos)
  }

  /** What follows the loop: overflow, no digit, or the value and the bounds checks. */
  function Finish(t: IntType, r: ScanResult, negative: bool, min: Option<int>, max: Option<int>): Outcome
    requires ValidType(t)
  {
    if r.st.any < 0 then Overflowed(t, negative, r.pos)
    else if r.st.any == 0 && r.err == NoErr then Outcome(NoDigitFound, None, r.pos)
    else
      var v := Narrow(t, Signed(negative, r.st.acc));
      if r.err == NoErr then Outcome(BoundsCheck(v, min, max), Some(v), r.pos)
      else Outcome(r.err, Some(v), r.pos)
  }

  /** strnto<T>(s, s + |s|, &endptr, base, min, max, &ret): the error, *ret and the endptr index. */
  function ParseSpec(s: string, base: int, t: IntType, rule: LetterRule, min: Option<int>, max: Option<int>): Outcome
    requires ValidType(t)
  {
    if s == [] then Finish(t, ScanResult(ScanState(0, 0), NoErr, 0), false, min, max)
    else
      var pre := ReadPrefix(s, base);
      if pre.base < 2 || pre.base > 36 then Outcome(InvalidBase, None, pre.start)
      else
        var lim := Limit(t, pre.negative);
        var r := ScanFrom(s, pre.start, pre.base, rule, lim / pre.base, lim % pre.base, Modulus(t), ScanState(0, 0));
        Finish(t, r, pre.negative, min, max)
  }

  /**
   * strnto<T>: the cursor moves past the sign and the prefix, then the loop
   * reads digits until the end or the first non-digit, accumulating modulo
   * 2^bits and recording overflow in `any`. The code is the AsWritten
   * letter rule; Intended gives the corrected routine.
   */
  method StrnToNum(s: string, base: int, t: IntType, rule: LetterRule, min: Option<int>, max: Option<int>) returns (err: ParseNumError, ret: Option<int>, endpos: nat)
    requires ValidType(t)
    ensures Outcome(err, ret, endpos) == ParseSpec(s, base, t, rule, min, max)
  {
    if s == [] {
      return NoDigitFound, None, 0;
    }
    var pre := SkipPrefix(s, base);
    var p, b, negative := pre.start, pre.base, pre.negative;
    if b < 2 || b > 36 {
      return InvalidBase, None, p;
    }
    ParseAfterPrefix(s, base, t, rule, min, max);
    var lim := Limit(t, negative);
    var cutoff := lim / b;
    var cutlim := lim % b;
    var r := ScanDigits(s, p, b, rule, cutoff, cutlim, Modulus(t));
    var o := Finish(t, r, negative, min, max);
    err, ret, endpos := o.err, o.ret, o.endpos;
  }

  /** The cursor moves of strnto<T> before its loop: sign, prefix, auto-detected base. */
  method SkipPrefix(s: string, base: int) returns (pre: Prefix)
    requires s != []
    ensures pre == ReadPrefix(s, base)
  {
    var p := 0;
    var negative := false;
    var b := base;
    if s[p] == '-' {
      p := p + 1;
      negative := true;
    } else if s[p] == '+' {
      p := p + 1;
    }
    if (b == 0 || b == 2) && CharAt(s, p) == '0' && |s| - p > 1 && (s[p + 1] == 'b' || s[p + 1] == 'B') {
      p := p + 2;
      b := 2;
    }
    if (b == 0 || b == 16) && CharAt(s, p) == '0' && |s| - p > 1 && (s[p + 1] == 'x' || s[p + 1] == 'X') {
      p := p + 2;
      b := 16;
    }
    if b == 0 {
      b := if CharAt(s, p) == '0' then 8 else 10;
    }
    pre := Prefix(p, b, negative);
  }

  /** The digit loop of strnto<T>, from index start with acc = any = 0. */
  method ScanDigits(s: string, start: nat, b: int, rule: LetterRule, cutoff: int, cutlim: int, m: nat) returns (r: ScanResult)
    requires start <= |s| && m > 0
    ensures r == ScanFrom(s, start, b, rule, cutoff, cutlim, m, ScanState(0, 0))
  {
    var p := start;
    var st := ScanState(0, 0);
    var e := NoErr;
    while p < |s|
      invariant start <= p <= |s|
      invariant ScanFrom(s, start, b, rule, cutoff, cutlim, m, ScanState(0, 0))
        == ScanFrom(s, p, b, rule, cutoff, cutlim, m, st)
    {
      var c := DigitOf(s[p], b, rule);
      if c.None? {
        e := NonDigitFound;
        break;
      }
      st := Step(st, c.value, b, cutoff, cutlim, m);
      p := p + 1;
    }
    r := ScanResult(st, e, p);
  }

  // ---------------------------------------------------------------------
  // The value of a run of digits

  /** Every character from index p on is a digit of base with a value that is not negative. */
  predicate DigitsFrom(s: string, p: nat, base: int, rule: LetterRule) {
    forall i :: p <= i < |s| ==> DigitOf(s[i], base, rule).Some? && DigitOf(s[i], base, rule).value >= 0
  }

  /** acc followed by the digits of d, read most significant first. */
  function Horner(acc: int, d: string, base: int, rule: LetterRule): int
    requires DigitsFrom(d, 0, base, rule)
    decreases |d|
  {
    if d == [] then acc
    else
      assert DigitsFrom(d[1..], 0, base, rule) by {
        forall i | 0 <= i < |d[1..]| ensures DigitOf(d[1..][i], base, rule).Some? && DigitOf(d[1..][i], base, rule).value >= 0 {
          assert d[1..][i] == d[i + 1];
        }
      }
      Horner(acc * base + DigitOf(d[0], base, rule).value, d[1..], base, rule)
  }

  /** The value of a string of digits. */
  function Value(d: string, base: int, rule: LetterRule): int
    requires DigitsFrom(d, 0, base, rule)
  {
    Horner(0, d, base, rule)
  }

  /** Reading more digits never makes a value smaller. */
  lemma {:induction false} HornerGrows(acc: int, d: string, base: int, rule: LetterRule)
    requires acc >= 0 && base >= 2 && DigitsFrom(d, 0, base, rule)
    ensures Horner(acc, d, base, rule) >= acc
    decreases |d|
  {
    if d != [] {
      var c := DigitOf(d[0], base, rule).value;
      assert acc * base >= acc;
      HornerGrows(acc * base + c, d[1..], base, rule);
    }
  }

  /** The overflow test of the loop is exactly acc * base + c > lim. */
  lemma CutoffTest(acc: int, c: int, base: int, lim: nat)
    requires acc >= 0 && base >= 2 && 0 <= c < base
    ensures (acc > lim / base || (acc == lim / base && c > lim % base)) <==> acc * base + c > lim
  {
    var q := lim / base;
    var r := lim % base;
    assert lim == q * base + r;
    if acc > q {
      assert acc * base >= (q + 1) * base;
    } else if acc < q {
      assert acc * base <= (q - 1) * base;
    }
  }

  /**
   * Over a run of digits the loop computes the exact value while it stays
   * within lim, and sets `any` to -1 once it goes beyond.
   */
  lemma {:induction false} ScanExact(s: string, p: nat, base: int, rule: LetterRule, lim: nat, m: nat, st: ScanState)
    requires p <= |s| && 2 <= base && lim < m
    requires DigitsFrom(s, p, base, rule)
    requires st.any == -1 || st.any == 0 || st.any == 1
    requires st.any >= 0 ==> 0 <= st.acc <= lim
    ensures DigitsFrom(s[p..], 0, base, rule)
    ensures var r := ScanFrom(s, p, base, rule, lim / base, lim % base, m, st);
      r.err == NoErr && r.pos == |s| &&
      (st.any >= 0 && Horner(st.acc, s[p..], base, rule) <= lim ==>
        r.st.acc == Horner(st.acc, s[p..], base, rule) && r.st.any == (if p == |s| then st.any else 1)) &&
      (st.any < 0 || Horner(st.acc, s[p..], base, rule) > lim ==> r.st.any == -1)
    decreases |s| - p
  {
    assert DigitsFrom(s[p..], 0, base, rule) by {
      forall i | 0 <= i < |s[p..]| ensures DigitOf(s[p..][i], base, rule).Some? && DigitOf(s[p..][i], base, rule).value >= 0 {
        assert s[p..][i] == s[p + i];
      }
    }
    if p < |s| {
      var c := DigitOf(s[p], base, rule).value;
      var next := Step(st, c, base, lim / base, lim % base, m);
      assert s[p..][0] == s[p] && s[p..][1..] == s[p + 1..];
      if st.any >= 0 {
        StepExact(st, c, base, lim, m);
      }
      ScanExact(s, p + 1, base, rule, lim, m, next);
      if st.any >= 0 {
        if st.acc * base + c > lim {
          HornerGrows(st.acc * base + c, s[p + 1..], base, rule);
        }
      }
    }
  }

  /** One step of the loop, within the limit: the exact value or overflow. */
  lemma StepExact(st: ScanState, c: int, base: int, lim: nat, m: nat)
    requires st.any >= 0 && 0 <= st.acc <= lim < m && 2 <= base && 0 <= c < base
    ensures Step(st, c, base, lim / base, lim % base, m) ==
      if st.acc * base + c > lim then ScanState(st.acc, -1) else ScanState(st.acc * base + c, 1)
  {
    CutoffTest(st.acc, c, base, lim);
    var x := st.acc * base + c;
    MulNonNegative(st.acc, base);
    if x <= lim {
      ModSmall(x, m);
    }
  }

  lemma MulNonNegative(a: int, b: int)
    requires a >= 0 && b >= 0
    ensures a * b >= 0
  {
  }

  lemma ModSmall(x: int, m: int)
    requires 0 <= x < m
    ensures x % m == x
  {
  }

  /** The loop stops at the first character that is not a digit, as if the text ended there. */
  lemma {:induction false} ScanStops(s: string, p: nat, q: nat, base: int, rule: LetterRule, cutoff: int, cutlim: int, m: nat, st: ScanState)
    requires p <= q < |s| && m > 0
    requires forall i :: p <= i < q ==> DigitOf(s[i], base, rule).Some?
    requires DigitOf(s[q], base, rule).None?
    ensures var r := ScanFrom(s[..q], p, base, rule, cutoff, cutlim, m, st);
      ScanFrom(s, p, base, rule, cutoff, cutlim, m, st) == ScanResult(r.st, NonDigitFound, q)
    decreases q - p
  {
    if p < q {
      assert s[..q][p] == s[p];
      ScanStops(s, p + 1, q, base, rule, cutoff, cutlim, m, Step(st, DigitOf(s[p], base, rule).value, base, cutoff, cutlim, m));
    }
  }

  // ---------------------------------------------------------------------
  // What the parser accepts and rejects

  predicate IsSign(sign: string) {
    sign == "" || sign == "+" || sign == "-"
  }

  /** The text starts with a "0b" or "0x" prefix that an explicit base 2 or 16 skips. */
  predicate HasPrefix(body: string, base: int) {
    |body| >= 2 && body[0] == '0' &&
    ((base == 2 && (body[1] == 'b' || body[1] == 'B')) || (base == 16 && (body[1] == 'x' || body[1] == 'X')))
  }

  /** With an explicit base and no prefix, the digits start right after the sign. */
  lemma PrefixExplicit(sign: string, body: string, base: int)
    requires IsSign(sign) && 2 <= base <= 36 && sign + body != []
    requires sign == "" ==> body == [] || (body[0] != '-' && body[0] != '+')
    requires !HasPrefix(body, base)
    ensures ReadPrefix(sign + body, base) == Prefix(|sign|, base, sign == "-")
  {
    var s := sign + body;
    assert SignEnd(s) == |sign|;
    assert s[|sign|..] == body;
    if |body| >= 2 {
      assert s[|sign| + 1] == body[1];
    }
  }

  /** The magnitude, with its sign, as the value the type receives. */
  function Signed(negative: bool, v: int): int {
    if negative then -v else v
  }

  /**
   * A sign and a run of digits: within the limit of the type, the value
   * converted to the type and checked against min and max; beyond it,
   * overflow. endptr is past the digits.
   */
  lemma ParseDigits(rule: LetterRule, sign: string, d: string, base: int, t: IntType, min: Option<int>, max: Option<int>)
    requires ValidType(t) && IsSign(sign) && 2 <= base <= 36
    requires d != [] && DigitsFrom(d, 0, base, rule) && !HasPrefix(d, base)
    ensures var v := Value(d, base, rule);
      var o := ParseSpec(sign + d, base, t, rule, min, max);
      (v <= Limit(t, sign == "-") ==>
        var x := Narrow(t, Signed(sign == "-", v));
        o == Outcome(BoundsCheck(x, min, max), Some(x), |sign| + |d|)) &&
      (v > Limit(t, sign == "-") ==> o == Overflowed(t, sign == "-", |sign| + |d|))
  {
    var s := sign + d;
    var neg := sign == "-";
    var lim := Limit(t, neg);
    ParseAfterSign(sign, d, base, t, rule, min, max);
    DigitsAfterSign(sign, d, base, rule);
    ScanExact(s, |sign|, base, rule, lim, Modulus(t), ScanState(0, 0));
    HornerGrows(0, d, base, rule);
    var r := ScanFrom(s, |sign|, base, rule, lim / base, lim % base, Modulus(t), ScanState(0, 0));
    FinishComplete(t, r, neg, min, max, Value(d, base, rule));
  }

  /** The digits of sign + d start right after the sign. */
  lemma DigitsAfterSign(sign: string, d: string, base: int, rule: LetterRule)
    requires DigitsFrom(d, 0, base, rule)
    ensures (sign + d)[|sign|..] == d && DigitsFrom(sign + d, |sign|, base, rule)
  {
    var s := sign + d;
    assert s[|sign|..] == d;
    forall i | |sign| <= i < |s|
      ensures DigitOf(s[i], base, rule).Some? && DigitOf(s[i], base, rule).value >= 0
    {
      assert s[i] == d[i - |sign|];
    }
  }

  /** The outcome after a scan that read digits up to the end. */
  lemma FinishComplete(t: IntType, r: ScanResult, negative: bool, min: Option<int>, max: Option<int>, v: int)
    requires ValidType(t) && r.err == NoErr && v >= 0
    requires v <= Limit(t, negative) ==> r.st.acc == v && r.st.any == 1
    requires v > Limit(t, negative) ==> r.st.any == -1
    ensures v <= Limit(t, negative) ==>
      var x := Narrow(t, Signed(negative, v));
      Finish(t, r, negative, min, max) == Outcome(BoundsCheck(x, min, max), Some(x), r.pos)
    ensures v > Limit(t, negative) ==> Finish(t, r, negative, min, max) == Overflowed(t, negative, r.pos)
  {
  }

  /**
   * A sign and digits whose value lies in the range of the type and within
   * min and max: no error, that value, and endptr at the end.
   */
  lemma ParseInRange(rule: LetterRule, sign: string, d: string, base: int, t: IntType, min: Option<int>, max: Option<int>)
    requires ValidType(t) && IsSign(sign) && 2 <= base <= 36
    requires d != [] && DigitsFrom(d, 0, base, rule) && !HasPrefix(d, base)
    requires var x := Signed(sign == "-", Value(d, base, rule));
      TypeMin(t) <= x <= TypeMax(t) && (min.None? || min.value <= x) && (max.None? || x <= max.value)
    ensures ParseSpec(sign + d, base, t, rule, min, max) ==
      Outcome(NoErr, Some(Signed(sign == "-", Value(d, base, rule))), |sign| + |d|)
  {
    HornerGrows(0, d, base, rule);
    ParseDigits(rule, sign, d, base, t, min, max);
  }

  /**
   * A non-digit after a sign and digits stops the scan there: the partial
   * value is stored without the min and max checks, unless the digits
   * before it already overflowed.
   */
  lemma ParseStopsAtNonDigit(rule: LetterRule, sign: string, d: string, c: char, rest: string, base: int, t: IntType, min: Option<int>, max: Option<int>)
    requires ValidType(t) && IsSign(sign) && 2 <= base <= 36
    requires DigitsFrom(d, 0, base, rule) && DigitOf(c, base, rule).None?
    requires sign == "" && d == [] ==> c != '-' && c != '+'
    requires !HasPrefix(d + [c] + rest, base)
    ensures var v := Value(d, base, rule);
      var o := ParseSpec(sign + d + [c] + rest, base, t, rule, min, max);
      (v <= Limit(t, sign == "-") ==>
        o == Outcome(NonDigitFound, Some(Narrow(t, Signed(sign == "-", v))), |sign| + |d|)) &&
      (v > Limit(t, sign == "-") ==> o == Overflowed(t, sign == "-", |sign| + |d|))
  {
    var body := d + [c] + rest;
    var s := sign + body;
    ConcatAssoc(sign, d + [c], rest);
    ConcatAssoc(sign, d, [c]);
    var q := |sign| + |d|;
    ParseAfterSign(sign, body, base, t, rule, min, max);
    DigitsBeforeStop(sign, d, c, rest, base, rule);
    var lim := Limit(t, sign == "-");
    ScanUpTo(s, |sign|, q, base, rule, lim, Modulus(t));
    HornerGrows(0, d, base, rule);
    var r := ScanFrom(s, |sign|, base, rule, lim / base, lim % base, Modulus(t), ScanState(0, 0));
    FinishStopped(t, r, sign == "-", min, max, Value(d, base, rule));
  }

  /** In sign + d + [c] + rest, the digits d sit between the sign and c. */
  lemma DigitsBeforeStop(sign: string, d: string, c: char, rest: string, base: int, rule: LetterRule)
    requires DigitsFrom(d, 0, base, rule)
    ensures var s := sign + (d + [c] + rest);
      var q := |sign| + |d|;
      q < |s| && s[q] == c && s[|sign|..q] == d && DigitsFrom(s[..q], |sign|, base, rule)
  {
    var s := sign + (d + [c] + rest);
    var q := |sign| + |d|;
    assert s[q] == c;
    assert s[|sign|..q] == d;
    forall i | |sign| <= i < q
      ensures DigitOf(s[..q][i], base, rule).Some? && DigitOf(s[..q][i], base, rule).value >= 0
    {
      assert s[..q][i] == d[i - |sign|];
    }
  }

  /** The outcome after a scan that stopped at a non-digit. */
  lemma FinishStopped(t: IntType, r: ScanResult, negative: bool, min: Option<int>, max: Option<int>, v: int)
    requires ValidType(t) && r.err == NonDigitFound && v >= 0
    requires v <= Limit(t, negative) ==> r.st.acc == v && r.st.any >= 0
    requires v > Limit(t, negative) ==> r.st.any == -1
    ensures v <= Limit(t, negative) ==> Finish(t, r, negative, min, max) == Outcome(NonDigitFound, Some(Narrow(t, Signed(negative, v))), r.pos)
    ensures v > Limit(t, negative) ==> Finish(t, r, negative, min, max) == Overflowed(t, negative, r.pos)
  {
  }

  /** Once the prefix is read with a valid base, the outcome is the scan from there. */
  lemma ParseAfterPrefix(s: string, base: int, t: IntType, rule: LetterRule, min: Option<int>, max: Option<int>)
    requires ValidType(t) && s != [] && 2 <= ReadPrefix(s, base).base <= 36
    ensures var pre := ReadPrefix(s, base);
      var lim := Limit(t, pre.negative);
      ParseSpec(s, base, t, rule, min, max) ==
        Finish(t, ScanFrom(s, pre.start, pre.base, rule, lim / pre.base, lim % pre.base, Modulus(t), ScanState(0, 0)), pre.negative, min, max)
  {
  }

  /** After an explicit sign and no base prefix, the scan starts right after the sign with the cutoff of the sign's limit. */
  lemma ParseAfterSign(sign: string, body: string, base: int, t: IntType, rule: LetterRule, min: Option<int>, max: Option<int>)
    requires ValidType(t) && IsSign(sign) && 2 <= base <= 36 && sign + body != []
    requires sign == "" ==> body == [] || (body[0] != '-' && body[0] != '+')
    requires !HasPrefix(body, base)
    ensures var lim := Limit(t, sign == "-");
      ParseSpec(sign + body, base, t, rule, min, max) ==
        Finish(t, ScanFrom(sign + body, |sign|, base, rule, lim / base, lim % base, Modulus(t), ScanState(0, 0)), sign == "-", min, max)
  {
    PrefixExplicit(sign, body, base);
    ParseAfterPrefix(sign + body, base, t, rule, min, max);
  }

  /** The loop over digits from start up to a non-digit at q. */
  lemma ScanUpTo(s: string, start: nat, q: nat, base: int, rule: LetterRule, lim: nat, m: nat)
    requires start <= q < |s| && 2 <= base && lim < m
    requires DigitsFrom(s[..q], start, base, rule) && DigitOf(s[q], base, rule).None?
    ensures DigitsFrom(s[start..q], 0, base, rule)
    ensures var v := Value(s[start..q], base, rule);
      var r := ScanFrom(s, start, base, rule, lim / base, lim % base, m, ScanState(0, 0));
      r.err == NonDigitFound && r.pos == q &&
      (v <= lim ==> r.st.acc == v && r.st.any == (if q == start then 0 else 1)) &&
      (v > lim ==> r.st.any == -1)
  {
    assert s[..q][start..] == s[start..q];
    forall i | start <= i < q
      ensures DigitOf(s[i], base, rule).Some?
    {
      assert s[..q][i] == s[i];
    }
    ScanStops(s, start, q, base, rule, lim / base, lim % base, m, ScanState(0, 0));
    ScanExact(s[..q], start, base, rule, lim, m, ScanState(0, 0));
  }

  /** Leading white space is not skipped: it is a non-digit at index 0. */
  lemma LeadingSpaceRefused(s: string, base: int, t: IntType, rule: LetterRule, min: Option<int>, max: Option<int>)
    requires ValidType(t) && 2 <= base <= 36 && s != [] && s[0] == ' '
    ensures ParseSpec(s, base, t, rule, min, max) == Outcome(NonDigitFound, Some(0), 0)
  {
    assert s == "" + [] + [' '] + s[1..];
    assert Value([], base, rule) == 0;
    ParseStopsAtNonDigit(rule, "", [], ' ', s[1..], base, t, min, max);
  }

  /**
   * Base 0 auto-detection, after the sign: "0b"/"0B" selects base 2 and
   * "0x"/"0X" base 16, both skipping the prefix; another leading '0'
   * selects base 8 and anything else base 10.
   */
  lemma AutoDetection(s: string)
    requires s != []
    ensures var p := SignEnd(s);
      var body := s[p..];
      var pre := ReadPrefix(s, 0);
      pre.negative == (s[0] == '-') &&
      (if |body| >= 2 && body[0] == '0' && (body[1] == 'b' || body[1] == 'B') then pre == Prefix(p + 2, 2, pre.negative)
       else if |body| >= 2 && body[0] == '0' && (body[1] == 'x' || body[1] == 'X') then pre == Prefix(p + 2, 16, pre.negative)
       else if body != [] && body[0] == '0' then pre == Prefix(p, 8, pre.negative)
       else pre == Prefix(p, 10, pre.negative))
  {
    var p := SignEnd(s);
    var body := s[p..];
    if |body| >= 2 {
      assert s[p] == body[0] && s[p + 1] == body[1];
    } else if body != [] {
      assert s[p] == body[0];
    }
  }

  /** "0" alone is an octal zero: no error, 0, and endptr past it. */
  lemma OctalZero(t: IntType, rule: LetterRule, min: Option<int>, max: Option<int>)
    requires ValidType(t) && (min.None? || min.value <= 0) && (max.None? || 0 <= max.value)
    ensures ParseSpec("0", 0, t, rule, min, max) == Outcome(NoErr, Some(0), 1)
  {
    AutoDetection("0");
    var lim := Limit(t, false);
    assert DigitOf('0', 8, rule) == Some(0);
    assert ScanFrom("0", 0, 8, rule, lim / 8, lim % 8, Modulus(t), ScanState(0, 0)).st == ScanState(0, 1);
  }

  /**
   * The empty text and the bare prefixes "0x" and "0b" contain no digit,
   * and *ret is not written.
   */
  lemma NoDigitCases(t: IntType, rule: LetterRule, min: Option<int>, max: Option<int>)
    requires ValidType(t)
    ensures forall base :: ParseSpec("", base, t, rule, min, max) == Outcome(NoDigitFound, None, 0)
    ensures ParseSpec("0x", 0, t, rule, min, max) == Outcome(NoDigitFound, None, 2)
    ensures ParseSpec("0b", 0, t, rule, min, max) == Outcome(NoDigitFound, None, 2)
  {
    AutoDetection("0x");
    AutoDetection("0b");
  }

  /** A base that is neither 0 nor in [2, 36] is refused once the sign is read. */
  lemma InvalidBaseRefused(s: string, base: int, t: IntType, rule: LetterRule, min: Option<int>, max: Option<int>)
    requires ValidType(t) && s != [] && base != 0 && (base < 2 || base > 36)
    ensures ParseSpec(s, base, t, rule, min, max) == Outcome(InvalidBase, None, SignEnd(s))
  {
  }

  // ---------------------------------------------------------------------
  // Letter digits

  /** As written, a letter is worth 20 less than its digit value: 'A' and 'a' are -10. */
  lemma AsWrittenLetters(c: char, base: int)
    requires 10 < base <= 36 && 'A' <= c <= 'Z'
    ensures DigitOf(c, base, AsWritten) == if c as int - 'A' as int - 10 < base then Some(c as int - 'A' as int - 10) else None
    ensures c as int - 'A' as int + 10 < base ==> DigitOf(c, base, Intended) == Some(c as int - 'A' as int + 10)
  {
  }

  /** "1A" in base 16 reads as 6 as written, and as 26 with the intended letter values. */
  lemma HexLetterCounterexample()
    ensures ParseSpec("1A", 16, IntType(true, 32), AsWritten, None, None) == Outcome(NoErr, Some(6), 2)
    ensures ParseSpec("1A", 16, IntType(true, 32), Intended, None, None) == Outcome(NoErr, Some(26), 2)
  {
    var t := IntType(true, 32);
    PrefixExplicit("", "1A", 16);
    var lim := Limit(t, false);
    assert DigitOf('1', 16, AsWritten) == Some(1);
    assert DigitOf('A', 16, AsWritten) == Some(-10);
    assert DigitOf('A', 16, Intended) == Some(10);
    var st1 := Step(ScanState(0, 0), 1, 16, lim / 16, lim % 16, Modulus(t));
    assert st1 == ScanState(1, 1);
    assert Step(st1, -10, 16, lim / 16, lim % 16, Modulus(t)) == ScanState(6, 1);
    assert Step(st1, 10, 16, lim / 16, lim % 16, Modulus(t)) == ScanState(26, 1);
  }

  /**
   * With the intended letter values every digit of the base is worth
   * 0 .. base-1, so every run of digits parses to its positional value.
   */
  lemma IntendedDigitsInRange(c: char, base: int)
    requires DigitOf(c, base, Intended).Some?
    ensures 0 <= DigitOf(c, base, Intended).value < base
  {
  }

  /** A sign and any digits of the base, with the intended letter values. */
  lemma IntendedParse(sign: string, d: string, base: int, t: IntType, min: Option<int>, max: Option<int>)
    requires ValidType(t) && IsSign(sign) && 2 <= base <= 36
    requires d != [] && !HasPrefix(d, base)
    requires forall i :: 0 <= i < |d| ==> DigitOf(d[i], base, Intended).Some?
    requires var x := Signed(sign == "-", Value(d, base, Intended));
      TypeMin(t) <= x <= TypeMax(t) && (min.None? || min.value <= x) && (max.None? || x <= max.value)
    ensures ParseSpec(sign + d, base, t, Intended, min, max) ==
      Outcome(NoErr, Some(Signed(sign == "-", Value(d, base, Intended))), |sign| + |d|)
  {
    ParseInRange(Intended, sign, d, base, t, min, max);
  }
}
