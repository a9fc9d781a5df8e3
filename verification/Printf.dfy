/** The formatter behind printf, and snprintf on top of it. */
module Printf {
  import opened Atoi

  // Numbers in a base

  function Digit(d: nat): char
    requires d < 16
  {
    "0123456789abcdef"[d]
  }

  /** n written in base b. */
  function Digits(n: nat, b: nat): (s: string)
    requires 2 <= b <= 16
    ensures |s| > 0
    decreases n
  {
    if n < b then [Digit(n)] else Digits(n / b, b) + [Digit(n % b)]
  }

  /** b to the k. */
  function Pow(b: nat, k: nat): nat { if k == 0 then 1 else b * Pow(b, k - 1) }

  /** A number below b^k has at most k digits. */
  lemma {:induction false} DigitsBound(n: nat, b: nat, k: nat)
    requires 2 <= b <= 16 && k > 0 && n < Pow(b, k)
    ensures |Digits(n, b)| <= k
    decreases k
  {
    if n >= b {
      assert Pow(b, k) == b * Pow(b, k - 1);
      DivBound(n, b, Pow(b, k - 1));
      DigitsBound(n / b, b, k - 1);
    }
  }

  lemma DivBound(n: nat, b: nat, m: nat)
    requires b > 0 && n < b * m
    ensures n / b < m
  {
    assert n == b * (n / b) + n % b;
    if n / b >= m { MulMono(b, m, n / b); }
  }

  lemma MulMono(b: nat, x: nat, y: nat)
    requires x <= y
    ensures b * x <= b * y
  {
  }

  /** A 32-bit number has at most 11 digits in the bases printf knows. */
  lemma Fits(n: nat, b: nat)
    requires n < WORD && (b == 8 || b == 10 || b == 16)
    ensures |Digits(n, b)| <= 11
  {
    PowEleven(b);
    DigitsBound(n, b, 11);
  }

  lemma PowEleven(b: nat)
    requires b == 8 || b == 10 || b == 16
    ensures Pow(b, 11) > WORD
  {
    assert Pow(b, 3) == b * (b * (b * 1));
    assert Pow(b, 6) == b * (b * (b * Pow(b, 3)));
    assert Pow(b, 9) == b * (b * (b * Pow(b, 6)));
    assert Pow(b, 11) == b * (b * Pow(b, 9));
  }

  /** The bound is met: the largest number in octal. */
  lemma ElevenDigits()
    ensures |Digits(0xffff_ffff, 8)| == 11
  {
    assert |Digits(3, 8)| == 1 && |Digits(31, 8)| == 2 && |Digits(255, 8)| == 3 && |Digits(2047, 8)| == 4;
    assert |Digits(16383, 8)| == 5 && |Digits(131071, 8)| == 6 && |Digits(1048575, 8)| == 7;
    assert |Digits(8388607, 8)| == 8 && |Digits(67108863, 8)| == 9 && |Digits(536870911, 8)| == 10;
  }

  /** Decimal digits read back. */
  lemma {:induction false} DigitsValue(n: nat)
    ensures AllDigits(Digits(n, 10)) && Value(Digits(n, 10)) == n
    decreases n
  {
    if n >= 10 {
      DigitsValue(n / 10);
      ValueAppend(Digits(n / 10, 10), Digit(n % 10));
    }
  }

  /** What a digit counts, in any base up to 16. */
  function DigitIn(c: char): nat {
    if '0' <= c <= '9' then c as int - '0' as int else if 'a' <= c <= 'f' then c as int - 'a' as int + 10 else 16
  }

  function ValueIn(s: string, b: nat): nat {
    if s == [] then 0 else ValueIn(s[..|s| - 1], b) * b + DigitIn(s[|s| - 1])
  }

  /** Digits of base b, without leading zeros. */
  predicate Numeral(s: string, b: nat) {
    s != [] && (forall i :: 0 <= i < |s| ==> DigitIn(s[i]) < b) && (s[0] == '0' ==> |s| == 1)
  }

  lemma DigitIs(d: nat)
    requires d < 16
    ensures DigitIn(Digit(d)) == d && (Digit(d) == '0' <==> d == 0)
  {
  }

  /** Digits in any base read back. */
  lemma {:induction false} DigitsNumeral(n: nat, b: nat)
    requires 2 <= b <= 16
    ensures Numeral(Digits(n, b), b) && ValueIn(Digits(n, b), b) == n && (n > 0 ==> Digits(n, b)[0] != '0')
    decreases n
  {
    if n < b {
      DigitIs(n);
      assert [Digit(n)][..0] == [];
    } else {
      var q, d := LongDigits(n, b);
      DigitsNumeral(q, b);
      NumeralMore(Digits(q, b), q, d, b);
    }
  }

  lemma NumeralMore(s: string, q: nat, d: nat, b: nat)
    requires b <= 16 && d < b && Numeral(s, b) && ValueIn(s, b) == q && s[0] != '0'
    ensures Numeral(s + [Digit(d)], b) && ValueIn(s + [Digit(d)], b) == q * b + d && (s + [Digit(d)])[0] != '0'
  {
    DigitIs(d);
    assert (s + [Digit(d)])[..|s|] == s;
  }

  lemma LongDigits(n: nat, b: nat) returns (q: nat, d: nat)
    requires 2 <= b <= 16 && b <= n
    ensures 0 < q < n && d < b && n == q * b + d && Digits(n, b) == Digits(q, b) + [Digit(d)]
  {
    DivLess(n, b);
    LargeDiv(n, b);
    q, d := n / b, n % b;
  }

  // Fields

  function Fill(c: char, n: nat): (s: string)
    ensures |s| == n && forall i :: 0 <= i < n ==> s[i] == c
  {
    seq(n, _ => c)
  }

  /** The padding a text of `len` characters needs. */
  function Padding(width: nat, len: nat): nat { if width > len then width - len else 0 }

  /** A text in its field: padded on the right, with spaces on the left, or with
      zeros between prefix and text. */
  function Field(prefix: string, text: string, width: nat, left: bool, zero: bool): (s: string)
    ensures |s| == if width > |prefix| + |text| then width else |prefix| + |text|
  {
    var pad := Fill(if zero then '0' else ' ', Padding(width, |prefix| + |text|));
    if left then prefix + text + pad
    else if zero then prefix + pad + text
    else pad + prefix + text
  }

  /** An int in a %d field. */
  function Decimal(n: int, width: nat, left: bool, zero: bool): string
    requires -0x8000_0000 <= n < 0x8000_0000
  {
    Field(if n < 0 then "-" else "", Digits(if n < 0 then -n else n, 10), width, left, zero)
  }

  // Reading a field back

  lemma {:induction false} ValueZeros(k: nat, s: string)
    requires AllDigits(s)
    ensures AllDigits(Fill('0', k) + s) && Value(Fill('0', k) + s) == Value(s)
    decreases |s|
  {
    if s == [] {
      assert Fill('0', k) + s == Fill('0', k);
      ValueFill(k);
    } else {
      var t, c := s[..|s| - 1], s[|s| - 1];
      ValueZeros(k, t);
      assert Fill('0', k) + s == (Fill('0', k) + t) + [c];
      ValueAppend(Fill('0', k) + t, c);
      ValueAppend(t, c);
      assert t + [c] == s;
    }
  }

  lemma {:induction false} ValueFill(k: nat)
    ensures AllDigits(Fill('0', k)) && Value(Fill('0', k)) == 0
  {
    if k > 0 {
      ValueFill(k - 1);
      assert Fill('0', k) == Fill('0', k - 1) + ['0'];
      ValueAppend(Fill('0', k - 1), '0');
    }
  }

  lemma {:induction false} ValueShift(s: string, k: nat)
    requires AllDigits(s)
    ensures AllDigits(s + Fill('0', k)) && Value(s + Fill('0', k)) == Value(s) * Pow(10, k)
  {
    if k == 0 {
      assert s + Fill('0', 0) == s;
    } else {
      ValueShift(s, k - 1);
      assert s + Fill('0', k) == (s + Fill('0', k - 1)) + ['0'];
      ValueAppend(s + Fill('0', k - 1), '0');
      assert Value(s) * Pow(10, k) == Value(s) * Pow(10, k - 1) * 10;
    }
  }

  lemma MagnitudeParts(digits: string, rest: string)
    requires AllDigits(digits) && (rest == [] || !IsDigit(rest[0]))
    ensures Magnitude(digits + rest) == Value(digits) % WORD
  {
    RunIs(digits + rest, |digits|);
    assert (digits + rest)[..|digits|] == digits;
  }

  lemma NegativeParts(u: string)
    ensures ParseSigned("-" + u) == Signed((WORD - Magnitude(u)) % WORD)
  {
    assert ("-" + u)[1..] == u;
  }

  /** What a sign and a magnitude stand for. */
  function FromParts(neg: bool, v: nat): int { Signed(if neg then (WORD - v % WORD) % WORD else v % WORD) }

  lemma SignedParts(neg: bool, digits: string, rest: string)
    requires AllDigits(digits) && digits != [] && (rest == [] || !IsDigit(rest[0]))
    ensures ParseSigned((if neg then "-" else "") + (digits + rest)) == FromParts(neg, Value(digits))
  {
    MagnitudeParts(digits, rest);
    var u := digits + rest;
    assert u[0] == digits[0] && IsDigit(u[0]);
    if neg { NegativeParts(u); } else { assert "" + u == u; }
  }

  /** Parsing blanks, a sign, digits and a rest that does not begin with a digit. */
  lemma ParseParts(blanks: nat, neg: bool, digits: string, rest: string)
    requires AllDigits(digits) && digits != [] && (rest == [] || !IsDigit(rest[0]))
    ensures Parse(Fill(' ', blanks) + ((if neg then "-" else "") + (digits + rest))) == FromParts(neg, Value(digits))
  {
    var t := (if neg then "-" else "") + (digits + rest);
    var s := Fill(' ', blanks) + t;
    assert t[0] == if neg then '-' else digits[0];
    BlanksAre(s, blanks);
    assert s[blanks..] == t;
    SignedParts(neg, digits, rest);
  }

  /** 32-bit numbers survive the trip through their magnitude. */
  lemma Magnitudes(n: int)
    requires -0x8000_0000 <= n < 0x8000_0000
    ensures FromParts(n < 0, Magn(n)) == n
  {
  }

  function Magn(n: int): nat { if n < 0 then -n else n }
  function Sign(n: int): string { if n < 0 then "-" else "" }

  /** Fields as blanks, prefix, digits and rest. */
  lemma FieldParts(prefix: string, text: string, width: nat, k: nat)
    requires k == Padding(width, |prefix| + |text|)
    ensures Field(prefix, text, width, true, false) == Fill(' ', 0) + (prefix + (text + Fill(' ', k)))
    ensures Field(prefix, text, width, false, false) == Fill(' ', k) + (prefix + (text + ""))
    ensures Field(prefix, text, width, false, true) == Fill(' ', 0) + (prefix + ((Fill('0', k) + text) + ""))
    ensures Field(prefix, text, width, true, true) == Fill(' ', 0) + (prefix + ((text + Fill('0', k)) + ""))
  {
  }

  /** Digits d of n, in a field padded with spaces. */
  lemma SpaceField(n: int, d: string, width: nat, left: bool)
    requires -0x8000_0000 <= n < 0x8000_0000 && AllDigits(d) && d != [] && Value(d) == Magn(n)
    ensures Parse(Field(Sign(n), d, width, left, false)) == n
  {
    var k := Padding(width, |Sign(n)| + |d|);
    FieldParts(Sign(n), d, width, k);
    Magnitudes(n);
    if left { ParseParts(0, n < 0, d, Fill(' ', k)); } else { ParseParts(k, n < 0, d, ""); }
  }

  /** A field padded with zeros after the sign. */
  lemma ZeroField(n: int, d: string, width: nat)
    requires -0x8000_0000 <= n < 0x8000_0000 && AllDigits(d) && d != [] && Value(d) == Magn(n)
    ensures Parse(Field(Sign(n), d, width, false, true)) == n
  {
    var k := Padding(width, |Sign(n)| + |d|);
    FieldParts(Sign(n), d, width, k);
    Magnitudes(n);
    ValueZeros(k, d);
    ParseParts(0, n < 0, Fill('0', k) + d, "");
  }

  /** A field padded with zeros on the right. */
  lemma ShiftedField(n: int, d: string, width: nat)
    requires -0x8000_0000 <= n < 0x8000_0000 && AllDigits(d) && d != [] && Value(d) == Magn(n)
    ensures Parse(Field(Sign(n), d, width, true, true)) == FromParts(n < 0, Magn(n) * Pow(10, Padding(width, |Sign(n)| + |d|)))
  {
    var k := Padding(width, |Sign(n)| + |d|);
    FieldParts(Sign(n), d, width, k);
    ValueShift(d, k);
    ParseParts(0, n < 0, d + Fill('0', k), "");
  }

  /** Whether a %d field is filled with zeros on the right. */
  predicate ZerosAfter(n: int, width: nat, left: bool, zero: bool) {
    left && zero && width > |Sign(n)| + |Digits(Magn(n), 10)|
  }

  /** atoi gives back every int from its %d field of any width, except a nonzero
      one filled with zeros on the right. */
  lemma RoundTrip(n: int, width: nat, left: bool, zero: bool)
    requires -0x8000_0000 <= n < 0x8000_0000
    ensures Parse(Decimal(n, width, left, zero)) == n <==> n == 0 || !ZerosAfter(n, width, left, zero)
  {
    var d := Digits(Magn(n), 10);
    DigitsValue(Magn(n));
    if !zero {
      SpaceField(n, d, width, left);
    } else if !left {
      ZeroField(n, d, width);
    } else {
      var k := Padding(width, |Sign(n)| + |d|);
      ShiftedField(n, d, width);
      Magnitudes(n);
      ShiftedExact(n, k);
    }
  }

  /** Multiplying by a power of ten changes a nonzero 32-bit number. */
  lemma ShiftedExact(n: int, k: nat)
    requires -0x8000_0000 <= n < 0x8000_0000
    ensures FromParts(n < 0, Magn(n) * Pow(10, k)) == n <==> n == 0 || k == 0
  {
    var m := Magn(n);
    Magnitudes(n);
    if k == 0 {
      assert m * Pow(10, 0) == m;
    } else if n != 0 {
      PowTenEven(k);
      PowerChanges(m, Pow(10, k));
      if FromParts(n < 0, m * Pow(10, k)) == FromParts(n < 0, m) { SamePattern(n < 0, m, m * Pow(10, k)); }
    }
  }

  lemma PowerChanges(m: nat, p: nat)
    requires 0 < m < WORD && p >= 10 && p % 2 == 0
    ensures (m * p) % WORD != m % WORD
  {
    if (m * p) % WORD == m % WORD {
      var a := m * p;
      MulMono(m, 1, p);
      assert a == WORD * (a / WORD) + a % WORD && m % WORD == m;
      assert m * (p - 1) == a - m;
      PowTwo32();
      var r := OddCancel(m, p - 1, 32, a / WORD);
    }
  }

  lemma SamePattern(neg: bool, a: nat, b: nat)
    requires FromParts(neg, a) == FromParts(neg, b)
    ensures a % WORD == b % WORD
  {
  }

  lemma PowTenEven(k: nat)
    requires k > 0
    ensures Pow(10, k) % 2 == 0 && Pow(10, k) >= 10
  {
    PowPositive(k - 1);
    assert Pow(10, k) == 2 * (5 * Pow(10, k - 1));
  }

  lemma {:induction false} PowPositive(k: nat)
    ensures Pow(10, k) >= 1
  {
    if k > 0 { PowPositive(k - 1); }
  }

  lemma PowTwo32()
    ensures Pow(2, 32) == WORD
  {
    assert Pow(2, 8) == 256;
    assert Pow(2, 16) == 65536;
    assert Pow(2, 24) == 16777216;
  }

  /** An odd factor does not help divisibility by a power of two. */
  lemma {:induction false} OddCancel(x: nat, m: nat, j: nat, q: nat) returns (r: nat)
    requires m % 2 == 1 && x * m == Pow(2, j) * q
    ensures x == Pow(2, j) * r
    decreases j
  {
    if j == 0 {
      r := x;
    } else {
      var h := Pow(2, j - 1);
      assert Pow(2, j) * q == 2 * (h * q);
      EvenFactor(x, m, h * q);
      var y := x / 2;
      assert 2 * (y * m) == x * m;
      r := OddCancel(y, m, j - 1, q);
      assert 2 * (h * r) == (2 * h) * r;
    }
  }

  lemma EvenFactor(x: nat, m: nat, z: nat)
    requires m % 2 == 1 && x * m == 2 * z
    ensures x % 2 == 0
  {
    var b := m / 2;
    assert m == 2 * b + 1;
    assert x * m == 2 * (x * b) + x;
  }

  // Formats

  /** A string of C: what comes before its terminator. */
  type CString = s: string | '\0' !in s witness ""

  datatype Arg = Num(v: int) | Text(s: CString) | Null

  /** Where the formatter is in a %-field. */
  datatype Pf = Pf(inPct: bool, spacing: nat, left: bool, zero: bool, alt: bool)

  const Idle := Pf(false, 0, false, false, false)

  predicate IsModifier(c: char) { c in "#-ql0123456789" }
  predicate IsInteger(c: char) { c in "doupx" }

  function Modify(pf: Pf, c: char): Pf
    requires IsModifier(c)
  {
    if c == '#' then pf.(alt := true)
    else if c == '-' then pf.(left := true)
    else if c == 'l' || c == 'q' then pf
    else if c == '0' then (if pf.spacing > 0 then pf.(spacing := pf.spacing * 10) else pf.(zero := true))
    else pf.(spacing := pf.spacing * 10 + DigitValue(c))
  }

  function Base(c: char): nat { if c == 'd' || c == 'u' then 10 else if c == 'o' then 8 else 16 }

  function BasePrefix(pf: Pf, c: char): string {
    if (pf.alt || c == 'p') && Base(c) == 16 then "0x" else if (pf.alt || c == 'p') && Base(c) == 8 then "0" else ""
  }

  /** The argument a conversion takes, as C wants it. */
  predicate ArgOk(c: char, args: seq<Arg>) {
    if c == 'd' then args != [] && args[0].Num? && -0x8000_0000 <= args[0].v < 0x8000_0000
    else if IsInteger(c) then args != [] && args[0].Num? && 0 <= args[0].v < WORD
    else if c == 's' then args != [] && !args[0].Num?
    else if c == 'c' then args != [] && args[0].Num? && 0 < args[0].v < 256
    else true
  }

  predicate Takes(c: char) { IsInteger(c) || c == 's' || c == 'c' }

  /** The text of one conversion. */
  function Convert(pf: Pf, c: char, args: seq<Arg>): string
    requires ArgOk(c, args)
  {
    if c == 'd' then Field(Sign(args[0].v) + BasePrefix(pf, c), Digits(Magn(args[0].v), 10), pf.spacing, pf.left, pf.zero)
    else if IsInteger(c) then Field(BasePrefix(pf, c), Digits(args[0].v, Base(c)), pf.spacing, pf.left, pf.zero)
    else if c == 's' then Field("", if args[0].Null? then "(null)" else args[0].s, pf.spacing, pf.left, pf.zero)
    else if c == 'c' then Field("", [args[0].v as char], pf.spacing, pf.left, pf.zero)
    else Field("", [c], pf.spacing, pf.left, pf.zero)
  }

  lemma ConvertNum(pf: Pf, c: char, v: int)
    requires IsInteger(c) && ArgOk(c, [Num(v)])
    ensures var neg := c == 'd' && v < 0;
      Convert(pf, c, [Num(v)]) ==
        Field((if neg then "-" else "") + BasePrefix(pf, c), Digits(if neg then -v else v, Base(c)), pf.spacing, pf.left, pf.zero)
  {
    assert "" + BasePrefix(pf, c) == BasePrefix(pf, c);
  }

  /** %d and %u print decimal, %o octal, %x and %p hexadecimal numerals of the number,
      after a sign and, for # and %p, 0x or 0. */
  lemma NumberText(pf: Pf, c: char, v: int) returns (digits: string)
    requires IsInteger(c) && ArgOk(c, [Num(v)])
    ensures var b := if c == 'x' || c == 'p' then 16 else if c == 'o' then 8 else 10;
      var mark := if !pf.alt && c != 'p' then "" else if b == 16 then "0x" else if b == 8 then "0" else "";
      && Numeral(digits, b) && ValueIn(digits, b) == (if v < 0 then -v else v)
      && Convert(pf, c, [Num(v)]) == Field((if v < 0 then "-" else "") + mark, digits, pf.spacing, pf.left, pf.zero)
  {
    digits := Digits(if v < 0 then -v else v, Base(c));
    DigitsNumeral(if v < 0 then -v else v, Base(c));
    ConvertNum(pf, c, v);
  }

  /** Where a text stands in its field, and with what around it. */
  lemma FieldShape(prefix: string, text: string, width: nat, left: bool, zero: bool)
    ensures var f, n := Field(prefix, text, width, left, zero), |prefix| + |text|;
      && |f| == (if width > n then width else n)
      && (if left then prefix + text <= f && forall i :: n <= i < |f| ==> f[i] == if zero then '0' else ' '
          else if zero then
            && prefix <= f && f[|f| - |text|..] == text
            && forall i :: |prefix| <= i < |f| - |text| ==> f[i] == '0'
          else f[|f| - n..] == prefix + text && forall i :: 0 <= i < |f| - n ==> f[i] == ' ')
  {
  }

  /** The arguments are those the format asks for. */
  predicate Matches(pf: Pf, format: string, args: seq<Arg>)
    decreases |format|
  {
    format == [] ||
    var c, rest := format[0], format[1..];
    if !pf.inPct then Matches(pf.(inPct := c == '%'), rest, args)
    else if IsModifier(c) then Matches(Modify(pf, c), rest, args)
    else ArgOk(c, args) && Matches(Idle, rest, if Takes(c) then args[1..] else args)
  }

  /** What a format prints. */
  function Print(pf: Pf, format: string, args: seq<Arg>): string
    requires Matches(pf, format, args)
    decreases |format|
  {
    if format == [] then ""
    else
      var c, rest := format[0], format[1..];
      if !pf.inPct && c != '%' then [c] + Print(pf.(inPct := false), rest, args)
      else if !pf.inPct then Print(pf.(inPct := true), rest, args)
      else if IsModifier(c) then Print(Modify(pf, c), rest, args)
      else Convert(pf, c, args) + Print(Idle, rest, if Takes(c) then args[1..] else args)
  }

  lemma {:induction false} DigitsText(n: nat, b: nat)
    requires 2 <= b <= 16
    ensures '\0' !in Digits(n, b)
  {
    if n < b {
      DigitText(n);
    } else {
      DivLess(n, b);
      DigitsText(n / b, b);
      DigitText(n % b);
    }
  }

  lemma DigitText(d: nat)
    requires d < 16
    ensures Digit(d) != '\0'
  {
  }

  lemma ConvertIsText(pf: Pf, c: char, args: seq<Arg>)
    requires ArgOk(c, args) && c != '\0'
    ensures '\0' !in Convert(pf, c, args)
  {
    var w, l, z := pf.spacing, pf.left, pf.zero;
    if c == 'd' {
      DigitsText(Magn(args[0].v), 10);
      FieldIsText(Sign(args[0].v) + BasePrefix(pf, c), Digits(Magn(args[0].v), 10), w, l, z);
    } else if IsInteger(c) {
      DigitsText(args[0].v, Base(c));
      FieldIsText(BasePrefix(pf, c), Digits(args[0].v, Base(c)), w, l, z);
    }
  }

  lemma FieldIsText(prefix: string, text: string, width: nat, left: bool, zero: bool)
    requires '\0' !in prefix && '\0' !in text
    ensures '\0' !in Field(prefix, text, width, left, zero)
  {
  }

  /** What is printed has no terminator in it. */
  lemma {:induction false} PrintIsText(pf: Pf, format: string, args: seq<Arg>)
    requires Matches(pf, format, args) && '\0' !in format
    ensures '\0' !in Print(pf, format, args)
    decreases |format|
  {
    if format != [] {
      var c, rest := format[0], format[1..];
      if !pf.inPct {
        PrintIsText(pf.(inPct := c == '%'), rest, args);
      } else if IsModifier(c) {
        PrintIsText(Modify(pf, c), rest, args);
      } else {
        ConvertIsText(pf, c, args);
        PrintIsText(Idle, rest, if Takes(c) then args[1..] else args);
      }
    }
  }

  // The %d formats

  /** A field width read digit by digit. */
  function Accumulated(s: nat, w: string): nat
    requires AllDigits(w)
    decreases |w|
  {
    if w == [] then s else Accumulated(s * 10 + DigitValue(w[0]), w[1..])
  }

  lemma {:induction false} AccumulatedLast(s: nat, w: string, c: char)
    requires AllDigits(w) && IsDigit(c)
    ensures Accumulated(s, w + [c]) == Accumulated(s, w) * 10 + DigitValue(c)
    decreases |w|
  {
    if w != [] {
      assert (w + [c])[1..] == w[1..] + [c];
      AccumulatedLast(s * 10 + DigitValue(w[0]), w[1..], c);
    } else {
      assert w + [c] == [c];
    }
  }

  lemma {:induction false} AccumulatedValue(w: string)
    requires AllDigits(w)
    ensures Accumulated(0, w) == Value(w)
    decreases |w|
  {
    if w != [] {
      var v, c := w[..|w| - 1], w[|w| - 1];
      AccumulatedValue(v);
      AccumulatedLast(0, v, c);
      assert v + [c] == w;
    }
  }

  /** The format is matched by its arguments and prints `out`. */
  predicate Prints(pf: Pf, format: string, args: seq<Arg>, out: string) {
    Matches(pf, format, args) && Print(pf, format, args) == out
  }

  /** Digits of a width, after the first nonzero one, only change the width. */
  lemma {:induction false} PrintWidth(pf: Pf, w: string, rest: string, args: seq<Arg>, out: string)
    requires pf.inPct && AllDigits(w) && (w == [] || pf.spacing > 0 || w[0] != '0')
    requires Prints(pf.(spacing := Accumulated(pf.spacing, w)), rest, args, out)
    ensures Prints(pf, w + rest, args, out)
    decreases |w|
  {
    if w == [] {
      assert w + rest == rest;
    } else {
      var t := w[1..] + rest;
      assert w + rest == [w[0]] + t;
      PrintWidth(WidthDigit(pf, w[0]), w[1..], rest, args, out);
      PrintModifier(pf, w[0], t, args, out);
    }
  }

  /** One digit of a width. */
  function WidthDigit(pf: Pf, c: char): (r: Pf)
    requires IsDigit(c) && (pf.spacing > 0 || c != '0')
    ensures IsModifier(c) && r == Modify(pf, c) && r.spacing > 0
  {
    pf.(spacing := pf.spacing * 10 + DigitValue(c))
  }

  lemma {:induction false} LeadingDigit(n: nat)
    requires n > 0
    ensures Digits(n, 10)[0] != '0'
    decreases n
  {
    if n >= 10 { LeadingDigit(n / 10); }
  }

  /** The format for an int with the given flags and width. */
  function PercentD(width: nat, left: bool, zero: bool): string {
    "%" + (if left then "-" else "") + (if zero then "0" else "") + (if width > 0 then Digits(width, 10) else "") + "d"
  }

  lemma PrintD(pf: Pf, n: int)
    requires pf.inPct && !pf.alt && -0x8000_0000 <= n < 0x8000_0000
    ensures Prints(pf, "d", [Num(n)], Decimal(n, pf.spacing, pf.left, pf.zero))
  {
    assert "d"[1..] == "" && Sign(n) + "" == Sign(n);
    assert Matches(Idle, "", [Num(n)][1..]);
  }

  /** One modifier in front. */
  lemma PrintModifier(pf: Pf, c: char, rest: string, args: seq<Arg>, out: string)
    requires pf.inPct && IsModifier(c)
    ensures Prints(pf, [c] + rest, args, out) <==> Prints(Modify(pf, c), rest, args, out)
  {
    assert ([c] + rest)[1..] == rest && ([c] + rest)[0] == c;
  }

  /** One character in front that is not part of a field, or begins one. */
  lemma PrintPlain(pf: Pf, c: char, rest: string, args: seq<Arg>)
    requires !pf.inPct
    ensures Matches(pf, [c] + rest, args) <==> Matches(pf.(inPct := c == '%'), rest, args)
    ensures Matches(pf, [c] + rest, args) ==>
      Print(pf, [c] + rest, args) == (if c == '%' then "" else [c]) + Print(pf.(inPct := c == '%'), rest, args)
  {
    assert ([c] + rest)[1..] == rest && ([c] + rest)[0] == c;
  }

  /** One conversion in front. */
  lemma PrintConversion(pf: Pf, c: char, rest: string, args: seq<Arg>)
    requires pf.inPct && !IsModifier(c) && Matches(pf, [c] + rest, args)
    ensures ArgOk(c, args) && Matches(Idle, rest, if Takes(c) then args[1..] else args)
    ensures Print(pf, [c] + rest, args) == Convert(pf, c, args) + Print(Idle, rest, if Takes(c) then args[1..] else args)
  {
    assert ([c] + rest)[1..] == rest && ([c] + rest)[0] == c;
  }

  /** The width and the conversion of a %d format. */
  lemma PrintWidthD(n: int, width: nat, left: bool, zero: bool, w: string)
    requires -0x8000_0000 <= n < 0x8000_0000 && w == if width > 0 then Digits(width, 10) else ""
    ensures Prints(Pf(true, 0, left, zero, false), w + "d", [Num(n)], Decimal(n, width, left, zero))
  {
    var pf := Pf(true, 0, left, zero, false);
    PrintD(pf.(spacing := width), n);
    DigitsValue(width);
    AccumulatedValue(w);
    if width > 0 { LeadingDigit(width); }
    PrintWidth(pf, w, "d", [Num(n)], Decimal(n, width, left, zero));
  }

  lemma PrintZeroD(left: bool, zero: bool, s: string, args: seq<Arg>, out: string)
    requires Prints(Pf(true, 0, left, zero, false), s, args, out)
    ensures Prints(Pf(true, 0, left, false, false), (if zero then "0" else "") + s, args, out)
  {
    if zero { PrintModifier(Pf(true, 0, left, false, false), '0', s, args, out); } else { assert "" + s == s; }
  }

  lemma PrintLeftD(left: bool, s: string, args: seq<Arg>, out: string)
    requires Prints(Pf(true, 0, left, false, false), s, args, out)
    ensures Prints(Pf(true, 0, false, false, false), (if left then "-" else "") + s, args, out)
  {
    if left { PrintModifier(Pf(true, 0, false, false, false), '-', s, args, out); } else { assert "" + s == s; }
  }

  /** A %d format prints its argument in the field it describes. */
  lemma PercentDPrints(n: int, width: nat, left: bool, zero: bool)
    requires -0x8000_0000 <= n < 0x8000_0000
    ensures Prints(Idle, PercentD(width, left, zero), [Num(n)], Decimal(n, width, left, zero))
  {
    var w, args, out := if width > 0 then Digits(width, 10) else "", [Num(n)], Decimal(n, width, left, zero);
    PrintWidthD(n, width, left, zero, w);
    var s1 := w + "d";
    PrintZeroD(left, zero, s1, args, out);
    var s2 := (if zero then "0" else "") + s1;
    PrintLeftD(left, s2, args, out);
    var s3 := (if left then "-" else "") + s2;
    PrintPlain(Idle, '%', s3, args);
    PercentDParts(width, left, zero, w);
  }

  lemma PercentDParts(width: nat, left: bool, zero: bool, w: string)
    requires w == if width > 0 then Digits(width, 10) else ""
    ensures PercentD(width, left, zero) == ['%'] + ((if left then "-" else "") + ((if zero then "0" else "") + (w + "d")))
  {
  }

  /** Printing an int with %d and reading the text with atoi. */
  lemma PrintfAtoi(n: int, width: nat, left: bool, zero: bool)
    requires -0x8000_0000 <= n < 0x8000_0000
    ensures Matches(Idle, PercentD(width, left, zero), [Num(n)])
    ensures Parse(Print(Idle, PercentD(width, left, zero), [Num(n)])) == n <==>
      n == 0 || !ZerosAfter(n, width, left, zero)
  {
    PercentDPrints(n, width, left, zero);
    RoundTrip(n, width, left, zero);
  }

  /** A field without width. */
  lemma Bare(prefix: string, text: string, left: bool, zero: bool)
    ensures Field(prefix, text, 0, left, zero) == prefix + text
  {
    assert prefix + "" + text == prefix + text && prefix + text + "" == prefix + text && "" + prefix + text == prefix + text;
  }

  lemma ConversionPrints(alt: bool, c: char, args: seq<Arg>)
    requires !IsModifier(c) && ArgOk(c, args) && |args| == if Takes(c) then 1 else 0
    ensures Prints(Idle, (if alt then "%#" else "%") + [c], args, Convert(Pf(true, 0, false, false, alt), c, args))
  {
    var pf := Pf(true, 0, false, false, alt);
    var out := Convert(pf, c, args);
    var left := if Takes(c) then args[1..] else args;
    assert [c] + "" == [c] && [c][1..] == "" && out + "" == out && Matches(Idle, "", left) && Print(Idle, "", left) == "";
    PrintConversion(pf, c, "", args);
    if alt {
      PrintModifier(Pf(true, 0, false, false, false), '#', [c], args, out);
      assert "#" + [c] == ['#'] + [c] && "%#" + [c] == ['%'] + ("#" + [c]);
      PrintPlain(Idle, '%', "#" + [c], args);
    } else {
      assert "%" + [c] == ['%'] + [c];
      PrintPlain(Idle, '%', [c], args);
    }
  }

  /** # marks the base. */
  lemma AltPrints(v: int)
    requires 0 <= v < WORD
    ensures Prints(Idle, "%#" + ['x'], [Num(v)], "0x" + Digits(v, 16)) && Prints(Idle, "%#" + ['o'], [Num(v)], "0" + Digits(v, 8))
  {
    ConversionPrints(true, 'x', [Num(v)]);
    Bare("0x", Digits(v, 16), false, false);
    ConversionPrints(true, 'o', [Num(v)]);
    Bare("0", Digits(v, 8), false, false);
  }

  /** %s copies its text or says (null). */
  lemma TextPrints(s: CString)
    ensures Prints(Idle, "%" + ['s'], [Text(s)], s) && Prints(Idle, "%" + ['s'], [Null], "(null)")
  {
    ConversionPrints(false, 's', [Text(s)]);
    Bare("", s, false, false);
    ConversionPrints(false, 's', [Null]);
    Bare("", "(null)", false, false);
    assert "" + s == s && "" + "(null)" == "(null)";
  }

  /** %c is one character, and what is no conversion stands for itself. */
  lemma CharPrints(c: char)
    requires 0 < c as int < 256
    ensures Prints(Idle, "%" + ['c'], [Num(c as int)], [c])
    ensures c !in "#-ql0123456789doupxsc" ==> Prints(Idle, "%" + [c], [], [c])
  {
    ConversionPrints(false, 'c', [Num(c as int)]);
    Bare("", [c], false, false);
    assert "" + [c] == [c];
    if c !in "#-ql0123456789doupxsc" { ConversionPrints(false, c, []); }
  }

  // snprintf

  /** struct SNP: a buffer that keeps what fits before the terminator. */
  class Snp {
    const buf: array<char>
    const buflen: nat
    var bufpos: nat
    ghost var sent: string

    ghost predicate Valid()
      reads this, buf
    {
      && buflen <= buf.Length && bufpos == (if |sent| < buflen then |sent| else buflen)
      && buf[..bufpos] == sent[..bufpos]
    }

    constructor (buf: array<char>, len: nat)
      requires len <= buf.Length
      ensures Valid() && sent == "" && this.buf == buf && buflen == if len == 0 then 0 else len - 1
    {
      this.buf, buflen, bufpos, sent := buf, if len == 0 then 0 else len - 1, 0, "";
    }

    /** __snprintf_send */
    method Send(data: string)
      requires Valid()
      modifies this`bufpos, this`sent, buf
      ensures Valid() && sent == old(sent) + data
      ensures forall i :: buflen <= i < buf.Length ==> buf[i] == old(buf[i])
    {
      var i := 0;
      while i < |data|
        invariant i <= |data| && Valid() && sent == old(sent) + data[..i]
        invariant forall j :: buflen <= j < buf.Length ==> buf[j] == old(buf[j])
      {
        if bufpos < buflen {
          buf[bufpos] := data[i];
          bufpos := bufpos + 1;
        }
        sent := sent + [data[i]];
        i := i + 1;
      }
    }
  }

  // The formatter

  const NUMBER_BUF_SIZE: nat := 12

  /** The digit loop of __pf_printnum: right to left into a small buffer, which is
      never overrun. */
  method PrintDigits(num: nat, base: nat) returns (text: string)
    requires num < WORD && (base == 8 || base == 10 || base == 16)
    ensures text == Digits(num, base)
  {
    Fits(num, base);
    var buf := new char[NUMBER_BUF_SIZE](_ => ' ');
    buf[11] := '\0';
    var x, more := 10, true;
    var xnum: nat := num;
    while more
      invariant -1 <= x <= 10 && (more ==> Digits(num, base) == Digits(xnum, base) + buf[x + 1..11])
      invariant !more ==> xnum == 0 && Digits(num, base) == buf[x + 1..11]
      decreases xnum, more
    {
      x, xnum := PrintDigit(buf, x, xnum, base, num);
      more := xnum > 0;
    }
    text := buf[x + 1..11];
  }

  /** One turn of the loop. */
  method PrintDigit(buf: array<char>, x: int, xnum: nat, base: nat, ghost num: nat) returns (x': int, xnum': nat)
    requires buf.Length == NUMBER_BUF_SIZE && -1 <= x <= 10 && 2 <= base <= 16
    requires Digits(num, base) == Digits(xnum, base) + buf[x + 1..11] && |Digits(num, base)| <= 11
    modifies buf
    ensures x' == x - 1 && xnum' == xnum / base && -1 <= x' && (xnum > 0 ==> xnum' < xnum)
    ensures Digits(num, base) == if xnum' > 0 then Digits(xnum', base) + buf[x' + 1..11] else buf[x' + 1..11]
  {
    ghost var t := buf[x + 1..11];
    var c;
    c, xnum' := NextDigit(xnum, base, num, t);
    buf[x] := c;
    assert buf[x..11] == [c] + t;
    x' := x - 1;
  }

  method NextDigit(xnum: nat, base: nat, ghost num: nat, ghost t: string) returns (c: char, xnum': nat)
    requires 2 <= base <= 16 && Digits(num, base) == Digits(xnum, base) + t
    ensures xnum' == xnum / base && (xnum > 0 ==> xnum' < xnum)
    ensures Digits(num, base) == if xnum' > 0 then Digits(xnum', base) + ([c] + t) else [c] + t
  {
    LastDigit(num, xnum, base, t);
    DivLess(xnum, base);
    c, xnum' := Digit(xnum % base), xnum / base;
  }

  lemma DivLess(x: nat, b: nat)
    requires 2 <= b
    ensures x > 0 ==> x / b < x
  {
    assert x == b * (x / b) + x % b;
  }

  /** Peeling off the last digit. */
  lemma LastDigit(num: nat, xnum: nat, base: nat, t: string)
    requires 2 <= base <= 16 && Digits(num, base) == Digits(xnum, base) + t
    ensures Digits(num, base) ==
      if xnum / base > 0 then Digits(xnum / base, base) + ([Digit(xnum % base)] + t) else [Digit(xnum % base)] + t
  {
    if xnum < base { SmallDiv(xnum, base); } else { LargeDiv(xnum, base); }
  }

  lemma SmallDiv(x: nat, b: nat)
    requires x < b
    ensures x / b == 0 && x % b == x
  {
  }

  lemma LargeDiv(x: nat, b: nat)
    requires 0 < b <= x
    ensures x / b > 0
  {
  }

  /** The pieces of a field in the order they are sent. */
  lemma FieldPieces(sent: string, prefix: string, prefix2: string, stuff: string, spc: nat, width: nat, left: bool, zero: bool)
    requires spc == Padding(width, |prefix| + |prefix2| + |stuff|)
    ensures var pad := Fill(if zero then '0' else ' ', spc);
      sent + (if !left && !zero then pad else "") + prefix + prefix2 + (if !left && zero then pad else "") + stuff
        + (if left then pad else "")
      == sent + Field(prefix + prefix2, stuff, width, left, zero)
  {
    var pad := Fill(if zero then '0' else ' ', spc);
    if left {
      assert sent + prefix + prefix2 + stuff + pad == sent + (prefix + prefix2 + stuff + pad);
    }
  }

  class Printer {
    const snp: Snp
    var charcount: nat
    var inPct: bool
    var spacing: nat
    var rightspc: bool
    var fillchar: char
    var altformat: bool

    ghost predicate Valid()
      reads this, snp, snp.buf
    {
      snp.Valid() && charcount == |snp.sent| && (fillchar == ' ' || fillchar == '0')
    }

    ghost function State(): Pf
      reads this
    {
      Pf(inPct, spacing, rightspc, fillchar == '0', altformat)
    }

    constructor (snp: Snp)
      requires snp.Valid() && snp.sent == ""
      ensures Valid() && this.snp == snp && State() == Idle
    {
      this.snp := snp;
      charcount, inPct, spacing, rightspc, fillchar, altformat := 0, false, 0, false, ' ', false;
    }

    /** __pf_print */
    method Put(txt: string)
      requires Valid()
      modifies this`charcount, snp, snp.buf
      ensures Valid() && snp.sent == old(snp.sent) + txt
      ensures forall i :: snp.buflen <= i < snp.buf.Length ==> snp.buf[i] == old(snp.buf[i])
    {
      snp.Send(txt);
      charcount := charcount + |txt|;
    }

    /** __pf_fill */
    method PutFill(spc: nat)
      requires Valid()
      modifies this`charcount, snp, snp.buf
      ensures Valid() && snp.sent == old(snp.sent) + Fill(fillchar, spc)
      ensures forall i :: snp.buflen <= i < snp.buf.Length ==> snp.buf[i] == old(snp.buf[i])
    {
      var i := 0;
      while i < spc
        invariant i <= spc && Valid() && snp.sent == old(snp.sent) + Fill(fillchar, i)
        invariant forall j :: snp.buflen <= j < snp.buf.Length ==> snp.buf[j] == old(snp.buf[j])
      {
        Put([fillchar]);
        assert Fill(fillchar, i) + [fillchar] == Fill(fillchar, i + 1);
        i := i + 1;
      }
    }

    method PutPad(wanted: bool, spc: nat)
      requires Valid()
      modifies this`charcount, snp, snp.buf
      ensures Valid() && snp.sent == old(snp.sent) + (if wanted then Fill(fillchar, spc) else "")
      ensures forall i :: snp.buflen <= i < snp.buf.Length ==> snp.buf[i] == old(snp.buf[i])
    {
      if spc > 0 && wanted { PutFill(spc); }
      assert spc == 0 ==> Fill(fillchar, spc) == "";
    }

    /** __pf_printstuff and __pf_endfield */
    method PutField(prefix: string, prefix2: string, stuff: string)
      requires Valid()
      modifies this, snp, snp.buf
      ensures Valid() && State() == Idle
      ensures snp.sent == old(snp.sent) + Field(prefix + prefix2, stuff, old(spacing), old(rightspc), old(fillchar) == '0')
      ensures forall i :: snp.buflen <= i < snp.buf.Length ==> snp.buf[i] == old(snp.buf[i])
    {
      var len := |prefix| + |prefix2| + |stuff|;
      var spc := if spacing > len then spacing - len else 0;
      FieldPieces(snp.sent, prefix, prefix2, stuff, spc, spacing, rightspc, fillchar == '0');
      PutPad(!rightspc && fillchar != '0', spc);
      Put(prefix);
      Put(prefix2);
      PutPad(!rightspc && fillchar == '0', spc);
      Put(stuff);
      PutPad(rightspc, spc);
      inPct, spacing, rightspc, fillchar, altformat := false, 0, false, ' ', false;
    }
  
    /** __pf_modifier */
    method Modifier(c: char)
      requires Valid() && IsModifier(c)
      modifies this`spacing, this`rightspc, this`fillchar, this`altformat
      ensures Valid() && State() == Modify(old(State()), c)
    {
      if c == '#' {
        altformat := true;
      } else if c == '-' {
        rightspc := true;
      } else if c == 'l' || c == 'q' {
      } else if c == '0' {
        if spacing > 0 { spacing := spacing * 10; } else { fillchar := '0'; }
      } else {
        assert '0' < c <= '9';
        spacing := spacing * 10 + (c as int - '0' as int);
      }
    }

    /** __pf_getnum, __pf_setbase and __pf_printnum */
    method PutNum(c: char, v: int)
      requires Valid() && IsInteger(c) && ArgOk(c, [Num(v)])
      modifies this, snp, snp.buf
      ensures Valid() && State() == Idle && snp.sent == old(snp.sent) + Convert(old(State()), c, [Num(v)])
      ensures forall i :: snp.buflen <= i < snp.buf.Length ==> snp.buf[i] == old(snp.buf[i])
    {
      var neg := c == 'd' && v < 0;
      var num := if neg then -v else v;
      var base := Base(c);
      var baseprefix := altformat || c == 'p';
      var text := PrintDigits(num, base);
      var bprefix := if baseprefix && base == 16 then "0x" else if baseprefix && base == 8 then "0" else "";
      ConvertNum(State(), c, v);
      PutField(if neg then "-" else "", bprefix, text);
    }

    /** The rest of __pf_send: a conversion. */
    method Conversion(c: char, args: seq<Arg>) returns (rest: seq<Arg>)
      requires Valid() && !IsModifier(c) && ArgOk(c, args)
      modifies this, snp, snp.buf
      ensures Valid() && State() == Idle && snp.sent == old(snp.sent) + Convert(old(State()), c, args)
      ensures rest == if Takes(c) then args[1..] else args
      ensures forall i :: snp.buflen <= i < snp.buf.Length ==> snp.buf[i] == old(snp.buf[i])
    {
      rest := if Takes(c) then args[1..] else args;
      if IsInteger(c) {
        PutNum(c, args[0].v);
      } else {
        var text := if c == 's' then (if args[0].Null? then "(null)" else args[0].s) else if c == 'c' then [args[0].v as char] else [c];
        assert "" + "" == "";
        PutField("", "", text);
      }
    }

    /** __pf_send */
    method SendChar(c: char, args: seq<Arg>, ghost rest: string) returns (left: seq<Arg>)
      requires Valid() && Matches(State(), [c] + rest, args)
      modifies this, snp, snp.buf
      ensures Valid() && Matches(State(), rest, left)
      ensures snp.sent + Print(State(), rest, left) == old(snp.sent) + Print(old(State()), [c] + rest, args)
      ensures forall j :: snp.buflen <= j < snp.buf.Length ==> snp.buf[j] == old(snp.buf[j])
    {
      left := args;
      if !inPct && c != '%' {
        PrintPlain(State(), c, rest, args);
        Put([c]);
      } else if !inPct {
        PrintPlain(State(), c, rest, args);
        inPct := true;
      } else if IsModifier(c) {
        PrintModifier(State(), c, rest, args, Print(State(), [c] + rest, args));
        Modifier(c);
      } else {
        PrintConversion(State(), c, rest, args);
        left := Conversion(c, left);
      }
    }

    /** __vprintf */
    method Vprintf(format: CString, args: seq<Arg>)
      requires Valid() && State() == Idle && Matches(Idle, format, args)
      modifies this, snp, snp.buf
      ensures Valid() && snp.sent == old(snp.sent) + Print(Idle, format, args) && charcount == |snp.sent|
      ensures forall i :: snp.buflen <= i < snp.buf.Length ==> snp.buf[i] == old(snp.buf[i])
    {
      var i, left := 0, args;
      assert format[0..] == format;
      while i < |format|
        invariant i <= |format| && Valid() && Matches(State(), format[i..], left)
        invariant snp.sent + Print(State(), format[i..], left) == old(snp.sent) + Print(Idle, format, args)
        invariant forall j :: snp.buflen <= j < snp.buf.Length ==> snp.buf[j] == old(snp.buf[j])
      {
        assert format[i..] == [format[i]] + format[i + 1..];
        left := SendChar(format[i], left, format[i + 1..]);
        i := i + 1;
      }
    }
  }

  /** vsnprintf: as much of the text as fits, terminated; the count is of all of it. */
  method Vsnprintf(buf: array<char>, len: nat, format: CString, args: seq<Arg>) returns (chars: nat)
    requires len <= buf.Length && Matches(Idle, format, args)
    modifies buf
    ensures chars == |Print(Idle, format, args)|
    ensures var k := if chars < len then chars else len - 1;
      len > 0 ==> buf[..k] == Print(Idle, format, args)[..k] && '\0' !in buf[..k] && buf[k] == '\0'
    ensures forall i :: len <= i < buf.Length ==> buf[i] == old(buf[i])
  {
    var snp := new Snp(buf, len);
    var pf := new Printer(snp);
    pf.Vprintf(format, args);
    PrintIsText(Idle, format, args);
    assert snp.sent == Print(Idle, format, args);
    if len > 0 { buf[snp.bufpos] := '\0'; }
    chars := pf.charcount;
  }
}
