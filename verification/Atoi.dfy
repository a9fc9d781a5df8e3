/** atoi, and numbers as strings of digits. */
module Atoi {

  const WORD: nat := 0x1_0000_0000

  predicate IsDigit(c: char) { '0' <= c <= '9' }

  function DigitValue(c: char): nat
    requires IsDigit(c)
  {
    c as int - '0' as int
  }

  predicate AllDigits(s: string) { forall i :: 0 <= i < |s| ==> IsDigit(s[i]) }

  /** The number a string of digits stands for. */
  function Value(s: string): nat
    requires AllDigits(s)
  {
    if s == [] then 0 else Value(s[..|s| - 1]) * 10 + DigitValue(s[|s| - 1])
  }

  /** The number of characters at the front that satisfy a test. */
  function Blanks(s: string): (n: nat)
    ensures n <= |s| && (forall i :: 0 <= i < n ==> s[i] == ' ' || s[i] == '\t')
      && (n < |s| ==> s[n] != ' ' && s[n] != '\t')
  {
    if s != [] && (s[0] == ' ' || s[0] == '\t') then 1 + Blanks(s[1..]) else 0
  }

  function Run(s: string): (n: nat)
    ensures n <= |s| && (forall i :: 0 <= i < n ==> IsDigit(s[i])) && (n < |s| ==> !IsDigit(s[n]))
  {
    if s != [] && IsDigit(s[0]) then 1 + Run(s[1..]) else 0
  }

  /** A 32-bit pattern as a signed number. */
  function Signed(x: nat): int
    requires x < WORD
  {
    if x < 0x8000_0000 then x else x - WORD
  }

  /** Digits up to the first other character, modulo 2^32. */
  function Magnitude(s: string): nat { Value(s[..Run(s)]) % WORD }

  /** A sign, then digits. */
  function ParseSigned(t: string): (r: int)
    ensures -0x8000_0000 <= r < 0x8000_0000
  {
    if t != [] && t[0] == '-' then Signed((WORD - Magnitude(t[1..])) % WORD)
    else if t != [] && t[0] == '+' then Signed(Magnitude(t[1..]))
    else Signed(Magnitude(t))
  }

  /** What atoi makes of a string: blanks, a sign, then digits. */
  function Parse(s: string): (r: int)
    ensures -0x8000_0000 <= r < 0x8000_0000
  {
    ParseSigned(s[Blanks(s)..])
  }

  lemma BlanksAre(s: string, n: nat)
    requires n <= |s| && (forall i :: 0 <= i < n ==> s[i] == ' ' || s[i] == '\t')
      && (n < |s| ==> s[n] != ' ' && s[n] != '\t')
    ensures Blanks(s) == n
  {
  }

  lemma RunIs(s: string, n: nat)
    requires n <= |s| && (forall i :: 0 <= i < n ==> IsDigit(s[i])) && (n < |s| ==> !IsDigit(s[n]))
    ensures Run(s) == n
  {
  }

  lemma ValueAppend(s: string, c: char)
    requires AllDigits(s) && IsDigit(c)
    ensures AllDigits(s + [c]) && Value(s + [c]) == Value(s) * 10 + DigitValue(c)
  {
    assert (s + [c])[..|s|] == s;
  }

  /** The digit loop. */
  method Accumulate(s: string, start: nat) returns (val: nat)
    requires start <= |s|
    ensures val == Magnitude(s[start..])
  {
    ghost var u := s[start..];
    val := 0;
    var i := start;
    while i < |s| && IsDigit(s[i])
      invariant start <= i <= |s| && AllDigits(s[start..i]) && val == Value(s[start..i]) % WORD
    {
      ValueAppend(s[start..i], s[i]);
      assert s[start..i] + [s[i]] == s[start..i + 1];
      ModStep(Value(s[start..i]), DigitValue(s[i]));
      val := (val * 10 + DigitValue(s[i])) % WORD;
      i := i + 1;
    }
    RunIs(u, i - start);
    assert u[..i - start] == s[start..i];
  }

  lemma BlanksStop(s: string, rest: string)
    ensures Blanks(s + ['\0'] + rest) == Blanks(s)
  {
    BlanksAre(s + ['\0'] + rest, Blanks(s));
  }

  lemma MagnitudeStops(s: string, rest: string)
    ensures Magnitude(s + ['\0'] + rest) == Magnitude(s)
  {
    var u := s + ['\0'] + rest;
    RunIs(u, Run(s));
    assert u[..Run(s)] == s[..Run(s)];
  }

  /** The terminator ends the number like any other character that is no digit, so
      what lies behind it in memory does not matter. */
  lemma ParseStops(s: string, rest: string)
    ensures Parse(s + ['\0'] + rest) == Parse(s)
  {
    BlanksStop(s, rest);
    var t := s[Blanks(s)..];
    assert (s + ['\0'] + rest)[Blanks(s)..] == t + ['\0'] + rest;
    MagnitudeStops(t, rest);
    if t != [] {
      assert (t + ['\0'] + rest)[1..] == t[1..] + ['\0'] + rest;
      MagnitudeStops(t[1..], rest);
    }
  }

  /** atoi of a string in memory. */
  method Atoi(s: string) returns (r: int)
    ensures r == Parse(s)
  {
    var i := 0;
    while i < |s| && (s[i] == ' ' || s[i] == '\t')
      invariant 0 <= i <= |s| && forall j :: 0 <= j < i ==> s[j] == ' ' || s[j] == '\t'
    {
      i := i + 1;
    }
    BlanksAre(s, i);
    ghost var t := s[i..];
    var neg := false;
    if i < |s| && s[i] == '-' {
      neg := true;
      i := i + 1;
      assert t[1..] == s[i..];
    } else if i < |s| && s[i] == '+' {
      i := i + 1;
      assert t[1..] == s[i..];
    }
    var val := Accumulate(s, i);
    r := Signed(if neg then (WORD - val) % WORD else val);
  }

  lemma ModStep(v: nat, d: nat)
    ensures (v % WORD * 10 + d) % WORD == (v * 10 + d) % WORD
  {
  }
}
