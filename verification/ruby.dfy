/**
 The few pieces of Ruby's core library that the game's logic leans on:
 `nil`, `Array#[]` past the end of an array, `String#to_i` (base 10) and
 `String#upcase`. Each is modelled only as far as the game can exercise it.
 */
module Ruby {

  /** A value or Ruby's `nil`. */
  datatype Option<+T> = Nil | Some(value: T) {

    /** The value, or `default` when this is `nil`. */
    function GetOr(default: T): T {
      match this
      case Some(v) => v
      case Nil => default
    }
  }

  /** `a[i]` for a non-negative index: reading past the end gives `nil`. */
  function At<T>(a: seq<T>, i: nat): (r: Option<T>)
    ensures r.Some? <==> i < |a|
    ensures r.Some? ==> r.value == a[i]
  {
    if i < |a| then Some(a[i]) else Nil
  }

  // ---------------------------------------------------------------------------
  // String#to_i
  // ---------------------------------------------------------------------------

  /** The characters `to_i` skips before the number: space, tab, newline,
      vertical tab, form feed and carriage return. */
  predicate IsSpace(c: char) {
    c == ' ' || c == '\t' || c == '\n' || c == '\U{B}' || c == '\U{C}' || c == '\r'
  }

  predicate IsDigit(c: char) {
    '0' <= c <= '9'
  }

  predicate AllDigits(s: string) {
    forall i :: 0 <= i < |s| ==> IsDigit(s[i])
  }

  function DigitValue(c: char): (d: nat)
    requires IsDigit(c)
    ensures d < 10
  {
    c as int - '0' as int
  }

  function DigitChar(d: nat): (c: char)
    requires d < 10
    ensures IsDigit(c) && DigitValue(c) == d
  {
    ('0' as int + d) as char
  }

  /** `s` with its leading whitespace removed. */
  function SkipSpace(s: string): (r: string)
    ensures |r| <= |s| && r == s[|s| - |r|..]
    ensures r == [] || !IsSpace(r[0])
    ensures forall i :: 0 <= i < |s| - |r| ==> IsSpace(s[i])
  {
    if |s| > 0 && IsSpace(s[0]) then SkipSpace(s[1..]) else s
  }

  /** The digits of the number at the start of `s`: a run of decimal
      digits in which a single underscore between two digits is skipped. A
      second underscore in a row, or one not followed by a digit, ends it. */
  function DigitRun(s: string): (r: string)
    ensures AllDigits(r) && |r| <= |s|
    ensures r == [] <==> s == [] || !IsDigit(s[0])
  {
    if |s| == 0 || !IsDigit(s[0]) then []
    else if |s| >= 3 && s[1] == '_' && IsDigit(s[2]) then [s[0]] + DigitRun(s[2..])
    else [s[0]] + DigitRun(s[1..])
  }

  /** The value of a run of decimal digits, most significant first. */
  function Decimal(ds: string): nat
    requires AllDigits(ds)
  {
    if |ds| == 0 then 0 else Decimal(ds[..|ds| - 1]) * 10 + DigitValue(ds[|ds| - 1])
  }

  /** `u` without the optional base-10 radix prefix `0d` or `0D`. */
  function SkipRadixPrefix(u: string): (r: string)
    ensures r == u || (|u| >= 2 && r == u[2..])
  {
    if |u| >= 2 && u[0] == '0' && (u[1] == 'd' || u[1] == 'D') then u[2..] else u
  }

  /** The unsigned number at the very start of `u`: an optional `0d` prefix,
      then the digit run; no digits read as 0. */
  function ReadUnsigned(u: string): (n: nat)
    ensures n != 0 ==> exists i :: 0 <= i < |u| && IsDigit(u[i])
  {
    var p := SkipRadixPrefix(u);
    var ds := DigitRun(p);
    assert |ds| > 0 ==> p[0] in u;
    Decimal(ds)
  }

  /** The number at the very start of `t`: an optional sign, then an
      unsigned number. */
  function ReadSigned(t: string): (n: int)
    ensures n != 0 ==> exists i :: 0 <= i < |t| && IsDigit(t[i])
  {
    if |t| > 0 && (t[0] == '+' || t[0] == '-') then
      var m := ReadUnsigned(t[1..]);
      assert m != 0 ==> exists i :: 0 <= i < |t[1..]| && IsDigit(t[1..][i]);
      if t[0] == '-' then -(m as int) else m
    else
      ReadUnsigned(t)
  }

  /** `s.to_i`: skip leading whitespace, then read a signed number; anything
      after the digits is ignored. */
  function ToI(s: string): int {
    ReadSigned(SkipSpace(s))
  }

  /** Text without a digit reads as 0, as in `"invalid data".to_i == 0`. */
  lemma ToINeedsDigit(s: string)
    ensures ToI(s) != 0 ==> exists i :: 0 <= i < |s| && IsDigit(s[i])
  {
    var t := SkipSpace(s);
    if ToI(s) != 0 {
      var i :| 0 <= i < |t| && IsDigit(t[i]);
      assert s[|s| - |t| + i] == t[i];
    }
  }

  /** The decimal numeral of `n`, without leading zeros: it starts with `0`
      only for 0 itself. */
  function Numeral(n: nat): (r: string)
    ensures |r| >= 1 && AllDigits(r)
    ensures r[0] == '0' <==> n == 0
  {
    if n < 10 then [DigitChar(n)] else Numeral(n / 10) + [DigitChar(n % 10)]
  }

  lemma {:induction false} DecimalOfNumeral(n: nat)
    ensures Decimal(Numeral(n)) == n
  {
    if n >= 10 {
      var ds := Numeral(n);
      assert ds[..|ds| - 1] == Numeral(n / 10);
      DecimalOfNumeral(n / 10);
    }
  }

  /** Text that cannot continue a digit run: it does not start with a digit,
      nor with an underscore followed by a digit. */
  predicate EndsNumber(rest: string) {
    rest == [] || (!IsDigit(rest[0]) && !(rest[0] == '_' && |rest| >= 2 && IsDigit(rest[1])))
  }

  /** Text that starts with a digit but not with the `0d` prefix. */
  predicate StartsPlainNumber(u: string) {
    |u| > 0 && IsDigit(u[0]) && (u[0] != '0' || |u| == 1 || (u[1] != 'd' && u[1] != 'D'))
  }

  lemma DigitRunStep(s: string)
    requires |s| >= 1 && IsDigit(s[0]) && (|s| < 3 || s[1] != '_' || !IsDigit(s[2]))
    ensures DigitRun(s) == [s[0]] + DigitRun(s[1..])
  {
  }

  lemma DigitRunSkip(s: string)
    requires |s| >= 3 && IsDigit(s[0]) && s[1] == '_' && IsDigit(s[2])
    ensures DigitRun(s) == [s[0]] + DigitRun(s[2..])
  {
  }

  lemma {:induction false} DigitRunOfDigits(ds: string, rest: string)
    requires AllDigits(ds) && EndsNumber(rest)
    ensures DigitRun(ds + rest) == ds
  {
    var s := ds + rest;
    if ds == [] {
      assert s == rest;
    } else {
      assert s[0] == ds[0];
      assert s[1..] == ds[1..] + rest;
      if |ds| == 1 {
        assert |s| >= 3 ==> s[1] == rest[0] && s[2] == rest[1];
      } else {
        assert s[1] == ds[1];
      }
      DigitRunStep(s);
      DigitRunOfDigits(ds[1..], rest);
      assert ds == [ds[0]] + ds[1..];
    }
  }

  /** A single underscore between two runs of digits is skipped. */
  lemma DigitRunJoins(a: string, b: string, rest: string)
    requires |a| > 0 && AllDigits(a) && |b| > 0 && AllDigits(b) && EndsNumber(rest)
    ensures DigitRun(a + "_" + b + rest) == a + b
  {
    var t := "_" + (b + rest);
    assert a + "_" + b + rest == a + t;
    DigitRunThroughUnderscore(a, b, rest);
  }

  lemma {:induction false} DigitRunThroughUnderscore(a: string, b: string, rest: string)
    requires |a| > 0 && AllDigits(a) && |b| > 0 && AllDigits(b) && EndsNumber(rest)
    ensures DigitRun(a + ("_" + (b + rest))) == a + b
  {
    var t := "_" + (b + rest);
    var s := a + t;
    if |a| == 1 {
      assert s[1..] == t && t[1..] == b + rest;
      assert s[2..] == b + rest;
      assert s[1] == '_' && s[2] == b[0];
      DigitRunSkip(s);
      DigitRunOfDigits(b, rest);
    } else {
      assert s[1..] == a[1..] + t;
      assert s[1] == a[1];
      DigitRunStep(s);
      DigitRunThroughUnderscore(a[1..], b, rest);
      assert a + b == [a[0]] + (a[1..] + b);
    }
  }

  /** Text that starts with a digit, and not with the `0d` prefix, reads as
      its digit run. */
  lemma ToIOfPlainNumber(u: string)
    requires StartsPlainNumber(u)
    ensures ToI(u) == Decimal(DigitRun(u))
  {
    assert !IsSpace(u[0]) && u[0] != '+' && u[0] != '-';
    assert SkipSpace(u) == u;
    assert SkipRadixPrefix(u) == u;
  }

  /** A minus sign before such text negates what it reads as. */
  lemma ToIOfMinusPlainNumber(u: string)
    requires StartsPlainNumber(u)
    ensures ToI("-" + u) == -ToI(u)
  {
    var s := "-" + u;
    assert s[0] == '-' && !IsSpace(s[0]);
    assert SkipSpace(s) == s;
    assert s[1..] == u;
    assert SkipRadixPrefix(u) == u;
    ToIOfPlainNumber(u);
  }

  /** The numeral of `n` followed by `rest` starts a plain number, unless
      `n` is 0 and `rest` turns the `0` into the `0d` prefix. */
  lemma NumeralStartsPlainNumber(n: nat, rest: string)
    requires n > 0 || rest == [] || (rest[0] != 'd' && rest[0] != 'D')
    ensures StartsPlainNumber(Numeral(n) + rest)
  {
    var s := Numeral(n) + rest;
    assert s[0] == Numeral(n)[0];
    assert n == 0 && |s| >= 2 ==> s[1] == rest[0];
  }

  /** Round trip: `to_i` reads back the numeral of `n` followed by text that
      cannot continue it, as in `"5abc".to_i == 5`. After `0`, text starting
      with `d` or `D` is excluded: `0d` is a radix prefix. */
  lemma ToIOfNumeral(n: nat, rest: string)
    requires EndsNumber(rest)
    requires n > 0 || rest == [] || (rest[0] != 'd' && rest[0] != 'D')
    ensures ToI(Numeral(n) + rest) == n
  {
    NumeralStartsPlainNumber(n, rest);
    ToIOfPlainNumber(Numeral(n) + rest);
    DigitRunOfDigits(Numeral(n), rest);
    DecimalOfNumeral(n);
  }

  /** A leading minus sign negates the numeral: `"-3".to_i == -3`. */
  lemma ToIOfNegativeNumeral(n: nat, rest: string)
    requires EndsNumber(rest)
    requires n > 0 || rest == [] || (rest[0] != 'd' && rest[0] != 'D')
    ensures ToI("-" + Numeral(n) + rest) == -(n as int)
  {
    var u := Numeral(n) + rest;
    assert "-" + Numeral(n) + rest == "-" + u;
    NumeralStartsPlainNumber(n, rest);
    ToIOfMinusPlainNumber(u);
    ToIOfNumeral(n, rest);
  }

  /** A single digit reads as its value. */
  lemma ToIOfDigit(c: char)
    requires IsDigit(c)
    ensures ToI([c]) == DigitValue(c)
  {
    var d := DigitValue(c);
    assert Numeral(d) == [c];
    ToIOfNumeral(d, "");
    assert Numeral(d) + "" == [c];
  }

  /** The base-10 prefix is skipped: `"0d5".to_i == 5`. */
  lemma ToIOfPrefixedNumeral(d: char, n: nat, rest: string)
    requires d == 'd' || d == 'D'
    requires EndsNumber(rest)
    ensures ToI(['0', d] + Numeral(n) + rest) == n
  {
    var u := Numeral(n) + rest;
    var s := ['0', d] + u;
    assert s == ['0', d] + Numeral(n) + rest;
    assert s[0] == '0' && !IsSpace(s[0]) && s[0] != '+' && s[0] != '-';
    assert SkipSpace(s) == s;
    assert s[2..] == u;
    assert SkipRadixPrefix(s) == u;
    DigitRunOfDigits(Numeral(n), rest);
    DecimalOfNumeral(n);
  }

  /** An underscore between digit groups is skipped: `"5_3".to_i == 53`. */
  lemma ToIOfGroupedNumeral(n: nat, ds: string, rest: string)
    requires |ds| > 0 && AllDigits(ds) && EndsNumber(rest)
    ensures ToI(Numeral(n) + "_" + ds + rest) == Decimal(Numeral(n) + ds)
  {
    var s := Numeral(n) + "_" + ds + rest;
    assert s[0] == Numeral(n)[0];
    assert n == 0 ==> s[1] == '_';
    ToIOfPlainNumber(s);
    DigitRunJoins(Numeral(n), ds, rest);
  }

  /** Text that starts with a minus sign never reads as a positive number. */
  lemma ToIOfMinusStart(t: string)
    requires |t| > 0 && t[0] == '-'
    ensures ToI(t) <= 0
  {
    assert !IsSpace(t[0]);
    assert SkipSpace(t) == t;
  }

  /** Nor does text that starts with a minus sign after blanks. */
  lemma ToIOfMinus(ws: string, s: string)
    requires forall i :: 0 <= i < |ws| ==> IsSpace(ws[i])
    ensures ToI(ws + "-" + s) <= 0
  {
    var t := "-" + s;
    assert ws + "-" + s == ws + t;
    ToISkipsSpace(ws, t);
    ToIOfMinusStart(t);
  }

  lemma {:induction false} SkipSpaceOfBlanks(ws: string, s: string)
    requires forall i :: 0 <= i < |ws| ==> IsSpace(ws[i])
    ensures SkipSpace(ws + s) == SkipSpace(s)
  {
    if ws != [] {
      assert (ws + s)[1..] == ws[1..] + s;
      SkipSpaceOfBlanks(ws[1..], s);
    } else {
      assert ws + s == s;
    }
  }

  /** Leading whitespace never changes what `to_i` reads. */
  lemma ToISkipsSpace(ws: string, s: string)
    requires forall i :: 0 <= i < |ws| ==> IsSpace(ws[i])
    ensures ToI(ws + s) == ToI(s)
  {
    SkipSpaceOfBlanks(ws, s);
  }

  // ---------------------------------------------------------------------------
  // String#upcase
  // ---------------------------------------------------------------------------

  function UpcaseChar(c: char): char {
    if 'a' <= c <= 'z' then (c as int - 32) as char else c
  }

  /** `s.upcase` on ASCII letters; every other character is kept. */
  function Upcase(s: string): (r: string)
    ensures |r| == |s|
    ensures forall i :: 0 <= i < |s| ==> r[i] == UpcaseChar(s[i])
  {
    seq(|s|, i requires 0 <= i < |s| => UpcaseChar(s[i]))
  }

  /** The strings that upcase to a single capital letter are that letter and
      its lower-case form. */
  lemma UpcaseToLetter(s: string, capital: char)
    requires 'A' <= capital <= 'Z'
    ensures Upcase(s) == [capital] <==> s == [capital] || s == [(capital as int + 32) as char]
  {
    if Upcase(s) == [capital] {
      assert UpcaseChar(s[0]) == capital;
    }
  }
}
