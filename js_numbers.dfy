/** `parseInt` and the decimal form of an integer, as ECMAScript defines
    them (section 19.2.5 and Number::toString of ECMA-262), on unbounded
    integers. */
module JsNumbers {
  import opened Results
  import opened JsStrings

  /** What `parseInt` returns: NaN or an integer (-0 is folded into 0, which
      `||` and `===` cannot tell apart). */
  datatype Num = NaN | Int(i: int)

  /** `parseInt(s)` guesses the radix from a `0x` prefix; `parseInt(s, 10)`
      does not. */
  datatype Radix = Auto | Ten

  predicate IsDecimalDigit(c: char) {
    '0' <= c <= '9'
  }

  predicate IsDigitOf(c: char, base: nat) {
    IsDecimalDigit(c) || (base == 16 && ('a' <= c <= 'f' || 'A' <= c <= 'F'))
  }

  function DigitValue(c: char): (v: nat)
    ensures IsDecimalDigit(c) ==> v < 10
    ensures IsDigitOf(c, 16) ==> v < 16
  {
    if IsDecimalDigit(c) then c as int - '0' as int
    else if 'a' <= c <= 'f' then c as int - 'a' as int + 10
    else if 'A' <= c <= 'F' then c as int - 'A' as int + 10
    else 0
  }

  function DigitChar(d: nat): (c: char)
    requires d < 10
    ensures IsDecimalDigit(c) && DigitValue(c) == d
  {
    ('0' as int + d) as char
  }

  /** The length of the longest prefix of `s` made of digits of `base`. */
  function DigitRun(s: string, base: nat): (n: nat)
    ensures n <= |s|
    ensures forall i :: 0 <= i < n ==> IsDigitOf(s[i], base)
    ensures n == |s| || !IsDigitOf(s[n], base)
    decreases |s|
  {
    if s != [] && IsDigitOf(s[0], base) then 1 + DigitRun(s[1..], base) else 0
  }

  /** The value of a digit string, most significant digit first. */
  function DigitsValue(ds: string, base: nat): nat
    decreases |ds|
  {
    if ds == [] then 0 else DigitsValue(ds[..|ds| - 1], base) * base + DigitValue(ds[|ds| - 1])
  }

  /** `parseInt(s)` (radix Auto) or `parseInt(s, 10)` (radix Ten): skip
      leading whitespace, read an optional sign, then the magnitude; NaN
      when there is none. */
  function ParseInt(s: string, radix: Radix): (r: Num)
  {
    var t := TrimStart(s);
    var negative := t != [] && t[0] == '-';
    var u := if t != [] && (t[0] == '+' || t[0] == '-') then t[1..] else t;
    match ParseMagnitude(u, radix)
    case None => NaN
    case Some(v) => var mag: int := v; Int(if negative then -mag else mag)
  }

  /** The unsigned part of `parseInt`: with radix Auto a `0x` or `0X`
      prefix selects base 16; then the longest run of digits of the base,
      none when that run is empty. Whatever follows the digits is ignored. */
  function ParseMagnitude(u: string, radix: Radix): (r: Option<nat>)
  {
    var hex := radix == Auto && |u| >= 2 && u[0] == '0' && (u[1] == 'x' || u[1] == 'X');
    var base := if hex then 16 else 10;
    var digits := if hex then u[2..] else u;
    var n := DigitRun(digits, base);
    if n == 0 then None else Some(DigitsValue(digits[..n], base))
  }

  /** The decimal digits of a natural number, without leading zeros. */
  function ShowNat(n: nat): (s: string)
    ensures |s| >= 1
    ensures forall i :: 0 <= i < |s| ==> IsDecimalDigit(s[i])
    ensures s[0] == '0' ==> n == 0 && |s| == 1
    decreases n
  {
    if n < 10 then [DigitChar(n)] else ShowNat(n / 10) + [DigitChar(n % 10)]
  }

  /** `String(n)` for an integer. */
  function Show(n: int): (s: string)
  {
    if n < 0 then "-" + ShowNat(-n) else ShowNat(n)
  }

  /** Reading the digits of `n` back gives `n`. */
  lemma {:induction false} ShowNatValue(n: nat)
    ensures DigitsValue(ShowNat(n), 10) == n
    decreases n
  {
    if n >= 10 {
      var s := ShowNat(n);
      ShowNatValue(n / 10);
      assert s[..|s| - 1] == ShowNat(n / 10);
    }
  }

  /** The digit run at the start of `digits + rest` is `digits`, when
      `rest` does not continue it. */
  lemma {:induction false} DigitRunOfDigits(digits: string, rest: string, base: nat)
    requires forall i :: 0 <= i < |digits| ==> IsDigitOf(digits[i], base)
    requires rest == [] || !IsDigitOf(rest[0], base)
    ensures DigitRun(digits + rest, base) == |digits|
    decreases |digits|
  {
    if digits != [] {
      DigitRunOfDigits(digits[1..], rest, base);
      assert (digits + rest)[1..] == digits[1..] + rest;
    }
  }

  /** `parseInt` reads back what `String` wrote, whatever follows the
      number so long as it does not extend it (a digit, or an `x` after a
      lone `0` when the radix is guessed). */
  lemma ParseShow(n: int, rest: string, radix: Radix)
    requires rest == [] || !IsDecimalDigit(rest[0])
    requires radix == Auto && n == 0 ==> rest == [] || (rest[0] != 'x' && rest[0] != 'X')
    ensures ParseInt(Show(n) + rest, radix) == Int(n)
  {
    if n < 0 {
      var m: nat := -n;
      assert Show(n) == "-" + ShowNat(m);
      assert Show(n) + rest == ['-'] + (ShowNat(m) + rest);
      ParseSigned(m, rest, radix);
    } else {
      ParseUnsigned(n, rest, radix);
    }
  }

  lemma ParseSigned(m: nat, rest: string, radix: Radix)
    requires m > 0
    requires rest == [] || !IsDecimalDigit(rest[0])
    ensures ParseInt(['-'] + (ShowNat(m) + rest), radix) == Int(-(m as int))
  {
    var s := ['-'] + (ShowNat(m) + rest);
    assert !IsWhitespace(s[0]);
    assert TrimStart(s) == s;
    assert s[1..] == ShowNat(m) + rest;
    ParseShowNat(m, rest, radix);
  }

  lemma ParseUnsigned(m: nat, rest: string, radix: Radix)
    requires rest == [] || !IsDecimalDigit(rest[0])
    requires radix == Auto && m == 0 ==> rest == [] || (rest[0] != 'x' && rest[0] != 'X')
    ensures ParseInt(ShowNat(m) + rest, radix) == Int(m)
  {
    var s := ShowNat(m) + rest;
    assert s[0] == ShowNat(m)[0];
    ParseUnsignedText(s, radix);
    ParseShowNat(m, rest, radix);
  }

  lemma ParseShowNat(m: nat, rest: string, radix: Radix)
    requires rest == [] || !IsDecimalDigit(rest[0])
    requires radix == Auto && m == 0 ==> rest == [] || (rest[0] != 'x' && rest[0] != 'X')
    ensures ParseMagnitude(ShowNat(m) + rest, radix) == Some(m)
  {
    var digits := ShowNat(m);
    var u := digits + rest;
    assert u[..|digits|] == digits;
    assert !(radix == Auto && |u| >= 2 && u[0] == '0' && (u[1] == 'x' || u[1] == 'X'));
    DigitRunOfDigits(digits, rest, 10);
    ShowNatValue(m);
  }

  /** Text that starts with neither whitespace nor a sign is parsed by its
      magnitude alone. */
  lemma ParseUnsignedText(s: string, radix: Radix)
    requires s != [] && !IsWhitespace(s[0]) && s[0] != '+' && s[0] != '-'
    ensures ParseInt(s, radix) == match ParseMagnitude(s, radix) case None => NaN case Some(v) => Int(v)
  {
    assert TrimStart(s) == s;
  }

  /** With the radix guessed, a `0x` or `0X` prefix selects base 16 for
      what follows it. */
  lemma ParseAutoHex(x: char, digits: string)
    requires x == 'x' || x == 'X'
    ensures var n := DigitRun(digits, 16);
      ParseInt(['0', x] + digits, Auto) == if n == 0 then NaN else Int(DigitsValue(digits[..n], 16))
  {
    var u := ['0', x] + digits;
    ParseUnsignedText(u, Auto);
    assert u[2..] == digits;
  }

  /** `parseInt` yields NaN exactly when no digit follows the blanks, the
      sign and the prefix: here, text whose first character is none of
      these. */
  lemma ParseNoDigits(s: string, radix: Radix)
    requires s != [] && !IsWhitespace(s[0]) && s[0] != '+' && s[0] != '-' && !IsDecimalDigit(s[0])
    ensures ParseInt(s, radix) == NaN
  {
    ParseUnsignedText(s, radix);
    assert DigitRun(s, 10) == 0;
  }

  /** Blank text is NaN, and a negative result needs a `-` after the
      blanks. */
  lemma ParseIntSign(s: string, radix: Radix)
    ensures TrimStart(s) == [] ==> ParseInt(s, radix) == NaN
    ensures ParseInt(s, radix).Int? && ParseInt(s, radix).i < 0 ==> TrimStart(s)[0] == '-'
  {
  }

  /** `parseInt(digits, 10)` of a string of decimal digits is their value. */
  lemma ParseDigitString(digits: string)
    requires digits != [] && forall i :: 0 <= i < |digits| ==> IsDecimalDigit(digits[i])
    ensures ParseInt(digits, Ten) == Int(DigitsValue(digits, 10))
  {
    ParseUnsignedText(digits, Ten);
    assert digits + [] == digits;
    DigitRunOfDigits(digits, [], 10);
    assert digits[..|digits|] == digits;
  }
}
