/** The score arithmetic shared by the three servers: the accuracy figure
    `((correctAnswers / totalGamesPlayed) * 100).toFixed(2)`, the
    difficulty it selects, and the restoring of a counter from a cookie
    with `parseInt(cookie) || current`. */
module Scoring {
  import opened Results
  import opened JsStrings
  import opened JsNumbers

  datatype Difficulty = Easy | Medium | Hard {
    /** The string `determineDifficulty` returns. */
    function Name(): string {
      match this
      case Easy => "easy"
      case Medium => "medium"
      case Hard => "hard"
    }
  }

  /** An accuracy value as a handler holds it: the number 50 of the
      fresh-player branches, or the string `toFixed(2)` produced. `Fixed`
      is a finite value: its sign (a leading `-`) and its magnitude in
      hundredths; the other three are the strings "NaN", "Infinity" and
      "-Infinity" of a division by zero. */
  datatype Accuracy =
    | Fifty
    | Fixed(negative: bool, hundredths: nat)
    | NotANumber
    | PlusInfinity
    | MinusInfinity

  /** The signed value of a finite `Fixed`, in hundredths. */
  function SignedHundredths(a: Accuracy): int
    requires a.Fixed?
  {
    if a.negative then -(a.hundredths as int) else a.hundredths
  }

  function Abs(n: int): nat {
    if n < 0 then -n else n
  }

  /** `((c / t) * 100).toFixed(2)` on exact rationals: the magnitude
      10000|c|/|t| is rounded to the nearest whole number of hundredths,
      a tie going to the larger one, and a `-` is written when the
      quotient is below zero. A zero total gives NaN or an infinity. */
  function Percentage(c: int, t: int): (a: Accuracy)
    ensures t == 0 <==> !a.Fixed?
    ensures a.Fixed? ==> (a.negative <==> c * t < 0)
  {
    if t == 0 then
      (if c == 0 then NotANumber else if c > 0 then PlusInfinity else MinusInfinity)
    else
      SignOfProduct(c, t);
      Fixed(c != 0 && (c < 0) != (t < 0), (20000 * Abs(c) + Abs(t)) / (2 * Abs(t)))
  }

  /** The hundredths are 10000|c|/|t| rounded half up: the exact magnitude
      lies in [h - 1/2, h + 1/2). */
  lemma PercentageRounds(c: int, t: int)
    requires t != 0
    ensures var h := Percentage(c, t).hundredths;
      2 * Abs(t) * h <= 20000 * Abs(c) + Abs(t) < 2 * Abs(t) * (h + 1)
  {
    var x := 20000 * Abs(c) + Abs(t);
    var d := 2 * Abs(t);
    assert d * (x / d) + x % d == x;
  }

  lemma SignOfProduct(c: int, t: int)
    requires t != 0
    ensures c * t < 0 <==> (c != 0 && (c < 0) != (t < 0))
  {
    if c > 0 && t > 0 {
      assert c * t > 0;
    } else if c < 0 && t < 0 {
      assert c * t == (-c) * (-t);
    } else if c > 0 && t < 0 {
      assert c * t == -(c * (-t));
    } else if c < 0 && t > 0 {
      assert c * t == -((-c) * t);
    }
  }

  /** The accuracy the start-game handlers use to pick a difficulty:
      the number 50 before any game is counted. */
  function StartAccuracy(c: int, t: int): (a: Accuracy)
    ensures t == 0 ==> a == Fifty
    ensures t != 0 ==> a == Percentage(c, t) && a.Fixed?
  {
    if t == 0 then Fifty else Percentage(c, t)
  }

  /** The accuracy the language and math submit handlers report: the
      number 50 unless the total is positive. */
  function SubmitAccuracy(c: int, t: int): (a: Accuracy)
    ensures t <= 0 ==> a == Fifty
    ensures t > 0 ==> a == Percentage(c, t) && a.Fixed?
  {
    if t > 0 then Percentage(c, t) else Fifty
  }

  /** `accuracy > p`: the string is converted to a number first, NaN
      compares false and the infinities compare as infinities. */
  predicate Exceeds(a: Accuracy, p: nat) {
    match a
    case Fifty => 50 > p
    case Fixed(_, _) => SignedHundredths(a) > 100 * p
    case NotANumber => false
    case PlusInfinity => true
    case MinusInfinity => false
  }

  /** `determineDifficulty`: above 80 hard, above 50 medium, else easy. */
  function DetermineDifficulty(a: Accuracy): (d: Difficulty)
    ensures d == Hard <==> Exceeds(a, 80)
    ensures d == Medium <==> Exceeds(a, 50) && !Exceeds(a, 80)
    ensures d == Easy <==> !Exceeds(a, 50)
  {
    if Exceeds(a, 80) then Hard else if Exceeds(a, 50) then Medium else Easy
  }

  /** A player with no counted game is offered the easy tier: 50 is not
      above 50. */
  lemma FreshPlayerEasy(c: int)
    ensures DetermineDifficulty(StartAccuracy(c, 0)) == Easy
  {
  }

  /** `x / d` is the largest `q` with `q * d <= x`. */
  lemma DivBounds(x: nat, d: nat, q: nat)
    requires d > 0
    ensures q <= x / d <==> q * d <= x
  {
    var r := x / d;
    assert r * d <= x < (r + 1) * d;
    if q <= r {
      assert q * d <= r * d;
    } else {
      assert (r + 1) * d <= q * d;
    }
  }

  /** The thresholds in exact integer terms, for a non-negative score
      over a positive total: the rounding to hundredths moves each
      boundary by half a hundredth. */
  lemma TierBounds(c: nat, t: nat)
    requires t > 0
    ensures DetermineDifficulty(StartAccuracy(c, t)) == Hard <==> 20000 * c >= 16001 * t
    ensures DetermineDifficulty(StartAccuracy(c, t)) == Medium <==> 10001 * t <= 20000 * c < 16001 * t
    ensures DetermineDifficulty(StartAccuracy(c, t)) == Easy <==> 20000 * c < 10001 * t
  {
    var a := Percentage(c, t);
    var x := 20000 * c + t;
    assert a == Fixed(false, x / (2 * t));
    DivBounds(x, 2 * t, 8001);
    DivBounds(x, 2 * t, 5001);
    assert Exceeds(a, 80) <==> x / (2 * t) >= 8001;
    assert Exceeds(a, 50) <==> x / (2 * t) >= 5001;
  }

  /** Rounding can move a score into the lower tier: 40001 of 50000 is
      80.002 %, above 80, but `toFixed(2)` writes "80.00", which is not. */
  lemma RoundingBelowExact()
    ensures 100 * 40001 > 80 * 50000
    ensures DetermineDifficulty(StartAccuracy(40001, 50000)) == Medium
  {
    TierBounds(40001, 50000);
  }

  /** `parseInt(cookie) || current` with the radix guessed: a cookie
      replaces the counter only when it parses to a nonzero integer; a
      missing cookie reads as "undefined", which is NaN. */
  function Restore(cookie: Option<string>, current: int): (r: int)
    ensures r == 0 ==> current == 0
  {
    var text := if cookie.Some? then cookie.value else "undefined";
    match ParseInt(text, Auto)
    case NaN => current
    case Int(i) => if i == 0 then current else i
  }

  /** A counter written with `String` comes back as itself, unless it is
      zero, in which case the current value is kept. */
  lemma RestoreShown(n: int, current: int)
    ensures Restore(Some(Show(n)), current) == if n == 0 then current else n
  {
    assert Show(n) + [] == Show(n);
    ParseShow(n, [], Auto);
  }

  /** Without its cookie a counter keeps its current value. */
  lemma RestoreMissing(current: int)
    ensures Restore(None, current) == current
  {
    var u := "undefined";
    assert u[0] == 'u';
    ParseNoDigits(u, Auto);
  }

  /** A cookie holding a hexadecimal literal is read as hexadecimal. */
  lemma RestoreHex(current: int)
    ensures Restore(Some("0x1A"), current) == 26
  {
    ParseHexLiteral();
  }

  /** `parseInt("0x1A")` guesses base 16 and reads 26. */
  lemma ParseHexLiteral()
    ensures ParseInt("0x1A", Auto) == Int(26)
  {
    var digits := ['1', 'A'];
    assert "0x1A" == ['0', 'x'] + digits;
    ParseAutoHex('x', digits);
    HexDigits();
    assert digits[..2] == digits;
  }

  lemma HexDigits()
    ensures DigitRun(['1', 'A'], 16) == 2 && DigitsValue(['1', 'A'], 16) == 26
  {
    var digits := ['1', 'A'];
    assert digits[1..] == ['A'];
    assert DigitRun(['A'], 16) == 1 by {
      assert ['A'][1..] == [];
    }
    assert digits[..1] == ['1'];
    assert ['1'][..0] == [];
  }

  /** Nothing keeps a counter from being negative: a cookie "-3" restores
      -3. */
  lemma RestoreNegative(current: int)
    ensures Restore(Some("-3"), current) == -3
  {
    assert Show(-3) == "-3" by {
      assert ShowNat(3) == "3";
    }
    RestoreShown(-3, current);
  }

  /** The two decimals of a hundredths count. */
  function Hundredths(h: nat): (s: string)
    ensures |s| == 2
  {
    [DigitChar(h % 100 / 10), DigitChar(h % 10)]
  }

  /** The string an accuracy cookie stores; `Fifty` is `String(50)`. */
  function FormatAccuracy(a: Accuracy): (s: string)
    ensures a.Fixed? ==> |s| >= 4 && s[|s| - 3] == '.' && (a.negative <==> s[0] == '-')
  {
    match a
    case Fifty => "50"
    case Fixed(negative, h) => (if negative then "-" else "") + ShowNat(h / 100) + "." + Hundredths(h)
    case NotANumber => "NaN"
    case PlusInfinity => "Infinity"
    case MinusInfinity => "-Infinity"
  }
}
