/** `decodeURIComponent`, the Decode operation of ECMA-262 (section
    19.2.6.5) with an empty reserved set: every `%XX` escape is decoded, a
    non-ASCII character comes as the `%XX` escapes of its UTF-8 encoding,
    and a malformed escape or invalid UTF-8 throws a URIError (None here). */
module Uri {
  import opened Results
  import opened JsNumbers

  /** The byte written as `%XX` at index `k`, if there is one. */
  function EscapedByte(s: string, k: nat): (r: Option<nat>)
    ensures r.Some? ==> r.value < 256
  {
    if k + 3 <= |s| && s[k] == '%' && IsDigitOf(s[k + 1], 16) && IsDigitOf(s[k + 2], 16)
    then Some(DigitValue(s[k + 1]) * 16 + DigitValue(s[k + 2]))
    else None
  }

  /** How many bytes a UTF-8 sequence that starts with `b` has (1 for
      ASCII), or 0 when `b` cannot start one. */
  function SequenceLength(b: nat): nat {
    if b < 0x80 then 1
    else if 0xC0 <= b < 0xE0 then 2
    else if 0xE0 <= b < 0xF0 then 3
    else if 0xF0 <= b < 0xF8 then 4
    else 0
  }

  /** The continuation bytes of a sequence: `n` further escapes, each of
      the form 10xxxxxx, starting at index `k`; their payload bits,
      accumulated onto `acc`. */
  function Continuation(s: string, k: nat, n: nat, acc: nat): Option<nat>
    decreases n
  {
    if n == 0 then Some(acc)
    else match EscapedByte(s, k)
      case None => None
      case Some(b) =>
        if 0x80 <= b < 0xC0 then Continuation(s, k + 3, n - 1, acc * 64 + (b - 0x80)) else None
  }

  /** The smallest code point a sequence of `n` bytes may encode: a smaller
      one is an overlong encoding. */
  function MinCodePoint(n: nat): nat {
    if n == 2 then 0x80 else if n == 3 then 0x800 else 0x10000
  }

  /** The character encoded by the escapes at the start of `s` (which
      starts with `%`) and the number of characters they take. */
  function DecodeEscape(s: string): (r: Option<(char, nat)>)
    ensures r.Some? ==> 3 <= r.value.1 <= |s|
  {
    match EscapedByte(s, 0)
    case None => None
    case Some(b) =>
      var n := SequenceLength(b);
      if n == 0 then None
      else if n == 1 then Some((b as char, 3))
      else if |s| < 3 * n then None
      else
        var lead := if n == 2 then b - 0xC0 else if n == 3 then b - 0xE0 else b - 0xF0;
        match Continuation(s, 3, n - 1, lead)
        case None => None
        case Some(cp) =>
          if cp < MinCodePoint(n) || 0xD800 <= cp < 0xE000 || cp > 0x10FFFF then None
          else Some((cp as char, 3 * n))
  }

  /** `decodeURIComponent(s)`; None stands for the URIError it throws. */
  function DecodeURIComponent(s: string): (r: Option<string>)
    ensures r.Some? ==> |r.value| <= |s|
    decreases |s|
  {
    if s == [] then Some([])
    else if s[0] != '%' then
      match DecodeURIComponent(s[1..])
      case None => None
      case Some(t) => Some([s[0]] + t)
    else
      match DecodeEscape(s)
      case None => None
      case Some((c, used)) =>
        match DecodeURIComponent(s[used..])
        case None => None
        case Some(t) => Some([c] + t)
  }

  /** Text without `%` decodes to itself. */
  lemma {:induction false} DecodeWithoutEscapes(s: string)
    requires '%' !in s
    ensures DecodeURIComponent(s) == Some(s)
    decreases |s|
  {
    if s != [] {
      DecodeWithoutEscapes(s[1..]);
      assert [s[0]] + s[1..] == s;
    }
  }

  /** A `%` that is not followed by two hexadecimal digits throws. */
  lemma TruncatedEscapeThrows(s: string)
    requires |s| >= 1 && s[0] == '%'
    requires |s| < 3 || !IsDigitOf(s[1], 16) || !IsDigitOf(s[2], 16)
    ensures DecodeURIComponent(s) == None
  {
  }

  /** A two-byte UTF-8 escape decodes to its code point. */
  lemma TwoByteEscape()
    ensures DecodeURIComponent("%C3%A9") == Some("\U{E9}")
  {
    assert EscapedByte("%C3%A9", 0) == Some(0xC3);
    assert EscapedByte("%C3%A9", 3) == Some(0xA9);
    assert Continuation("%C3%A9", 3, 1, 3) == Some(0xE9);
    assert DecodeEscape("%C3%A9") == Some(('\U{E9}', 6));
    assert "%C3%A9"[6..] == [];
    assert DecodeURIComponent("%C3%A9"[6..]) == Some([]);
    assert ['\U{E9}'] + [] == "\U{E9}";
  }

  /** An overlong encoding of `/` is rejected. */
  lemma OverlongEscapeThrows()
    ensures DecodeURIComponent("%C0%AF") == None
  {
    assert EscapedByte("%C0%AF", 0) == Some(0xC0);
    assert EscapedByte("%C0%AF", 3) == Some(0xAF);
    assert Continuation("%C0%AF", 3, 1, 0) == Some(0x2F);
  }
}
