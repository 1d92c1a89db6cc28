/** `getCookies`, which both multi-mode servers define identically: the
    Cookie header is split on `;`, each piece on `=`, name and value are
    trimmed and the value is passed through `decodeURIComponent` into a
    plain JavaScript object. */
module Cookies {
  import opened Results
  import opened JsStrings
  import Uri

  type Jar = map<string, string>

  /** `cookies[name]`: undefined (None) when the name was never stored. */
  function Lookup(jar: Jar, name: string): Option<string> {
    if name in jar then Some(jar[name]) else None
  }

  /** The trimmed name of a piece: the text before its first `=`. */
  function PieceName(piece: string): string {
    Trim(Split(piece, '=')[0])
  }

  /** The trimmed raw value of a piece: the text between its first and
      second `=`, undefined (None) when it has no `=`. */
  function PieceRaw(piece: string): Option<string> {
    var parts := Split(piece, '=');
    if |parts| >= 2 then Some(Trim(parts[1])) else None
  }

  /** The string `decodeURIComponent` is given: undefined becomes
      "undefined". */
  function ValueText(raw: Option<string>): string {
    match raw
    case Some(v) => v
    case None => "undefined"
  }

  function PieceValue(piece: string): Option<string> {
    Uri.DecodeURIComponent(ValueText(PieceRaw(piece)))
  }

  /** A piece as the `forEach` body sees it once split and decoded: its
      name and its decoded value, None when `decodeURIComponent` throws. */
  datatype Piece = Piece(name: string, value: Option<string>)

  function ParsePiece(piece: string): Piece {
    Piece(PieceName(piece), PieceValue(piece))
  }

  /** A piece without `=` is a name alone, whose value is "undefined". */
  lemma ParsePieceWithoutValue(a: string)
    requires '=' !in a
    ensures ParsePiece(a) == Piece(Trim(a), Some("undefined"))
  {
    SplitWithoutSeparator(a, '=');
    DecodeUndefined();
  }

  lemma DecodeUndefined()
    ensures Uri.DecodeURIComponent("undefined") == Some("undefined")
  {
    var undefined := "undefined";
    Uri.DecodeWithoutEscapes(undefined);
  }

  /** `name=value`: the trimmed name and the decoded trimmed value. */
  lemma {:induction false} ParsePieceOneSeparator(a: string, b: string)
    requires '=' !in a && '=' !in b
    ensures ParsePiece(a + "=" + b) == Piece(Trim(a), Uri.DecodeURIComponent(Trim(b)))
  {
    SplitOneSeparator(a, b);
  }

  /** Text after a second `=` is dropped. */
  lemma {:induction false} ParsePieceTwoSeparators(a: string, b: string, c: string)
    requires '=' !in a && '=' !in b
    ensures ParsePiece(a + "=" + b + "=" + c) == Piece(Trim(a), Uri.DecodeURIComponent(Trim(b)))
  {
    SplitTwoSeparators(a, b, c);
  }

  lemma {:induction false} SplitOneSeparator(a: string, b: string)
    requires '=' !in a && '=' !in b
    ensures Split(a + "=" + b, '=') == [a, b]
  {
    assert a + "=" + b == a + ['='] + b;
    SplitAfterFirst(a, '=', b);
    SplitWithoutSeparator(b, '=');
  }

  lemma {:induction false} SplitTwoSeparators(a: string, b: string, c: string)
    requires '=' !in a && '=' !in b
    ensures var parts := Split(a + "=" + b + "=" + c, '=');
      |parts| >= 2 && parts[0] == a && parts[1] == b
  {
    assert a + "=" + b + "=" + c == a + ['='] + (b + ['='] + c);
    SplitAfterFirst(a, '=', b + ['='] + c);
    SplitAfterFirst(b, '=', c);
  }

  /** `f` applied to each element in turn, as the `forEach` visits the
      pieces. */
  function Map<A, B>(f: A -> B, s: seq<A>): (r: seq<B>)
    ensures |r| == |s|
    decreases |s|
  {
    if s == [] then [] else [f(s[0])] + Map(f, s[1..])
  }

  lemma {:induction false} MapAt<A, B>(f: A -> B, s: seq<A>, i: nat)
    requires i < |s|
    ensures Map(f, s)[i] == f(s[i])
    decreases i
  {
    if i > 0 {
      MapAt(f, s[1..], i - 1);
    }
  }

  lemma MapFront<A, B>(f: A -> B, s: seq<A>)
    requires s != []
    ensures Map(f, s) == [f(s[0])] + Map(f, s[1..])
  {
  }

  function ParseAll(pieces: seq<string>): (r: seq<Piece>)
    ensures |r| == |pieces|
  {
    Map(ParsePiece, pieces)
  }

  /** `ParseAll` parses each piece by itself. */
  lemma {:induction false} ParseAllAt(pieces: seq<string>, i: nat)
    requires i < |pieces|
    ensures ParseAll(pieces)[i] == ParsePiece(pieces[i])
  {
    MapAt(ParsePiece, pieces, i);
  }

  /** One step of the `forEach`. Assigning a string to `__proto__` of a
      plain object is ignored. */
  function Store(jar: Jar, p: Piece): (r: Result<Jar>)
    ensures r.Err? <==> p.value.None?
    ensures r.Ok? ==> r.value.Keys == jar.Keys + (if p.name == "__proto__" then {} else {p.name})
    ensures r.Ok? && p.name != "__proto__" ==> r.value[p.name] == p.value.value
  {
    match p.value
    case None => Err(UriMalformed)
    case Some(v) => Ok(if p.name == "__proto__" then jar else jar[p.name := v])
  }

  function StoreAll(jar: Jar, ps: seq<Piece>): (r: Result<Jar>)
    ensures r.Err? ==> r.error == UriMalformed
    decreases |ps|
  {
    if ps == [] then Ok(jar)
    else
      match Store(jar, ps[0])
      case Err(e) => Err(e)
      case Ok(next) => StoreAll(next, ps[1..])
  }

  /** What `getCookies` returns for a request whose Cookie header is
      `header` (None when the request has none). */
  function CookieJar(header: Option<string>): (r: Result<Jar>)
    ensures r.Err? ==> r.error == UriMalformed
    ensures header.None? ==> r == Ok(map[])
  {
    match header
    case None => Ok(map[])
    case Some(h) => StoreAll(map[], ParseAll(Split(h, ';')))
  }

  /** `getCookies`, step by step as the source fills its object. */
  method GetCookies(header: Option<string>) returns (r: Result<Jar>)
    ensures r == CookieJar(header)
  {
    if header.None? {
      return Ok(map[]);
    }
    r := StorePieces(Split(header.value, ';'));
  }

  /** The `forEach` over the pieces of the header, filling the object. */
  method StorePieces(pieces: seq<string>) returns (r: Result<Jar>)
    ensures r == StoreAll(map[], ParseAll(pieces))
  {
    assert pieces[0..] == pieces;
    var cookies: Jar := map[];
    var i := 0;
    while i < |pieces|
      invariant 0 <= i <= |pieces|
      invariant StoreAll(map[], ParseAll(pieces)) == StoreAll(cookies, ParseAll(pieces[i..]))
    {
      var p := ParsePiece(pieces[i]);
      ParseAllCons(pieces, i);
      StoreAllCons(cookies, p, ParseAll(pieces[i + 1..]));
      if p.value.None? {
        return Err(UriMalformed);
      }
      if p.name != "__proto__" {
        cookies := cookies[p.name := p.value.value];
      }
      i := i + 1;
    }
    return Ok(cookies);
  }

  lemma ParseAllCons(pieces: seq<string>, i: nat)
    requires i < |pieces|
    ensures ParseAll(pieces[i..]) == [ParsePiece(pieces[i])] + ParseAll(pieces[i + 1..])
  {
    assert pieces[i..][1..] == pieces[i + 1..];
    MapFront(ParsePiece, pieces[i..]);
  }

  lemma StoreAllCons(jar: Jar, p: Piece, rest: seq<Piece>)
    ensures Store(jar, p).Err? ==> StoreAll(jar, [p] + rest) == Err(UriMalformed)
    ensures Store(jar, p).Ok? ==> StoreAll(jar, [p] + rest) == StoreAll(Store(jar, p).value, rest)
  {
    assert ([p] + rest)[1..] == rest;
  }

  /** The header fails to parse exactly when one of its values is not
      valid percent-encoding. */
  lemma {:induction false} FailsIffUndecodable(jar: Jar, ps: seq<Piece>)
    ensures StoreAll(jar, ps).Err? <==> exists j :: 0 <= j < |ps| && ps[j].value.None?
    decreases |ps|
  {
    if ps != [] {
      match Store(jar, ps[0])
      case Err(_) =>
      case Ok(next) =>
        FailsIffUndecodable(next, ps[1..]);
        if exists j :: 0 <= j < |ps| && ps[j].value.None? {
          var j :| 0 <= j < |ps| && ps[j].value.None?;
          assert j > 0 && ps[1..][j - 1].value.None?;
        }
    }
  }

  /** Pieces that do not carry the name `n` leave its entry as it was. */
  lemma {:induction false} OtherNamesUntouched(jar: Jar, ps: seq<Piece>, n: string)
    requires StoreAll(jar, ps).Ok?
    requires forall j :: 0 <= j < |ps| ==> ps[j].name != n
    ensures Lookup(StoreAll(jar, ps).value, n) == Lookup(jar, n)
    decreases |ps|
  {
    if ps != [] {
      var next := Store(jar, ps[0]).value;
      assert Lookup(next, n) == Lookup(jar, n);
      OtherNamesUntouched(next, ps[1..], n);
    }
  }

  /** The last piece with a given name decides its value: a later
      duplicate overwrites an earlier one. */
  lemma {:induction false} LastPieceWins(jar: Jar, ps: seq<Piece>, k: nat)
    requires k < |ps| && StoreAll(jar, ps).Ok?
    requires ps[k].name != "__proto__"
    requires forall j :: k < j < |ps| ==> ps[j].name != ps[k].name
    ensures ps[k].value.Some?
    ensures Lookup(StoreAll(jar, ps).value, ps[k].name) == ps[k].value
    decreases |ps|
  {
    var next := Store(jar, ps[0]).value;
    if k == 0 {
      OtherNamesUntouched(next, ps[1..], ps[0].name);
    } else {
      assert ps[1..][k - 1] == ps[k];
      LastPieceWins(next, ps[1..], k - 1);
    }
  }

  /** A name is only ever stored if some piece carries it, and never
      `__proto__`. */
  lemma {:induction false} StoredNamesComeFromPieces(jar: Jar, ps: seq<Piece>, n: string)
    requires StoreAll(jar, ps).Ok?
    requires n in StoreAll(jar, ps).value && n !in jar
    ensures n != "__proto__"
    ensures exists j :: 0 <= j < |ps| && ps[j].name == n
    decreases |ps|
  {
    var next := Store(jar, ps[0]).value;
    if n in next {
      assert ps[0].name == n;
    } else {
      StoredNamesComeFromPieces(next, ps[1..], n);
      var j :| 0 <= j < |ps[1..]| && ps[1..][j].name == n;
      assert ps[j + 1].name == n;
    }
  }

  // A header as a browser sends it back: `name=value` pairs joined by "; ".

  /** A pair that `res.cookie` can have set and the parser reads back
      unchanged: no separators, no surrounding blanks, no escapes. */
  predicate PlainPair(pair: (string, string)) {
    && ';' !in pair.0 && '=' !in pair.0 && Unpadded(pair.0) && pair.0 != "__proto__"
    && ';' !in pair.1 && '=' !in pair.1 && '%' !in pair.1 && Unpadded(pair.1)
  }

  function Entry(pair: (string, string)): string {
    pair.0 + "=" + pair.1
  }

  function CookieHeader(pairs: seq<(string, string)>): string
    requires |pairs| >= 1
    decreases |pairs|
  {
    if |pairs| == 1 then Entry(pairs[0]) else Entry(pairs[0]) + "; " + CookieHeader(pairs[1..])
  }

  /** The jar the pairs describe, a later pair overriding an earlier one. */
  function Assign(jar: Jar, pairs: seq<(string, string)>): Jar
    decreases |pairs|
  {
    if pairs == [] then jar else Assign(jar[pairs[0].0 := pairs[0].1], pairs[1..])
  }

  lemma SplitEntry(pair: (string, string))
    requires PlainPair(pair)
    ensures Split(Entry(pair), '=') == [pair.0, pair.1]
  {
    assert Entry(pair) == pair.0 + ['='] + pair.1;
    SplitAfterFirst(pair.0, '=', pair.1);
    SplitWithoutSeparator(pair.1, '=');
  }

  lemma ParseEntry(pair: (string, string))
    requires PlainPair(pair)
    ensures PieceName(Entry(pair)) == pair.0
    ensures PieceRaw(Entry(pair)) == Some(pair.1)
  {
    SplitEntry(pair);
    TrimUnpadded(pair.0);
    TrimUnpadded(pair.1);
  }

  lemma DecodeEntry(pair: (string, string))
    requires PlainPair(pair)
    ensures PieceValue(Entry(pair)) == Some(pair.1)
  {
    ParseEntry(pair);
    Uri.DecodeWithoutEscapes(pair.1);
  }

  /** A blank before a piece (as after "; ") changes nothing. */
  lemma {:induction false} LeadingSpaceIgnored(piece: string)
    ensures ParsePiece([' '] + piece) == ParsePiece(piece)
  {
    var parts := Split(piece, '=');
    var spaced := [' '] + piece;
    SplitLeadingSpace(piece);
    TrimLeadingSpace(parts[0]);
    assert PieceName(spaced) == PieceName(piece);
    assert PieceRaw(spaced) == PieceRaw(piece);
  }

  lemma SplitLeadingSpace(piece: string)
    ensures var parts := Split(piece, '=');
      Split([' '] + piece, '=') == [[' '] + parts[0]] + parts[1..]
  {
    assert ([' '] + piece)[1..] == piece;
  }

  /** The pieces a plain pair list should parse into. */
  function PairPieces(pairs: seq<(string, string)>): (r: seq<Piece>)
    ensures |r| == |pairs|
    decreases |pairs|
  {
    if pairs == [] then [] else [Piece(pairs[0].0, Some(pairs[0].1))] + PairPieces(pairs[1..])
  }

  /** The pieces `split(';')` should cut a header of plain pairs into:
      every entry after the first keeps the blank that followed `;`. */
  function HeaderPieces(pairs: seq<(string, string)>): (r: seq<string>)
    requires |pairs| >= 1
    ensures |r| == |pairs|
    decreases |pairs|
  {
    if |pairs| == 1 then [Entry(pairs[0])]
    else
      var h := HeaderPieces(pairs[1..]);
      [Entry(pairs[0])] + ([[' '] + h[0]] + h[1..])
  }

  lemma {:induction false} SplitHeader(pairs: seq<(string, string)>)
    requires |pairs| >= 1
    requires forall i :: 0 <= i < |pairs| ==> PlainPair(pairs[i])
    ensures Split(CookieHeader(pairs), ';') == HeaderPieces(pairs)
    decreases |pairs|
  {
    var entry := Entry(pairs[0]);
    assert ';' !in entry;
    if |pairs| == 1 {
      SplitWithoutSeparator(entry, ';');
    } else {
      var rest := CookieHeader(pairs[1..]);
      assert CookieHeader(pairs) == entry + [';'] + ([' '] + rest);
      SplitAfterFirst(entry, ';', [' '] + rest);
      SplitHeader(pairs[1..]);
      assert ([' '] + rest)[1..] == rest;
    }
  }

  lemma {:induction false} ParseHeaderPieces(pairs: seq<(string, string)>)
    requires |pairs| >= 1
    requires forall i :: 0 <= i < |pairs| ==> PlainPair(pairs[i])
    ensures ParseAll(HeaderPieces(pairs)) == PairPieces(pairs)
    decreases |pairs|
  {
    if |pairs| == 1 {
      ParseHeaderSingle(pairs[0]);
    } else {
      ParseHeaderPieces(pairs[1..]);
      ParseHeaderStep(pairs);
    }
  }

  lemma ParseHeaderSingle(pair: (string, string))
    requires PlainPair(pair)
    ensures ParseAll(HeaderPieces([pair])) == PairPieces([pair])
  {
    FirstPieceParsed(pair);
    ParseAllFront([Entry(pair)]);
  }

  /** The entry of a plain pair parses as that pair. */
  lemma FirstPieceParsed(pair: (string, string))
    requires PlainPair(pair)
    ensures ParsePiece(Entry(pair)) == Piece(pair.0, Some(pair.1))
  {
    DecodeEntry(pair);
    ParseEntry(pair);
  }

  /** Parsing a header of several pairs: the first entry, then the rest,
      whose leading blank is trimmed away. */
  lemma {:induction false} ParseHeaderStep(pairs: seq<(string, string)>)
    requires |pairs| > 1 && PlainPair(pairs[0])
    requires ParseAll(HeaderPieces(pairs[1..])) == PairPieces(pairs[1..])
    ensures ParseAll(HeaderPieces(pairs)) == PairPieces(pairs)
  {
    FirstPieceParsed(pairs[0]);
    var first := Entry(pairs[0]);
    var h := HeaderPieces(pairs[1..]);
    var rest := [[' '] + h[0]] + h[1..];
    assert HeaderPieces(pairs) == [first] + rest;
    LeadingSpaceIgnored(h[0]);
    ParseAllFront([first] + rest);
    ParseAllFront(rest);
    ParseAllFront(h);
    assert ([first] + rest)[1..] == rest && rest[1..] == h[1..];
  }

  lemma ParseAllFront(pieces: seq<string>)
    requires pieces != []
    ensures ParseAll(pieces) == [ParsePiece(pieces[0])] + ParseAll(pieces[1..])
  {
    MapFront(ParsePiece, pieces);
  }

  /** Storing the pieces of plain pairs assigns them in order. */
  lemma {:induction false} StorePairs(jar: Jar, pairs: seq<(string, string)>)
    requires forall i :: 0 <= i < |pairs| ==> PlainPair(pairs[i])
    ensures StoreAll(jar, PairPieces(pairs)) == Ok(Assign(jar, pairs))
    decreases |pairs|
  {
    if pairs != [] {
      assert PairPieces(pairs)[1..] == PairPieces(pairs[1..]);
      StorePairs(jar[pairs[0].0 := pairs[0].1], pairs[1..]);
    }
  }

  /** A Cookie header built from plain pairs reads back as those pairs,
      a later duplicate overriding an earlier one. */
  lemma CookieJarOfHeader(pairs: seq<(string, string)>)
    requires |pairs| >= 1
    requires forall i :: 0 <= i < |pairs| ==> PlainPair(pairs[i])
    ensures CookieJar(Some(CookieHeader(pairs))) == Ok(Assign(map[], pairs))
  {
    SplitHeader(pairs);
    ParseHeaderPieces(pairs);
    StorePairs(map[], pairs);
  }
}
