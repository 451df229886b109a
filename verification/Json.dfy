/**
 JSON values, their compact text form, and a decoder for it. Objects keep their members in
 insertion order, as a Python dictionary does. `N` is the type of numbers; how they are written
 is a parameter.
 */
module Json {
  import opened Finite
  import opened Lex

  datatype Json<+N> =
    | Null
    | Bool(b: bool)
    | Num(n: N)
    | Str(s: string)
    | Arr(elems: seq<Json<N>>)
    | Obj(members: seq<Entry<Json<N>>>)

  // ----- text form of integers

  predicate IsDigit(c: char) { '0' <= c <= '9' }

  function DigitChar(d: nat): (c: char)
    requires d < 10
    ensures IsDigit(c) && DigitValue(c) == d
  {
    ('0' as int + d) as char
  }

  function DigitValue(c: char): int { c as int - '0' as int }

  function Digits(n: nat): (r: string)
    ensures |r| >= 1 && forall i :: 0 <= i < |r| ==> IsDigit(r[i])
  {
    if n < 10 then [DigitChar(n)] else Digits(n / 10) + [DigitChar(n % 10)]
  }

  function Value(digits: string): int {
    if digits == [] then 0 else Value(digits[..|digits| - 1]) * 10 + DigitValue(digits[|digits| - 1])
  }

  lemma {:induction false} ValueOfDigits(n: nat)
    ensures Value(Digits(n)) == n
  {
    if n >= 10 {
      ValueOfDigits(n / 10);
      var d := Digits(n);
      assert d[..|d| - 1] == Digits(n / 10);
    } else {
      assert Value([]) == 0;
      assert [DigitChar(n)][..0] == [];
    }
  }

  function EmitInt(n: int): string {
    if n < 0 then "-" + Digits(-n) else Digits(n)
  }

  // ----- text form of numbers

  /** How a number type is written and read back. */
  datatype Format<!N> = Format(show: N -> string, read: string -> Option<N>)

  predicate NumberChar(c: char) { IsDigit(c) || c == '-' || c == '+' || c == '.' || c == 'e' || c == 'E' }

  predicate NumberText(s: string) {
    s != [] && (s[0] == '-' || IsDigit(s[0])) && forall i :: 0 <= i < |s| ==> NumberChar(s[i])
  }

  /** Every number is written as number text that reads back as that number. */
  ghost predicate Sound<N(!new)>(f: Format<N>) {
    forall n :: NumberText(f.show(n)) && f.read(f.show(n)) == Some(n)
  }

  function NumberPrefix(s: string): (r: string)
    ensures |r| <= |s| && r == s[..|r|]
  {
    if s == [] || !NumberChar(s[0]) then [] else [s[0]] + NumberPrefix(s[1..])
  }

  /** What follows a value must not prolong a number. */
  predicate Ends(s: string) { s == [] || !NumberChar(s[0]) }

  lemma {:induction false} NumberPrefixOf(d: string, rest: string)
    requires (forall i :: 0 <= i < |d| ==> NumberChar(d[i])) && Ends(rest)
    ensures NumberPrefix(d + rest) == d
  {
    if d != [] {
      assert (d + rest)[1..] == d[1..] + rest;
      NumberPrefixOf(d[1..], rest);
    } else {
      assert d + rest == rest;
    }
  }

  function ReadInt(s: string): Option<int> {
    var negative := s != [] && s[0] == '-';
    var body := if negative then s[1..] else s;
    if body == [] || exists i :: 0 <= i < |body| && !IsDigit(body[i]) then None
    else Some(if negative then -Value(body) else Value(body))
  }

  lemma DigitsPlain(m: nat)
    ensures !Fractional(Digits(m)) && !Fractional("-" + Digits(m))
    ensures NumberText(Digits(m)) && NumberText("-" + Digits(m))
  {
    var d := Digits(m);
    assert forall i :: 0 <= i < |d| ==> IsDigit(d[i]);
    assert forall c :: c in "-" + d ==> c == '-' || IsDigit(c);
  }

  lemma ReadEmittedInt(n: int)
    ensures NumberText(EmitInt(n)) && !Fractional(EmitInt(n)) && ReadInt(EmitInt(n)) == Some(n)
  {
    var m := if n < 0 then -n else n;
    ValueOfDigits(m);
    DigitsPlain(m);
    if n < 0 {
      assert EmitInt(n)[1..] == Digits(m);
    } else {
      assert IsDigit(Digits(m)[0]);
    }
  }

  /** Float text has a point or an exponent, integer text has neither. */
  predicate Fractional(s: string) { '.' in s || 'e' in s }

  type FloatText = s: string | NumberText(s) && Fractional(s) witness ['0', '.', '0']

  /** Python numbers; a finite float is identified with its shortest text, as `repr` guarantees. */
  datatype PyNumber = Whole(i: int) | Float(text: FloatText)

  function ShowPy(n: PyNumber): string {
    match n
    case Whole(i) => EmitInt(i)
    case Float(t) => t
  }

  function ReadPy(s: string): Option<PyNumber> {
    if NumberText(s) && Fractional(s) then Some(Float(s))
    else
      match ReadInt(s)
      case Some(i) => Some(Whole(i))
      case None => None
  }

  function PyFormat(): Format<PyNumber> { Format(ShowPy, ReadPy) }

  /** Integers and finite floats together are a sound format. */
  lemma PythonNumbersAreSound()
    ensures Sound(PyFormat())
  {
    forall n: PyNumber ensures NumberText(PyFormat().show(n)) && PyFormat().read(PyFormat().show(n)) == Some(n) {
      if n.Whole? { ReadEmittedInt(n.i); }
    }
  }

  // ----- text form of strings

  function HexChar(d: nat): (c: char)
    requires d < 16
    ensures HexValue(c) == Some(d)
  {
    if d < 10 then DigitChar(d) else ('a' as int + (d - 10)) as char
  }

  function HexValue(c: char): (r: Option<nat>)
    ensures r.Some? ==> r.value < 16
  {
    if IsDigit(c) then Some(DigitValue(c))
    else if 'a' <= c <= 'f' then Some(c as int - 'a' as int + 10)
    else None
  }

  const BACKSPACE: char := 8 as char
  const FORM_FEED: char := 12 as char

  /** Escapes of the encoder when non-ASCII text is kept: quote, backslash and controls below U+0020. */
  function EscapeChar(c: char): string {
    if c == '"' then "\\\""
    else if c == '\\' then "\\\\"
    else if c == '\n' then "\\n"
    else if c == '\r' then "\\r"
    else if c == '\t' then "\\t"
    else if c == FORM_FEED then "\\f"
    else if c == BACKSPACE then "\\b"
    else if c as int < 32 then "\\u00" + [HexChar(c as int / 16), HexChar(c as int % 16)]
    else [c]
  }

  function EscapeChars(s: string): string {
    if s == [] then [] else EscapeChar(s[0]) + EscapeChars(s[1..])
  }

  function Quote(s: string): string { "\"" + EscapeChars(s) + "\"" }

  /** What the encoder writes for each character. */
  lemma EscapeTable(c: char)
    ensures c >= ' ' && c != '"' && c != '\\' ==> EscapeChar(c) == [c]
    ensures EscapeChar('"') == ['\\', '"'] && EscapeChar('\\') == ['\\', '\\']
    ensures EscapeChar('\n') == ['\\', 'n'] && EscapeChar('\r') == ['\\', 'r'] && EscapeChar('\t') == ['\\', 't']
    ensures EscapeChar(8 as char) == ['\\', 'b'] && EscapeChar(12 as char) == ['\\', 'f']
    ensures c < ' ' && c !in {'\n', '\r', '\t', 8 as char, 12 as char} ==>
              && |EscapeChar(c)| == 6 && EscapeChar(c)[..5] == "\\u00" + (if c as int < 16 then "0" else "1")
              && EscapeChar(c)[5] == "0123456789abcdef"[c as int % 16]
  {
    if c < ' ' {
      var h := c as int % 16;
      assert HexChar(h) == "0123456789abcdef"[h];
    }
  }

  // ----- text form of values

  function Emit<N>(f: Format<N>, v: Json<N>): string
    decreases v, 1
  {
    match v
    case Null => "null"
    case Bool(b) => if b then "true" else "false"
    case Num(n) => f.show(n)
    case Str(s) => Quote(s)
    case Arr(es) => "[" + EmitElems(f, es) + "]"
    case Obj(ms) => "{" + EmitMembers(f, ms) + "}"
  }

  function EmitElems<N>(f: Format<N>, es: seq<Json<N>>): string
    decreases es, 0
  {
    if es == [] then ""
    else if |es| == 1 then Emit(f, es[0])
    else Emit(f, es[0]) + "," + EmitElems(f, es[1..])
  }

  function EmitMember<N>(f: Format<N>, m: Entry<Json<N>>): string
    decreases m, 2
  {
    Quote(m.key) + ":" + Emit(f, m.value)
  }

  function EmitMembers<N>(f: Format<N>, ms: seq<Entry<Json<N>>>): string
    decreases ms, 0
  {
    if ms == [] then ""
    else if |ms| == 1 then EmitMember(f, ms[0])
    else EmitMember(f, ms[0]) + "," + EmitMembers(f, ms[1..])
  }

  lemma QuotePlain(s: string)
    requires forall i :: 0 <= i < |s| ==> s[i] >= ' ' && s[i] != '"' && s[i] != '\\'
    ensures EscapeChars(s) == s && Quote(s) == "\"" + s + "\""
  {
    if s != [] {
      EscapeTable(s[0]);
      QuotePlain(s[1..]);
      assert s == [s[0]] + s[1..];
    }
  }

  /** Words, decimal integers, and the empty containers. */
  lemma PlainText<N>(f: Format<N>)
    ensures Emit(f, Null) == "null" && Emit(f, Bool(true)) == "true" && Emit(f, Bool(false)) == "false"
    ensures Emit(f, Arr([])) == "[]" && Emit(f, Obj([])) == "{}"
    ensures EmitInt(-120) == "-120" && EmitInt(0) == "0"
  {
    assert Digits(120) == Digits(12) + "0" && Digits(12) == Digits(1) + "2" && Digits(1) == "1";
  }

  lemma {:induction false} ElemsSnoc<N>(f: Format<N>, es: seq<Json<N>>, v: Json<N>)
    ensures EmitElems(f, es + [v]) == if es == [] then Emit(f, v) else EmitElems(f, es) + "," + Emit(f, v)
  {
    if es == [] {
      assert es + [v] == [v];
    } else {
      var rest := es[1..];
      assert (es + [v])[1..] == rest + [v];
      ElemsSnoc(f, rest, v);
      if rest != [] {
        Regroup(Emit(f, es[0]), ",", EmitElems(f, rest), ",", Emit(f, v));
        Assoc(EmitElems(f, rest), ",", Emit(f, v));
      }
    }
  }

  lemma {:induction false} MembersSnoc<N>(f: Format<N>, ms: seq<Entry<Json<N>>>, m: Entry<Json<N>>)
    ensures EmitMembers(f, ms + [m])
         == if ms == [] then EmitMember(f, m) else EmitMembers(f, ms) + "," + EmitMember(f, m)
  {
    if ms == [] {
      assert ms + [m] == [m];
    } else {
      var rest := ms[1..];
      assert (ms + [m])[1..] == rest + [m];
      MembersSnoc(f, rest, m);
      if rest != [] {
        Regroup(EmitMember(f, ms[0]), ",", EmitMembers(f, rest), ",", EmitMember(f, m));
        Assoc(EmitMembers(f, rest), ",", EmitMember(f, m));
      }
    }
  }

  /** Compact separators: a list or an object is its shorter text, a comma, and the last item. */
  lemma CompactText<N>(f: Format<N>, es: seq<Json<N>>, v: Json<N>, ms: seq<Entry<Json<N>>>, key: string)
    requires es != [] && ms != []
    ensures Emit(f, Arr([v])) == "[" + Emit(f, v) + "]"
    ensures Emit(f, Arr(es + [v])) == Emit(f, Arr(es))[..|Emit(f, Arr(es))| - 1] + "," + Emit(f, v) + "]"
    ensures Emit(f, Obj([Entry(key, v)])) == "{" + (Quote(key) + ":" + Emit(f, v)) + "}"
    ensures Emit(f, Obj(ms + [Entry(key, v)]))
         == Emit(f, Obj(ms))[..|Emit(f, Obj(ms))| - 1] + "," + (Quote(key) + ":" + Emit(f, v)) + "}"
  {
    ElemsSnoc(f, es, v);
    MembersSnoc(f, ms, Entry(key, v));
    Bracketed("[", EmitElems(f, es), ",", Emit(f, v), "]");
    Bracketed("{", EmitMembers(f, ms), ",", EmitMember(f, Entry(key, v)), "}");
  }

  lemma Bracketed(open: string, x: string, comma: string, y: string, close: string)
    requires |close| == 1
    ensures open + (x + comma + y) + close == (open + x + close)[..|open + x + close| - 1] + comma + y + close
  {
    assert (open + x + close)[..|open + x + close| - 1] == open + x;
  }

  // ----- decoder

  datatype Parsed<+T> = Fail | Ok(value: T, rest: string)

  function Expect(s: string, prefix: string): (r: Option<string>)
    ensures r.Some? ==> |r.value| == |s| - |prefix|
  {
    if prefix <= s then Some(s[|prefix|..]) else None
  }

  /** One character of a quoted string, not the closing quote. */
  function DecodeChar(s: string): (r: Parsed<char>)
    ensures r.Ok? ==> |r.rest| < |s|
  {
    if s == [] || s[0] == '"' then Fail
    else if s[0] != '\\' then Ok(s[0], s[1..])
    else if |s| < 2 then Fail
    else if s[1] == '"' then Ok('"', s[2..])
    else if s[1] == '\\' then Ok('\\', s[2..])
    else if s[1] == 'n' then Ok('\n', s[2..])
    else if s[1] == 'r' then Ok('\r', s[2..])
    else if s[1] == 't' then Ok('\t', s[2..])
    else if s[1] == 'f' then Ok(FORM_FEED, s[2..])
    else if s[1] == 'b' then Ok(BACKSPACE, s[2..])
    else if s[1] == 'u' && |s| >= 6 && s[2] == '0' && s[3] == '0' && HexValue(s[4]).Some? && HexValue(s[5]).Some? then
      Ok((HexValue(s[4]).value * 16 + HexValue(s[5]).value) as char, s[6..])
    else Fail
  }

  function DecodeChars(s: string): (r: Parsed<string>)
    ensures r.Ok? ==> |r.rest| < |s|
    decreases |s|
  {
    if s == [] then Fail
    else if s[0] == '"' then Ok([], s[1..])
    else
      match DecodeChar(s)
      case Fail => Fail
      case Ok(c, rest) =>
        match DecodeChars(rest)
        case Fail => Fail
        case Ok(cs, rest') => Ok([c] + cs, rest')
  }

  function DecodeString(s: string): (r: Parsed<string>)
    ensures r.Ok? ==> |r.rest| < |s|
  {
    if s != [] && s[0] == '"' then DecodeChars(s[1..]) else Fail
  }

  function DecodeNumber<N>(f: Format<N>, s: string): (r: Parsed<N>)
    ensures r.Ok? ==> |r.rest| < |s|
  {
    var d := NumberPrefix(s);
    var n := f.read(d);
    if d == [] || n.None? then Fail else Ok(n.value, s[|d|..])
  }

  function Decode<N>(f: Format<N>, s: string): (r: Parsed<Json<N>>)
    ensures r.Ok? ==> |r.rest| < |s|
    decreases |s|, 0
  {
    if s == [] then Fail
    else if s[0] == 'n' then DecodeWord(s, "null", Null)
    else if s[0] == 't' then DecodeWord(s, "true", Bool(true))
    else if s[0] == 'f' then DecodeWord(s, "false", Bool(false))
    else if s[0] == '"' then
      match DecodeString(s)
      case Fail => Fail
      case Ok(x, rest) => Ok(Str(x), rest)
    else if s[0] == '[' then
      if |s| > 1 && s[1] == ']' then Ok(Arr([]), s[2..])
      else
        match DecodeElems(f, s[1..])
        case Fail => Fail
        case Ok(es, rest) => Ok(Arr(es), rest)
    else if s[0] == '{' then
      if |s| > 1 && s[1] == '}' then Ok(Obj([]), s[2..])
      else
        match DecodeMembers(f, s[1..])
        case Fail => Fail
        case Ok(ms, rest) => Ok(Obj(ms), rest)
    else
      match DecodeNumber(f, s)
      case Fail => Fail
      case Ok(n, rest) => Ok(Num(n), rest)
  }

  function DecodeWord<N>(s: string, word: string, v: Json<N>): (r: Parsed<Json<N>>)
    requires word != []
    ensures r.Ok? ==> |r.rest| < |s|
  {
    match Expect(s, word)
    case None => Fail
    case Some(rest) => Ok(v, rest)
  }

  /** One or more elements up to and including the closing bracket. */
  function DecodeElems<N>(f: Format<N>, s: string): (r: Parsed<seq<Json<N>>>)
    ensures r.Ok? ==> |r.rest| < |s|
    decreases |s|, 1
  {
    match Decode(f, s)
    case Fail => Fail
    case Ok(v, rest) =>
      if rest != [] && rest[0] == ']' then Ok([v], rest[1..])
      else if rest != [] && rest[0] == ',' then
        match DecodeElems(f, rest[1..])
        case Fail => Fail
        case Ok(vs, rest') => Ok([v] + vs, rest')
      else Fail
  }

  function DecodeMember<N>(f: Format<N>, s: string): (r: Parsed<Entry<Json<N>>>)
    ensures r.Ok? ==> |r.rest| < |s|
    decreases |s|, 1
  {
    match DecodeString(s)
    case Fail => Fail
    case Ok(k, rest) =>
      if rest != [] && rest[0] == ':' then
        match Decode(f, rest[1..])
        case Fail => Fail
        case Ok(v, rest') => Ok(Entry(k, v), rest')
      else Fail
  }

  function DecodeMembers<N>(f: Format<N>, s: string): (r: Parsed<seq<Entry<Json<N>>>>)
    ensures r.Ok? ==> |r.rest| < |s|
    decreases |s|, 2
  {
    match DecodeMember(f, s)
    case Fail => Fail
    case Ok(m, rest) =>
      if rest != [] && rest[0] == '}' then Ok([m], rest[1..])
      else if rest != [] && rest[0] == ',' then
        match DecodeMembers(f, rest[1..])
        case Fail => Fail
        case Ok(ms, rest') => Ok([m] + ms, rest')
      else Fail
  }

  // ----- round trip

  lemma Assoc(a: string, b: string, c: string)
    ensures a + b + c == a + (b + c)
  {
  }

  /** Regrouping of a first item, a separator, the other items and what follows. */
  lemma Regroup(a: string, b: string, c: string, d: string, e: string)
    ensures a + b + c + d + e == a + (b + (c + d + e))
  {
  }

  lemma HeadTail<T>(s: seq<T>)
    requires s != []
    ensures s == [s[0]] + s[1..] && (|s| == 1 ==> s == [s[0]])
  {
  }

  lemma TailOf(c: char, x: string)
    ensures ([c] + x)[1..] == x && ([c] + x)[0] == c
  {
  }

  lemma DecodeEscapedChar(c: char, rest: string)
    ensures DecodeChar(EscapeChar(c) + rest) == Ok(c, rest)
    ensures EscapeChar(c) != [] && EscapeChar(c)[0] != '"'
  {
    var e := EscapeChar(c);
    assert (e + rest)[|e|..] == rest;
    if |e| == 6 {
      var code := c as int;
      assert HexValue(e[4]) == Some(code / 16) && HexValue(e[5]) == Some(code % 16);
    }
  }

  lemma {:induction false} DecodeEscaped(t: string, rest: string)
    ensures DecodeChars(EscapeChars(t) + "\"" + rest) == Ok(t, rest)
  {
    var s := EscapeChars(t) + "\"" + rest;
    if t == [] {
      assert s == "\"" + rest;
    } else {
      var s' := EscapeChars(t[1..]) + "\"" + rest;
      assert s == EscapeChar(t[0]) + s';
      DecodeEscapedChar(t[0], s');
      DecodeEscaped(t[1..], rest);
      assert t == [t[0]] + t[1..];
    }
  }

  lemma DecodeQuoted(t: string, rest: string)
    ensures DecodeString(Quote(t) + rest) == Ok(t, rest)
  {
    var body := EscapeChars(t) + "\"";
    DecodeEscaped(t, rest);
    Assoc("\"", EscapeChars(t), "\"");
    Assoc("\"", body, rest);
    TailOf('"', body + rest);
  }

  lemma DecodeShown<N(!new)>(f: Format<N>, n: N, rest: string)
    requires Sound(f) && Ends(rest)
    ensures DecodeNumber(f, f.show(n) + rest) == Ok(n, rest)
    ensures f.show(n) != [] && (f.show(n)[0] == '-' || IsDigit(f.show(n)[0]))
  {
    var d := f.show(n);
    assert NumberText(d) && f.read(d) == Some(n);
    NumberPrefixOf(d, rest);
    assert (d + rest)[|d|..] == rest;
  }

  /** First character of a text form. */
  lemma EmitStarts<N(!new)>(f: Format<N>, v: Json<N>)
    requires Sound(f)
    ensures Emit(f, v) != [] && Emit(f, v)[0] != ']' && Emit(f, v)[0] != '}'
  {
    if v.Num? { DecodeShown(f, v.n, ""); }
  }

  lemma DecodeWordOf<N>(word: string, v: Json<N>, rest: string)
    requires word != []
    ensures DecodeWord(word + rest, word, v) == Ok(v, rest)
  {
    assert (word + rest)[|word|..] == rest;
  }

  /** Decoding a text form gives back the value and leaves what follows it. */
  lemma {:induction false} DecodeEmit<N(!new)>(f: Format<N>, v: Json<N>, rest: string)
    requires Sound(f) && Ends(rest)
    ensures Decode(f, Emit(f, v) + rest) == Ok(v, rest)
    decreases v, 1
  {
    var s := Emit(f, v) + rest;
    match v
    case Null => DecodeWordOf<N>("null", Null, rest);
    case Bool(b) => DecodeWordOf<N>(if b then "true" else "false", Bool(b), rest);
    case Num(n) => DecodeShown(f, n, rest);
    case Str(t) => DecodeQuoted(t, rest);
    case Arr(es) =>
      if es == [] {
        DecodeEmpty(f, rest);
      } else {
        var body := EmitElems(f, es) + "]" + rest;
        Bracket("[", EmitElems(f, es), "]", rest);
        EmitElemsStarts(f, es);
        DecodeEmitElems(f, es, rest);
        DecodeArr(f, body, es, rest);
      }
    case Obj(ms) =>
      if ms == [] {
        DecodeEmpty(f, rest);
      } else {
        var body := EmitMembers(f, ms) + "}" + rest;
        Bracket("{", EmitMembers(f, ms), "}", rest);
        EmitMembersStarts(f, ms);
        DecodeEmitMembers(f, ms, rest);
        DecodeObj(f, body, ms, rest);
      }
  }

  lemma DecodeEmpty<N>(f: Format<N>, rest: string)
    ensures Decode(f, "[" + "" + "]" + rest) == Ok(Arr([]), rest)
    ensures Decode(f, "{" + "" + "}" + rest) == Ok(Obj([]), rest)
  {
    assert ("[" + "" + "]" + rest)[2..] == rest && ("{" + "" + "}" + rest)[2..] == rest;
  }

  lemma Bracket(a: string, b: string, c: string, d: string)
    ensures a + b + c + d == a + (b + c + d)
  {
  }

  lemma DecodeArr<N(!new)>(f: Format<N>, body: string, es: seq<Json<N>>, rest: string)
    requires body != [] && body[0] != ']' && DecodeElems(f, body) == Ok(es, rest)
    ensures Decode(f, "[" + body) == Ok(Arr(es), rest)
  {
    TailOf('[', body);
  }

  lemma DecodeObj<N(!new)>(f: Format<N>, body: string, ms: seq<Entry<Json<N>>>, rest: string)
    requires body != [] && body[0] != '}' && DecodeMembers(f, body) == Ok(ms, rest)
    ensures Decode(f, "{" + body) == Ok(Obj(ms), rest)
  {
    TailOf('{', body);
  }

  lemma EmitElemsStarts<N(!new)>(f: Format<N>, es: seq<Json<N>>)
    requires Sound(f) && es != []
    ensures EmitElems(f, es) != [] && EmitElems(f, es)[0] != ']'
  {
    EmitStarts(f, es[0]);
  }

  lemma EmitMembersStarts<N(!new)>(f: Format<N>, ms: seq<Entry<Json<N>>>)
    requires ms != []
    ensures EmitMembers(f, ms) != [] && EmitMembers(f, ms)[0] == '"'
  {
  }

  lemma MemberGroup(a: string, b: string, c: string)
    ensures a + ":" + b + c == a + (":" + (b + c))
  {
  }

  lemma MemberOf<N(!new)>(f: Format<N>, s: string, key: string, body: string, v: Json<N>, rest: string)
    requires DecodeString(s) == Ok(key, ":" + body) && Decode(f, body) == Ok(v, rest)
    ensures DecodeMember(f, s) == Ok(Entry(key, v), rest)
  {
    TailOf(':', body);
  }

  lemma LastElem<N(!new)>(f: Format<N>, s: string, v: Json<N>, rest: string)
    requires Decode(f, s) == Ok(v, "]" + rest)
    ensures DecodeElems(f, s) == Ok([v], rest)
  {
    TailOf(']', rest);
  }

  lemma MoreElems<N(!new)>(f: Format<N>, s: string, v: Json<N>, tail: string, vs: seq<Json<N>>, rest: string)
    requires Decode(f, s) == Ok(v, "," + tail) && DecodeElems(f, tail) == Ok(vs, rest)
    ensures DecodeElems(f, s) == Ok([v] + vs, rest)
  {
    TailOf(',', tail);
  }

  lemma LastMember<N(!new)>(f: Format<N>, s: string, m: Entry<Json<N>>, rest: string)
    requires DecodeMember(f, s) == Ok(m, "}" + rest)
    ensures DecodeMembers(f, s) == Ok([m], rest)
  {
    TailOf('}', rest);
  }

  lemma MoreMembers<N(!new)>(f: Format<N>, s: string, m: Entry<Json<N>>, tail: string,
                             ms: seq<Entry<Json<N>>>, rest: string)
    requires DecodeMember(f, s) == Ok(m, "," + tail) && DecodeMembers(f, tail) == Ok(ms, rest)
    ensures DecodeMembers(f, s) == Ok([m] + ms, rest)
  {
    TailOf(',', tail);
  }

  lemma {:induction false} DecodeEmitElems<N(!new)>(f: Format<N>, es: seq<Json<N>>, rest: string)
    requires Sound(f) && es != []
    ensures DecodeElems(f, EmitElems(f, es) + "]" + rest) == Ok(es, rest)
    decreases es, 0
  {
    var s := EmitElems(f, es) + "]" + rest;
    if |es| == 1 {
      DecodeEmit(f, es[0], "]" + rest);
      Assoc(Emit(f, es[0]), "]", rest);
      LastElem(f, s, es[0], rest);
      HeadTail(es);
    } else {
      var tail := EmitElems(f, es[1..]) + "]" + rest;
      DecodeEmit(f, es[0], "," + tail);
      DecodeEmitElems(f, es[1..], rest);
      Regroup(Emit(f, es[0]), ",", EmitElems(f, es[1..]), "]", rest);
      HeadTail(es);
      MoreElems(f, s, es[0], tail, es[1..], rest);
    }
  }

  lemma {:induction false} DecodeEmitMember<N(!new)>(f: Format<N>, m: Entry<Json<N>>, rest: string)
    requires Sound(f) && Ends(rest)
    ensures DecodeMember(f, EmitMember(f, m) + rest) == Ok(m, rest)
    decreases m, 2
  {
    var body := Emit(f, m.value) + rest;
    MemberGroup(Quote(m.key), Emit(f, m.value), rest);
    DecodeQuoted(m.key, ":" + body);
    DecodeEmit(f, m.value, rest);
    MemberOf(f, EmitMember(f, m) + rest, m.key, body, m.value, rest);
  }

  lemma {:induction false} DecodeEmitMembers<N(!new)>(f: Format<N>, ms: seq<Entry<Json<N>>>, rest: string)
    requires Sound(f) && ms != []
    ensures DecodeMembers(f, EmitMembers(f, ms) + "}" + rest) == Ok(ms, rest)
    decreases ms, 0
  {
    var s := EmitMembers(f, ms) + "}" + rest;
    if |ms| == 1 {
      DecodeEmitMember(f, ms[0], "}" + rest);
      Assoc(EmitMember(f, ms[0]), "}", rest);
      LastMember(f, s, ms[0], rest);
      HeadTail(ms);
    } else {
      var tail := EmitMembers(f, ms[1..]) + "}" + rest;
      DecodeEmitMember(f, ms[0], "," + tail);
      DecodeEmitMembers(f, ms[1..], rest);
      Regroup(EmitMember(f, ms[0]), ",", EmitMembers(f, ms[1..]), "}", rest);
      HeadTail(ms);
      MoreMembers(f, s, ms[0], tail, ms[1..], rest);
    }
  }
}
