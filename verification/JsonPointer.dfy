/**
 `resolve_pointer` of scripts/chat_regression.py against RFC 6901. `None` stands for the
 KeyError the code raises.
 */
module JsonPointer {
  import opened Finite
  import opened Lex
  import opened Json

  // ----- token escaping (section 3 and 4 of RFC 6901)

  function Escape(t: string): string {
    if t == [] then []
    else (if t[0] == '~' then "~0" else if t[0] == '/' then "~1" else [t[0]]) + Escape(t[1..])
  }

  /** Escaping goes character by character: "~" is written "~0" and "/" is written "~1". */
  lemma EscapeLaw(t: string, u: string, c: char)
    ensures Escape(t + u) == Escape(t) + Escape(u)
    ensures Escape("~") == "~0" && Escape("/") == "~1" && (c != '~' && c != '/' ==> Escape([c]) == [c])
  {
    EscapeConcat(t, u);
    assert Escape("") == "" && [c][1..] == "" && "~"[1..] == "" && "/"[1..] == "";
  }

  lemma {:induction false} EscapeConcat(t: string, u: string)
    ensures Escape(t + u) == Escape(t) + Escape(u)
  {
    if t == [] {
      assert t + u == u;
    } else {
      assert (t + u)[1..] == t[1..] + u;
      EscapeConcat(t[1..], u);
    }
  }

  /** `s.replace("~" + d, r)` for one-character d and r. */
  function Replace(s: string, d: char, r: char): string {
    if s == [] then []
    else if |s| >= 2 && s[0] == '~' && s[1] == d then [r] + Replace(s[2..], d, r)
    else [s[0]] + Replace(s[1..], d, r)
  }

  /** The two ordered replacements of the code. */
  function Unescape(s: string): string { Replace(Replace(s, '1', '/'), '0', '~') }

  /** Reference decoding: both escapes in one left-to-right pass. */
  function DecodeOnce(s: string): string {
    if s == [] then []
    else if |s| >= 2 && s[0] == '~' && s[1] == '1' then ['/'] + DecodeOnce(s[2..])
    else if |s| >= 2 && s[0] == '~' && s[1] == '0' then ['~'] + DecodeOnce(s[2..])
    else [s[0]] + DecodeOnce(s[1..])
  }

  lemma ReplacePlain(c: char, x: string, d: char, r: char)
    requires c != '~' || x == [] || x[0] != d
    ensures Replace([c] + x, d, r) == [c] + Replace(x, d, r)
  {
    assert ([c] + x)[1..] == x;
  }

  lemma ReplaceHit(x: string, d: char, r: char)
    ensures Replace(['~', d] + x, d, r) == [r] + Replace(x, d, r)
  {
    assert (['~', d] + x)[2..] == x;
  }

  lemma ReplaceHead(s: string)
    ensures var r := Replace(s, '1', '/'); r == [] || r[0] == '/' || (s != [] && r[0] == s[0])
  {
  }

  /** On every string, well formed or not, two ordered passes equal the single pass. */
  lemma {:induction false} TwoPasses(s: string)
    ensures Unescape(s) == DecodeOnce(s)
  {
    if s != [] {
      if |s| >= 2 && s[0] == '~' && s[1] == '1' {
        TwoPasses(s[2..]);
        ReplacePlain('/', Replace(s[2..], '1', '/'), '0', '~');
      } else if |s| >= 2 && s[0] == '~' && s[1] == '0' {
        var x := s[2..];
        TwoPasses(x);
        var y := Replace(x, '1', '/');
        assert s == ['~'] + (['0'] + x);
        ReplacePlain('~', ['0'] + x, '1', '/');
        ReplacePlain('0', x, '1', '/');
        assert ['~'] + (['0'] + y) == ['~', '0'] + y;
        ReplaceHit(y, '0', '~');
      } else {
        var x := s[1..];
        TwoPasses(x);
        ReplaceHead(x);
        ReplacePlain(s[0], Replace(x, '1', '/'), '0', '~');
      }
    }
  }

  lemma {:induction false} DecodeEscape(t: string)
    ensures DecodeOnce(Escape(t)) == t
  {
    if t != [] {
      var x := Escape(t[1..]);
      DecodeEscape(t[1..]);
      if t[0] == '~' {
        assert ("~0" + x)[2..] == x;
      } else if t[0] == '/' {
        assert ("~1" + x)[2..] == x;
      } else {
        assert ([t[0]] + x)[1..] == x;
      }
      assert t == [t[0]] + t[1..];
    }
  }

  /** The code's unescaping undoes RFC 6901 escaping for every token. */
  lemma UnescapeEscape(t: string)
    ensures Unescape(Escape(t)) == t
  {
    TwoPasses(Escape(t));
    DecodeEscape(t);
  }

  /** In the opposite order the replacements would corrupt the token "~1". */
  lemma OrderMatters()
    ensures Replace(Replace(Escape("~1"), '0', '~'), '1', '/') == "/"
  {
    var e := Escape("~1");
    assert Escape("1") == "1" + Escape("");
    assert e == "~0" + "1";
    ReplaceHit("1", '0', '~');
    ReplacePlain('1', "", '0', '~');
    assert "1" == ['1'] + "";
    assert Replace(e, '0', '~') == ['~', '1'] + "";
    ReplaceHit("", '1', '/');
  }

  // ----- splitting

  /** `s.split("/")`. */
  function Split(s: string): (r: seq<string>)
    ensures |r| >= 1
  {
    if s == [] then [[]]
    else
      var rest := Split(s[1..]);
      if s[0] == '/' then [[]] + rest else [[s[0]] + rest[0]] + rest[1..]
  }

  /** `"/".join(parts)`. */
  function JoinSlash(parts: seq<string>): string
    requires parts != []
  {
    if |parts| == 1 then parts[0] else parts[0] + "/" + JoinSlash(parts[1..])
  }

  /** Splitting cuts at every slash and nowhere else. */
  lemma {:induction false} SplitJoins(s: string)
    ensures JoinSlash(Split(s)) == s && forall i :: 0 <= i < |Split(s)| ==> NoSlash(Split(s)[i])
  {
    if s != [] {
      var rest := Split(s[1..]);
      SplitJoins(s[1..]);
      assert s == [s[0]] + s[1..];
      if s[0] == '/' {
        assert ([[]] + rest)[1..] == rest;
      } else {
        var parts := [[s[0]] + rest[0]] + rest[1..];
        assert parts[1..] == rest[1..];
        assert forall i :: 0 < i < |parts| ==> parts[i] == rest[i];
      }
    }
  }

  ghost predicate NoSlash(s: string) { forall i :: 0 <= i < |s| ==> s[i] != '/' }

  lemma {:induction false} SplitAtSlash(x: string, rest: string)
    requires NoSlash(x)
    ensures Split(x + ("/" + rest)) == [x] + Split(rest)
  {
    var s := x + ("/" + rest);
    if x == [] {
      assert s == "/" + rest && s[1..] == rest;
    } else {
      assert s[1..] == x[1..] + ("/" + rest);
      SplitAtSlash(x[1..], rest);
      assert x == [x[0]] + x[1..];
    }
  }

  lemma {:induction false} SplitPlain(x: string)
    requires NoSlash(x)
    ensures Split(x) == [x]
  {
    if x != [] {
      SplitPlain(x[1..]);
      assert x == [x[0]] + x[1..];
    }
  }

  lemma {:induction false} EscapeHasNoSlash(t: string)
    ensures NoSlash(Escape(t))
  {
    if t != [] { EscapeHasNoSlash(t[1..]); }
  }

  /** The pointer that names a token path. */
  function PointerOf(tokens: seq<string>): string {
    if tokens == [] then [] else "/" + (Escape(tokens[0]) + PointerOf(tokens[1..]))
  }

  function UnescapeAll(raws: seq<string>): (r: seq<string>)
    ensures |r| == |raws|
  {
    seq(|raws|, i requires 0 <= i < |raws| => Unescape(raws[i]))
  }

  lemma UnescapeHead(parts: seq<string>)
    requires parts != []
    ensures UnescapeAll(parts) == [Unescape(parts[0])] + UnescapeAll(parts[1..])
  {
  }

  lemma {:induction false} SplitPointer(x: string, tokens: seq<string>)
    requires NoSlash(x)
    ensures var parts := Split(x + PointerOf(tokens)); parts[0] == x && UnescapeAll(parts[1..]) == tokens
    decreases |tokens|
  {
    if tokens == [] {
      assert x + PointerOf(tokens) == x;
      SplitPlain(x);
    } else {
      var t, rest := tokens[0], tokens[1..];
      var tail := Escape(t) + PointerOf(rest);
      SplitAtSlash(x, tail);
      EscapeHasNoSlash(t);
      SplitPointer(Escape(t), rest);
      UnescapeEscape(t);
      var parts := Split(tail);
      assert ([x] + parts)[1..] == parts;
      UnescapeHead(parts);
      assert tokens == [t] + rest;
    }
  }

  // ----- array indices

  predicate IsSpace(c: char) { c as int == 32 || 9 <= c as int <= 13 }

  function StripLeft(s: string): string {
    if s != [] && IsSpace(s[0]) then StripLeft(s[1..]) else s
  }

  function StripRight(s: string): string {
    if s != [] && IsSpace(s[|s| - 1]) then StripRight(s[..|s| - 1]) else s
  }

  predicate DigitRun(b: string) {
    && b != [] && IsDigit(b[0]) && IsDigit(b[|b| - 1])
    && (forall i :: 0 <= i < |b| ==> IsDigit(b[i]) || b[i] == '_')
    && (forall i, j :: 0 <= i && j == i + 1 < |b| ==> b[i] != '_' || b[j] != '_')
  }

  function DropUnderscores(b: string): string {
    if b == [] then [] else (if b[0] == '_' then [] else [b[0]]) + DropUnderscores(b[1..])
  }

  /** Python's `int(token)` on ASCII text: blanks around, a sign, single underscores between digits. */
  function PyInt(token: string): Option<int> {
    var t := StripRight(StripLeft(token));
    var signed := t != [] && (t[0] == '-' || t[0] == '+');
    var body := if signed then t[1..] else t;
    if !DigitRun(body) then None
    else
      var n := Value(DropUnderscores(body));
      Some(if signed && t[0] == '-' then -n else n)
  }

  /** `node[int(token)]` on a list of length n: negative indices count from the end. */
  function ListIndex(n: nat, token: string): (r: Option<nat>)
    ensures r.Some? ==> r.value < n
  {
    match PyInt(token)
    case None => None
    case Some(i) => if 0 <= i < n then Some(i) else if 0 <= i + n < n then Some(i + n) else None
  }

  /** A token reaches position k of a list as k itself or, counted from the end, as k - n. */
  lemma IndexMeaning(n: nat, token: string, k: nat)
    ensures ListIndex(n, token) == Some(k) <==> k < n && (PyInt(token) == Some(k) || PyInt(token) == Some(k - n))
  {
  }

  /** Section 4 of RFC 6901: "0", or digits without a leading zero. */
  predicate CanonicalIndex(t: string) {
    && t != [] && (forall i :: 0 <= i < |t| ==> IsDigit(t[i]))
    && (t[0] == '0' ==> |t| == 1)
  }

  lemma {:induction false} DigitsOnly(t: string)
    requires forall i :: 0 <= i < |t| ==> IsDigit(t[i])
    ensures DropUnderscores(t) == t && Value(t) >= 0
  {
    if t != [] {
      DigitsOnly(t[1..]);
      DigitsValue(t);
      assert t == [t[0]] + t[1..];
    }
  }

  lemma {:induction false} DigitsValue(t: string)
    requires forall i :: 0 <= i < |t| ==> IsDigit(t[i])
    ensures Value(t) >= 0
  {
    if t != [] { DigitsValue(t[..|t| - 1]); }
  }

  lemma CanonicalIsInt(t: string)
    requires CanonicalIndex(t)
    ensures PyInt(t) == Some(Value(t)) && Value(t) >= 0
  {
    NothingToStrip(t);
    DigitsOnly(t);
    PlainInt(t);
  }

  lemma PlainInt(t: string)
    requires StripRight(StripLeft(t)) == t && DigitRun(t)
    ensures PyInt(t) == Some(Value(DropUnderscores(t)))
  {
    assert IsDigit(t[0]) && t[0] != '-' && t[0] != '+';
  }

  lemma NothingToStrip(t: string)
    requires CanonicalIndex(t)
    ensures StripRight(StripLeft(t)) == t && DigitRun(t)
  {
    assert IsDigit(t[0]) && IsDigit(t[|t| - 1]);
  }

  // ----- walking

  function Step<N>(node: Json<N>, token: string): Option<Json<N>> {
    match node
    case Obj(ms) => Lookup(ms, token)
    case Arr(es) =>
      var i := ListIndex(|es|, token);
      if i.Some? then Some(es[i.value]) else None
    case _ => None
  }

  function Walk<N>(node: Json<N>, tokens: seq<string>): Option<Json<N>>
    decreases |tokens|
  {
    if tokens == [] then Some(node)
    else
      match Step(node, tokens[0])
      case None => None
      case Some(next) => Walk(next, tokens[1..])
  }

  /** Evaluation as section 4 of RFC 6901 defines it. */
  function StrictWalk<N>(node: Json<N>, tokens: seq<string>): Option<Json<N>>
    decreases |tokens|
  {
    if tokens == [] then Some(node)
    else if node.Obj? then
      match Lookup(node.members, tokens[0])
      case None => None
      case Some(next) => StrictWalk(next, tokens[1..])
    else if node.Arr? && CanonicalIndex(tokens[0]) && 0 <= Value(tokens[0]) < |node.elems| then
      StrictWalk(node.elems[Value(tokens[0])], tokens[1..])
    else None
  }

  /** The walk crosses a list through an index that RFC 6901 does not allow. */
  predicate LooseIndexUsed<N>(node: Json<N>, tokens: seq<string>)
    decreases |tokens|
  {
    tokens != [] && Step(node, tokens[0]).Some? &&
    ((node.Arr? && !CanonicalIndex(tokens[0])) || LooseIndexUsed(Step(node, tokens[0]).value, tokens[1..]))
  }

  /** The code agrees with RFC 6901 except that it also follows loose list indices. */
  lemma {:induction false} WalkAgainstRfc<N>(node: Json<N>, tokens: seq<string>)
    ensures StrictWalk(node, tokens) == if LooseIndexUsed(node, tokens) then None else Walk(node, tokens)
    decreases |tokens|
  {
    if tokens != [] {
      if node.Arr? && CanonicalIndex(tokens[0]) {
        CanonicalIsInt(tokens[0]);
      }
      var next := Step(node, tokens[0]);
      if next.Some? {
        WalkAgainstRfc(next.value, tokens[1..]);
      }
    }
  }

  function Resolve<N>(doc: Json<N>, pointer: string): Option<Json<N>> {
    if pointer == "" then Some(doc)
    else if pointer[0] != '/' then None
    else Walk(doc, UnescapeAll(Split(pointer)[1..]))
  }

  /** The empty pointer is the whole document; any other must start with a slash. */
  lemma PointerStarts<N>(doc: Json<N>, pointer: string)
    ensures Resolve(doc, "") == Some(doc)
    ensures Resolve(doc, pointer).Some? ==> pointer == "" || "/" <= pointer
  {
  }

  lemma WalkSuffix<N>(node: Json<N>, tokens: seq<string>, i: nat)
    requires i < |tokens|
    ensures Walk(node, tokens[i..]) == match Step(node, tokens[i])
                                       case None => None
                                       case Some(next) => Walk(next, tokens[i + 1..])
  {
    assert tokens[i..][1..] == tokens[i + 1..];
  }

  method ResolvePointer<N>(doc: Json<N>, pointer: string) returns (r: Option<Json<N>>)
    ensures r == Resolve(doc, pointer)
  {
    if pointer == "" {
      return Some(doc);
    }
    if pointer[0] != '/' {
      return None;
    }
    var raws := Split(pointer)[1..];
    ghost var tokens := UnescapeAll(raws);
    var node := doc;
    assert tokens[0..] == tokens;
    for i := 0 to |raws|
      invariant Walk(node, tokens[i..]) == Walk(doc, tokens)
    {
      var token := Unescape(raws[i]);
      WalkSuffix(node, tokens, i);
      var next := Step(node, token);
      if next.None? {
        return None;
      }
      node := next.value;
    }
    return Some(node);
  }

  /** Resolving the printed pointer of a token path walks exactly those tokens. */
  lemma PointerRoundTrip<N>(doc: Json<N>, tokens: seq<string>)
    ensures Resolve(doc, PointerOf(tokens)) == Walk(doc, tokens)
    ensures !LooseIndexUsed(doc, tokens) ==> Resolve(doc, PointerOf(tokens)) == StrictWalk(doc, tokens)
  {
    if tokens != [] {
      SplitPointer("", tokens);
      assert "" + PointerOf(tokens) == PointerOf(tokens);
    }
    WalkAgainstRfc(doc, tokens);
  }

  lemma MinusOne()
    ensures PyInt("-1") == Some(-1) && !CanonicalIndex("-1")
  {
    assert StripRight(StripLeft("-1")) == "-1" && "-1"[1..] == "1";
    assert DropUnderscores("1") == "1" + DropUnderscores("");
    assert Value("1") == Value("") * 10 + 1;
  }

  lemma DoubleZero()
    ensures PyInt("00") == Some(0) && !CanonicalIndex("00")
  {
    DigitsOnly("00");
    assert StripRight(StripLeft("00")) == "00";
    assert "00"[..1] == "0" && "0"[..0] == "";
    assert Value("0") == Value("") * 10 + 0;
  }

  /** Blanks around, a sign, and single underscores between digits are accepted. */
  lemma AcceptedInt()
    ensures PyInt(" +1_2\n") == Some(12)
  {
    assert StripLeft(" +1_2\n") == "+1_2\n" && StripRight("+1_2\n") == "+1_2" && "+1_2"[1..] == "1_2";
    DropsTo12();
    assert DigitRun("1_2");
  }

  lemma DropsTo12()
    ensures Value(DropUnderscores("1_2")) == 12
  {
    assert "1_2"[1..] == "_2" && "_2"[1..] == "2" && "2"[1..] == "";
    assert DropUnderscores("2") == "2" && DropUnderscores("_2") == "2" && DropUnderscores("1_2") == "12";
    assert "12"[..1] == "1" && "1"[..0] == "" && Value("1") == 1;
  }

  lemma Unblanked(t: string)
    requires t != [] && !IsSpace(t[0]) && !IsSpace(t[|t| - 1]) && t[0] != '-' && t[0] != '+'
    ensures PyInt(t).Some? <==> DigitRun(t)
  {
    assert StripLeft(t) == t && StripRight(t) == t;
  }

  /** Doubled or outer underscores, a bare sign and other characters are not. */
  lemma RefusedInts()
    ensures PyInt("1__2") == None && PyInt("_1") == None && PyInt("1.0") == None && PyInt("-") == None
  {
    Unblanked("1__2");
    Unblanked("_1");
    Unblanked("1.0");
    assert "1__2"[1] == '_' && "1__2"[2] == '_' && !IsDigit("1.0"[1]);
    assert StripLeft("-") == "-" && StripRight("-") == "-" && "-"[1..] == "";
  }

  lemma OneHop(doc: Json<int>, t: string)
    requires doc == Arr([Num(7)]) && ListIndex(1, t) == Some(0) && !CanonicalIndex(t)
    ensures Walk(doc, [t]) == Some(Num(7)) && StrictWalk(doc, [t]) == None
  {
    assert [t][1..] == [];
  }

  /** "-1" and "00" are followed by the code and refused by RFC 6901. */
  lemma LooseIndexExamples()
    ensures var doc: Json<int> := Arr([Num(7)]);
            && Resolve(doc, "/-1") == Some(Num(7)) && StrictWalk(doc, ["-1"]) == None
            && Resolve(doc, "/00") == Some(Num(7)) && StrictWalk(doc, ["00"]) == None
  {
    var doc: Json<int> := Arr([Num(7)]);
    PlainPointer("-1");
    PlainPointer("00");
    PointerRoundTrip(doc, ["-1"]);
    PointerRoundTrip(doc, ["00"]);
    MinusOne();
    DoubleZero();
    OneHop(doc, "-1");
    OneHop(doc, "00");
  }

  lemma PlainPointer(t: string)
    requires |t| == 2 && t[0] != '~' && t[0] != '/' && t[1] != '~' && t[1] != '/'
    ensures PointerOf([t]) == "/" + t
  {
    assert Escape(t[2..]) == [] && t[1..][1..] == t[2..];
    assert Escape(t[1..]) == [t[1]];
    assert Escape(t) == t;
    assert PointerOf([t][1..]) == [];
  }
}
