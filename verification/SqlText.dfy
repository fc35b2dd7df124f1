/** A small lexer for SQL text, and texts that are known to lex as given tokens. */
module SqlText {
  import opened Common

  datatype Token =
    | Word(w: string)       // keywords, names and digits
    | Punct(c: char)
    | StringLit(s: string)
    | QuotedName(s: string)
    | Bad                   // an unknown character, an unterminated quote or an empty quoted name

  predicate IsDigit(c: char) {
    '0' <= c <= '9'
  }

  predicate WordChar(c: char) {
    'a' <= c <= 'z' || 'A' <= c <= 'Z' || IsDigit(c) || c == '_'
  }

  predicate PunctChar(c: char) {
    c == '(' || c == ')' || c == ',' || c == '-'
  }

  /** The longest word at the start of the text, and what follows. */
  function ReadWord(s: string): (r: (string, string))
    ensures |r.1| <= |s|
    ensures s != "" && WordChar(s[0]) ==> |r.1| < |s|
  {
    if s == "" || !WordChar(s[0]) then ("", s)
    else
      var (w, rest) := ReadWord(s[1..]);
      ([s[0]] + w, rest)
  }

  /** Reads up to the closing quote; a doubled quote stands for one. */
  function ReadQuoted(q: char, s: string): (r: Option<(string, string)>)
    ensures r.Some? ==> |r.value.1| < |s|
  {
    if s == "" then None
    else if s[0] != q then
      match ReadQuoted(q, s[1..])
      case None => None
      case Some((c, rest)) => Some(([s[0]] + c, rest))
    else if |s| > 1 && s[1] == q then
      match ReadQuoted(q, s[2..])
      case None => None
      case Some((c, rest)) => Some(([q] + c, rest))
    else Some(("", s[1..]))
  }

  function Lex(s: string): seq<Token>
    decreases |s|
  {
    if s == "" then []
    else if s[0] == ' ' then Lex(s[1..])
    else if PunctChar(s[0]) then [Punct(s[0])] + Lex(s[1..])
    else if s[0] == '\'' || s[0] == '"' then
      match ReadQuoted(s[0], s[1..])
      case None => [Bad]
      case Some((c, rest)) => [if s[0] == '\'' then StringLit(c) else if c == "" then Bad else QuotedName(c)] + Lex(rest)
    else if WordChar(s[0]) then
      var (w, rest) := ReadWord(s);
      [Word(w)] + Lex(rest)
    else [Bad]
  }

  // ------------------------------------------------------------ quotes

  /** Every quote doubled. */
  function Escaped(s: string): string {
    if s == "" then ""
    else (if s[0] == '\'' then "''" else [s[0]]) + Escaped(s[1..])
  }

  predicate DoesNotQuote(q: char, rest: string) {
    rest == "" || rest[0] != q
  }

  /** A doubled text is read back, however many quotes it has. */
  lemma {:induction false} EscapedReadsBack(s: string, rest: string)
    requires DoesNotQuote('\'', rest)
    ensures ReadQuoted('\'', Escaped(s) + "'" + rest) == Some((s, rest))
  {
    var text := Escaped(s) + "'" + rest;
    if s == "" {
      assert text == "'" + rest && text[1..] == rest;
    } else {
      EscapedReadsBack(s[1..], rest);
      if s[0] == '\'' {
        assert text[0] == '\'' && text[1] == '\'' && text[2..] == Escaped(s[1..]) + "'" + rest;
      } else {
        assert text[0] == s[0] && text[1..] == Escaped(s[1..]) + "'" + rest;
      }
      assert [s[0]] + s[1..] == s;
    }
  }

  lemma {:induction false} PlainReadsBack(q: char, s: string, rest: string)
    requires q !in s && DoesNotQuote(q, rest)
    ensures ReadQuoted(q, s + [q] + rest) == Some((s, rest))
  {
    var text := s + [q] + rest;
    if s == "" {
      assert text == [q] + rest && text[1..] == rest;
    } else {
      PlainReadsBack(q, s[1..], rest);
      assert text[0] == s[0] && text[1..] == s[1..] + [q] + rest;
      assert [s[0]] + s[1..] == s;
    }
  }

  function Quotes(q: char, k: nat): string {
    seq(k, i => q)
  }

  /** What is read before a text ends is never that text with quotes in front of it. */
  lemma {:induction false} NeverShifted(q: char, s: string, k: nat, rest: string)
    requires k > 0 && DoesNotQuote(q, rest)
    ensures var r := ReadQuoted(q, s + [q] + rest); r.Some? ==> r.value.0 != Quotes(q, k) + s
    decreases |s|
  {
    var text, r := s + [q] + rest, ReadQuoted(q, s + [q] + rest);
    var shifted := Quotes(q, k) + s;
    assert shifted[0] == q;
    if s == "" {
      assert text == [q] + rest;
    } else if s[0] == q {
      if |s| == 1 {
        assert text == [q, q] + rest && text[2..] == rest;
        NothingQuoted(q, rest);
        assert shifted[1..] == Quotes(q, k);
        assert r.Some? ==> r.value.0[1..] == ReadQuoted(q, rest).value.0;
      } else if s[1] == q {
        NeverShifted(q, s[2..], k + 1, rest);
        assert text[2..] == s[2..] + [q] + rest;
        assert shifted[1..] == Quotes(q, k + 1) + s[2..];
        assert r.Some? ==> r.value.0[1..] == ReadQuoted(q, text[2..]).value.0;
      } else {
        assert text[1] == s[1];
      }
    } else {
      assert text[0] == s[0];
      assert r.Some? ==> r.value.0[0] == s[0];
    }
  }

  lemma NothingQuoted(q: char, rest: string)
    requires DoesNotQuote(q, rest)
    ensures var r := ReadQuoted(q, rest); r.Some? ==> r.value.0 == "" || r.value.0[0] != q
  {
  }

  /** A name printed between quotes as it is, without doubling, is read back exactly when it has
    * no quote in it. */
  lemma {:induction false} UnescapedReadsBack(q: char, s: string, rest: string)
    requires DoesNotQuote(q, rest)
    ensures var r := ReadQuoted(q, s + [q] + rest); (r.Some? && r.value.0 == s) <==> q !in s
    ensures q !in s ==> ReadQuoted(q, s + [q] + rest) == Some((s, rest))
  {
    var text, r := s + [q] + rest, ReadQuoted(q, s + [q] + rest);
    if q !in s {
      PlainReadsBack(q, s, rest);
    } else {
      if s[0] != q {
        UnescapedReadsBack(q, s[1..], rest);
        assert text[0] == s[0] && text[1..] == s[1..] + [q] + rest;
        assert s == [s[0]] + s[1..];
        assert r.Some? ==> r.value.0[1..] == ReadQuoted(q, text[1..]).value.0;
      } else if |s| == 1 {
        assert text == [q, q] + rest && text[2..] == rest;
        NothingQuoted(q, rest);
        EmptyNeverQuoted(q, rest);
        assert s[1..] == "";
        assert r.Some? ==> r.value.0[1..] == ReadQuoted(q, rest).value.0;
      } else if s[1] == q {
        NeverShifted(q, s[2..], 1, rest);
        assert text[2..] == s[2..] + [q] + rest;
        assert s[1..] == Quotes(q, 1) + s[2..];
        assert r.Some? ==> r.value.0[1..] == ReadQuoted(q, text[2..]).value.0;
      } else {
        assert text[1] == s[1];
      }
    }
  }

  lemma EmptyNeverQuoted(q: char, rest: string)
    requires DoesNotQuote(q, rest)
    ensures var r := ReadQuoted(q, rest); r.Some? ==> r.value.0 != ""
  {
  }

  // ------------------------------------------------------------ texts with known tokens

  predicate StopsWord(rest: string) {
    rest == "" || rest[0] == ' ' || rest[0] == ',' || rest[0] == ')' || rest[0] == '('
  }

  /** Lexes as `toks` whatever follows. */
  ghost predicate Free(text: string, toks: seq<Token>) {
    forall rest :: Lex(text + rest) == toks + Lex(rest)
  }

  /** Lexes as `toks` when a space, a comma, a parenthesis or nothing follows. */
  ghost predicate Stopped(text: string, toks: seq<Token>) {
    forall rest :: StopsWord(rest) ==> Lex(text + rest) == toks + Lex(rest)
  }

  lemma FreeFree(a: string, ta: seq<Token>, b: string, tb: seq<Token>)
    requires Free(a, ta) && Free(b, tb)
    ensures Free(a + b, ta + tb)
  {
    hide Lex;
    forall rest ensures Lex((a + b) + rest) == (ta + tb) + Lex(rest) {
      assert (a + b) + rest == a + (b + rest);
      assert Lex(a + (b + rest)) == ta + Lex(b + rest) == ta + (tb + Lex(rest));
    }
  }

  lemma FreeStopped(a: string, ta: seq<Token>, b: string, tb: seq<Token>)
    requires Free(a, ta) && Stopped(b, tb)
    ensures Stopped(a + b, ta + tb)
  {
    hide Lex;
    forall rest | StopsWord(rest) ensures Lex((a + b) + rest) == (ta + tb) + Lex(rest) {
      assert (a + b) + rest == a + (b + rest);
      assert Lex(a + (b + rest)) == ta + Lex(b + rest) == ta + (tb + Lex(rest));
    }
  }

  lemma StoppedFree(a: string, ta: seq<Token>, b: string, tb: seq<Token>)
    requires Stopped(a, ta) && Free(b, tb) && b != "" && StopsWord(b)
    ensures Free(a + b, ta + tb)
  {
    hide Lex;
    forall rest ensures Lex((a + b) + rest) == (ta + tb) + Lex(rest) {
      assert (a + b) + rest == a + (b + rest);
      assert StopsWord(b + rest);
      assert Lex(a + (b + rest)) == ta + Lex(b + rest) == ta + (tb + Lex(rest));
    }
  }

  lemma FreeIsStopped(a: string, ta: seq<Token>)
    requires Free(a, ta)
    ensures Stopped(a, ta)
  {
  }

  lemma SpaceIsFree()
    ensures Free(" ", [])
  {
    forall rest ensures Lex(" " + rest) == [] + Lex(rest) {
      assert (" " + rest)[1..] == rest;
    }
  }

  lemma PunctIsFree(c: char)
    requires PunctChar(c)
    ensures Free([c], [Punct(c)])
  {
    forall rest ensures Lex([c] + rest) == [Punct(c)] + Lex(rest) {
      assert ([c] + rest)[1..] == rest;
    }
  }

  predicate IsWord(w: string) {
    w != "" && forall i :: 0 <= i < |w| ==> WordChar(w[i])
  }

  lemma {:induction false} ReadWordStops(w: string, rest: string)
    requires forall i :: 0 <= i < |w| ==> WordChar(w[i])
    requires StopsWord(rest)
    ensures ReadWord(w + rest) == (w, rest)
  {
    if w == "" {
      assert w + rest == rest;
    } else {
      ReadWordStops(w[1..], rest);
      assert (w + rest)[1..] == w[1..] + rest;
      assert [w[0]] + w[1..] == w;
    }
  }

  lemma WordIsStopped(w: string)
    requires IsWord(w)
    ensures Stopped(w, [Word(w)])
  {
    forall rest | StopsWord(rest) ensures Lex(w + rest) == [Word(w)] + Lex(rest) {
      ReadWordStops(w, rest);
      assert (w + rest)[0] == w[0];
    }
  }

  lemma QuotedLexes(body: string, s: string, rest: string)
    requires ReadQuoted('\'', body + "'" + rest) == Some((s, rest))
    ensures Lex("'" + body + "'" + rest) == [StringLit(s)] + Lex(rest)
  {
    hide ReadQuoted;
    var text := "'" + body + "'" + rest;
    assert text[0] == '\'' && text[1..] == body + "'" + rest;
  }

  lemma StringIsStopped(s: string)
    ensures Stopped("'" + Escaped(s) + "'", [StringLit(s)])
  {
    hide Escaped, ReadQuoted, Lex;
    forall rest | StopsWord(rest) ensures Lex("'" + Escaped(s) + "'" + rest) == [StringLit(s)] + Lex(rest) {
      EscapedReadsBack(s, rest);
      QuotedLexes(Escaped(s), s, rest);
    }
  }

  /** A name that can be printed between quotes as it is: SQL has no empty quoted name. */
  predicate PlainName(s: string) {
    s != "" && '"' !in s
  }

  lemma QuotedNameIsStopped(s: string)
    requires PlainName(s)
    ensures Stopped("\"" + s + "\"", [QuotedName(s)])
  {
    forall rest | StopsWord(rest) ensures Lex("\"" + s + "\"" + rest) == [QuotedName(s)] + Lex(rest) {
      PlainReadsBack('"', s, rest);
      var text := "\"" + s + "\"" + rest;
      assert text[0] == '"' && text[1..] == s + ['"'] + rest;
    }
  }

  // ------------------------------------------------------------ lists

  lemma {:induction false} JoinedLexes(texts: seq<string>, parts: seq<seq<Token>>)
    requires |texts| == |parts| > 0
    requires forall i :: 0 <= i < |texts| ==> Stopped(texts[i], parts[i])
    ensures Stopped(Join(texts, ", "), Join(parts, [Punct(',')]))
  {
    if |texts| > 1 {
      JoinedLexes(texts[1..], parts[1..]);
      CommaIsFree();
      StoppedFree(texts[0], parts[0], ", ", [Punct(',')]);
      FreeStopped(texts[0] + ", ", parts[0] + [Punct(',')], Join(texts[1..], ", "), Join(parts[1..], [Punct(',')]));
    }
  }

  lemma CommaIsFree()
    ensures Free(", ", [Punct(',')])
  {
    PunctIsFree(',');
    SpaceIsFree();
    FreeFree([','], [Punct(',')], " ", []);
    assert [','] + " " == ", ";
    var none: seq<Token> := [];
    assert [Punct(',')] + none == [Punct(',')];
  }

  type Parser<!A> = seq<Token> -> Option<(A, seq<Token>)>

  /** The parser reads exactly these tokens as `a`, whatever follows. */
  ghost predicate Parses<A(!new)>(p: Parser<A>, toks: seq<Token>, a: A) {
    forall rest :: p(toks + rest) == Some((a, rest))
  }

  /** One or more items separated by commas; the token count bounds the items. */
  function Separated<A>(p: Parser<A>, ts: seq<Token>, fuel: nat): Option<(seq<A>, seq<Token>)>
    decreases fuel
  {
    match p(ts)
    case None => None
    case Some((a, rest)) =>
      if fuel > 0 && rest != [] && rest[0] == Punct(',') then
        match Separated(p, rest[1..], fuel - 1)
        case None => None
        case Some((more, last)) => Some(([a] + more, last))
      else Some(([a], rest))
  }

  lemma {:induction false} SeparatedParses<A(!new)>(p: Parser<A>, parts: seq<seq<Token>>, items: seq<A>, rest: seq<Token>, fuel: nat)
    requires |parts| == |items| > 0 && fuel >= |parts| - 1
    requires forall i :: 0 <= i < |parts| ==> Parses(p, parts[i], items[i])
    requires rest == [] || rest[0] != Punct(',')
    ensures Separated(p, Join(parts, [Punct(',')]) + rest, fuel) == Some((items, rest))
  {
    if |parts| == 1 {
      assert items == [items[0]];
    } else {
      SeparatedParses(p, parts[1..], items[1..], rest, fuel - 1);
      var tail := [Punct(',')] + (Join(parts[1..], [Punct(',')]) + rest);
      assert Join(parts, [Punct(',')]) + rest == parts[0] + tail;
      assert p(parts[0] + tail) == Some((items[0], tail));
      assert tail[1..] == Join(parts[1..], [Punct(',')]) + rest;
      assert [items[0]] + items[1..] == items;
    }
  }

  lemma {:induction false} JoinTokensLength(parts: seq<seq<Token>>)
    ensures |parts| <= |Join(parts, [Punct(',')])| + 1
  {
    if |parts| > 1 {
      JoinTokensLength(parts[1..]);
    }
  }

  // ------------------------------------------------------------ integers

  function DigitChar(d: nat): char
    requires d < 10
  {
    ('0' as int + d) as char
  }

  function Digits(n: nat): string {
    if n < 10 then [DigitChar(n)] else Digits(n / 10) + [DigitChar(n % 10)]
  }

  function NatOf(w: string): Option<nat> {
    if w == "" then None
    else
      var last := w[|w| - 1];
      if !IsDigit(last) then None
      else
        var d := last as int - '0' as int;
        if |w| == 1 then Some(d)
        else
          match NatOf(w[..|w| - 1])
          case None => None
          case Some(n) => Some(10 * n + d)
  }

  lemma {:induction false} DigitsReadBack(n: nat)
    ensures NatOf(Digits(n)) == Some(n)
    ensures IsWord(Digits(n)) && IsDigit(Digits(n)[0])
  {
    if n >= 10 {
      DigitsReadBack(n / 10);
      var w := Digits(n);
      assert w[..|w| - 1] == Digits(n / 10);
    }
  }
}
