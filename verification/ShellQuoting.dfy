/**
 Quoting a value so that the shell reads it back: what the quoter writes, cut from a script by the
 lexer, parsed into parts and expanded, is the value again. Only the parts of the word parser and of
 the expander that literal text can reach are here; the rest is `NotLiteral` and `Rewritten`.
 */
module ShellQuoting {
  import opened Wrappers
  import opened ShellSyntax
  import opened ShellWords
  import opened ShellLexer

  // ---- quoting ----

  predicate IsSafe(c: char) {
    'a' <= c <= 'z' || 'A' <= c <= 'Z' || '0' <= c <= '9' || c in "_./-:=@+,"
  }

  predicate AllSafe(v: string) {
    forall k :: 0 <= k < |v| ==> IsSafe(v[k])
  }

  /** Every single quote closed, escaped and reopened. */
  function Requoted(v: string): string {
    if v == "" then "" else (if v[0] == '\'' then "'\\''" else [v[0]]) + Requoted(v[1..])
  }

  function Quote(v: string): string {
    if v == "" then "''" else if AllSafe(v) then v else "'" + Requoted(v) + "'"
  }

  // ---- the parts of a word ----

  datatype Part = Literal(text: string, quoted: bool)

  datatype Parsed = Parts(parts: seq<Part>) | NotLiteral

  predicate IsSyntax(c: char) {
    c in "<>~\\'\"`$"
  }

  function QuoteEnd(s: string): (r: int)
    ensures -1 <= r < |s|
  {
    if s == "" then -1 else if s[0] == '\'' then 0 else var r := QuoteEnd(s[1..]); if r < 0 then -1 else r + 1
  }

  function Flushed(parts: seq<Part>, literal: string): seq<Part> {
    if literal == "" then parts else parts + [Literal(literal, false)]
  }

  function ParseFrom(parts: seq<Part>, literal: string, s: string, atStart: bool): Parsed
    decreases |s|
  {
    if s == "" then Parts(Flushed(parts, literal))
    else if (s[0] == '<' || s[0] == '>') && |s| > 1 && s[1] == '(' then NotLiteral
    else if s[0] == '~' && atStart then NotLiteral
    else if s[0] == '\\' then
      if |s| > 1 then ParseFrom(Flushed(parts, literal) + [Literal(s[1..2], true)], "", s[2..], false)
      else ParseFrom(parts, literal + s, "", false)
    else if s[0] == '\'' then
      var end := QuoteEnd(s[1..]);
      var stop := if end < 0 then |s| - 1 else end;
      ParseFrom(Flushed(parts, literal) + [Literal(s[1..stop + 1], true)], "", if end < 0 then "" else s[end + 2..], false)
    else if s[0] in "\"`$" then NotLiteral
    else ParseFrom(parts, literal + s[..1], s[1..], false)
  }

  function Parse(raw: string): Parsed {
    if raw == "" then Parts([])
    else if forall k :: 0 <= k < |raw| ==> !IsSyntax(raw[k]) then Parts([Literal(raw, false)])
    else ParseFrom([], "", raw, true)
  }

  // ---- expanding literal parts ----

  predicate IsMeta(c: char) {
    c in "*?[]\\()"
  }

  function Escape(s: string): string {
    if s == "" then "" else (if IsMeta(s[0]) then "\\" + [s[0]] else [s[0]]) + Escape(s[1..])
  }

  function Unescape(s: string): string
    decreases |s|
  {
    if s == "" then ""
    else if s[0] == '\\' && |s| > 1 then [s[1]] + Unescape(s[2..])
    else [s[0]] + Unescape(s[1..])
  }

  predicate HasMetacharacters(s: string, extGlob: bool)
    decreases |s|
  {
    if s == "" then false
    else if s[0] == '\\' then |s| > 1 && HasMetacharacters(s[2..], extGlob)
    else s[0] in "*?[" || (s[0] in "+@!" && extGlob && |s| > 1 && s[1] == '(') || HasMetacharacters(s[1..], extGlob)
  }

  /** The text of the one field that literal parts build, quoted text escaped. */
  function FieldText(parts: seq<Part>): string {
    if parts == [] then "" else (if parts[0].quoted then Escape(parts[0].text) else parts[0].text) + FieldText(parts[1..])
  }

  datatype Expanded = Fields(fields: seq<string>) | Rewritten

  predicate IsTrigger(c: char) {
    c in "{}\\*?[]()~$`'\""
  }

  predicate IsInert(parts: seq<Part>) {
    |parts| == 1 && !parts[0].quoted && parts[0].text != "" && forall k :: 0 <= k < |parts[0].text| ==> !IsTrigger(parts[0].text[k])
  }

  /** Literal parts: no braces to expand and nothing to match against files, or else they are rewritten. */
  function Expand(parts: seq<Part>, extGlob: bool): Expanded {
    if IsInert(parts) then Fields([parts[0].text])
    else if exists k :: 0 <= k < |parts| && !parts[k].quoted && '{' in parts[k].text then Rewritten
    else
      var field := FieldText(parts);
      if field == "" && (forall k :: 0 <= k < |parts| ==> !parts[k].quoted) then Fields([])
      else if HasMetacharacters(field, extGlob) then Rewritten
      else Fields([Unescape(field)])
  }

  method AppendQuoted(text0: string, value: string) returns (text: string)
    ensures text == text0 + Escape(value)
  {
    hide Escape;
    text := text0;
    var start := 0;
    EscapeNothing();
    assert value[0..] == value;
    while start < |value|
      invariant 0 <= start <= |value| && text0 + Escape(value) == text + Escape(value[start..])
    {
      var next := start;
      ghost var before := text;
      while next < |value| && !IsMeta(value[next])
        invariant start <= next <= |value|
        invariant Escape(value[start..]) == value[start..next] + Escape(value[next..])
      {
        EscapeStep(value, next);
        assert value[start..next + 1] == value[start..next] + [value[next]];
        next := next + 1;
      }
      if next == |value| {
        text := text + value[start..next];
        assert value[next..] == "";
        assert text == before + (value[start..next] + "");
        return;
      }
      EscapeStep(value, next);
      text := text + value[start..next] + "\\" + [value[next]];
      assert before + (value[start..next] + ("\\" + [value[next]] + Escape(value[next + 1..]))) == text + Escape(value[next + 1..]);
      start := next + 1;
    }
    assert value[start..] == "" && text + "" == text;
  }

  lemma EscapeNothing()
    ensures Escape("") == ""
  {}

  lemma EscapeStep(s: string, i: nat)
    requires i < |s|
    ensures Escape(s[i..]) == (if IsMeta(s[i]) then "\\" + [s[i]] else [s[i]]) + Escape(s[i + 1..])
  {
    assert s[i..][1..] == s[i + 1..];
  }

  method UnescapeField(field: string) returns (text: string)
    ensures text == Unescape(field)
  {
    hide Unescape;
    text := "";
    var i := 0;
    assert field[0..] == field && "" + Unescape(field) == Unescape(field);
    while i < |field|
      invariant 0 <= i <= |field| && Unescape(field) == text + Unescape(field[i..])
    {
      UnescapeStep(field, i);
      if field[i] == '\\' && i + 1 < |field| {
        i := i + 1;
      }
      text := text + [field[i]];
      i := i + 1;
    }
    UnescapeNothing(field[i..]);
    assert text + "" == text;
  }

  lemma UnescapeNothing(s: string)
    requires s == ""
    ensures Unescape(s) == ""
  {}

  lemma UnescapeStep(s: string, i: nat)
    requires i < |s|
    ensures Unescape(s[i..]) == if s[i] == '\\' && i + 1 < |s| then [s[i + 1]] + Unescape(s[i + 2..]) else [s[i]] + Unescape(s[i + 1..])
  {
    assert s[i..][0] == s[i] && s[i..][1..] == s[i + 1..];
    if i + 1 < |s| { assert s[i..][1] == s[i + 1] && s[i..][2..] == s[i + 2..]; }
  }

  // ---- the round trip ----

  lemma {:induction false} EscapeConcat(a: string, b: string)
    ensures Escape(a + b) == Escape(a) + Escape(b)
  {
    if a == "" {
      assert a + b == b;
    } else {
      assert (a + b)[1..] == a[1..] + b;
      EscapeConcat(a[1..], b);
    }
  }

  /** Escaped text is no pattern, whatever it is, and unescapes to itself. */
  lemma {:induction false} EscapeRoundTrip(v: string, extGlob: bool)
    ensures Unescape(Escape(v)) == v && !HasMetacharacters(Escape(v), extGlob)
    ensures Escape(v) != "" ==> Escape(v)[0] != '('
  {
    if v != "" {
      EscapeRoundTrip(v[1..], extGlob);
      var rest := Escape(v[1..]);
      assert v == [v[0]] + v[1..];
      if IsMeta(v[0]) {
        assert Escape(v) == "\\" + [v[0]] + rest;
        assert Escape(v)[2..] == rest;
      } else {
        assert Escape(v) == [v[0]] + rest;
        assert Escape(v)[1..] == rest;
      }
    }
  }

  /** The part of `v` before its first quote, and the part after it if there is one. */
  lemma {:induction false} RequotedSplit(v: string) returns (a: string, more: bool, w: string)
    ensures '\'' !in a && |w| <= |v|
    ensures !more ==> v == a && Requoted(v) == a
    ensures more ==> |w| < |v| && v == a + ("'" + w) && Requoted(v) == a + ("'\\''" + Requoted(w))
  {
    if v == "" {
      return "", false, "";
    }
    if v[0] == '\'' {
      assert v == "" + ("'" + v[1..]) && "" + ("'\\''" + Requoted(v[1..])) == "'\\''" + Requoted(v[1..]);
      return "", true, v[1..];
    }
    a, more, w := RequotedSplit(v[1..]);
    assert v == [v[0]] + v[1..];
    if more {
      assert [v[0]] + (a + ("'" + w)) == [v[0]] + a + ("'" + w);
      assert [v[0]] + (a + ("'\\''" + Requoted(w))) == [v[0]] + a + ("'\\''" + Requoted(w));
    }
    a := [v[0]] + a;
  }

  lemma {:induction false} QuoteEndAfter(a: string, rest: string)
    requires '\'' !in a
    ensures QuoteEnd(a + ("'" + rest)) == |a|
  {
    if a == "" {
      assert a + ("'" + rest) == "'" + rest;
    } else {
      assert (a + ("'" + rest))[1..] == a[1..] + ("'" + rest);
      QuoteEndAfter(a[1..], rest);
    }
  }

  /** How a quoted piece at the front of a text is parsed. */
  lemma PieceReads(parts: seq<Part>, a: string, rest: string)
    requires '\'' !in a
    ensures var piece := "'" + (a + ("'" + rest));
            forall atStart :: ParseFrom(parts, "", piece, atStart) == ParseFrom(parts + [Literal(a, true)], "", rest, false)
  {
    var piece := "'" + (a + ("'" + rest));
    QuoteEndAfter(a, rest);
    assert piece[1..] == a + ("'" + rest);
    assert piece[|a| + 2..] == rest;
    assert piece[1..|a| + 1] == a;
  }

  lemma EscapedQuoteReads(parts: seq<Part>, rest: string)
    ensures ParseFrom(parts, "", "\\'" + rest, false) == ParseFrom(parts + [Literal("'", true)], "", rest, false)
  {
    var piece := "\\'" + rest;
    assert piece[2..] == rest && piece[1..2] == "'";
  }

  predicate AllQuoted(parts: seq<Part>) {
    forall k :: 0 <= k < |parts| ==> parts[k].quoted
  }

  lemma {:induction false} FieldTextMore(parts: seq<Part>, part: Part)
    ensures FieldText(parts + [part]) == FieldText(parts) + if part.quoted then Escape(part.text) else part.text
  {
    if parts == [] {
      assert [] + [part] == [part] && [part][1..] == [];
    } else {
      assert (parts + [part])[1..] == parts[1..] + [part];
      FieldTextMore(parts[1..], part);
    }
  }

  /** All parts of the quoted form are quoted, and together they spell the value. */
  lemma {:induction false} QuotedReads(v: string, parts: seq<Part>) returns (all: seq<Part>)
    requires AllQuoted(parts)
    ensures forall atStart :: ParseFrom(parts, "", "'" + Requoted(v) + "'", atStart) == Parts(all)
    ensures AllQuoted(all) && |all| > |parts| && FieldText(all) == FieldText(parts) + Escape(v)
    decreases |v|
  {
    hide ParseFrom, Escape, FieldText;
    var raw := "'" + Requoted(v) + "'";
    var a, more, w := RequotedSplit(v);
    var parts1 := parts + [Literal(a, true)];
    FieldTextMore(parts, Literal(a, true));
    if !more {
      assert raw == "'" + (a + ("'" + ""));
      PieceReads(parts, a, "");
      ParseNothing(parts1);
      all := parts1;
    } else {
      var raw2 := "'" + Requoted(w) + "'";
      RequotedAgain(v, a, w);
      PieceReads(parts, a, "\\'" + raw2);
      EscapedQuoteReads(parts1, raw2);
      var parts2 := parts1 + [Literal("'", true)];
      FieldTextMore(parts1, Literal("'", true));
      all := QuotedReads(w, parts2);
      EscapeConcat(a, "'" + w);
      EscapeConcat("'", w);
      assert FieldText(parts) + Escape(a) + Escape("'") + Escape(w) == FieldText(parts) + (Escape(a) + (Escape("'") + Escape(w)));
    }
  }

  lemma RequotedAgain(v: string, a: string, w: string)
    requires Requoted(v) == a + ("'\\''" + Requoted(w))
    ensures "'" + Requoted(v) + "'" == "'" + (a + ("'" + ("\\'" + ("'" + Requoted(w) + "'"))))
  {
    hide Requoted;
    var tail := "\\'" + ("'" + Requoted(w) + "'");
    assert "'\\''" + Requoted(w) + "'" == "'" + tail;
    assert a + ("'\\''" + Requoted(w)) + "'" == a + ("'\\''" + Requoted(w) + "'");
    assert "'" + Requoted(v) + "'" == "'" + (Requoted(v) + "'");
  }

  lemma ParseNothing(parts: seq<Part>)
    ensures ParseFrom(parts, "", "", false) == Parts(parts)
  {}

  // ---- the lexer on quoted values ----

  /** The text stands in the script at a position. */
  predicate Stands(s: string, p: nat, w: string) {
    p + |w| <= |s| && s[p..p + |w|] == w
  }

  lemma StandsSplit(s: string, p: nat, a: string, b: string)
    requires Stands(s, p, a + b)
    ensures Stands(s, p, a) && Stands(s, p + |a|, b)
  {
    assert s[p..p + |a|] == s[p..p + |a + b|][..|a|];
    assert s[p + |a|..p + |a| + |b|] == s[p..p + |a + b|][|a|..];
  }

  lemma {:induction false} QuoteClosesAt(s: string, p: nat, a: string)
    requires '\'' !in a && Stands(s, p, a + "'")
    ensures QuotedEnd(s, p, '\'', false) == Some(p + |a| + 1)
    decreases |a|
  {
    assert s[p] == (a + "'")[0];
    if a != "" {
      assert a + "'" == [a[0]] + (a[1..] + "'");
      StandsSplit(s, p, [a[0]], a[1..] + "'");
      QuoteClosesAt(s, p + 1, a[1..]);
    }
  }

  /** A quoted piece is one piece of a word. */
  lemma QuotedPiece(s: string, p: nat, text: string, a: string)
    requires '\'' !in a && Stands(s, p, "'" + (a + "'"))
    ensures WordFrom(s, p, text) == WordFrom(s, p + |a| + 2, text + ("'" + (a + "'")))
  {
    hide QuotedEnd, WordFrom, EndsWord;
    StandsSplit(s, p, "'", a + "'");
    SignsThatEnd();
    assert s[p] == '\'';
    QuoteClosesAt(s, p + 1, a);
    assert PieceAt(s, p, text) == Takes(p + |a| + 2);
    TakesStep(s, p, text);
  }

  lemma TakesStep(s: string, p: nat, text: string)
    requires p <= |s| && PieceAt(s, p, text).Takes?
    ensures var e := PieceAt(s, p, text).end; WordFrom(s, p, text) == WordFrom(s, e, text + s[p..e])
  {
    hide PieceAt;
  }

  lemma EscapedQuotePiece(s: string, p: nat, text: string)
    requires Stands(s, p, "\\'")
    ensures WordFrom(s, p, text) == WordFrom(s, p + 2, text + "\\'")
  {
    hide WordFrom, EndsWord;
    SignsThatEnd();
    assert s[p] == s[p..p + 2][0] == '\\' && s[p + 1] == s[p..p + 2][1] == '\'';
    assert PieceAt(s, p, text) == Takes(p + 2);
    TakesStep(s, p, text);
  }

  lemma {:induction false} QuotedWord(s: string, p: nat, text: string, v: string)
    requires Stands(s, p, "'" + Requoted(v) + "'")
    ensures WordFrom(s, p, text) == WordFrom(s, p + |Requoted(v)| + 2, text + ("'" + Requoted(v) + "'"))
    decreases |v|
  {
    hide WordFrom, Requoted, Stands;
    var a, more, w := RequotedSplit(v);
    var piece := "'" + (a + "'");
    if !more {
      assert "'" + Requoted(v) + "'" == piece;
      QuotedPiece(s, p, text, a);
    } else {
      var raw2 := "'" + Requoted(w) + "'";
      RequotedAgain(v, a, w);
      Joined("'", a, "'", "\\'" + raw2);
      StandsSplit(s, p, piece, "\\'" + raw2);
      QuotedPiece(s, p, text, a);
      StandsSplit(s, p + |piece|, "\\'", raw2);
      EscapedQuotePiece(s, p + |piece|, text + piece);
      QuotedWord(s, p + |piece| + 2, text + piece + "\\'", w);
      assert text + piece + "\\'" + raw2 == text + (piece + ("\\'" + raw2));
    }
  }

  lemma Joined(a: string, b: string, c: string, d: string)
    ensures a + (b + (c + d)) == a + (b + c) + d
  {}

  lemma {:induction false} SafeWord(s: string, p: nat, text: string, v: string)
    requires AllSafe(v) && Stands(s, p, v)
    ensures WordFrom(s, p, text) == WordFrom(s, p + |v|, text + v)
    decreases |v|
  {
    hide WordFrom, PieceAt, IsSafe, Stands;
    if v == "" {
      assert text + v == text;
    } else {
      assert v == [v[0]] + v[1..];
      StandsSplit(s, p, [v[0]], v[1..]);
      SafePiece(s, p, text, v[0]);
      SafeWord(s, p + 1, text + [v[0]], v[1..]);
      assert text + [v[0]] + v[1..] == text + v;
    }
  }

  lemma SafePiece(s: string, p: nat, text: string, c: char)
    requires IsSafe(c) && Stands(s, p, [c])
    ensures WordFrom(s, p, text) == WordFrom(s, p + 1, text + [c])
  {
    hide WordFrom, IsSafe, EndsWord;
    SafeCharacter(c);
    assert s[p] == s[p..p + 1][0] == c;
    assert PieceAt(s, p, text) == Takes(p + 1);
    TakesStep(s, p, text);
  }

  lemma SafeCharacter(c: char)
    ensures IsSafe(c) ==> !EndsWord(c) && c !in "\"`$" && c != '\\' && c != '\'' && c != '#'
  {}

  /** Wherever what the quoter writes stands, the lexer takes all of it for (the beginning of) one word. */
  lemma QuoteIsOneWord(s: string, p: nat, v: string)
    requires Stands(s, p, Quote(v))
    ensures WordFrom(s, p, "") == WordFrom(s, p + |Quote(v)|, Quote(v))
  {
    hide WordFrom, Quote, Requoted, AllSafe, Stands;
    QuoteForms(v);
    if v != "" && AllSafe(v) {
      SafeWord(s, p, "", v);
      assert "" + v == v;
    } else {
      QuotedWord(s, p, "", v);
      assert "" + ("'" + Requoted(v) + "'") == "'" + Requoted(v) + "'";
    }
  }

  /** What the quoter writes begins with no blank, comment or operator. */
  lemma QuoteBegins(s: string, p: nat, v: string)
    requires Stands(s, p, Quote(v))
    ensures Quote(v) != "" && p < |s| && SkipEnd(s, p) == p && s[p] != '\n' && !HasOperator(s, p)
  {
    hide Requoted, AllSafe, IsCommentStart, EndsWord;
    QuoteForms(v);
    var c := Quote(v)[0];
    assert s[p] == s[p..p + |Quote(v)|][0] == c;
    if v != "" && AllSafe(v) { SafeFirst(v); } else { assert c == '\''; SignsThatEnd(); }
    NoSign(c, At(s, p + 1), At(s, p + 2));
  }

  lemma SafeFirst(v: string)
    requires v != "" && AllSafe(v)
    ensures !EndsWord(v[0]) && v[0] != '\\' && v[0] != '#'
  {
    hide EndsWord;
    SafeCharacter(v[0]);
  }

  lemma NoSign(a: char, b: char, c: char)
    requires !EndsWord(a)
    ensures OperatorAt(a, b, c).None? && a != '\n' && !IsBlank(a)
  {}

  /** In front of the end or of anything that cuts a word it is one token; only digits before `<` or `>` name a descriptor. */
  lemma QuoteThenRest(s: string, at: State, v: string)
    requires at.Valid(s) && Stands(s, SkipEnd(s, at.position), Quote(v))
    requires var end := SkipEnd(s, at.position) + |Quote(v)|; end == |s| || Cuts(s, end, Quote(v))
    ensures var p := SkipEnd(s, at.position);
            var end := p + |Quote(v)|;
            Next(s, at) == if IsDescriptor(s, Quote(v), end)
                           then Some((Lexeme(IoNumber(Quote(v)), p, |Quote(v)|), at.(position := end)))
                           else Some((Lexeme(Word(Quote(v)), p, |Quote(v)|), at.(position := end, pending := Named(at.pending, Quote(v)))))
  {
    hide WordFrom, Quote, SkipEnd, HasOperator, OperatorToken, DocumentBodies, IsDescriptor, PieceAt, Cuts;
    var p := SkipEnd(s, at.position);
    QuoteBegins(s, p, v);
    QuoteIsOneWord(s, p, v);
    EndedExactly(s, p + |Quote(v)|, Quote(v));
    WordStep(s, p + |Quote(v)|, Quote(v));
  }

  /** Values quoted and joined with blanks, as a command line is. */
  function CommandLine(vs: seq<string>): string {
    if vs == [] then "" else if |vs| == 1 then Quote(vs[0]) else Quote(vs[0]) + (" " + CommandLine(vs[1..]))
  }

  function QuotedWords(vs: seq<string>): Tokens {
    seq(|vs|, k requires 0 <= k < |vs| => Word(Quote(vs[k])))
  }

  /** The rest of a command line, from a place where one of its values stands next. */
  lemma {:induction false} LineLexes(s: string, at: State, vs: seq<string>)
    requires at.Valid(s) && at.pending == [] && s[SkipEnd(s, at.position)..] == CommandLine(vs)
    ensures Lexemes(s, at).Some? && TokensOf(Lexemes(s, at).value.0) == QuotedWords(vs) + [EndOfInput]
    decreases |vs|
  {
    hide Next, SkipEnd, Quote, Cuts, Stands;
    var p := SkipEnd(s, at.position);
    if vs == [] {
      EndToken(s, at);
      assert TokensOf(Lexemes(s, at).value.0) == [EndOfInput] == QuotedWords(vs) + [EndOfInput];
    } else {
      var end := p + |Quote(vs[0])|;
      LineSplit(s, p, vs);
      QuoteThenRest(s, at, vs[0]);
      NothingNamed(Quote(vs[0]));
      NoDescriptor(s, Quote(vs[0]), end);
      var after := at.(position := end);
      assert Next(s, at) == Some((Lexeme(Word(Quote(vs[0])), p, |Quote(vs[0])|), after));
      LineLexes(s, after, vs[1..]);
      var more := Lexemes(s, after).value.0;
      assert TokensOf([Lexeme(Word(Quote(vs[0])), p, |Quote(vs[0])|)] + more) == [Word(Quote(vs[0]))] + TokensOf(more);
      assert QuotedWords(vs) == [Word(Quote(vs[0]))] + QuotedWords(vs[1..]);
    }
  }

  lemma EndToken(s: string, at: State)
    requires at.Valid(s) && s[SkipEnd(s, at.position)..] == ""
    ensures Next(s, at) == Some((Lexeme(EndOfInput, |s|, 0), at.(position := |s|)))
  {
    hide SkipEnd, DocumentBodies, HasOperator, OperatorToken, WordToken;
  }

  lemma NothingNamed(text: string)
    ensures Named([], text) == []
  {}

  lemma NoDescriptor(s: string, text: string, end: nat)
    requires end == |s| || (end < |s| && s[end] == ' ')
    ensures !IsDescriptor(s, text, end)
  {}

  /** The first value of a command line, what cuts it off, and where the others stand. */
  lemma LineSplit(s: string, p: nat, vs: seq<string>)
    requires p <= |s| && vs != [] && s[p..] == CommandLine(vs)
    ensures var end := p + |Quote(vs[0])|;
            && Stands(s, p, Quote(vs[0])) && end <= |s| && (end < |s| ==> s[end] == ' ' && Cuts(s, end, Quote(vs[0])))
            && s[SkipEnd(s, end)..] == CommandLine(vs[1..])
  {
    hide Quote, SkipEnd, TakesGroup, CommandLine;
    var rest := if |vs| == 1 then "" else " " + CommandLine(vs[1..]);
    var end := p + |Quote(vs[0])|;
    LineForms(vs);
    SuffixSplit(s, p, Quote(vs[0]), rest);
    if |vs| == 1 {
      NoSkip(s, end);
    } else {
      SuffixSplit(s, end, " ", CommandLine(vs[1..]));
      assert s[end] == s[end..end + 1][0] == ' ';
      BlankSkipped(s, end);
      LineBegins(s, end + 1, vs[1..]);
    }
  }

  lemma LineForms(vs: seq<string>)
    requires vs != []
    ensures CommandLine(vs) == Quote(vs[0]) + if |vs| == 1 then "" else " " + CommandLine(vs[1..])
    ensures |vs| == 1 ==> CommandLine(vs[1..]) == ""
  {
    hide Quote;
  }

  lemma SuffixSplit(s: string, p: nat, a: string, b: string)
    requires p <= |s| && s[p..] == a + b
    ensures Stands(s, p, a) && s[p + |a|..] == b
  {
    assert s[p..p + |a|] == s[p..][..|a|];
    assert s[p + |a|..] == s[p..][|a|..];
  }

  lemma LineBegins(s: string, p: nat, vs: seq<string>)
    requires p <= |s| && s[p..] == CommandLine(vs)
    ensures SkipEnd(s, p) == p
  {
    hide Quote, SkipEnd, CommandLine;
    if vs == [] {
      NoLine();
      NoSkip(s, p);
    } else {
      LineForms(vs);
      SuffixSplit(s, p, Quote(vs[0]), if |vs| == 1 then "" else " " + CommandLine(vs[1..]));
      QuoteBegins(s, p, vs[0]);
    }
  }

  lemma NoLine()
    ensures CommandLine([]) == ""
  {}

  lemma NoSkip(s: string, p: nat)
    requires p == |s|
    ensures SkipEnd(s, p) == p
  {}

  lemma BlankSkipped(s: string, p: nat)
    requires p < |s| && s[p] == ' '
    ensures SkipEnd(s, p) == SkipEnd(s, p + 1)
  {}

  /** A command line of quoted values is as many words, each of which reads back as its value. */
  lemma CommandLineReads(vs: seq<string>, extGlob: bool)
    ensures Tokenized(CommandLine(vs)) == Some(QuotedWords(vs))
    ensures forall k :: 0 <= k < |vs| ==> Parse(Quote(vs[k])).Parts? && Expand(Parse(Quote(vs[k])).parts, extGlob) == Fields([vs[k]])
  {
    hide Quote, Parse, Expand, Lexemes, CommandLine;
    forall k | 0 <= k < |vs| ensures Parse(Quote(vs[k])).Parts? && Expand(Parse(Quote(vs[k])).parts, extGlob) == Fields([vs[k]]) {
      QuoteExpands(vs[k], extGlob);
    }
    var s := CommandLine(vs);
    assert s[0..] == s;
    LineBegins(s, 0, vs);
    LineLexes(s, START, vs);
    var xs := Lexemes(s, START).value.0;
    assert TokensOf(xs[..|xs| - 1]) == TokensOf(xs)[..|xs| - 1] == QuotedWords(vs);
  }

  lemma QuoteForms(v: string)
    ensures Quote(v) == if v != "" && AllSafe(v) then v else "'" + Requoted(v) + "'"
  {
    hide AllSafe;
    assert Requoted("") == "" && "'" + "" + "'" == "''";
  }

  lemma StartsQuoted(raw: string)
    requires raw != "" && raw[0] == '\''
    ensures Parse(raw) == ParseFrom([], "", raw, true)
  {
    hide ParseFrom;
    assert IsSyntax(raw[0]);
  }

  /** Read back, expanded, with or without extended patterns, a quoted value is that value and nothing else. */
  lemma QuoteRoundTrip(v: string, extGlob: bool)
    ensures Tokenized(Quote(v)) == Some([Word(Quote(v))])
    ensures Parse(Quote(v)).Parts? && Expand(Parse(Quote(v)).parts, extGlob) == Fields([v])
  {
    hide Quote, Parse, Expand, Tokenized;
    CommandLineReads([v], extGlob);
    assert [v][0] == v && CommandLine([v]) == Quote(v);
    assert QuotedWords([v]) == [Word(Quote(v))];
  }

  lemma QuoteExpands(v: string, extGlob: bool)
    ensures Parse(Quote(v)).Parts? && Expand(Parse(Quote(v)).parts, extGlob) == Fields([v])
  {
    hide Quote, Parse, Expand, AllSafe;
    if v != "" && AllSafe(v) {
      SafeExpands(v, extGlob);
    } else {
      QuotedExpands(v, extGlob);
    }
  }

  lemma SafeExpands(v: string, extGlob: bool)
    requires v != "" && AllSafe(v)
    ensures Parse(Quote(v)).Parts? && Expand(Parse(Quote(v)).parts, extGlob) == Fields([v])
  {
    hide IsSyntax, IsTrigger, IsSafe, Requoted;
    SafeIsInert();
    assert Parse(v) == Parts([Literal(v, false)]);
    assert IsInert([Literal(v, false)]);
  }

  lemma SafeIsInert()
    ensures forall c :: IsSafe(c) ==> !IsSyntax(c) && !IsTrigger(c)
  {}

  lemma QuotedExpands(v: string, extGlob: bool)
    requires v == "" || !AllSafe(v)
    ensures Parse(Quote(v)).Parts? && Expand(Parse(Quote(v)).parts, extGlob) == Fields([v])
  {
    hide ParseFrom, Parse, Expand, Quote, AllSafe, Requoted, Escape, Unescape, HasMetacharacters, FieldText;
    var raw := "'" + Requoted(v) + "'";
    QuoteForms(v);
    StartsQuoted(raw);
    var all := QuotedReads(v, []);
    FieldTextNothing();
    assert "" + Escape(v) == Escape(v);
    EscapeRoundTrip(v, extGlob);
    ExpandQuoted(all, extGlob);
  }

  lemma ExpandQuoted(parts: seq<Part>, extGlob: bool)
    requires AllQuoted(parts) && parts != []
    ensures Expand(parts, extGlob) ==
            if HasMetacharacters(FieldText(parts), extGlob) then Rewritten else Fields([Unescape(FieldText(parts))])
  {
    hide Unescape, HasMetacharacters, FieldText, IsTrigger;
    assert parts[0].quoted;
  }

  lemma FieldTextNothing()
    ensures FieldText([]) == ""
  {}

  /** So two values are quoted the same only if they are the same. */
  lemma QuoteInjective(v: string, w: string)
    requires Quote(v) == Quote(w)
    ensures v == w
  {
    hide Quote, Parse, Expand;
    QuoteRoundTrip(v, false);
    QuoteRoundTrip(w, false);
  }
}
