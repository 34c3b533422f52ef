/**
 The lexer: one position moves over a script and cuts it into tokens. Every token is a piece of the
 script, in order and apart from the others, and between two of them stand only blanks, comments,
 continued lines and the bodies of here-documents.
 */
module ShellLexer {
  import opened Wrappers
  import opened ShellSyntax
  import opened ShellWords

  /** A token with the part of the script it was read from. */
  datatype Lexeme = Lexeme(token: Token, start: nat, length: nat)

  // ---- operators ----

  /** The operator that begins with these three characters, and how many of them it takes. */
  function OperatorAt(a: char, b: char, c: char): (r: Option<(Token, nat)>)
    ensures r.Some? ==> 1 <= r.value.1 <= 3
  {
    if a == ';' then
      if b == ';' && c == '&' then Some((DoubleSemiAmpersand, 3))
      else if b == ';' then Some((DoubleSemicolon, 2))
      else if b == '&' then Some((SemiAmpersand, 2)) else Some((Semicolon, 1))
    else if a == '&' then
      if b == '&' then Some((AndIf, 2))
      else if b == '>' && c == '>' then Some((Redirector(AmpersandDoubleGreat), 3))
      else if b == '>' then Some((Redirector(AmpersandGreat), 2)) else Some((Ampersand, 1))
    else if a == '|' then
      if b == '|' then Some((OrIf, 2)) else if b == '&' then Some((PipeAmpersand, 2)) else Some((Token.Pipe, 1))
    else if a == '>' then
      if b == '(' then None
      else if b == '>' then Some((Redirector(DoubleGreat), 2))
      else if b == '&' then Some((Redirector(GreatAmpersand), 2))
      else if b == '|' then Some((Redirector(Clobber), 2)) else Some((Redirector(Great), 1))
    else if a == '<' then
      if b == '<' && c == '<' then Some((Redirector(TripleLess), 3))
      else if b == '<' && c == '-' then Some((Redirector(DoubleLessDash), 3))
      else if b == '<' then Some((Redirector(DoubleLess), 2))
      else if b == '&' then Some((Redirector(LessAmpersand), 2))
      else if b == '>' then Some((Redirector(LessGreat), 2))
      else if b == '(' then None else Some((Redirector(Less), 1))
    else if a == '(' then (if b == '(' then Some((DoubleLeftParen, 2)) else Some((LeftParen, 1)))
    else if a == ')' then Some((RightParen, 1))
    else None
  }

  function RedirectSpelling(op: RedirectOperator): string {
    match op
    case Great => ">" case DoubleGreat => ">>" case Less => "<" case DoubleLess => "<<" case DoubleLessDash => "<<-"
    case TripleLess => "<<<" case LessGreat => "<>" case GreatAmpersand => ">&" case LessAmpersand => "<&"
    case Clobber => ">|" case AmpersandGreat => "&>" case AmpersandDoubleGreat => "&>>"
  }

  predicate IsOperator(t: Token) {
    !t.Word? && !t.IoNumber? && t != Newline && t != EndOfInput
  }

  /** How an operator is written. */
  function Spelling(t: Token): string
    requires IsOperator(t)
  {
    match t
    case Redirector(op) => RedirectSpelling(op)
    case Semicolon => ";" case Ampersand => "&" case AndIf => "&&" case OrIf => "||" case Pipe => "|" case PipeAmpersand => "|&"
    case DoubleSemicolon => ";;" case SemiAmpersand => ";&" case DoubleSemiAmpersand => ";;&"
    case LeftParen => "(" case RightParen => ")" case DoubleLeftParen => "(("
  }

  predicate Begins(s: string, p: nat, t: string) {
    p + |t| <= |s| && s[p..p + |t|] == t
  }

  /** The operator read is the longest there is, and there is none only when none is written or a substitution begins. */
  lemma LongestOperator(s: string, p: nat, t: Token)
    requires IsOperator(t) && Begins(s, p, Spelling(t))
    ensures var r := OperatorAt(At(s, p), At(s, p + 1), At(s, p + 2));
            if IsSubstitution(s, p) then r.None? && |Spelling(t)| == 1
            else r.Some? && IsOperator(r.value.0) && |Spelling(t)| <= r.value.1
                 && (|Spelling(t)| == r.value.1 ==> r.value.0 == t)
  {
    hide OperatorAt, Spelling;
    SpellingLength(t);
    var w := Spelling(t);
    forall k | 0 <= k < |w| ensures At(s, p + k) == w[k] {
      assert s[p..p + |w|][k] == w[k];
    }
    assert At(s, p + 0) == w[0];
    if |w| > 1 { assert At(s, p + 1) == w[1]; }
    if |w| > 2 { assert At(s, p + 2) == w[2]; }
    LongestByTable(t, At(s, p), At(s, p + 1), At(s, p + 2));
  }

  lemma SpellingLength(t: Token)
    requires IsOperator(t)
    ensures 1 <= |Spelling(t)| <= 3
  {}

  lemma LongestByTable(t: Token, a: char, b: char, c: char)
    requires IsOperator(t) && 1 <= |Spelling(t)| <= 3 && a == Spelling(t)[0]
    requires (|Spelling(t)| > 1 ==> b == Spelling(t)[1]) && (|Spelling(t)| > 2 ==> c == Spelling(t)[2])
    ensures var r := OperatorAt(a, b, c);
            if (a == '<' || a == '>') && b == '(' then r.None? && |Spelling(t)| == 1
            else r.Some? && IsOperator(r.value.0) && |Spelling(t)| <= r.value.1
                 && (|Spelling(t)| == r.value.1 ==> r.value.0 == t)
  {
    if t.Redirector? { LongestRedirect(t.operator, a, b, c); } else { LongestSign(t, a, b, c); }
  }

  lemma LongestRedirect(op: RedirectOperator, a: char, b: char, c: char)
    requires var w := RedirectSpelling(op); 1 <= |w| <= 3 && a == w[0] && (|w| > 1 ==> b == w[1]) && (|w| > 2 ==> c == w[2])
    ensures var r, w := OperatorAt(a, b, c), RedirectSpelling(op);
            if (a == '<' || a == '>') && b == '(' then r.None? && |w| == 1
            else r.Some? && IsOperator(r.value.0) && |w| <= r.value.1 && (|w| == r.value.1 ==> r.value.0 == Redirector(op))
  {
    match op
    case Great => case DoubleGreat => case Less => case DoubleLess => case DoubleLessDash => case TripleLess =>
    case LessGreat => case GreatAmpersand => case LessAmpersand => case Clobber => case AmpersandGreat => case AmpersandDoubleGreat =>
  }

  lemma LongestSign(t: Token, a: char, b: char, c: char)
    requires IsOperator(t) && !t.Redirector?
    requires var w := Spelling(t); 1 <= |w| <= 3 && a == w[0] && (|w| > 1 ==> b == w[1]) && (|w| > 2 ==> c == w[2])
    ensures var r, w := OperatorAt(a, b, c), Spelling(t);
            r.Some? && IsOperator(r.value.0) && |w| <= r.value.1 && (|w| == r.value.1 ==> r.value.0 == t)
  {
    match t
    case Semicolon => case Ampersand => case AndIf => case OrIf => case Pipe => case PipeAmpersand => case DoubleSemicolon =>
    case SemiAmpersand => case DoubleSemiAmpersand => case LeftParen => case RightParen => case DoubleLeftParen =>
  }

  /** And it is written there. */
  lemma OperatorIsWritten(s: string, p: nat)
    ensures var r := OperatorAt(At(s, p), At(s, p + 1), At(s, p + 2));
            r.Some? ==> IsOperator(r.value.0) && |Spelling(r.value.0)| == r.value.1 && Begins(s, p, Spelling(r.value.0))
  {
    hide OperatorAt, Spelling;
    var a, b, c := At(s, p), At(s, p + 1), At(s, p + 2);
    WrittenByTable(a, b, c);
    var r := OperatorAt(a, b, c);
    if r.Some? {
      var w := Spelling(r.value.0);
      assert forall k :: 0 <= k < |w| ==> s[p..p + |w|][k] == w[k];
    }
  }

  lemma WrittenByTable(a: char, b: char, c: char)
    ensures var r := OperatorAt(a, b, c);
            r.Some? ==>
            && IsOperator(r.value.0) && |Spelling(r.value.0)| == r.value.1 && a != '\0' && Spelling(r.value.0)[0] == a
            && (r.value.1 > 1 ==> b != '\0' && Spelling(r.value.0)[1] == b) && (r.value.1 > 2 ==> c != '\0' && Spelling(r.value.0)[2] == c)
  {}

  // ---- here-documents ----

  datatype Pending = Pending(index: nat, stripTabs: bool, delimiter: Option<string>)

  function TrimTabs(line: string): string {
    if line != "" && line[0] == '\t' then TrimTabs(line[1..]) else line
  }

  /** A delimiter without its quotes. */
  function StripQuotes(text: string): string {
    if text == "" then ""
    else if text[0] == '\'' || text[0] == '"' then StripQuotes(text[1..])
    else if text[0] == '\\' && |text| > 1 then [text[1]] + StripQuotes(text[2..])
    else [text[0]] + StripQuotes(text[1..])
  }

  function Delimiter(doc: Pending): string {
    StripQuotes(if doc.delimiter.Some? then doc.delimiter.value else "")
  }

  function Compared(line: string, stripTabs: bool): string {
    if stripTabs then TrimTabs(line) else line
  }

  /** Past the line that begins at `p`, its line end too. */
  function NextLine(s: string, p: nat): (e: nat)
    requires p < |s|
    ensures p < e <= |s|
  {
    var end := LineEnd(s, p);
    if end < |s| then end + 1 else end
  }

  /** The lines up to the delimiter's own, and the position past it. */
  function DocumentBody(s: string, p: nat, delimiter: string, stripTabs: bool): (r: (string, nat))
    requires p <= |s|
    ensures p <= r.1 <= |s|
    decreases |s| - p
  {
    if p == |s| then ("", p) else
    var line := Compared(s[p..LineEnd(s, p)], stripTabs);
    if line == delimiter then ("", NextLine(s, p)) else
    var more := DocumentBody(s, NextLine(s, p), delimiter, stripTabs);
    (line + "\n" + more.0, more.1)
  }

  /** The bodies of the documents, one after the other. */
  function DocumentBodies(s: string, p: nat, docs: seq<Pending>, bodies: seq<string>): (r: (seq<string>, nat))
    requires p <= |s| && forall k :: 0 <= k < |docs| ==> docs[k].index < |bodies|
    ensures |r.0| == |bodies| && p <= r.1 <= |s|
    decreases |docs|
  {
    if docs == [] then (bodies, p) else
    var first := DocumentBody(s, p, Delimiter(docs[0]), docs[0].stripTabs);
    DocumentBodies(s, first.1, docs[1..], bodies[docs[0].index := first.0])
  }

  /** The first here-document still without a delimiter gets this one. */
  function Named(docs: seq<Pending>, text: string): (r: seq<Pending>)
    ensures |r| == |docs| && forall k :: 0 <= k < |docs| ==> r[k].index == docs[k].index
  {
    if docs == [] then []
    else if docs[0].delimiter.None? then [docs[0].(delimiter := Some(text))] + docs[1..]
    else [docs[0]] + Named(docs[1..], text)
  }

  // ---- tokens ----

  /** Where the lexer stands, and the here-documents whose bodies it still owes. */
  datatype State = State(position: nat, pending: seq<Pending>, bodies: seq<string>) {
    predicate Valid(s: string) {
      position <= |s| && forall k :: 0 <= k < |pending| ==> pending[k].index < |bodies|
    }
  }

  const START := State(0, [], [])

  /** Digits right before a redirection name a descriptor. */
  predicate IsDescriptor(s: string, text: string, end: nat) {
    && text != "" && (forall k :: 0 <= k < |text| ==> IsDigit(text[k]))
    && (At(s, end) == '<' || At(s, end) == '>')
  }

  predicate StartsDocument(t: Token) {
    t == Redirector(DoubleLess) || t == Redirector(DoubleLessDash)
  }

  predicate HasOperator(s: string, p: nat) {
    OperatorAt(At(s, p), At(s, p + 1), At(s, p + 2)).Some?
  }

  /** The operator at the position; one that starts a here-document owes its body. */
  function OperatorToken(s: string, at: State): (r: (Lexeme, State))
    requires at.Valid(s) && HasOperator(s, at.position)
    ensures r.1.Valid(s) && r.1.position == at.position + r.0.length && r.0.length > 0 && IsOperator(r.0.token)
  {
    OperatorIsWritten(s, at.position);
    var (token, length) := OperatorAt(At(s, at.position), At(s, at.position + 1), At(s, at.position + 2)).value;
    var after := at.(position := at.position + length);
    (Lexeme(token, at.position, length),
     if StartsDocument(token)
     then after.(pending := at.pending + [Pending(|at.bodies|, token == Redirector(DoubleLessDash), None)], bodies := at.bodies + [""])
     else after)
  }

  /** The word at the position, or the descriptor; a word names a here-document that waits for its delimiter. */
  function WordToken(s: string, at: State): (r: Option<(Lexeme, State)>)
    requires at.Valid(s)
    ensures r.Some? ==> r.value.1.Valid(s) && r.value.1.position == at.position + r.value.0.length
                        && (r.value.0.token.Word? || r.value.0.token.IoNumber?)
  {
    var word := WordFrom(s, at.position, "");
    if word.None? then None else
    var (text, end) := word.value;
    if IsDescriptor(s, text, end) then Some((Lexeme(IoNumber(text), at.position, end - at.position), at.(position := end)))
    else Some((Lexeme(Word(text), at.position, end - at.position), at.(position := end, pending := Named(at.pending, text))))
  }

  /** The next token and what is left to do after it; none where a quote or a bracket is never closed. */
  function Next(s: string, at: State): (r: Option<(Lexeme, State)>)
    requires at.Valid(s)
    ensures r.Some? ==> r.value.1.Valid(s) && at.position <= r.value.1.position
    ensures r.Some? && r.value.0.token != EndOfInput ==> at.position < r.value.1.position
  {
    var p := SkipEnd(s, at.position);
    var here := at.(position := p);
    if p == |s| then Some((Lexeme(EndOfInput, p, 0), here))
    else if s[p] == '\n' then
      var (bodies, end) := DocumentBodies(s, p + 1, at.pending, at.bodies);
      Some((Lexeme(Newline, p, 1), State(end, [], bodies)))
    else if HasOperator(s, p) then Some(OperatorToken(s, here))
    else
      WordBegins(s, p, at.position);
      WordToken(s, here)
  }

  /** Where neither a blank nor an operator begins, a word does. */
  lemma WordBegins(s: string, p: nat, from0: nat)
    requires from0 <= |s| && p == SkipEnd(s, from0) && p < |s| && s[p] != '\n'
    requires !HasOperator(s, p)
    ensures PieceAt(s, p, "") != Ended
    ensures WordFrom(s, p, "").Some? ==> p < WordFrom(s, p, "").value.1
  {
    hide PieceAt, SkipEnd, TakesGroup;
    SkipStops(s, from0);
    NoOperator(s, p);
    EndedExactly(s, p, "");
  }

  lemma NoOperator(s: string, p: nat)
    requires p < |s| && !HasOperator(s, p) && !IsBlank(s[p]) && s[p] != '\n'
    ensures EndsWord(s[p]) ==> IsSubstitution(s, p)
  {}

  lemma {:induction false} SkipStops(s: string, p: nat)
    requires p <= |s|
    ensures var e := SkipEnd(s, p);
            e < |s| ==> !IsBlank(s[e]) && !(s[e] == '#' && IsCommentStart(s, e)) && !(s[e] == '\\' && At(s, e + 1) == '\n')
    decreases |s| - p
  {
    hide IsCommentStart, IsBlank;
    if p < |s| {
      if IsBlank(s[p]) { SkipStops(s, p + 1); }
      else if s[p] == '\\' && At(s, p + 1) == '\n' { SkipStops(s, p + 2); }
      else if s[p] == '#' && IsCommentStart(s, p) { SkipStops(s, LineEnd(s, p + 1)); }
    }
  }

  /** All tokens from a place on, the end mark last; and the bodies of the here-documents. */
  function Lexemes(s: string, at: State): (r: Option<(seq<Lexeme>, seq<string>)>)
    requires at.Valid(s)
    ensures r.Some? ==> r.value.0 != []
    decreases |s| - at.position
  {
    var next := Next(s, at);
    if next.None? then None
    else if next.value.0.token == EndOfInput then Some(([next.value.0], next.value.1.bodies))
    else
      var more := Lexemes(s, next.value.1);
      if more.None? then None else Some(([next.value.0] + more.value.0, more.value.1))
  }

  // ---- what the tokens are ----

  /** From `p` to `q` stand blanks, continued lines and comments only. */
  ghost predicate Blank(s: string, p: nat, q: nat)
    decreases q - p
  {
    || p == q
    || (p < q <= |s| && IsBlank(s[p]) && Blank(s, p + 1, q))
    || (p + 1 < q <= |s| && s[p] == '\\' && s[p + 1] == '\n' && Blank(s, p + 2, q))
    || (p < q <= |s| && s[p] == '#' && IsCommentStart(s, p)
        && exists k :: p < k <= q && (forall j :: p <= j < k ==> s[j] != '\n') && (k == |s| || s[k] == '\n') && Blank(s, k, q))
  }

  lemma {:induction false} BlankConcat(s: string, p: nat, q: nat, r: nat)
    requires p <= q <= r && Blank(s, p, q) && Blank(s, q, r)
    ensures Blank(s, p, r)
    decreases q - p
  {
    if p < q {
      if q <= |s| && IsBlank(s[p]) && Blank(s, p + 1, q) { BlankConcat(s, p + 1, q, r); }
      else if p + 1 < q <= |s| && s[p] == '\\' && s[p + 1] == '\n' && Blank(s, p + 2, q) { BlankConcat(s, p + 2, q, r); }
      else {
        var k :| p < k <= q && (forall j :: p <= j < k ==> s[j] != '\n') && (k == |s| || s[k] == '\n') && Blank(s, k, q);
        BlankConcat(s, k, q, r);
        BlankWithin(s, q, r);
      }
      BlankWithin(s, q, r);
    }
  }

  lemma BlankWithin(s: string, p: nat, q: nat)
    requires Blank(s, p, q) && p <= |s|
    ensures p <= q <= |s|
    decreases q - p
  {
  }

  lemma {:induction false} SkipIsBlank(s: string, p: nat)
    requires p <= |s|
    ensures Blank(s, p, SkipEnd(s, p))
    decreases |s| - p
  {
    if p < |s| {
      if IsBlank(s[p]) { SkipIsBlank(s, p + 1); }
      else if s[p] == '\\' && At(s, p + 1) == '\n' { SkipIsBlank(s, p + 2); }
      else if s[p] == '#' && IsCommentStart(s, p) {
        var k := LineEnd(s, p + 1);
        SkipIsBlank(s, k);
        assert forall j :: p <= j < k ==> s[j] != '\n';
      }
    }
  }

  /** A token read here: what it is, and what is written there. */
  ghost predicate Reads(s: string, x: Lexeme) {
    && x.start + x.length <= |s|
    && match x.token
       case EndOfInput => x.start == |s| && x.length == 0
       case Newline => x.length == 1 && s[x.start] == '\n'
       case Word(text) =>
         x.length > 0 && Kept(text, s[x.start..x.start + x.length]) && WordFrom(s, x.start, "") == Some((text, x.start + x.length))
       case IoNumber(digits) =>
         && x.length > 0 && Kept(digits, s[x.start..x.start + x.length]) && WordFrom(s, x.start, "") == Some((digits, x.start + x.length))
         && IsDescriptor(s, digits, x.start + x.length)
       case _ => x.length > 0 && s[x.start..x.start + x.length] == Spelling(x.token)
  }

  /**
   The next token stands after nothing but blanks, continued lines and comments, and is written there;
   there is none exactly when a word begins with them behind it and one of its pieces is never closed.
   */
  lemma NextReads(s: string, at: State)
    requires at.Valid(s)
    ensures var p := SkipEnd(s, at.position);
            && Blank(s, at.position, p)
            && var r := Next(s, at);
               if r.Some? then
                 var x, after := r.value.0, r.value.1;
                 && Reads(s, x) && x.start == p && (x.token == EndOfInput <==> x.length == 0)
                 && p + x.length <= after.position && (x.token != Newline ==> after.position == p + x.length)
               else exists q: nat, now: string :: Between(s, p, "", q, now) && q <= |s| && PieceAt(s, q, now) == Unclosed
  {
    hide Blank, SkipEnd, Between, PieceAt, DocumentBodies, Reads, HasOperator, OperatorToken, WordToken, WordFrom;
    var p := SkipEnd(s, at.position);
    SkipIsBlank(s, at.position);
    if p == |s| || s[p] == '\n' {
      PlainReads(s, p);
    } else if HasOperator(s, p) {
      OperatorReads(s, at.(position := p));
    } else {
      WordBegins(s, p, at.position);
      WordIsCut(s, p);
      WordReads(s, at.(position := p));
    }
  }

  lemma PlainReads(s: string, p: nat)
    requires p <= |s|
    ensures p == |s| ==> Reads(s, Lexeme(EndOfInput, p, 0))
    ensures p < |s| && s[p] == '\n' ==> Reads(s, Lexeme(Newline, p, 1))
  {}

  lemma OperatorReads(s: string, at: State)
    requires at.Valid(s) && HasOperator(s, at.position)
    ensures Reads(s, OperatorToken(s, at).0) && OperatorToken(s, at).0.start == at.position
  {
    hide OperatorAt, Spelling;
    OperatorIsWritten(s, at.position);
  }

  lemma WordReads(s: string, at: State)
    requires at.Valid(s)
    ensures WordToken(s, at).None? <==> WordFrom(s, at.position, "").None?
    ensures WordToken(s, at).Some? && at.position < WordFrom(s, at.position, "").value.1 ==>
            var x := WordToken(s, at).value.0;
            Reads(s, x) && x.start == at.position && x.length > 0
  {
    hide WordFrom, Kept;
    if WordFrom(s, at.position, "").Some? {
      WordKept(s, at.position, "");
      var (text, end) := WordFrom(s, at.position, "").value;
      assert text[|""|..] == text;
    }
  }

  /** In order, apart, with only blanks between them except after a line end, and the end of input last and once. */
  ghost predicate Sequence(s: string, xs: seq<Lexeme>, from0: nat) {
    && xs != [] && Reads(s, xs[0]) && from0 <= xs[0].start
    && (|xs| == 1 <==> xs[0].token == EndOfInput)
    && (|xs| > 1 ==> && Sequence(s, xs[1..], xs[0].start + xs[0].length)
                     && (xs[0].token != Newline ==> Blank(s, xs[0].start + xs[0].length, xs[1].start)))
  }

  /** A script that is not refused is cut into its tokens, all of them, in order. */
  lemma {:induction false} LexemesCover(s: string, at: State)
    requires at.Valid(s) && Lexemes(s, at).Some?
    ensures var xs := Lexemes(s, at).value.0;
            Sequence(s, xs, at.position) && Blank(s, at.position, xs[0].start)
    decreases |s| - at.position
  {
    hide Blank, Reads, Next;
    NextReads(s, at);
    var (x, after) := Next(s, at).value;
    var xs := Lexemes(s, at).value.0;
    if x.token != EndOfInput {
      LexemesCover(s, after);
      assert xs[1..] == Lexemes(s, after).value.0;
      LaterSequence(s, xs[1..], after.position, x.start + x.length);
    }
  }

  lemma LaterSequence(s: string, xs: seq<Lexeme>, from0: nat, earlier: nat)
    requires Sequence(s, xs, from0) && earlier <= from0
    ensures Sequence(s, xs, earlier)
  {
    hide Reads, Blank;
  }

  /** It is refused exactly when one of its words has a piece that is opened and never closed. */
  lemma {:induction false} RefusedExactly(s: string, at: State)
    requires at.Valid(s)
    ensures Lexemes(s, at).None? <==> exists p: nat, q: nat, now: string :: Opened(s, at, p, q, now)
    decreases |s| - at.position
  {
    hide Next, Between, PieceAt;
    NextReads(s, at);
    var next := Next(s, at);
    if next.None? {
      var p := SkipEnd(s, at.position);
      var q: nat, now: string :| Between(s, p, "", q, now) && q <= |s| && PieceAt(s, q, now) == Unclosed;
      assert Opened(s, at, p, q, now);
    } else if next.value.0.token != EndOfInput {
      RefusedExactly(s, next.value.1);
      if Lexemes(s, next.value.1).None? {
        var p: nat, q: nat, now: string :| Opened(s, next.value.1, p, q, now);
        assert Opened(s, at, p, q, now);
      } else {
        forall p: nat, q: nat, now: string ensures !Opened(s, at, p, q, now) {
          assert !Opened(s, next.value.1, p, q, now);
        }
      }
    }
  }

  /** A later word begins at `p`, and its piece at `q` never closes. */
  ghost predicate Opened(s: string, at: State, p: nat, q: nat, now: string)
    requires at.Valid(s)
    decreases |s| - at.position
  {
    var r := Next(s, at);
    if r.Some? then r.value.0.token != EndOfInput && Opened(s, r.value.1, p, q, now)
    else p == SkipEnd(s, at.position) && Between(s, p, "", q, now) && q <= |s| && PieceAt(s, q, now) == Unclosed
  }

  lemma {:induction false} NamedAt(docs: seq<Pending>, text: string, i: nat)
    requires i <= |docs| && forall k :: 0 <= k < i ==> docs[k].delimiter.Some?
    requires i < |docs| ==> docs[i].delimiter.None?
    ensures Named(docs, text) == if i == |docs| then docs else docs[i := docs[i].(delimiter := Some(text))]
    decreases i
  {
    if i > 0 { NamedAt(docs[1..], text, i - 1); }
  }

  // ---- the bodies of here-documents ----

  function Lines(lines: seq<string>): string {
    if lines == [] then "" else lines[0] + "\n" + Lines(lines[1..])
  }

  function AllCompared(lines: seq<string>, stripTabs: bool): seq<string> {
    seq(|lines|, k requires 0 <= k < |lines| => Compared(lines[k], stripTabs))
  }

  lemma {:induction false} LineEndsAt(s: string, p: nat, line: string, tail: string)
    requires p <= |s| && s[p..] == line + tail && '\n' !in line && (tail == "" || tail[0] == '\n')
    ensures LineEnd(s, p) == p + |line|
    decreases |line|
  {
    if line == "" {
      if tail != "" { assert s[p..][0] == s[p]; }
    } else {
      assert s[p..][0] == s[p] == line[0] && '\n' != line[0];
      assert s[p + 1..] == s[p..][1..] == line[1..] + tail;
      LineEndsAt(s, p + 1, line[1..], tail);
    }
  }

  lemma LineReads(s: string, p: nat, line: string, tail: string)
    requires p <= |s| && s[p..] == line + tail && '\n' !in line && (tail == "" || tail[0] == '\n') && line + tail != ""
    ensures p < |s| && s[p..LineEnd(s, p)] == line && NextLine(s, p) == p + |line| + if tail == "" then 0 else 1
  {
    LineEndsAt(s, p, line, tail);
    assert s[p..][..|line|] == line;
    assert |s| - p == |line| + |tail|;
  }

  /** A body is its lines, without their leading tabs if those are stripped, up to the line that is the delimiter. */
  lemma {:induction false} BodyReads(s: string, p: nat, lines: seq<string>, last: string, tail: string, stripTabs: bool)
    requires p <= |s| && s[p..] == Lines(lines) + (last + tail)
    requires forall k :: 0 <= k < |lines| ==> '\n' !in lines[k] && Compared(lines[k], stripTabs) != Compared(last, stripTabs)
    requires '\n' !in last && (tail == "" || tail[0] == '\n')
    ensures DocumentBody(s, p, Compared(last, stripTabs), stripTabs)
         == (Lines(AllCompared(lines, stripTabs)), p + |Lines(lines)| + |last| + if tail == "" then 0 else 1)
    decreases |lines|
  {
    hide Compared, Lines, LineEnd;
    var delimiter := Compared(last, stripTabs);
    NoLines();
    if lines == [] {
      assert "" + (last + tail) == last + tail;
      if last + tail == "" {
        NothingCompared(stripTabs);
      } else {
        LineReads(s, p, last, tail);
      }
    } else {
      var more := Lines(lines[1..]) + (last + tail);
      LinesStep(lines);
      LinesStep(AllCompared(lines, stripTabs));
      Regroup(lines[0], "\n", Lines(lines[1..]), last + tail);
      LineReads(s, p, lines[0], "\n" + more);
      var next := NextLine(s, p);
      AfterLine(s, p, lines[0], more);
      BodyReads(s, next, lines[1..], last, tail, stripTabs);
      assert AllCompared(lines, stripTabs)[1..] == AllCompared(lines[1..], stripTabs);
    }
  }

  lemma LinesStep(lines: seq<string>)
    requires lines != []
    ensures Lines(lines) == lines[0] + "\n" + Lines(lines[1..])
  {}

  lemma Regroup(a: string, b: string, c: string, d: string)
    ensures a + b + c + d == a + (b + (c + d))
  {}

  lemma AfterLine(s: string, p: nat, line: string, more: string)
    requires p <= |s| && s[p..] == line + ("\n" + more)
    ensures p + |line| + 1 <= |s| && s[p + |line| + 1..] == more
  {
    assert s[p + |line| + 1..] == s[p..][|line| + 1..];
  }

  lemma NoLines()
    ensures Lines([]) == ""
  {}

  lemma NothingCompared(stripTabs: bool)
    ensures Compared("", stripTabs) == ""
  {}

  // ---- the lexer as it runs ----

  class Lexer {
    const input: string
    var position: nat
    var pending: seq<Pending>
    var bodies: seq<string>

    constructor (input: string)
      ensures Valid() && this.input == input && Now() == START
    {
      this.input, position, pending, bodies := input, 0, [], [];
    }

    ghost function Now(): State
      reads this
    {
      State(position, pending, bodies)
    }

    ghost predicate Valid()
      reads this
    {
      Now().Valid(input)
    }

    /** All of the script up to the position was added to the word. */
    ghost predicate Took(before: string, builder: string, from0: nat)
      reads this
    {
      from0 <= position <= |input| && builder == before + input[from0..position]
    }

    /** What is closed was taken up to its end, which is where it should be; what never closes is refused. */
    ghost predicate Reached(closed: bool, before: string, builder: string, from0: nat, end: Option<nat>)
      reads this
    {
      closed == end.Some? && from0 <= position && (closed ==> position == end.value && Took(before, builder, from0))
    }

    /** One character more. */
    method Take(before: string, ghost text: string, ghost from0: nat) returns (builder: string)
      requires Valid() && position < |input| && Took(text, before, from0)
      modifies `position
      ensures Valid() && position == old(position) + 1 && Took(text, builder, from0)
    {
      builder := before + [input[position]];
      assert input[from0..position + 1] == input[from0..position] + [input[position]];
      position := position + 1;
    }

    method TakeEscaped(before: string, ghost text: string, ghost from0: nat) returns (builder: string)
      requires Valid() && position < |input| && Took(text, before, from0)
      modifies `position
      ensures Valid() && position == EscapeEnd(input, old(position)) && Took(text, builder, from0)
    {
      builder := Take(before, text, from0);
      if position < |input| {
        builder := Take(builder, text, from0);
      }
    }

    lemma TookMore(text: string, before: string, builder: string, from0: nat, p: nat)
      requires from0 <= p <= |input| && before == text + input[from0..p]
      requires Took(before, builder, p)
      ensures Took(text, builder, from0)
    {
      assert input[from0..position] == input[from0..p] + input[p..position];
    }

    /** From a quote to the next one; `escapes` lets a backslash hide one. */
    method ConsumeQuoted(quote: char, escapes: bool, before: string) returns (closed: bool, builder: string)
      requires Valid() && position < |input|
      modifies `position
      ensures Valid() && Reached(closed, before, builder, old(position), QuotedEnd(input, old(position) + 1, quote, escapes))
    {
      ghost var start := position;
      builder := Take(before, before, start);
      while position < |input| && input[position] != quote
        invariant Valid() && start < position && Took(before, builder, start)
        invariant QuotedEnd(input, start + 1, quote, escapes) == QuotedEnd(input, position, quote, escapes)
        decreases |input| - position
      {
        if escapes && input[position] == '\\' && position + 1 < |input| {
          builder := Take(builder, before, start);
        }
        builder := Take(builder, before, start);
      }
      if position >= |input| { return false, builder; }
      builder := Take(builder, before, start);
      closed := true;
    }

    method ConsumeDoubleQuoted(before: string) returns (closed: bool, builder: string)
      requires Valid() && position < |input|
      modifies `position
      ensures Valid() && Reached(closed, before, builder, old(position), DoubleEnd(input, old(position) + 1))
      decreases |input| - position, 1
    {
      hide QuotedEnd, DollarEnd;
      ghost var start := position;
      builder := Take(before, before, start);
      while position < |input| && input[position] != '"'
        invariant Valid() && start < position && Took(before, builder, start)
        invariant DoubleEnd(input, start + 1) == DoubleEnd(input, position)
        decreases |input| - position
      {
        ghost var p, text := position, builder;
        var c := input[position];
        if c == '\\' {
          builder := TakeEscaped(builder, before, start);
        } else if c == '$' {
          closed, builder := ConsumeDollar(builder, true);
          if !closed { return; }
          TookMore(before, text, builder, start, p);
        } else if c == '`' {
          closed, builder := ConsumeQuoted('`', true, builder);
          if !closed { return; }
          TookMore(before, text, builder, start, p);
        } else {
          builder := Take(builder, before, start);
        }
      }
      if position >= |input| { return false, builder; }
      builder := Take(builder, before, start);
      closed := true;
    }

    method ConsumeDollar(before: string, insideDoubleQuotes: bool) returns (closed: bool, builder: string)
      requires Valid() && position < |input|
      modifies `position
      ensures Valid() && Reached(closed, before, builder, old(position), DollarEnd(input, old(position) + 1, insideDoubleQuotes))
      ensures closed ==> old(position) < position
      decreases |input| - position, 0
    {
      hide QuotedEnd, DoubleEnd, ArithmeticEnd, BraceEnd, BalancedEnd;
      ghost var start := position;
      builder := Take(before, before, start);
      closed := true;
      if position >= |input| { return; }
      ghost var p, text := position, builder;
      var c := input[position];
      if c == '$' {
        builder := Take(builder, before, start);
      } else if c == '\'' {
        closed, builder := ConsumeQuoted('\'', true, builder);
        if closed { TookMore(before, text, builder, start, p); }
      } else if c == '"' && !insideDoubleQuotes {
        closed, builder := ConsumeDoubleQuoted(builder);
        if closed { TookMore(before, text, builder, start, p); }
      } else if c == '(' || c == '{' {
        closed, builder := ConsumeOpening(builder);
        if closed { TookMore(before, text, builder, start, p); }
      }
    }

    /** After a `$`: arithmetic, a command or a parameter in braces. */
    method ConsumeOpening(before: string) returns (closed: bool, builder: string)
      requires Valid() && position < |input| && (input[position] == '(' || input[position] == '{')
      modifies `position
      ensures Valid() && Reached(closed, before, builder, old(position), DollarEnd(input, old(position), false))
      decreases |input| - position, 2
    {
      hide QuotedEnd, DoubleEnd, ArithmeticEnd, BraceEnd, BalancedEnd;
      ghost var start := position;
      var c := input[position];
      builder := Take(before, before, start);
      if c == '(' && position < |input| && input[position] == '(' {
        builder := Take(builder, before, start);
        ghost var p, text := position, builder;
        closed, builder := ConsumeArithmetic(builder);
        if closed { TookMore(before, text, builder, start, p); }
        return;
      }
      ghost var p, text := position, builder;
      if c == '(' {
        closed, builder := ConsumeBalanced(builder, '(', ')');
      } else {
        closed, builder := ConsumeBraceExpansion(builder);
      }
      if closed { TookMore(before, text, builder, start, p); }
    }

    /** To the `))` that closes the expansion, or to a single one. */
    method ConsumeArithmetic(before: string) returns (closed: bool, builder: string)
      requires Valid()
      modifies `position
      ensures Valid() && Reached(closed, before, builder, old(position), ArithmeticEnd(input, old(position), 1))
    {
      ghost var start := position;
      builder := before;
      var depth := 1;
      assert input[start..start] == "" && before + "" == before;
      while position < |input|
        invariant Valid() && start <= position && depth > 0 && Took(before, builder, start)
        invariant ArithmeticEnd(input, start, 1) == ArithmeticEnd(input, position, depth)
        decreases |input| - position
      {
        var c := input[position];
        if c == '(' {
          depth := depth + 1;
        } else if c == ')' {
          depth := depth - 1;
          if depth == 0 {
            builder := Take(builder, before, start);
            if position < |input| && input[position] == ')' {
              builder := Take(builder, before, start);
            }
            return true, builder;
          }
        }
        builder := Take(builder, before, start);
      }
      closed := false;
    }

    method ConsumeBraceExpansion(before: string) returns (closed: bool, builder: string)
      requires Valid()
      modifies `position
      ensures Valid() && Reached(closed, before, builder, old(position), BraceEnd(input, old(position), 1))
      decreases |input| - position, 2
    {
      hide QuotedEnd, DoubleEnd;
      ghost var start := position;
      builder := before;
      var depth := 1;
      assert input[start..start] == "" && before + "" == before;
      while position < |input|
        invariant Valid() && start <= position && depth > 0 && Took(before, builder, start)
        invariant BraceEnd(input, start, 1) == BraceEnd(input, position, depth)
        decreases |input| - position
      {
        ghost var p, text := position, builder;
        var c := input[position];
        if c == '\'' {
          closed, builder := ConsumeQuoted('\'', false, builder);
          if !closed { return; }
          TookMore(before, text, builder, start, p);
        } else if c == '"' {
          closed, builder := ConsumeDoubleQuoted(builder);
          if !closed { return; }
          TookMore(before, text, builder, start, p);
        } else if c == '\\' {
          builder := TakeEscaped(builder, before, start);
        } else {
          builder := Take(builder, before, start);
          if c == '}' && depth == 1 { return true, builder; }
          depth := if c == '{' then depth + 1 else if c == '}' then depth - 1 else depth;
        }
      }
      closed := false;
    }

    /** To the matching close, over quotes, escapes and comments. */
    method ConsumeBalanced(before: string, open: char, close: char) returns (closed: bool, builder: string)
      requires Valid()
      modifies `position
      ensures Valid() && Reached(closed, before, builder, old(position), BalancedEnd(input, old(position), open, close, 1))
      decreases |input| - position, 2
    {
      hide QuotedEnd, DoubleEnd, LineEnd;
      ghost var start := position;
      builder := before;
      var depth := 1;
      assert input[start..start] == "" && before + "" == before;
      while position < |input|
        invariant Valid() && start <= position && depth > 0 && Took(before, builder, start)
        invariant BalancedEnd(input, start, open, close, 1) == BalancedEnd(input, position, open, close, depth)
        decreases |input| - position
      {
        ghost var p, text := position, builder;
        var c := input[position];
        if c == '\'' {
          closed, builder := ConsumeQuoted('\'', false, builder);
          if !closed { return; }
          TookMore(before, text, builder, start, p);
        } else if c == '"' {
          closed, builder := ConsumeDoubleQuoted(builder);
          if !closed { return; }
          TookMore(before, text, builder, start, p);
        } else if c == '\\' {
          builder := TakeEscaped(builder, before, start);
        } else if c == '#' {
          builder := ConsumeComment(builder);
          TookMore(before, text, builder, start, p);
        } else {
          builder := Take(builder, before, start);
          if c != open && c == close && depth == 1 { return true, builder; }
          depth := if c == open then depth + 1 else if c == close then depth - 1 else depth;
        }
      }
      closed := false;
    }

    method ConsumeComment(before: string) returns (builder: string)
      requires Valid() && position < |input| && input[position] == '#'
      modifies `position
      ensures Valid() && Took(before, builder, old(position)) && position == LineEnd(input, old(position) + 1)
    {
      ghost var start := position;
      builder := Take(before, before, start);
      while position < |input| && input[position] != '\n'
        invariant Valid() && start < position && Took(before, builder, start)
        invariant LineEnd(input, start + 1) == LineEnd(input, position)
        decreases |input| - position
      {
        builder := Take(builder, before, start);
      }
    }

    // ---- tokens ----

    method SkipBlanksAndComments()
      requires Valid()
      modifies `position
      ensures Valid() && position == SkipEnd(input, old(position))
    {
      hide IsCommentStart;
      while position < |input|
        invariant Valid() && SkipEnd(input, old(position)) == SkipEnd(input, position)
        decreases |input| - position
      {
        var c := input[position];
        if IsBlank(c) {
          position := position + 1;
        } else if c == '\\' && At(input, position + 1) == '\n' {
          position := position + 2;
        } else if c == '#' && IsCommentStart(input, position) {
          SkipLine();
        } else {
          return;
        }
      }
    }

    /** To the end of the line, from somewhere before it. */
    method SkipLine()
      requires Valid() && position < |input| && input[position] != '\n'
      modifies `position
      ensures Valid() && position == LineEnd(input, old(position) + 1)
    {
      ghost var start := position;
      position := position + 1;
      while position < |input| && input[position] != '\n'
        invariant Valid() && start < position && LineEnd(input, start + 1) == LineEnd(input, position)
        decreases |input| - position
      {
        position := position + 1;
      }
    }

    method TryLexOperator() returns (x: Option<Lexeme>)
      requires Valid() && position < |input|
      modifies `position, `pending, `bodies
      ensures Valid()
      ensures x.Some? <==> HasOperator(input, old(position))
      ensures if x.Some? then (x.value, Now()) == OperatorToken(input, old(Now())) else Now() == old(Now())
    {
      hide OperatorAt;
      var op := OperatorAt(At(input, position), At(input, position + 1), At(input, position + 2));
      if op.None? { return None; }
      OperatorIsWritten(input, position);
      var (token, length) := op.value;
      x := Some(Lexeme(token, position, length));
      position := position + length;
      if StartsDocument(token) {
        pending := pending + [Pending(|bodies|, token == Redirector(DoubleLessDash), None)];
        bodies := bodies + [""];
      }
    }

    /** One piece of a word: `ended` where the word does. */
    method LexPiece(before: string) returns (closed: bool, ended: bool, builder: string)
      requires Valid()
      modifies `position
      ensures Valid() && old(position) <= position
      ensures match PieceAt(input, old(position), before)
              case Ended => closed && ended && builder == before && position == old(position)
              case Unclosed => !closed
              case Vanishes(e) => closed && !ended && builder == before && position == e
              case Takes(e) => closed && !ended && position == e && Took(before, builder, old(position))
    {
      hide QuotedEnd, DoubleEnd, DollarEnd, BalancedEnd, EndsWithAssignmentPrefix, EndsWord;
      SignsThatEnd();
      ghost var start := position;
      assert input[start..start] == "" && before + "" == before;
      closed, ended, builder := true, false, before;
      if position >= |input| { return true, true, before; }
      var c := input[position];
      if EndsWord(c) {
        if IsSubstitution(input, position) || (c == '(' && TakesGroup(before)) {
          closed, builder := LexGroup(before, IsSubstitution(input, position));
        } else {
          ended := true;
        }
      } else if c == '\\' && At(input, position + 1) == '\n' {
        position := position + 2;
      } else if c == '\\' {
        builder := TakeEscaped(before, before, start);
      } else if c == '\'' {
        closed, builder := ConsumeQuoted('\'', false, before);
      } else if c == '"' {
        closed, builder := ConsumeDoubleQuoted(before);
      } else if c == '`' {
        closed, builder := ConsumeQuoted('`', true, before);
      } else if c == '$' {
        closed, builder := ConsumeDollar(before, false);
      } else {
        builder := Take(before, before, start);
      }
    }

    /** A parenthesis inside a word, perhaps after `<` or `>`, and all up to its close. */
    method LexGroup(before: string, substitution: bool) returns (closed: bool, builder: string)
      requires Valid() && position < |input| && (substitution ==> position + 1 < |input|)
      modifies `position
      ensures Valid()
      ensures Reached(closed, before, builder, old(position), BalancedEnd(input, old(position) + if substitution then 2 else 1, '(', ')', 1))
    {
      hide BalancedEnd;
      ghost var start := position;
      builder := Take(before, before, start);
      if substitution {
        builder := Take(builder, before, start);
      }
      ghost var p, text := position, builder;
      closed, builder := ConsumeBalanced(builder, '(', ')');
      if closed { TookMore(before, text, builder, start, p); }
    }

    method LexWord() returns (x: Option<Lexeme>)
      requires Valid() && position < |input|
      modifies `position, `pending
      ensures Valid() && old(position) <= position
      ensures var r := WordToken(input, old(Now()));
              if r.None? then x == None else x == Some(r.value.0) && Now() == r.value.1
    {
      hide PieceAt;
      var start := position;
      var builder := "";
      ghost var word := WordFrom(input, start, "");
      var ended := false;
      while !ended
        invariant Valid() && start <= position && pending == old(pending)
        invariant if ended then word == Some((builder, position)) else word == WordFrom(input, position, builder)
        decreases !ended, |input| - position
      {
        var closed;
        closed, ended, builder := LexPiece(builder);
        if !closed { return None; }
      }
      if builder != "" && (forall k :: 0 <= k < |builder| ==> IsDigit(builder[k])) && (At(input, position) == '<' || At(input, position) == '>') {
        return Some(Lexeme(IoNumber(builder), start, position - start));
      }
      NameDelimiter(builder);
      x := Some(Lexeme(Word(builder), start, position - start));
    }

    /** The first here-document still without a delimiter gets this one. */
    method NameDelimiter(text: string)
      requires Valid()
      modifies `pending
      ensures Valid() && pending == Named(old(pending), text)
    {
      var i := 0;
      while i < |pending|
        invariant 0 <= i <= |pending| && pending == old(pending)
        invariant forall k :: 0 <= k < i ==> pending[k].delimiter.Some?
      {
        if pending[i].delimiter.None? {
          NamedAt(pending, text, i);
          pending := pending[i := pending[i].(delimiter := Some(text))];
          return;
        }
        i := i + 1;
      }
      NamedAt(pending, text, i);
    }

    method CollectPendingHereDocuments()
      requires Valid()
      modifies `position, `pending, `bodies
      ensures Valid() && pending == [] && (bodies, position) == DocumentBodies(input, old(position), old(pending), old(bodies))
    {
      hide DocumentBody;
      var i := 0;
      assert pending[0..] == pending;
      while i < |pending|
        invariant 0 <= i <= |pending| && Valid() && pending == old(pending)
        invariant DocumentBodies(input, position, pending[i..], bodies) == DocumentBodies(input, old(position), pending, old(bodies))
        decreases |pending| - i
      {
        assert pending[i..][0] == pending[i] && pending[i..][1..] == pending[i + 1..];
        var body := CollectBody(pending[i]);
        bodies := bodies[pending[i].index := body];
        i := i + 1;
      }
      pending := [];
    }

    /** The lines up to the delimiter's own. */
    method CollectBody(doc: Pending) returns (body: string)
      requires Valid()
      modifies `position
      ensures Valid() && (body, position) == DocumentBody(input, old(position), Delimiter(doc), doc.stripTabs)
    {
      hide Compared, Delimiter, LineEnd;
      var delimiter := Delimiter(doc);
      ghost var whole := DocumentBody(input, position, delimiter, doc.stripTabs);
      body := "";
      assert "" + whole.0 == whole.0;
      while position < |input|
        invariant Valid()
        invariant var rest := DocumentBody(input, position, delimiter, doc.stripTabs); body + rest.0 == whole.0 && rest.1 == whole.1
        decreases |input| - position
      {
        ghost var rest := DocumentBody(input, NextLine(input, position), delimiter, doc.stripTabs).0;
        var line := ReadLine();
        var compared := Compared(line, doc.stripTabs);
        if compared == delimiter {
          assert body + "" == body;
          return;
        }
        Regroup(body, compared, "\n", rest);
        assert compared + "\n" + rest == compared + ("\n" + rest);
        body := body + compared + "\n";
      }
      assert body + "" == body;
    }

    method ReadLine() returns (line: string)
      requires Valid() && position < |input|
      modifies `position
      ensures Valid() && position == NextLine(input, old(position)) && line == input[old(position)..LineEnd(input, old(position))]
    {
      var start := position;
      while position < |input| && input[position] != '\n'
        invariant Valid() && start <= position && LineEnd(input, start) == LineEnd(input, position)
        decreases |input| - position
      {
        position := position + 1;
      }
      line := input[start..position];
      if position < |input| { position := position + 1; }
    }

    method NextToken() returns (x: Option<Lexeme>)
      requires Valid()
      modifies `position, `pending, `bodies
      ensures Valid() && old(position) <= position
      ensures var r := Next(input, old(Now()));
              if r.None? then x == None else x == Some(r.value.0) && Now() == r.value.1
    {
      hide SkipEnd, HasOperator, OperatorToken, WordToken, DocumentBodies;
      SkipBlanksAndComments();
      var start := position;
      if position >= |input| { return Some(Lexeme(EndOfInput, position, 0)); }
      if input[position] == '\n' {
        position := position + 1;
        CollectPendingHereDocuments();
        return Some(Lexeme(Newline, start, 1));
      }
      x := TryLexOperator();
      if x.Some? { return; }
      x := LexWord();
    }

    method Tokenize() returns (r: Option<seq<Lexeme>>)
      requires Valid() && Now() == START
      modifies `position, `pending, `bodies
      ensures Valid()
      ensures var all := Lexemes(input, START);
              if all.None? then r == None else r == Some(all.value.0) && bodies == all.value.1
    {
      hide Next;
      var xs := [];
      ghost var all := Lexemes(input, START);
      assert all.Some? ==> [] + all.value.0 == all.value.0;
      while true
        invariant Valid()
        invariant var rest := Lexemes(input, Now());
                  if all.None? then rest.None? else rest.Some? && all.value == (xs + rest.value.0, rest.value.1)
        decreases |input| - position
      {
        ghost var rest := Lexemes(input, Now());
        var x := NextToken();
        if x.None? { return None; }
        if rest.Some? && x.value.token != EndOfInput { assert xs + rest.value.0 == xs + [x.value] + rest.value.0[1..]; }
        xs := xs + [x.value];
        if x.value.token == EndOfInput { return Some(xs); }
      }
    }
  }

  /** What the parser is given. */
  function TokensOf(xs: seq<Lexeme>): Tokens {
    seq(|xs|, k requires 0 <= k < |xs| => xs[k].token)
  }

  /** The tokens of a script without the end mark, which stands last and once. */
  function Tokenized(script: string): (r: Option<Tokens>)
    ensures r.Some? ==> EndOfInput !in r.value
  {
    var all := Lexemes(script, START);
    if all.None? then None else
    OneEndMark(script, START);
    var xs := all.value.0;
    Some(TokensOf(xs[..|xs| - 1]))
  }

  lemma {:induction false} OneEndMark(s: string, at: State)
    requires at.Valid(s) && Lexemes(s, at).Some?
    ensures var xs := Lexemes(s, at).value.0;
            xs[|xs| - 1].token == EndOfInput && forall k :: 0 <= k < |xs| - 1 ==> xs[k].token != EndOfInput
    decreases |s| - at.position
  {
    hide Next;
    var next := Next(s, at).value;
    if next.0.token != EndOfInput { OneEndMark(s, next.1); }
  }
}
