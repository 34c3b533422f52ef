/**
 The language of a shell pattern: what the pattern text parses to, and which strings belong
 to it. Nothing here backtracks; the matcher is compared with this.

 The parse keeps the matcher's reading of odd patterns: a run of `*` swallows the `*` of a
 following `*(`, and a bracket that does not match a character is retried as a literal `[`.
 */
module ShellPattern {
  import opened Wrappers
  import opened Texts

  /** The Unicode tables the matcher consults, and the two shell options that affect it. */
  datatype Options = Options(caseInsensitive: bool, extGlob: bool, lower: char -> char, upper: char -> char, isClass: (string, char) -> bool)

  datatype Item = Single(c: char) | Range(low: char, high: char) | Class(name: string)

  datatype Pat =
    | End
    | Literal(c: char, next: Pat)
    | AnyChar(next: Pat)
    | Star(next: Pat)
    | Bracket(negated: bool, items: seq<Item>, next: Pat, asLiteral: Pat)
    | Group(op: char, alternatives: seq<Pat>, next: Pat)
    | Never

  // ---- membership ----

  predicate CharsEqual(o: Options, a: char, b: char) {
    if o.caseInsensitive then o.lower(a) == o.lower(b) else a == b
  }

  predicate InRange(o: Options, c: char, low: char, high: char) {
    || low <= c <= high
    || (o.caseInsensitive && (low <= o.lower(c) <= high || low <= o.upper(c) <= high))
  }

  predicate ItemMatches(o: Options, item: Item, c: char) {
    match item
    case Single(x) => CharsEqual(o, c, x)
    case Range(low, high) => InRange(o, c, low, high)
    case Class(name) => o.isClass(name, c)
  }

  predicate AnyItem(o: Options, items: seq<Item>, c: char) {
    exists i :: 0 <= i < |items| && ItemMatches(o, items[i], c)
  }

  /** `s` belongs to the language of `p`. */
  ghost predicate In(o: Options, p: Pat, s: string)
    decreases p
  {
    match p
    case End => s == ""
    case Literal(c, next) => s != "" && CharsEqual(o, s[0], c) && In(o, next, s[1..])
    case AnyChar(next) => s != "" && In(o, next, s[1..])
    case Star(next) => exists k :: 0 <= k <= |s| && In(o, next, s[k..])
    case Bracket(negated, items, next, asLiteral) =>
      && s != ""
      && if AnyItem(o, items, s[0]) != negated then In(o, next, s[1..])
         else CharsEqual(o, s[0], '[') && In(o, asLiteral, s[1..])
    case Group(op, alternatives, next) =>
      || ((op == '?' || op == '*') && In(o, next, s))
      || ((op == '?' || op == '@') && exists k :: 0 <= k <= |s| && InSome(o, alternatives, s[..k]) && In(o, next, s[k..]))
      || ((op == '*' || op == '+') && exists k :: 0 < k <= |s| && Repeated(o, alternatives, s[..k]) && In(o, next, s[k..]))
      || (op == '!' && exists k :: 0 <= k <= |s| && !InSome(o, alternatives, s[..k]) && In(o, next, s[k..]))
    case Never => false
  }

  ghost predicate InSome(o: Options, alternatives: seq<Pat>, s: string)
    decreases alternatives, 0
  {
    exists i :: 0 <= i < |alternatives| && In(o, alternatives[i], s)
  }

  /** `s` is one or more non-empty pieces, each in some alternative. */
  ghost predicate Repeated(o: Options, alternatives: seq<Pat>, s: string)
    decreases alternatives, 2
  {
    exists parts: seq<string> :: parts != [] && Concat(parts) == s && Pieces(o, alternatives, parts)
  }

  ghost predicate Pieces(o: Options, alternatives: seq<Pat>, parts: seq<string>)
    decreases alternatives, 1
  {
    forall i :: 0 <= i < |parts| ==> parts[i] != "" && InSome(o, alternatives, parts[i])
  }

  // ---- parsing ----

  predicate IsGroupStart(p: string, extGlob: bool) {
    extGlob && |p| > 1 && p[0] in "?*+@!" && p[1] == '('
  }

  /** The offset in `s` of the `)` that closes `depth` open parentheses, or -1. */
  function GroupEnd(s: string, depth: int): (r: int)
    ensures -1 <= r < |s|
  {
    if s == "" then -1 else
    if s[0] == '\\' then (if |s| == 1 then -1 else Shift(GroupEnd(s[2..], depth), 2)) else
    if s[0] == '(' then Shift(GroupEnd(s[1..], depth + 1), 1) else
    if s[0] == ')' then (if depth == 1 then 0 else Shift(GroupEnd(s[1..], depth - 1), 1)) else
    Shift(GroupEnd(s[1..], depth), 1)
  }

  /** The pieces of a group's body between the `|` outside nested parentheses; `piece` is the one begun. */
  function Split(piece: string, s: string, depth: int): (r: seq<string>)
    ensures |r| > 0
    ensures forall i :: 0 <= i < |r| ==> |r[i]| <= |piece| + |s|
    decreases |s|
  {
    if s == "" then [piece] else
    if s[0] == '\\' then (if |s| == 1 then [piece + s] else Split(piece + s[..2], s[2..], depth)) else
    if s[0] == '(' then Split(piece + s[..1], s[1..], depth + 1) else
    if s[0] == ')' then Split(piece + s[..1], s[1..], depth - 1) else
    if s[0] == '|' && depth == 0 then [piece] + Split("", s[1..], depth) else
    Split(piece + s[..1], s[1..], depth)
  }

  /** The offset of the first ":]" in `s`, or -1. */
  function ClassEnd(s: string): (r: int)
    ensures -1 <= r && (r >= 0 ==> r + 2 <= |s|)
  {
    if |s| < 2 then -1 else if s[0] == ':' && s[1] == ']' then 0 else Shift(ClassEnd(s[1..]), 1)
  }

  /** One member of a bracket: the item, and how many characters it takes. */
  function BracketItem(s: string): (r: (Item, nat))
    requires s != ""
    ensures 0 < r.1 <= |s|
  {
    var close := if |s| > 1 && s[0] == '[' && s[1] == ':' then ClassEnd(s[2..]) else -1;
    if close >= 0 then (Class(s[2..2 + close]), close + 4) else
    var skip := if s[0] == '\\' && |s| > 1 then 1 else 0;
    if skip + 2 < |s| && s[skip + 1] == '-' && s[skip + 2] != ']' then (Range(s[skip], s[skip + 2]), skip + 3)
    else (Single(s[skip]), skip + 1)
  }

  /** The members up to the closing `]`, and what follows it; `first` lets a `]` be a member. */
  function BracketBody(s: string, first: bool): (r: Option<(seq<Item>, string)>)
    ensures r.Some? ==> |r.value.1| < |s| && r.value.1 == s[|s| - |r.value.1|..]
    decreases |s|
  {
    if s == "" then None else
    if s[0] == ']' && !first then Some(([], s[1..])) else
    var (item, n) := BracketItem(s);
    match BracketBody(s[n..], false)
    case None => None
    case Some((items, rest)) => Some(([item] + items, rest))
  }

  predicate IsNegation(p: string) {
    |p| > 1 && (p[1] == '!' || p[1] == '^')
  }

  function SkipStars(p: string): (r: string)
    ensures |r| <= |p|
    ensures r == p[|p| - |r|..]
    ensures p != "" && p[0] == '*' ==> |r| < |p|
  {
    if p != "" && p[0] == '*' then SkipStars(p[1..]) else p
  }

  function Parse(p: string, extGlob: bool): Pat
    decreases |p|, 0
  {
    if p == "" then End else
    if IsGroupStart(p, extGlob) then
      var close := GroupEnd(p[1..], 0);
      if close < 0 then Never else
      Group(p[0], ParseAll(Split("", p[2..1 + close], 0), extGlob, |p| - 1), Parse(p[close + 2..], extGlob))
    else if p[0] == '\\' && |p| > 1 then Literal(p[1], Parse(p[2..], extGlob))
    else if p[0] == '?' then AnyChar(Parse(p[1..], extGlob))
    else if p[0] == '*' then Star(Parse(SkipStars(p), extGlob))
    else if p[0] == '[' then
      var start := if IsNegation(p) then 2 else 1;
      match BracketBody(p[start..], true)
      case None => Literal('[', Parse(p[1..], extGlob))
      case Some((items, rest)) => Bracket(IsNegation(p), items, Parse(rest, extGlob), Parse(p[1..], extGlob))
    else Literal(p[0], Parse(p[1..], extGlob))
  }

  function ParseAll(ps: seq<string>, extGlob: bool, bound: nat): (r: seq<Pat>)
    requires forall i :: 0 <= i < |ps| ==> |ps[i]| <= bound
    ensures |r| == |ps|
    ensures forall i :: 0 <= i < |ps| ==> r[i] == Parse(ps[i], extGlob)
    decreases bound, 1, |ps|
  {
    if ps == [] then [] else [Parse(ps[0], extGlob)] + ParseAll(ps[1..], extGlob, bound)
  }

  /** `text` matches the pattern as a whole. */
  ghost predicate Matches(o: Options, text: string, pattern: string) {
    In(o, Parse(pattern, o.extGlob), text)
  }

  // ---- two odd readings ----

  function Stars(n: nat): string {
    if n == 0 then "" else "*" + Stars(n - 1)
  }

  lemma {:induction false} StarsSkipped(n: nat, rest: string)
    requires rest == "" || rest[0] != '*'
    ensures SkipStars(Stars(n) + rest) == rest
    decreases n
  {
    hide SkipStars;
    if n == 0 {
      assert Stars(0) + rest == rest;
      NoStar(rest);
    } else {
      var more := Stars(n - 1) + rest;
      assert Stars(n) + rest == "*" + more;
      OneStar(more);
      StarsSkipped(n - 1, rest);
    }
  }

  lemma NoStar(s: string)
    requires s == "" || s[0] != '*'
    ensures SkipStars(s) == s
  {}

  lemma OneStar(s: string)
    ensures SkipStars("*" + s) == SkipStars(s)
  {
    assert ("*" + s)[1..] == s;
  }

  /** Stars before a parenthesis begin a group if and only if there is one of them; more of them stand before plain text. */
  lemma OneStarBeginsAGroup(n: nat, rest: string)
    requires n >= 1
    ensures var p := Stars(n) + "(" + rest;
            && (IsGroupStart(p, true) <==> n == 1)
            && (n > 1 ==> Parse(p, true) == Star(Parse("(" + rest, true)))
  {
    hide Split, GroupEnd, BracketBody, ParseAll;
    var p := Stars(n) + "(" + rest;
    assert p == Stars(n) + ("(" + rest);
    StarsSkipped(n, "(" + rest);
    if n == 1 { assert Stars(0) == ""; } else { assert Stars(n - 1)[0] == '*' && p[1] == Stars(n - 1)[0]; }
  }

  /** A bracket as it is meant: a closed one is never text. */
  ghost predicate InBracket(o: Options, negated: bool, items: seq<Item>, next: Pat, s: string) {
    s != "" && AnyItem(o, items, s[0]) != negated && In(o, next, s[1..])
  }

  /** The second try as text shows exactly when the bracket fails on a `[` and what follows it is written in the text. */
  lemma BracketRetryShows(o: Options, negated: bool, items: seq<Item>, next: Pat, asLiteral: Pat, s: string)
    ensures (In(o, Bracket(negated, items, next, asLiteral), s) <==> InBracket(o, negated, items, next, s))
            <==> !(s != "" && AnyItem(o, items, s[0]) == negated && CharsEqual(o, s[0], '[') && In(o, asLiteral, s[1..]))
  {}

  /** So a bracket around one letter matches itself. */
  lemma BracketMatchesItself(o: Options, c: char)
    requires 'a' <= c <= 'z' && !CharsEqual(o, '[', c)
    ensures Matches(o, ['[', c, ']'], ['[', c, ']']) && Parse(['[', c, ']'], o.extGlob).Bracket?
  {
    var p := ['[', c, ']'];
    var s := p[1..];
    assert s == [c, ']'] && s[1..] == [']'] && s[1..][1..] == "";
    assert BracketItem(s) == (Single(c), 1);
    assert BracketBody(s[1..], false) == Some(([], ""));
    assert BracketBody(s, true) == Some(([Single(c)] + [], ""));
    assert [Single(c)] + [] == [Single(c)];
    assert Parse([']'], o.extGlob) == Literal(']', End);
    assert Parse(s, o.extGlob) == Literal(c, Literal(']', End));
    assert In(o, Literal(']', End), "]") by { assert "]"[1..] == ""; }
    assert In(o, Literal(c, Literal(']', End)), s);
  }
}
