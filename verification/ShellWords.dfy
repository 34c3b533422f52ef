/**
 Where things end in a script: quotes, expansions, nested parentheses, comments and words. A word is
 cut piece by piece, and what stands inside a quote or a parenthesis never ends it.
 */
module ShellWords {
  import opened Wrappers

  /** The character at a position, and '\0' past the end. */
  function At(s: string, p: nat): char {
    if p < |s| then s[p] else '\0'
  }

  predicate IsBlank(c: char) {
    c == ' ' || c == '\t' || c == '\r'
  }

  predicate EndsWord(c: char) {
    c in " \t\n\r;&|<>()"
  }

  predicate IsDigit(c: char) {
    '0' <= c <= '9'
  }

  predicate IsSubstitution(s: string, p: nat) {
    (At(s, p) == '<' || At(s, p) == '>') && At(s, p + 1) == '('
  }

  // ---- blanks and comments ----

  /** A `#` begins a comment only where a word could begin. */
  predicate IsCommentStart(s: string, p: nat)
    requires p <= |s|
  {
    p == 0 || s[p - 1] in " \t\n;()&|\r"
  }

  function LineEnd(s: string, p: nat): (e: nat)
    requires p <= |s|
    ensures p <= e <= |s| && (e < |s| ==> s[e] == '\n') && forall k :: p <= k < e ==> s[k] != '\n'
    decreases |s| - p
  {
    if p == |s| || s[p] == '\n' then p else LineEnd(s, p + 1)
  }

  /** Past blanks, continued lines and comments. */
  function SkipEnd(s: string, p: nat): (e: nat)
    requires p <= |s|
    ensures p <= e <= |s|
    decreases |s| - p
  {
    if p == |s| then p
    else if IsBlank(s[p]) then SkipEnd(s, p + 1)
    else if s[p] == '\\' && At(s, p + 1) == '\n' then SkipEnd(s, p + 2)
    else if s[p] == '#' && IsCommentStart(s, p) then SkipEnd(s, LineEnd(s, p + 1))
    else p
  }

  // ---- quotes and nesting: each answers the position past the close, or none ----

  /** Past an escape; a backslash at the very end escapes nothing. */
  function EscapeEnd(s: string, p: nat): (e: nat)
    requires p < |s|
    ensures p < e <= |s|
  {
    if p + 1 < |s| then p + 2 else p + 1
  }

  /** Up to the next quote; `escapes` lets a backslash hide one. */
  function QuotedEnd(s: string, p: nat, quote: char, escapes: bool): (r: Option<nat>)
    requires p <= |s|
    ensures r.Some? ==> p < r.value <= |s|
    decreases |s| - p
  {
    if p == |s| then None
    else if s[p] == quote then Some(p + 1)
    else if escapes && s[p] == '\\' then QuotedEnd(s, EscapeEnd(s, p), quote, escapes)
    else QuotedEnd(s, p + 1, quote, escapes)
  }

  function DoubleEnd(s: string, p: nat): (r: Option<nat>)
    requires p <= |s|
    ensures r.Some? ==> p < r.value <= |s|
    decreases |s| - p, 1
  {
    if p == |s| then None
    else match s[p]
      case '"' => Some(p + 1)
      case '\\' => DoubleEnd(s, EscapeEnd(s, p))
      case '$' =>
        var e := DollarEnd(s, p + 1, true);
        if e.None? then None else DoubleEnd(s, e.value)
      case '`' =>
        var e := QuotedEnd(s, p + 1, '`', true);
        if e.None? then None else DoubleEnd(s, e.value)
      case _ => DoubleEnd(s, p + 1)
  }

  /** What follows a `$`: another one, an opening of some kind, or nothing of its own. */
  function DollarEnd(s: string, p: nat, inside: bool): (r: Option<nat>)
    requires p <= |s|
    ensures r.Some? ==> p <= r.value <= |s|
    decreases |s| - p, 2
  {
    if p == |s| then Some(p)
    else match s[p]
      case '$' => Some(p + 1)
      case '(' => if At(s, p + 1) == '(' then ArithmeticEnd(s, p + 2, 1) else BalancedEnd(s, p + 1, '(', ')', 1)
      case '{' => BraceEnd(s, p + 1, 1)
      case '\'' => QuotedEnd(s, p + 1, '\'', true)
      case '"' => if inside then Some(p) else DoubleEnd(s, p + 1)
      case _ => Some(p)
  }

  /** To the `))` that closes the expansion, or to a single one. */
  function ArithmeticEnd(s: string, p: nat, depth: nat): (r: Option<nat>)
    requires p <= |s| && depth > 0
    ensures r.Some? ==> p < r.value <= |s|
    decreases |s| - p
  {
    if p == |s| then None
    else if s[p] == '(' then ArithmeticEnd(s, p + 1, depth + 1)
    else if s[p] == ')' then
      if depth == 1 then Some(if At(s, p + 1) == ')' then p + 2 else p + 1) else ArithmeticEnd(s, p + 1, depth - 1)
    else ArithmeticEnd(s, p + 1, depth)
  }

  function BraceEnd(s: string, p: nat, depth: nat): (r: Option<nat>)
    requires p <= |s| && depth > 0
    ensures r.Some? ==> p < r.value <= |s|
    decreases |s| - p, 1
  {
    if p == |s| then None
    else match s[p]
      case '\'' =>
        var e := QuotedEnd(s, p + 1, '\'', false);
        if e.None? then None else BraceEnd(s, e.value, depth)
      case '"' =>
        var e := DoubleEnd(s, p + 1);
        if e.None? then None else BraceEnd(s, e.value, depth)
      case '\\' => BraceEnd(s, EscapeEnd(s, p), depth)
      case '{' => BraceEnd(s, p + 1, depth + 1)
      case '}' => if depth == 1 then Some(p + 1) else BraceEnd(s, p + 1, depth - 1)
      case _ => BraceEnd(s, p + 1, depth)
  }

  /** To the matching close, over quotes, escapes and comments. */
  function BalancedEnd(s: string, p: nat, open: char, close: char, depth: nat): (r: Option<nat>)
    requires p <= |s| && depth > 0
    ensures r.Some? ==> p < r.value <= |s|
    decreases |s| - p, 1
  {
    if p == |s| then None
    else match s[p]
      case '\'' =>
        var e := QuotedEnd(s, p + 1, '\'', false);
        if e.None? then None else BalancedEnd(s, e.value, open, close, depth)
      case '"' =>
        var e := DoubleEnd(s, p + 1);
        if e.None? then None else BalancedEnd(s, e.value, open, close, depth)
      case '\\' => BalancedEnd(s, EscapeEnd(s, p), open, close, depth)
      case '#' => BalancedEnd(s, LineEnd(s, p + 1), open, close, depth)
      case c =>
        if c == open then BalancedEnd(s, p + 1, open, close, depth + 1)
        else if c != close then BalancedEnd(s, p + 1, open, close, depth)
        else if depth == 1 then Some(p + 1)
        else BalancedEnd(s, p + 1, open, close, depth - 1)
  }

  // ---- a close depends on nothing after it ----

  /** The texts are the same up to `n`. */
  ghost predicate Agree(s: string, t: string, n: nat) {
    n <= |s| && n <= |t| && forall k :: 0 <= k < n ==> s[k] == t[k]
  }

  lemma {:induction false} QuotedLocal(s: string, t: string, p: nat, quote: char, escapes: bool, e: nat)
    requires p <= |s| && QuotedEnd(s, p, quote, escapes) == Some(e) && Agree(s, t, e)
    ensures QuotedEnd(t, p, quote, escapes) == Some(e)
    decreases |s| - p
  {
    if s[p] != quote {
      QuotedLocal(s, t, if escapes && s[p] == '\\' then EscapeEnd(s, p) else p + 1, quote, escapes, e);
    }
  }

  lemma {:induction false} ArithmeticLocal(s: string, t: string, p: nat, depth: nat, e: nat)
    requires p <= |s| && depth > 0 && ArithmeticEnd(s, p, depth) == Some(e) && Agree(s, t, e + 1)
    ensures ArithmeticEnd(t, p, depth) == Some(e)
    decreases |s| - p
  {
    if s[p] == '(' { ArithmeticLocal(s, t, p + 1, depth + 1, e); }
    else if s[p] != ')' { ArithmeticLocal(s, t, p + 1, depth, e); }
    else if depth > 1 { ArithmeticLocal(s, t, p + 1, depth - 1, e); }
  }

  lemma {:induction false} DollarLocal(s: string, t: string, p: nat, inside: bool, e: nat)
    requires p <= |s| && DollarEnd(s, p, inside) == Some(e) && Agree(s, t, e + 1)
    ensures DollarEnd(t, p, inside) == Some(e)
    decreases |s| - p, 2
  {
    hide QuotedEnd, DoubleEnd, ArithmeticEnd, BraceEnd, BalancedEnd;
    if p < |s| {
      match s[p]
      case '(' =>
        if At(s, p + 1) == '(' { ArithmeticLocal(s, t, p + 2, 1, e); } else { BalancedLocal(s, t, p + 1, '(', ')', 1, e); }
      case '{' => BraceLocal(s, t, p + 1, 1, e);
      case '\'' => QuotedLocal(s, t, p + 1, '\'', true, e);
      case '"' => if !inside { DoubleLocal(s, t, p + 1, e); }
      case _ =>
    }
  }

  lemma {:induction false} DoubleLocal(s: string, t: string, p: nat, e: nat)
    requires p <= |s| && DoubleEnd(s, p) == Some(e) && Agree(s, t, e)
    ensures DoubleEnd(t, p) == Some(e)
    decreases |s| - p, 1
  {
    hide QuotedEnd, DollarEnd;
    match s[p]
    case '"' =>
    case '\\' => DoubleLocal(s, t, EscapeEnd(s, p), e);
    case '$' =>
      var d := DollarEnd(s, p + 1, true).value;
      DoubleLocal(s, t, d, e);
      DollarLocal(s, t, p + 1, true, d);
    case '`' =>
      var d := QuotedEnd(s, p + 1, '`', true).value;
      DoubleLocal(s, t, d, e);
      QuotedLocal(s, t, p + 1, '`', true, d);
    case _ => DoubleLocal(s, t, p + 1, e);
  }

  lemma {:induction false} BraceLocal(s: string, t: string, p: nat, depth: nat, e: nat)
    requires p <= |s| && depth > 0 && BraceEnd(s, p, depth) == Some(e) && Agree(s, t, e)
    ensures BraceEnd(t, p, depth) == Some(e)
    decreases |s| - p, 1
  {
    hide QuotedEnd, DoubleEnd;
    match s[p]
    case '\'' =>
      var d := QuotedEnd(s, p + 1, '\'', false).value;
      BraceLocal(s, t, d, depth, e);
      QuotedLocal(s, t, p + 1, '\'', false, d);
    case '"' =>
      var d := DoubleEnd(s, p + 1).value;
      BraceLocal(s, t, d, depth, e);
      DoubleLocal(s, t, p + 1, d);
    case '\\' => BraceLocal(s, t, EscapeEnd(s, p), depth, e);
    case '{' => BraceLocal(s, t, p + 1, depth + 1, e);
    case '}' => if depth > 1 { BraceLocal(s, t, p + 1, depth - 1, e); }
    case _ => BraceLocal(s, t, p + 1, depth, e);
  }

  lemma {:induction false} LineLocal(s: string, t: string, p: nat, n: nat)
    requires p <= |s| && LineEnd(s, p) < n && Agree(s, t, n)
    ensures LineEnd(t, p) == LineEnd(s, p)
    decreases |s| - p
  {
    if s[p] != '\n' { LineLocal(s, t, p + 1, n); }
  }

  lemma {:induction false} BalancedLocal(s: string, t: string, p: nat, open: char, close: char, depth: nat, e: nat)
    requires p <= |s| && depth > 0 && BalancedEnd(s, p, open, close, depth) == Some(e) && Agree(s, t, e)
    ensures BalancedEnd(t, p, open, close, depth) == Some(e)
    decreases |s| - p, 1
  {
    hide QuotedEnd, DoubleEnd, LineEnd;
    match s[p]
    case '\'' =>
      var d := QuotedEnd(s, p + 1, '\'', false).value;
      BalancedLocal(s, t, d, open, close, depth, e);
      QuotedLocal(s, t, p + 1, '\'', false, d);
    case '"' =>
      var d := DoubleEnd(s, p + 1).value;
      BalancedLocal(s, t, d, open, close, depth, e);
      DoubleLocal(s, t, p + 1, d);
    case '\\' => BalancedLocal(s, t, EscapeEnd(s, p), open, close, depth, e);
    case '#' =>
      BalancedLocal(s, t, LineEnd(s, p + 1), open, close, depth, e);
      LineLocal(s, t, p + 1, e);
    case c =>
      if c == open { BalancedLocal(s, t, p + 1, open, close, depth + 1, e); }
      else if c != close { BalancedLocal(s, t, p + 1, open, close, depth, e); }
      else if depth > 1 { BalancedLocal(s, t, p + 1, open, close, depth - 1, e); }
  }

  /** A double quote is never closed exactly when no beginning of the text closes it with its last character. */
  lemma NeverClosedExactly(s: string, p: nat)
    requires p <= |s|
    ensures DoubleEnd(s, p).None? <==> forall e :: p <= e <= |s| ==> DoubleEnd(s[..e], p) != Some(e)
    ensures BalancedEnd(s, p, '(', ')', 1).None? <==> forall e :: p <= e <= |s| ==> BalancedEnd(s[..e], p, '(', ')', 1) != Some(e)
    ensures BraceEnd(s, p, 1).None? <==> forall e :: p <= e <= |s| ==> BraceEnd(s[..e], p, 1) != Some(e)
  {
    hide DoubleEnd, BalancedEnd, BraceEnd;
    if DoubleEnd(s, p).Some? { DoubleLocal(s, s[..DoubleEnd(s, p).value], p, DoubleEnd(s, p).value); }
    if BalancedEnd(s, p, '(', ')', 1).Some? {
      var e := BalancedEnd(s, p, '(', ')', 1).value;
      BalancedLocal(s, s[..e], p, '(', ')', 1, e);
    }
    if BraceEnd(s, p, 1).Some? { BraceLocal(s, s[..BraceEnd(s, p, 1).value], p, 1, BraceEnd(s, p, 1).value); }
    forall e | p <= e <= |s|
      ensures DoubleEnd(s[..e], p) == Some(e) ==> DoubleEnd(s, p).Some?
      ensures BalancedEnd(s[..e], p, '(', ')', 1) == Some(e) ==> BalancedEnd(s, p, '(', ')', 1).Some?
      ensures BraceEnd(s[..e], p, 1) == Some(e) ==> BraceEnd(s, p, 1).Some?
    {
      if DoubleEnd(s[..e], p) == Some(e) { DoubleLocal(s[..e], s, p, e); }
      if BalancedEnd(s[..e], p, '(', ')', 1) == Some(e) { BalancedLocal(s[..e], s, p, '(', ')', 1, e); }
      if BraceEnd(s[..e], p, 1) == Some(e) { BraceLocal(s[..e], s, p, 1, e); }
    }
  }

  /** Without escapes a quote is never closed exactly when there is none. */
  lemma {:induction false} NoQuoteExactly(s: string, p: nat, quote: char)
    requires p <= |s|
    ensures match QuotedEnd(s, p, quote, false)
            case None => quote !in s[p..]
            case Some(e) => quote !in s[p..e - 1] && s[e - 1] == quote
    decreases |s| - p
  {
    if p < |s| {
      assert s[p..] == [s[p]] + s[p + 1..];
      if s[p] != quote {
        NoQuoteExactly(s, p + 1, quote);
        var r := QuotedEnd(s, p + 1, quote, false);
        if r.Some? { assert s[p..r.value - 1] == [s[p]] + s[p + 1..r.value - 1]; }
      } else {
        assert s[p..p] == "";
      }
    }
  }

  // ---- array assignments ----

  predicate IsNameStart(c: char) {
    'a' <= c <= 'z' || 'A' <= c <= 'Z' || c == '_'
  }

  predicate IsNameCharacter(c: char) {
    IsNameStart(c) || '0' <= c <= '9'
  }

  /** The last `[` before `end`, or -1. */
  function LastBracket(text: string, end: nat): (r: int)
    requires end <= |text|
    ensures -1 <= r < end
  {
    if end == 0 then -1 else if text[end - 1] == '[' then end - 1 else LastBracket(text, end - 1)
  }

  /** `NAME=`, `NAME+=` and `NAME[index]=`, after which a parenthesis opens a list of values. */
  predicate EndsWithAssignmentPrefix(text: string) {
    && |text| >= 2 && text[|text| - 1] == '='
    && var end0 := |text| - 1;
       var end1 := if end0 > 0 && text[end0 - 1] == '+' then end0 - 1 else end0;
       var bracketed := end1 > 0 && text[end1 - 1] == ']';
       var end := if bracketed then LastBracket(text, end1) else end1;
       end > 0 && IsNameStart(text[0]) && forall i :: 1 <= i < end ==> IsNameCharacter(text[i])
  }

  // ---- words ----

  /** A word may go on with a parenthesis after an assignment's `=` and after the sign of an extended pattern. */
  predicate TakesGroup(text: string) {
    EndsWithAssignmentPrefix(text) || (text != "" && text[|text| - 1] in "?*+@!")
  }

  /** The next piece of a word: none, one that never closes, a continued line, or text up to a position. */
  datatype Piece = Ended | Unclosed | Vanishes(end: nat) | Takes(end: nat)

  function Upto(e: Option<nat>): Piece {
    if e.None? then Unclosed else Takes(e.value)
  }

  function PieceAt(s: string, p: nat, text: string): (r: Piece)
    requires p <= |s|
    ensures r.Vanishes? || r.Takes? ==> p < r.end <= |s|
  {
    if p == |s| then Ended
    else if EndsWord(s[p]) then
      if IsSubstitution(s, p) then Upto(BalancedEnd(s, p + 2, '(', ')', 1))
      else if s[p] == '(' && TakesGroup(text) then Upto(BalancedEnd(s, p + 1, '(', ')', 1))
      else Ended
    else match s[p]
      case '\\' => if At(s, p + 1) == '\n' then Vanishes(p + 2) else Takes(EscapeEnd(s, p))
      case '\'' => Upto(QuotedEnd(s, p + 1, '\'', false))
      case '"' => Upto(DoubleEnd(s, p + 1))
      case '`' => Upto(QuotedEnd(s, p + 1, '`', true))
      case '$' => Upto(DollarEnd(s, p + 1, false))
      case _ => Takes(p + 1)
  }

  /** The text of the word that goes on at `p` after `text`, and where it ends; none if a piece never closes. */
  function WordFrom(s: string, p: nat, text: string): (r: Option<(string, nat)>)
    requires p <= |s|
    ensures r.Some? ==> p <= r.value.1 <= |s|
    decreases |s| - p
  {
    match PieceAt(s, p, text)
    case Ended => Some((text, p))
    case Unclosed => None
    case Vanishes(e) => WordFrom(s, e, text)
    case Takes(e) => WordFrom(s, e, text + s[p..e])
  }

  /** Between two pieces of the word that began at `p`, with `now` read so far, stands `q`. */
  ghost predicate Between(s: string, p: nat, text: string, q: nat, now: string)
    requires p <= |s|
    decreases |s| - p
  {
    || (p == q && text == now)
    || match PieceAt(s, p, text)
       case Vanishes(e) => Between(s, e, text, q, now)
       case Takes(e) => Between(s, e, text + s[p..e], q, now)
       case _ => false
  }

  lemma {:induction false} BetweenOrder(s: string, p: nat, text: string, q: nat, now: string)
    requires p <= |s| && Between(s, p, text, q, now)
    ensures p <= q <= |s|
    decreases |s| - p
  {
    if !(p == q && text == now) {
      match PieceAt(s, p, text)
      case Vanishes(e) => BetweenOrder(s, e, text, q, now);
      case Takes(e) => BetweenOrder(s, e, text + s[p..e], q, now);
    }
  }

  lemma {:induction false} WordReached(s: string, p: nat, text: string)
    requires p <= |s|
    ensures match WordFrom(s, p, text)
            case Some((all, end)) => Between(s, p, text, end, all) && PieceAt(s, end, all) == Ended
            case None => exists q: nat, now: string :: Between(s, p, text, q, now) && q <= |s| && PieceAt(s, q, now) == Unclosed
    decreases |s| - p
  {
    hide PieceAt;
    match PieceAt(s, p, text)
    case Ended =>
    case Unclosed => assert Between(s, p, text, p, text);
    case Vanishes(e) =>
      WordReached(s, e, text);
      if WordFrom(s, e, text).None? {
        var q: nat, now: string :| Between(s, e, text, q, now) && q <= |s| && PieceAt(s, q, now) == Unclosed;
        assert Between(s, p, text, q, now);
      }
    case Takes(e) =>
      WordReached(s, e, text + s[p..e]);
      if WordFrom(s, e, text + s[p..e]).None? {
        var q: nat, now: string :| Between(s, e, text + s[p..e], q, now) && q <= |s| && PieceAt(s, q, now) == Unclosed;
        assert Between(s, p, text, q, now);
      }
  }

  lemma {:induction false} NothingEndsBefore(s: string, p: nat, text: string, q: nat, now: string)
    requires p <= |s| && Between(s, p, text, q, now) && q <= |s|
    ensures WordFrom(s, p, text) == WordFrom(s, q, now)
    decreases |s| - p
  {
    hide PieceAt;
    if !(p == q && text == now) {
      match PieceAt(s, p, text)
      case Vanishes(e) => NothingEndsBefore(s, e, text, q, now);
      case Takes(e) => NothingEndsBefore(s, e, text + s[p..e], q, now);
    }
  }

  /** A sign that ends a word wherever it stands outside quotes: not one that begins a substitution or a group. */
  predicate Cuts(s: string, p: nat, text: string)
    requires p < |s|
  {
    EndsWord(s[p]) && !IsSubstitution(s, p) && !(s[p] == '(' && TakesGroup(text))
  }

  /**
   A word stops at the end of the script or at the first sign that cuts it, and none stands between its
   pieces before that; it is refused exactly when one of its pieces is opened and never closed.
   */
  lemma WordIsCut(s: string, p: nat)
    requires p <= |s|
    ensures match WordFrom(s, p, "")
            case Some((all, end)) =>
              && Between(s, p, "", end, all) && (end < |s| ==> Cuts(s, end, all))
              && forall q: nat, now: string :: Between(s, p, "", q, now) && q < end ==> !Cuts(s, q, now) && PieceAt(s, q, now) != Unclosed
            case None => exists q: nat, now: string :: Between(s, p, "", q, now) && q <= |s| && PieceAt(s, q, now) == Unclosed
  {
    hide WordFrom;
    WordReached(s, p, "");
    match WordFrom(s, p, "")
    case None =>
    case Some((all, end)) =>
      EndedExactly(s, end, all);
      forall q: nat, now: string | Between(s, p, "", q, now) && q < end ensures !Cuts(s, q, now) && PieceAt(s, q, now) != Unclosed {
        BetweenOrder(s, p, "", q, now);
        NothingEndsBefore(s, p, "", q, now);
        EndedExactly(s, q, now);
        WordStep(s, q, now);
      }
  }

  lemma EndedExactly(s: string, p: nat, text: string)
    requires p <= |s|
    ensures PieceAt(s, p, text) == Ended <==> p == |s| || Cuts(s, p, text)
  {
    hide BalancedEnd, QuotedEnd, DoubleEnd, DollarEnd, TakesGroup;
  }

  lemma WordStep(s: string, p: nat, text: string)
    requires p <= |s|
    ensures PieceAt(s, p, text) == Ended ==> WordFrom(s, p, text) == Some((text, p))
    ensures PieceAt(s, p, text) == Unclosed ==> WordFrom(s, p, text) == None
  {
    hide PieceAt;
  }

  /** What a piece that never closes opened. */
  lemma UnclosedExactly(s: string, p: nat, text: string)
    requires p <= |s|
    ensures PieceAt(s, p, text) == Unclosed <==>
      p < |s| && match s[p]
                 case '\'' => '\'' !in s[p + 1..]
                 case '"' => DoubleEnd(s, p + 1).None?
                 case '`' => QuotedEnd(s, p + 1, '`', true).None?
                 case '$' => DollarEnd(s, p + 1, false).None?
                 case '(' => TakesGroup(text) && BalancedEnd(s, p + 1, '(', ')', 1).None?
                 case _ => IsSubstitution(s, p) && BalancedEnd(s, p + 2, '(', ')', 1).None?
  {
    hide BalancedEnd, QuotedEnd, DoubleEnd, DollarEnd, TakesGroup, EndsWord;
    SignsThatEnd();
    if p < |s| { SingleQuoteExactly(s, p + 1); }
  }

  lemma SingleQuoteExactly(s: string, p: nat)
    requires p <= |s|
    ensures QuotedEnd(s, p, '\'', false).None? <==> '\'' !in s[p..]
  {
    hide QuotedEnd;
    NoQuoteExactly(s, p, '\'');
    var r := QuotedEnd(s, p, '\'', false);
    if r.Some? { assert s[p..][r.value - 1 - p] == '\''; }
  }

  lemma SignsThatEnd()
    ensures EndsWord('(') && EndsWord('<') && EndsWord('>')
    ensures !EndsWord('\'') && !EndsWord('"') && !EndsWord('`') && !EndsWord('$') && !EndsWord('\\')
  {
    var signs := " \t\n\r;&|<>()";
    assert signs[7] == '<' && signs[8] == '>' && signs[9] == '(';
  }

  // ---- a number sign inside a substitution ----

  /** Text without quotes, escapes, parentheses and number signs. */
  predicate IsPlainText(s: string, p: nat, q: nat)
    requires p <= q <= |s|
  {
    forall k :: p <= k < q ==> s[k] !in "'\"\\#()"
  }

  /** Wherever it stands, a `#` inside parentheses hides the rest of its line, the closing parenthesis too. */
  lemma {:induction false} HashHidesTheLine(s: string, p: nat, q: nat, depth: nat)
    requires p <= q < |s| && s[q] == '#' && IsPlainText(s, p, q) && depth > 0
    ensures BalancedEnd(s, p, '(', ')', depth) == BalancedEnd(s, LineEnd(s, q + 1), '(', ')', depth)
    decreases q - p
  {
    hide LineEnd;
    if p < q {
      assert s[p] !in "'\"\\#()";
      HashHidesTheLine(s, p + 1, q, depth);
    }
  }

  /** So a substitution on the last line with one in it, as in `$(echo ${#x})`, is refused, whatever follows on the line. */
  lemma HashRefusesTheWord(s: string, p: nat, q: nat, text: string)
    requires p + 2 <= q < |s| && s[p] == '$' && s[p + 1] == '(' && s[q] == '#' && IsPlainText(s, p + 2, q)
    requires forall k :: q <= k < |s| ==> s[k] != '\n'
    ensures PieceAt(s, p, text) == Unclosed && WordFrom(s, p, text) == None
  {
    hide BalancedEnd, LineEnd, EndsWord;
    SignsThatEnd();
    HashHidesTheLine(s, p + 2, q, 1);
    assert LineEnd(s, q + 1) == |s|;
    NothingCloses(s);
    assert At(s, p + 2) == s[p + 2] != '(';
    WordStep(s, p, text);
  }

  lemma NothingCloses(s: string)
    ensures BalancedEnd(s, |s|, '(', ')', 1) == None
  {}

  lemma LengthInSubstitution()
    ensures var s := "$(echo ${#x})"; WordFrom(s, 0, "") == None
  {
    var s := "$(echo ${#x})";
    assert s[9] == '#';
    HashRefusesTheWord(s, 0, 9, "");
  }

  // ---- what a word keeps ----

  /** A word's text is what was written, but for the continued lines, which vanish. */
  ghost predicate Kept(text: string, raw: string)
    decreases |raw|
  {
    || (text == "" && raw == "")
    || (|raw| > 1 && raw[0] == '\\' && raw[1] == '\n' && Kept(text, raw[2..]))
    || (text != "" && raw != "" && text[0] == raw[0] && Kept(text[1..], raw[1..]))
  }

  lemma {:induction false} KeptAfter(a: string, b: string, more: string)
    requires Kept(b, more)
    ensures Kept(a + b, a + more)
    decreases |a|
  {
    if a == "" {
      assert a + b == b && a + more == more;
    } else {
      assert (a + more)[1..] == a[1..] + more && (a + b)[1..] == a[1..] + b;
      KeptAfter(a[1..], b, more);
    }
  }

  lemma {:induction false} WordKept(s: string, p: nat, text: string)
    requires p <= |s| && WordFrom(s, p, text).Some?
    ensures var (all, end) := WordFrom(s, p, text).value;
            text <= all && Kept(all[|text|..], s[p..end])
    decreases |s| - p
  {
    hide PieceAt;
    var (all, end) := WordFrom(s, p, text).value;
    match PieceAt(s, p, text)
    case Ended => assert all[|text|..] == "" && s[p..end] == "";
    case Vanishes(e) =>
      WordKept(s, e, text);
      VanishesExactly(s, p, text);
      assert s[p..end][2..] == s[e..end];
    case Takes(e) =>
      WordKept(s, e, text + s[p..e]);
      var rest := all[|text + s[p..e]|..];
      KeptAfter(s[p..e], rest, s[e..end]);
      assert s[p..end] == s[p..e] + s[e..end];
      assert all[|text|..] == s[p..e] + rest;
  }

  lemma VanishesExactly(s: string, p: nat, text: string)
    requires p <= |s| && PieceAt(s, p, text).Vanishes?
    ensures PieceAt(s, p, text).end == p + 2 && s[p] == '\\' && s[p + 1] == '\n'
  {
    hide BalancedEnd, QuotedEnd, DoubleEnd, DollarEnd, TakesGroup;
  }
}
