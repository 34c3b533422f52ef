/**
 Brace expansion. The expander rewrites the first group it finds and starts again on each
 result; that comes to the product of the groups, the leftmost varying slowest. It ends because
 each result is shorter than the text it comes from.
 */
module BraceExpansion {
  import opened Wrappers
  import opened Texts
  import opened BraceRanges
  import opened BraceItems

  datatype Result<+T> = Ok(value: T) | LimitExceeded | Endless

  // ---- scanning ----

  function IndexOf(s: string, c: char): (r: int)
    ensures -1 <= r < |s|
  {
    if s == "" then -1 else if s[0] == c then 0 else Shift(IndexOf(s[1..], c), 1)
  }

  /** What is left of a text after the quoted part it begins with. */
  function AfterQuote(s: string): (r: string)
    requires s != ""
    ensures |r| < |s| && r == s[|s| - |r|..]
  {
    var end := IndexOf(s[1..], s[0]);
    if end < 0 then s[|s|..] else s[end + 2..]
  }

  predicate IsQuote(c: char) {
    c == '\'' || c == '"'
  }

  /** The offset of the `}` that closes `depth` open braces, skipping escapes and quotes; -1 if there is none. */
  function MatchingBrace(s: string, depth: int): (r: int)
    ensures -1 <= r < |s|
    decreases |s|
  {
    if s == "" then -1
    else if s[0] == '\\' then (if |s| == 1 then -1 else Shift(MatchingBrace(s[2..], depth), 2))
    else if IsQuote(s[0]) then var rest := AfterQuote(s); Shift(MatchingBrace(rest, depth), |s| - |rest|)
    else if s[0] == '{' then Shift(MatchingBrace(s[1..], depth + 1), 1)
    else if s[0] == '}' then (if depth == 1 then 0 else Shift(MatchingBrace(s[1..], depth - 1), 1))
    else Shift(MatchingBrace(s[1..], depth), 1)
  }

  /** The offset of the first brace that could open a group, or -1. */
  function OpeningBrace(s: string): (r: int)
    ensures -1 <= r < |s| && (r >= 0 ==> s[r] == '{')
    decreases |s|
  {
    if s == "" then -1
    else if s[0] == '\\' then (if |s| == 1 then -1 else Shift(OpeningBrace(s[2..]), 2))
    else if IsQuote(s[0]) then var rest := AfterQuote(s); Shift(OpeningBrace(rest), |s| - |rest|)
    else if s[0] == '$' && |s| > 1 && s[1] == '{' then
      var end := MatchingBrace(s[1..], 0);
      if end < 0 then -1 else Shift(OpeningBrace(s[end + 2..]), end + 2)
    else if s[0] == '{' then 0
    else Shift(OpeningBrace(s[1..]), 1)
  }

  /** The pieces between the commas outside nested braces; `piece` is the one begun. */
  function Split(piece: string, s: string, depth: int): (r: seq<string>)
    ensures |r| > 0
    decreases |s|
  {
    if s == "" then [piece]
    else if s[0] == '\\' then (if |s| == 1 then [piece + s] else Split(piece + s[..2], s[2..], depth))
    else if IsQuote(s[0]) then var rest := AfterQuote(s); Split(piece + s[..|s| - |rest|], rest, depth)
    else if s[0] == '{' then Split(piece + s[..1], s[1..], depth + 1)
    else if s[0] == '}' then Split(piece + s[..1], s[1..], depth - 1)
    else if s[0] == ',' && depth == 0 then [piece] + Split("", s[1..], depth)
    else Split(piece + s[..1], s[1..], depth)
  }

  // ---- what makes a text shorter ----

  /** No piece of a body is longer than the body. */
  lemma {:induction false} SplitLength(piece: string, s: string, depth: int, k: nat)
    requires k < |Split(piece, s, depth)|
    ensures |Split(piece, s, depth)[k]| <= |piece| + |s|
    decreases |s|
  {
    if s == "" {
    } else if s[0] == '\\' {
      if |s| > 1 { SplitLength(piece + s[..2], s[2..], depth, k); }
    } else if IsQuote(s[0]) {
      SplitLength(piece + s[..|s| - |AfterQuote(s)|], AfterQuote(s), depth, k);
    } else if s[0] == '{' {
      SplitLength(piece + s[..1], s[1..], depth + 1, k);
    } else if s[0] == '}' {
      SplitLength(piece + s[..1], s[1..], depth - 1, k);
    } else if s[0] == ',' && depth == 0 {
      if k > 0 { SplitLength("", s[1..], depth, k - 1); }
    } else {
      SplitLength(piece + s[..1], s[1..], depth, k);
    }
  }

  lemma AlternativesFit(body: string)
    ensures forall k :: 0 <= k < |Split("", body, 0)| ==> |Split("", body, 0)[k]| <= |body|
  {
    forall k: nat | k < |Split("", body, 0)| ensures |Split("", body, 0)[k]| <= |body| {
      SplitLength("", body, 0, k);
    }
  }

  // ---- what a text expands to ----

  function Map(prefix: string, items: seq<string>): (r: seq<string>)
    ensures |r| == |items| && forall k :: 0 <= k < |r| ==> r[k] == prefix + items[k]
  {
    seq(|items|, k requires 0 <= k < |items| => prefix + items[k])
  }

  /** Every first followed by every second, the first varying slowest. */
  function Product(xs: seq<string>, ys: seq<string>): (r: seq<string>)
    ensures |r| == |xs| * |ys|
  {
    if xs == [] then [] else Map(xs[0], ys) + Product(xs[1..], ys)
  }

  /** The words a text expands to; none when it comes to a range that has no result. */
  ghost function Expansion(text: string): (r: Option<seq<string>>)
    decreases |text|, 1, 0
  {
    var open := OpeningBrace(text);
    if open < 0 then Some([text]) else
    var close := Shift(MatchingBrace(text[open..], 0), open);
    if close < 0 then Some([text]) else
    var prefix, body, suffix := text[..open], text[open + 1..close], text[close + 1..];
    CloseAfterOpen(text, open);
    match RangeOf(body)
    case NoResult => None
    case Items(items) => ItemsFit(body); ExpandAll(prefix, items, suffix, |text|)
    case NotARange =>
      var alternatives := Split("", body, 0);
      AlternativesFit(body);
      if |alternatives| < 2 then Recombined(prefix, Expansion(body), Expansion(suffix))
      else ExpandAll(prefix, alternatives, suffix, |text|)
  }

  /** A group that is no group: its braces stay. */
  function Recombined(prefix: string, bodies: Option<seq<string>>, suffixes: Option<seq<string>>): Option<seq<string>> {
    if bodies.None? || suffixes.None? then None
    else Some(Product(Product([prefix + "{"], bodies.value), Map("}", suffixes.value)))
  }

  ghost function ExpandAll(prefix: string, pieces: seq<string>, suffix: string, bound: nat): (r: Option<seq<string>>)
    requires forall k :: 0 <= k < |pieces| ==> |prefix| + |pieces[k]| + |suffix| < bound
    decreases bound, 0, |pieces|
  {
    if pieces == [] then Some([]) else Both(Expansion(prefix + pieces[0] + suffix), ExpandAll(prefix, pieces[1..], suffix, bound))
  }

  function Both(first: Option<seq<string>>, more: Option<seq<string>>): Option<seq<string>> {
    if first.None? || more.None? then None else Some(first.value + more.value)
  }

  lemma CloseAfterOpen(text: string, open: nat)
    requires open < |text| && text[open] == '{'
    ensures MatchingBrace(text[open..], 0) != 0
  {}

  // ---- the number of groups ahead ----

  function Braces(s: string): nat {
    if s == "" then 0 else (if s[0] == '{' then 1 else 0) + Braces(s[1..])
  }

  lemma {:induction false} BracesConcat(a: string, b: string)
    ensures Braces(a + b) == Braces(a) + Braces(b)
  {
    if a == "" {
      assert a + b == b;
    } else {
      assert (a + b)[1..] == a[1..] + b;
      BracesConcat(a[1..], b);
    }
  }

  lemma {:induction false} NoBraces(s: string)
    requires '{' !in s
    ensures Braces(s) == 0
  {
    if s != "" {
      NoBraces(s[1..]);
    }
  }

  /** With an item in the place of its range, there is one opening brace fewer if and only if the item is not one itself. */
  lemma CountFallsExactly(prefix: string, body: string, suffix: string, i: nat)
    requires RangeOf(body).Items? && i < |RangeOf(body).items|
    ensures Braces(prefix + RangeOf(body).items[i] + suffix) < Braces(prefix + "{" + body + "}" + suffix)
            <==> RangeOf(body).items[i] != "{"
  {
    var item := RangeOf(body).items[i];
    BracesConcat(prefix + item, suffix);
    BracesConcat(prefix, item);
    BracesConcat(prefix + "{" + body + "}", suffix);
    BracesConcat(prefix + "{" + body, "}");
    BracesConcat(prefix + "{", body);
    BracesConcat(prefix, "{");
    assert Braces("{") == 1 + Braces(""); assert Braces("}") == 0;
    RangeCharacters(body);
    NoBraces(body);
    OneOrNone(body, i);
  }

  /** An item holds an opening brace only by being one. */
  lemma OneOrNone(body: string, i: nat)
    requires RangeOf(body).Items? && i < |RangeOf(body).items|
    ensures Braces(RangeOf(body).items[i]) == if RangeOf(body).items[i] == "{" then 1 else 0
  {
    var item := RangeOf(body).items[i];
    if IsNumeric(body) {
      ItemsHarmless(body);
      NoBraces(item);
    } else {
      assert |item| == 1 && item[1..] == "";
    }
  }
}
