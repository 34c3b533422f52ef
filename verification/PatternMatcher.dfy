/**
 The backtracking matcher, proved to decide the language of its pattern. Every entry point
 walks indices over the text and the pattern and restarts itself on pieces of both.
 */
module PatternMatcher {
  import opened Wrappers
  import opened Texts
  import opened ShellPattern

  /** What matching the rest of a text against the rest of a pattern returns. */
  ghost function Verdict(o: Options, p: Pat, text: string, t: nat): (r: int)
    requires t <= |text|
  {
    if In(o, p, text[t..]) then |text| else -1
  }

  method IsMatch(text: string, pattern: string, o: Options) returns (r: bool)
    ensures r <==> Matches(o, text, pattern)
  {
    var end := Match(text, 0, pattern, 0, o);
    assert text[0..] == text && pattern[0..] == pattern;
    r := end == |text|;
  }

  method Match(text: string, t0: nat, pattern: string, p0: nat, o: Options) returns (r: int)
    requires t0 <= |text| && p0 <= |pattern|
    ensures r == Verdict(o, Parse(pattern[p0..], o.extGlob), text, t0)
    decreases |pattern| - p0, 3
  {
    hide Parse, In, IsGroupStart, BracketBody;
    var t: nat, p: nat := t0, p0;
    while p < |pattern|
      invariant t <= |text| && p0 <= p <= |pattern|
      invariant Verdict(o, Parse(pattern[p..], o.extGlob), text, t) == Verdict(o, Parse(pattern[p0..], o.extGlob), text, t0)
    {
      var c := pattern[p];
      GroupStartAt(pattern, p, o.extGlob);
      if o.extGlob && c in "?*+@!" && p + 1 < |pattern| && pattern[p + 1] == '(' {
        r := MatchExtGlob(text, t, pattern, p, o);
        return;
      }
      ParseAt(pattern, p, o.extGlob);
      if c == '\\' && p + 1 < |pattern| {
        LiteralAt(o, pattern[p + 1], Parse(pattern[p + 2..], o.extGlob), text, t);
        if t >= |text| || !CharsEqual(o, text[t], pattern[p + 1]) {
          return -1;
        }
        t, p := t + 1, p + 2;
      } else if c == '?' {
        AnyCharAt(o, Parse(pattern[p + 1..], o.extGlob), text, t);
        if t >= |text| {
          return -1;
        }
        t, p := t + 1, p + 1;
      } else if c == '*' {
        r := MatchStar(text, t, pattern, p, o);
        return;
      } else if c == '[' {
        ParseBracketAt(pattern, p, o, text, t);
        var consumed, nextP := MatchBracket(text, t, pattern, p, o);
        if consumed < 0 {
          // Unterminated, at the end of the text, or simply no match: tried as a literal.
          if t >= |text| || !CharsEqual(o, text[t], '[') {
            return -1;
          }
          t, p := t + 1, p + 1;
        } else {
          t, p := consumed, nextP;
        }
      } else {
        LiteralAt(o, c, Parse(pattern[p + 1..], o.extGlob), text, t);
        if t >= |text| || !CharsEqual(o, text[t], c) {
          return -1;
        }
        t, p := t + 1, p + 1;
      }
    }
    EndAt(o, pattern[p..], text, t);
    r := if t == |text| then t else -1;
  }

  // ---- the parse and the language, one step at an index ----

  lemma GroupStartAt(pattern: string, p: nat, extGlob: bool)
    requires p < |pattern|
    ensures IsGroupStart(pattern[p..], extGlob) <==> extGlob && pattern[p] in "?*+@!" && p + 1 < |pattern| && pattern[p + 1] == '('
  {}

  lemma ParseAt(pattern: string, p: nat, extGlob: bool)
    requires p < |pattern| && !IsGroupStart(pattern[p..], extGlob)
    ensures var full, c := Parse(pattern[p..], extGlob), pattern[p];
            if c == '\\' && p + 1 < |pattern| then full == Literal(pattern[p + 1], Parse(pattern[p + 2..], extGlob))
            else if c == '?' then full == AnyChar(Parse(pattern[p + 1..], extGlob))
            else if c == '*' then full == Star(Parse(SkipStars(pattern[p..]), extGlob))
            else c != '[' ==> full == Literal(c, Parse(pattern[p + 1..], extGlob))
  {
    hide IsGroupStart, SkipStars, BracketBody;
    Suffix(pattern, p);
  }

  lemma LiteralAt(o: Options, c: char, next: Pat, text: string, t: nat)
    requires t <= |text|
    ensures In(o, Literal(c, next), text[t..]) <==> t < |text| && CharsEqual(o, text[t], c) && In(o, next, text[t + 1..])
  {
    if t < |text| { Suffix(text, t); }
  }

  lemma AnyCharAt(o: Options, next: Pat, text: string, t: nat)
    requires t <= |text|
    ensures In(o, AnyChar(next), text[t..]) <==> t < |text| && In(o, next, text[t + 1..])
  {
    if t < |text| { Suffix(text, t); }
  }

  /** A bracket either takes one character it matches, or is a literal `[`. */
  lemma ParseBracketAt(pattern: string, p: nat, o: Options, text: string, t: nat)
    requires p < |pattern| && pattern[p] == '[' && !IsGroupStart(pattern[p..], o.extGlob) && t <= |text|
    ensures var negated := IsNegation(pattern[p..]);
            var body := BracketBody(pattern[if negated then p + 2 else p + 1..], true);
            var full := In(o, Parse(pattern[p..], o.extGlob), text[t..]);
            if body.Some? && t < |text| && AnyItem(o, body.value.0, text[t]) != negated
            then full <==> In(o, Parse(body.value.1, o.extGlob), text[t + 1..])
            else full <==> t < |text| && CharsEqual(o, text[t], '[') && In(o, Parse(pattern[p + 1..], o.extGlob), text[t + 1..])
  {
    hide IsGroupStart, SkipStars, BracketBody;
    Suffix(pattern, p);
    if t < |text| { Suffix(text, t); }
  }

  lemma Suffix(s: string, i: nat)
    requires i < |s|
    ensures s[i..] != "" && s[i..][0] == s[i] && s[i..][1..] == s[i + 1..]
    ensures |s[i..]| > 1 ==> s[i..][1] == s[i + 1] && s[i..][2..] == s[i + 2..]
  {}

  method MatchStar(text: string, t: nat, pattern: string, p0: nat, o: Options) returns (r: int)
    requires t <= |text| && p0 < |pattern| && pattern[p0] == '*' && !IsGroupStart(pattern[p0..], o.extGlob)
    ensures r == Verdict(o, Parse(pattern[p0..], o.extGlob), text, t)
    decreases |pattern| - p0, 2
  {
    hide In, Parse, IsGroupStart, SkipStars;
    ParseAt(pattern, p0, o.extGlob);
    var p := p0;
    while p < |pattern| && pattern[p] == '*'
      invariant p0 <= p <= |pattern|
      invariant SkipStars(pattern[p..]) == SkipStars(pattern[p0..])
      invariant p == p0 ==> pattern[p] == '*'
    {
      StarRunAt(pattern, p);
      p := p + 1;
    }
    StarRunAt(pattern, p);
    ghost var next := Parse(pattern[p..], o.extGlob);
    StarAt(o, next, text, t);
    if p == |pattern| {
      EndAt(o, pattern[p..], text, |text|);
      return |text|;
    }
    r := TryEverySplit(text, t, pattern, p, o);
  }

  /** The rest of the pattern against every suffix of the text, shortest suffix first. */
  method TryEverySplit(text: string, t: nat, pattern: string, p: nat, o: Options) returns (r: int)
    requires t <= |text| && p <= |pattern|
    ensures r == if exists k :: t <= k <= |text| && In(o, Parse(pattern[p..], o.extGlob), text[k..]) then |text| else -1
    decreases |pattern| - p, 4
  {
    hide In, Parse;
    var skip := |text| + 1;
    while skip > t
      invariant t <= skip <= |text| + 1
      invariant forall k :: skip <= k <= |text| ==> !In(o, Parse(pattern[p..], o.extGlob), text[k..])
    {
      skip := skip - 1;
      var result := Match(text, skip, pattern, p, o);
      if result >= 0 {
        return result;
      }
    }
    r := -1;
  }

  lemma StarRunAt(pattern: string, p: nat)
    requires p <= |pattern|
    ensures SkipStars(pattern[p..]) == if p < |pattern| && pattern[p] == '*' then SkipStars(pattern[p + 1..]) else pattern[p..]
  {
    if p < |pattern| { Suffix(pattern, p); }
  }

  lemma StarAt(o: Options, next: Pat, text: string, t: nat)
    requires t <= |text|
    ensures In(o, Star(next), text[t..]) <==> exists k :: t <= k <= |text| && In(o, next, text[k..])
  {
    var s := text[t..];
    if k :| t <= k <= |text| && In(o, next, text[k..]) {
      assert s[k - t..] == text[k..];
    }
    if k :| 0 <= k <= |s| && In(o, next, s[k..]) {
      assert s[k..] == text[t + k..];
    }
  }

  /** The empty pattern matches exactly at the end of the text. */
  lemma EndAt(o: Options, p: string, text: string, t: nat)
    requires p == "" && t <= |text|
    ensures In(o, Parse(p, o.extGlob), text[t..]) <==> t == |text|
  {
    assert text[t..] == "" <==> t == |text|;
  }

  /**
   Tries a bracket against one character. -1 means unterminated, no character, or no match;
   otherwise the pattern goes on at `nextP`.
   */
  method MatchBracket(text: string, t: nat, pattern: string, p: nat, o: Options) returns (consumed: int, nextP: nat)
    requires t <= |text| && p < |pattern| && pattern[p] == '['
    ensures var negated := IsNegation(pattern[p..]);
            var start := if negated then p + 2 else p + 1;
            match BracketBody(pattern[start..], true)
            case None => consumed == -1
            case Some((items, rest)) =>
              if t < |text| && AnyItem(o, items, text[t]) != negated
              then consumed == t + 1 && p < nextP <= |pattern| && pattern[nextP..] == rest
              else consumed == -1
  {
    hide BracketBody, BracketItem, AnyItem, ClassEnd, Prepend, IsNegation;
    nextP := p;
    var i := p + 1;
    var negated := false;
    if i < |pattern| && (pattern[i] == '!' || pattern[i] == '^') {
      negated := true;
      i := i + 1;
    }
    ghost var start := i;
    NegationAt(pattern, p);
    var first := true;
    var matched := false;
    ghost var items: seq<Item> := [];
    PrependNothing(BracketBody(pattern[start..], true));
    NoItem(o, text, t);
    while i < |pattern| && (pattern[i] != ']' || first)
      invariant start <= i <= |pattern|
      invariant BracketBody(pattern[start..], true) == Prepend(items, BracketBody(pattern[i..], first))
      invariant matched == Hit(o, items, text, t)
    {
      BracketBodyAt(pattern, i, first);
      BracketItemAt(pattern, i);
      ghost var (item, taken) := BracketItem(pattern[i..]);
      PrependStep(items, item, BracketBody(pattern[i + taken..], false));
      HitStep(o, items, item, text, t);
      items := items + [item];
      first := false;
      var hit, next := MatchMember(text, t, pattern, i, o);
      matched := matched || hit;
      i := next;
    }
    BracketBodyEnds(pattern, i, first);
    PrependNone(items);
    if i >= |pattern| {
      return -1, nextP;
    }
    nextP := i + 1;
    PrependEnd(items, pattern[nextP..]);
    if t >= |text| {
      return -1, nextP;
    }
    consumed := if matched != negated then t + 1 else -1;
  }

  /** One member of a bracket, a class, a range or a character, against the character at `t`. */
  method MatchMember(text: string, t: nat, pattern: string, i0: nat, o: Options) returns (hit: bool, next: nat)
    requires i0 < |pattern|
    ensures var (item, taken) := BracketItem(pattern[i0..]);
            next == i0 + taken && hit == (t < |text| && ItemMatches(o, item, text[t]))
  {
    hide BracketItem, ClassEnd, InRange, CharsEqual;
    BracketItemAt(pattern, i0);
    var i := i0;
    if pattern[i] == '[' && i + 1 < |pattern| && pattern[i + 1] == ':' {
      var close := FindClassEnd(pattern, i + 2);
      if close > 0 {
        return t < |text| && o.isClass(pattern[i + 2..close], text[t]), close + 2;
      }
    }
    var low := pattern[i];
    if low == '\\' && i + 1 < |pattern| {
      i := i + 1;
      low := pattern[i];
    }
    if i + 2 < |pattern| && pattern[i + 1] == '-' && pattern[i + 2] != ']' {
      return t < |text| && InRange(o, text[t], low, pattern[i + 2]), i + 3;
    }
    return t < |text| && CharsEqual(o, text[t], low), i + 1;
  }

  /** One of the members takes the character at `t`. */
  ghost predicate Hit(o: Options, items: seq<Item>, text: string, t: nat) {
    t < |text| && AnyItem(o, items, text[t])
  }

  lemma NoItem(o: Options, text: string, t: nat)
    ensures !Hit(o, [], text, t)
  {}

  lemma HitStep(o: Options, items: seq<Item>, item: Item, text: string, t: nat)
    ensures Hit(o, items + [item], text, t) <==> Hit(o, items, text, t) || (t < |text| && ItemMatches(o, item, text[t]))
  {
    if t < |text| { AnyItemStep(o, items, item, text[t]); }
  }

  lemma BracketBodyAt(pattern: string, i: nat, first: bool)
    requires i < |pattern| && (pattern[i] != ']' || first)
    ensures var (item, taken) := BracketItem(pattern[i..]);
            && i + taken <= |pattern|
            && BracketBody(pattern[i..], first) == Prepend([item], BracketBody(pattern[i + taken..], false))
  {
    hide BracketItem;
    Suffix(pattern, i);
    var (_, taken) := BracketItem(pattern[i..]);
    assert pattern[i..][taken..] == pattern[i + taken..];
  }

  lemma BracketBodyEnds(pattern: string, i: nat, first: bool)
    requires i <= |pattern| && (i < |pattern| ==> pattern[i] == ']' && !first)
    ensures BracketBody(pattern[i..], first) == if i == |pattern| then None else Some(([], pattern[i + 1..]))
  {
    if i < |pattern| { Suffix(pattern, i); }
  }

  lemma BracketItemAt(pattern: string, i: nat)
    requires i < |pattern|
    ensures var (item, taken) := BracketItem(pattern[i..]);
            var close := if i + 1 < |pattern| && pattern[i] == '[' && pattern[i + 1] == ':' then Shift(ClassEnd(pattern[i + 2..]), i + 2) else -1;
            var at := if pattern[i] == '\\' && i + 1 < |pattern| then i + 1 else i;
            if close >= 0 then item == Class(pattern[i + 2..close]) && i + taken == close + 2
            else if at + 2 < |pattern| && pattern[at + 1] == '-' && pattern[at + 2] != ']'
            then item == Range(pattern[at], pattern[at + 2]) && i + taken == at + 3
            else item == Single(pattern[at]) && i + taken == at + 1
  {
    hide ClassEnd;
    Suffix(pattern, i);
    var s := pattern[i..];
    forall k | 0 <= k < |s| ensures s[k] == pattern[i + k] {}
    if i + 1 < |pattern| && pattern[i] == '[' && pattern[i + 1] == ':' {
      var close := ClassEnd(s[2..]);
      if close >= 0 { assert s[2..2 + close] == pattern[i + 2..i + 2 + close]; }
    }
  }

  /** The index of the first ":]" at or after `from`, or -1. */
  method FindClassEnd(pattern: string, from: nat) returns (r: int)
    requires from <= |pattern|
    ensures r == Shift(ClassEnd(pattern[from..]), from)
  {
    var i := from;
    while i + 1 < |pattern|
      invariant from <= i <= |pattern|
      invariant Shift(ClassEnd(pattern[from..]), from) == Shift(ClassEnd(pattern[i..]), i)
    {
      Suffix(pattern, i);
      if pattern[i] == ':' && pattern[i + 1] == ']' {
        return i;
      }
      i := i + 1;
    }
    r := -1;
  }

  ghost function Prepend(items: seq<Item>, r: Option<(seq<Item>, string)>): Option<(seq<Item>, string)> {
    match r
    case None => None
    case Some((more, rest)) => Some((items + more, rest))
  }

  lemma PrependNone(items: seq<Item>)
    ensures Prepend(items, None) == None
  {}

  lemma PrependEnd(items: seq<Item>, rest: string)
    ensures Prepend(items, Some(([], rest))) == Some((items, rest))
  {
    assert items + [] == items;
  }

  lemma NegationAt(pattern: string, p: nat)
    requires p < |pattern|
    ensures IsNegation(pattern[p..]) <==> p + 1 < |pattern| && (pattern[p + 1] == '!' || pattern[p + 1] == '^')
  {}

  lemma PrependNothing(r: Option<(seq<Item>, string)>)
    ensures Prepend([], r) == r
  {
    if r.Some? { assert [] + r.value.0 == r.value.0; }
  }

  lemma PrependStep(items: seq<Item>, item: Item, r: Option<(seq<Item>, string)>)
    ensures Prepend(items, Prepend([item], r)) == Prepend(items + [item], r)
  {
    if r.Some? { assert items + ([item] + r.value.0) == items + [item] + r.value.0; }
  }

  lemma AnyItemStep(o: Options, items: seq<Item>, item: Item, c: char)
    ensures AnyItem(o, items + [item], c) <==> AnyItem(o, items, c) || ItemMatches(o, item, c)
  {
    var more := items + [item];
    if AnyItem(o, items, c) {
      var i :| 0 <= i < |items| && ItemMatches(o, items[i], c);
      assert more[i] == items[i];
    }
    assert more[|items|] == item;
  }

  // ---- extglob groups ----

  method MatchExtGlob(text: string, t: nat, pattern: string, p: nat, o: Options) returns (r: int)
    requires t <= |text| && p < |pattern| && IsGroupStart(pattern[p..], o.extGlob)
    ensures r == Verdict(o, Parse(pattern[p..], o.extGlob), text, t)
    decreases |pattern| - p, 2
  {
    hide In, Parse, GroupEnd, Split, IsGroupStart, SplitsSome, SplitsRepeated, SplitsNone;
    GroupStartAt(pattern, p, o.extGlob);
    var close := FindGroupEnd(pattern, p + 1);
    ParseGroupAt(pattern, p, o.extGlob);
    if close < 0 {
      NeverAt(o, text, t);
      return -1;
    }
    var op := pattern[p];
    var alternatives := SplitAlternatives(pattern[p + 2..close]);
    var rest := pattern[close + 1..];
    ghost var bound := |pattern| - p - 1;
    ghost var ps := ParseAll(alternatives, o.extGlob, bound);
    ghost var next := Parse(rest, o.extGlob);
    GroupAt(o, op, ps, next, text, t);
    if op == '?' || op == '*' {
      var zero := MatchesFrom(text, t, rest, o);
      if zero {
        return |text|;
      }
    }
    if op == '@' || op == '?' {
      r := MatchSome(text, t, alternatives, rest, o, bound, ps);
    } else if op == '*' || op == '+' {
      r := MatchRepeated(text, t, alternatives, rest, o, bound, ps);
    } else {
      r := MatchNone(text, t, alternatives, rest, o, bound, ps);
    }
  }

  /** Whether the rest of the text from `t` belongs to `rest`. */
  method MatchesFrom(text: string, t: nat, rest: string, o: Options) returns (r: bool)
    requires t <= |text|
    ensures r <==> In(o, Parse(rest, o.extGlob), text[t..])
    decreases |rest|, 4
  {
    hide In, Parse;
    var end := Match(text, t, rest, 0, o);
    assert rest[0..] == rest;
    r := end >= 0;
  }

  /** Whether a piece of the text belongs to one alternative as a whole. */
  method MatchesSlice(text: string, start: nat, end: nat, alternative: string, o: Options) returns (r: bool)
    requires start <= end <= |text|
    ensures r <==> In(o, Parse(alternative, o.extGlob), text[start..end])
    decreases |alternative|, 5
  {
    hide In, Parse;
    var slice := text[start..end];
    var result := Match(slice, 0, alternative, 0, o);
    assert slice[0..] == slice && alternative[0..] == alternative;
    r := result == |slice|;
  }

  /** `ps` is what `alternatives` parse to. */
  ghost predicate ParsedAs(alternatives: seq<string>, ps: seq<Pat>, extGlob: bool, bound: nat) {
    && |ps| == |alternatives|
    && forall i :: 0 <= i < |ps| ==> |alternatives[i]| <= bound && ps[i] == Parse(alternatives[i], extGlob)
  }

  ghost predicate SplitsSome(o: Options, ps: seq<Pat>, next: Pat, text: string, t: nat) {
    exists i: nat, end: nat :: i < |ps| && t <= end <= |text| && In(o, ps[i], text[t..end]) && In(o, next, text[end..])
  }

  ghost predicate SplitsRepeated(o: Options, ps: seq<Pat>, next: Pat, text: string, t: nat) {
    exists end: nat :: t < end <= |text| && Repeated(o, ps, text[t..end]) && In(o, next, text[end..])
  }

  ghost predicate SplitsNone(o: Options, ps: seq<Pat>, next: Pat, text: string, t: nat) {
    exists end: nat :: t <= end <= |text| && !InSome(o, ps, text[t..end]) && In(o, next, text[end..])
  }

  method MatchSome(text: string, t: nat, alternatives: seq<string>, rest: string, o: Options, ghost bound: nat, ghost ps: seq<Pat>)
    returns (r: int)
    requires t <= |text| && ParsedAs(alternatives, ps, o.extGlob, bound) && |rest| <= bound
    ensures r == if SplitsSome(o, ps, Parse(rest, o.extGlob), text, t) then |text| else -1
    decreases bound, 8
  {
    hide In, Parse;
    var a := 0;
    while a < |alternatives|
      invariant a <= |alternatives|
      invariant forall i: nat, k: nat :: i < a && t <= k <= |text| && In(o, ps[i], text[t..k]) ==> !In(o, Parse(rest, o.extGlob), text[k..])
    {
      var end := |text| + 1;
      while end > t
        invariant t <= end <= |text| + 1
        invariant forall k: nat :: end <= k <= |text| && In(o, ps[a], text[t..k]) ==> !In(o, Parse(rest, o.extGlob), text[k..])
      {
        end := end - 1;
        var whole := MatchesSlice(text, t, end, alternatives[a], o);
        if !whole {
          continue;
        }
        var result := MatchesFrom(text, end, rest, o);
        if result {
          return |text|;
        }
      }
      a := a + 1;
    }
    r := -1;
  }

  method MatchRepeated(text: string, t: nat, alternatives: seq<string>, rest: string, o: Options, ghost bound: nat, ghost ps: seq<Pat>)
    returns (r: int)
    requires t <= |text| && ParsedAs(alternatives, ps, o.extGlob, bound) && |rest| <= bound
    ensures r == if SplitsRepeated(o, ps, Parse(rest, o.extGlob), text, t) then |text| else -1
    decreases bound, 8
  {
    hide In, Parse, Repeated, ParsedAs;
    var end := |text|;
    while end > t
      invariant t <= end <= |text|
      invariant forall k: nat :: end < k <= |text| && Repeated(o, ps, text[t..k]) ==> !In(o, Parse(rest, o.extGlob), text[k..])
    {
      var repeated := MatchesRepeated(text, t, end, alternatives, o, bound, ps);
      if repeated {
        var result := MatchesFrom(text, end, rest, o);
        if result {
          return |text|;
        }
      }
      end := end - 1;
    }
    r := -1;
  }

  method MatchNone(text: string, t: nat, alternatives: seq<string>, rest: string, o: Options, ghost bound: nat, ghost ps: seq<Pat>)
    returns (r: int)
    requires t <= |text| && ParsedAs(alternatives, ps, o.extGlob, bound) && |rest| <= bound
    ensures r == if SplitsNone(o, ps, Parse(rest, o.extGlob), text, t) then |text| else -1
    decreases bound, 8
  {
    hide In, Parse, InSome, ParsedAs;
    var end := |text| + 1;
    while end > t
      invariant t <= end <= |text| + 1
      invariant forall k: nat :: end <= k <= |text| && !InSome(o, ps, text[t..k]) ==> !In(o, Parse(rest, o.extGlob), text[k..])
    {
      end := end - 1;
      var anyMatch := MatchesAny(text, t, end, alternatives, o, bound, ps);
      if anyMatch {
        continue;
      }
      var result := MatchesFrom(text, end, rest, o);
      if result {
        return |text|;
      }
    }
    r := -1;
  }

  method MatchesAny(text: string, start: nat, end: nat, alternatives: seq<string>, o: Options, ghost bound: nat, ghost ps: seq<Pat>)
    returns (r: bool)
    requires start <= end <= |text| && ParsedAs(alternatives, ps, o.extGlob, bound)
    ensures r <==> InSome(o, ps, text[start..end])
    decreases bound, 6
  {
    hide In, Parse;
    var a := 0;
    while a < |alternatives|
      invariant a <= |alternatives|
      invariant forall i :: 0 <= i < a ==> !In(o, ps[i], text[start..end])
    {
      var whole := MatchesSlice(text, start, end, alternatives[a], o);
      if whole {
        return true;
      }
      a := a + 1;
    }
    r := false;
  }

  method MatchesRepeated(text: string, start: nat, end: nat, alternatives: seq<string>, o: Options, ghost bound: nat, ghost ps: seq<Pat>)
    returns (r: bool)
    requires start <= end <= |text| && ParsedAs(alternatives, ps, o.extGlob, bound)
    ensures r <==> start == end || Repeated(o, ps, text[start..end])
    decreases bound, 6, end - start
  {
    hide In, Parse, Repeated;
    if start == end {
      return true;
    }
    RepeatedAt(o, ps, text, start, end);
    var a := 0;
    while a < |alternatives|
      invariant a <= |alternatives|
      invariant forall i: nat, k: nat :: i < a && start < k <= end ==> !StartsRepeated(o, ps, text, start, end, i, k)
    {
      var split := end;
      while split > start
        invariant start <= split <= end
        invariant forall k: nat :: split < k <= end ==> !StartsRepeated(o, ps, text, start, end, a, k)
      {
        var whole := MatchesSlice(text, start, split, alternatives[a], o);
        if whole {
          var more := MatchesRepeated(text, split, end, alternatives, o, bound, ps);
          if more {
            assert StartsRepeated(o, ps, text, start, end, a, split);
            return true;
          }
        }
        split := split - 1;
      }
      a := a + 1;
    }
    r := false;
  }

  /** `text[start..split]` is in alternative `i`, and more pieces follow or the text is at its end. */
  ghost predicate StartsRepeated(o: Options, ps: seq<Pat>, text: string, start: nat, end: nat, i: nat, split: nat)
    requires start <= end <= |text|
  {
    && i < |ps| && start < split <= end
    && In(o, ps[i], text[start..split])
    && (split == end || Repeated(o, ps, text[split..end]))
  }

  lemma RepeatedAt(o: Options, ps: seq<Pat>, text: string, start: nat, end: nat)
    requires start < end <= |text|
    ensures Repeated(o, ps, text[start..end]) <==>
            exists i: nat, split: nat :: StartsRepeated(o, ps, text, start, end, i, split)
  {
    hide In;
    if Repeated(o, ps, text[start..end]) {
      RepeatedSplits(o, ps, text, start, end);
    }
    if i: nat, split: nat :| StartsRepeated(o, ps, text, start, end, i, split) {
      RepeatedJoins(o, ps, text, start, end, i, split);
    }
  }

  lemma RepeatedSplits(o: Options, ps: seq<Pat>, text: string, start: nat, end: nat)
    requires start < end <= |text| && Repeated(o, ps, text[start..end])
    ensures exists i: nat, split: nat :: StartsRepeated(o, ps, text, start, end, i, split)
  {
    hide In, Concat, Pieces, InSome, StartsRepeated;
    var parts: seq<string> :| parts != [] && Concat(parts) == text[start..end] && Pieces(o, ps, parts);
    FirstPiece(o, ps, parts);
    var first, rest := parts[0], parts[1..];
    var i: nat :| i < |ps| && In(o, ps[i], first);
    var split: nat := start + |first|;
    assert split <= end;
    assert text[start..split] == text[start..end][..|first|] == first;
    assert text[split..end] == text[start..end][|first|..] == Concat(rest);
    FirstPieceStarts(o, ps, text, start, end, i, split, rest);
  }

  lemma FirstPiece(o: Options, ps: seq<Pat>, parts: seq<string>)
    requires parts != [] && Pieces(o, ps, parts)
    ensures parts[0] != "" && Pieces(o, ps, parts[1..])
    ensures exists i: nat :: i < |ps| && In(o, ps[i], parts[0])
    ensures Concat(parts) == parts[0] + Concat(parts[1..])
  {
    hide In, Concat;
    assert InSome(o, ps, parts[0]);
    assert Concat(parts) == parts[0] + Concat(parts[1..]) by { ConcatStep(parts); }
    assert Pieces(o, ps, parts[1..]) by {
      forall k | 0 <= k < |parts[1..]| ensures parts[1..][k] != "" && InSome(o, ps, parts[1..][k]) {
        assert parts[1..][k] == parts[k + 1];
      }
    }
  }

  lemma ConcatStep(parts: seq<string>)
    requires parts != []
    ensures Concat(parts) == parts[0] + Concat(parts[1..])
  {}

  lemma FirstPieceStarts(o: Options, ps: seq<Pat>, text: string, start: nat, end: nat, i: nat, split: nat, rest: seq<string>)
    requires start < split <= end <= |text| && i < |ps| && In(o, ps[i], text[start..split])
    requires Concat(rest) == text[split..end] && Pieces(o, ps, rest)
    ensures StartsRepeated(o, ps, text, start, end, i, split)
  {
    hide In, Pieces;
    if split < end {
      assert |Concat(rest)| > 0;
      assert rest != [];
    }
  }

  lemma RepeatedJoins(o: Options, ps: seq<Pat>, text: string, start: nat, end: nat, i: nat, split: nat)
    requires start < end <= |text| && StartsRepeated(o, ps, text, start, end, i, split)
    ensures Repeated(o, ps, text[start..end])
  {
    hide In;
    var first := text[start..split];
    var rest: seq<string> := [];
    if split < end {
      rest :| rest != [] && Concat(rest) == text[split..end] && Pieces(o, ps, rest);
    }
    var parts := [first] + rest;
    assert parts[1..] == rest;
    assert Concat(parts) == first + Concat(rest);
    assert text[start..end] == first + text[split..end];
    assert InSome(o, ps, first);
    assert Pieces(o, ps, parts);
  }

  lemma NeverAt(o: Options, text: string, t: nat)
    requires t <= |text|
    ensures !In(o, Never, text[t..])
  {}

  lemma ParseGroupAt(pattern: string, p: nat, extGlob: bool)
    requires p < |pattern| && IsGroupStart(pattern[p..], extGlob)
    ensures var close := Shift(GroupEnd(pattern[p + 1..], 0), p + 1);
            if close < 0 then Parse(pattern[p..], extGlob) == Never
            else
              && p + 2 <= close < |pattern|
              && ParsedAs(Split("", pattern[p + 2..close], 0), ParseAll(Split("", pattern[p + 2..close], 0), extGlob, |pattern| - p - 1), extGlob, |pattern| - p - 1)
              && Parse(pattern[p..], extGlob)
                 == Group(pattern[p], ParseAll(Split("", pattern[p + 2..close], 0), extGlob, |pattern| - p - 1), Parse(pattern[close + 1..], extGlob))
  {
    hide GroupEnd, Split, ParseAll, SkipStars, BracketBody;
    Suffix(pattern, p);
    var s := pattern[p..];
    var close := GroupEnd(s[1..], 0);
    if close >= 0 {
      Suffix(pattern, p + 1);
      GroupEndPositive(s[1..]);
      assert s[2..1 + close] == pattern[p + 2..p + 1 + close];
      assert s[close + 2..] == pattern[p + close + 2..];
    }
  }

  lemma GroupEndPositive(s: string)
    requires s != "" && s[0] == '('
    ensures GroupEnd(s, 0) != 0
  {}

  lemma GroupAt(o: Options, op: char, ps: seq<Pat>, next: Pat, text: string, t: nat)
    requires t <= |text|
    ensures In(o, Group(op, ps, next), text[t..]) <==>
            || ((op == '?' || op == '*') && In(o, next, text[t..]))
            || ((op == '?' || op == '@') && SplitsSome(o, ps, next, text, t))
            || ((op == '*' || op == '+') && SplitsRepeated(o, ps, next, text, t))
            || (op == '!' && SplitsNone(o, ps, next, text, t))
  {
    hide Repeated, SplitsSome, SplitsRepeated, SplitsNone, InSome;
    SplitsSomeAt(o, ps, next, text, t);
    SplitsRepeatedAt(o, ps, next, text, t);
    SplitsNoneAt(o, ps, next, text, t);
  }

  lemma Cut(text: string, t: nat, k: nat)
    requires t + k <= |text|
    ensures text[t..][..k] == text[t..t + k] && text[t..][k..] == text[t + k..]
  {}

  lemma SplitsSomeAt(o: Options, ps: seq<Pat>, next: Pat, text: string, t: nat)
    requires t <= |text|
    ensures SplitsSome(o, ps, next, text, t) <==>
            exists k :: 0 <= k <= |text[t..]| && InSome(o, ps, text[t..][..k]) && In(o, next, text[t..][k..])
  {
    hide In;
    if i: nat, end: nat :| i < |ps| && t <= end <= |text| && In(o, ps[i], text[t..end]) && In(o, next, text[end..]) {
      Cut(text, t, end - t);
    }
    if k :| 0 <= k <= |text[t..]| && InSome(o, ps, text[t..][..k]) && In(o, next, text[t..][k..]) {
      Cut(text, t, k);
      var i: nat :| i < |ps| && In(o, ps[i], text[t..t + k]);
    }
  }

  lemma SplitsRepeatedAt(o: Options, ps: seq<Pat>, next: Pat, text: string, t: nat)
    requires t <= |text|
    ensures SplitsRepeated(o, ps, next, text, t) <==>
            exists k :: 0 < k <= |text[t..]| && Repeated(o, ps, text[t..][..k]) && In(o, next, text[t..][k..])
  {
    hide In, Repeated;
    if end: nat :| t < end <= |text| && Repeated(o, ps, text[t..end]) && In(o, next, text[end..]) {
      Cut(text, t, end - t);
    }
    if k :| 0 < k <= |text[t..]| && Repeated(o, ps, text[t..][..k]) && In(o, next, text[t..][k..]) {
      Cut(text, t, k);
    }
  }

  lemma SplitsNoneAt(o: Options, ps: seq<Pat>, next: Pat, text: string, t: nat)
    requires t <= |text|
    ensures SplitsNone(o, ps, next, text, t) <==>
            exists k :: 0 <= k <= |text[t..]| && !InSome(o, ps, text[t..][..k]) && In(o, next, text[t..][k..])
  {
    hide In, InSome;
    if end: nat :| t <= end <= |text| && !InSome(o, ps, text[t..end]) && In(o, next, text[end..]) {
      Cut(text, t, end - t);
    }
    if k :| 0 <= k <= |text[t..]| && !InSome(o, ps, text[t..][..k]) && In(o, next, text[t..][k..]) {
      Cut(text, t, k);
    }
  }

  // ---- the two scanners ----

  method FindGroupEnd(pattern: string, openIndex: nat) returns (r: int)
    requires openIndex <= |pattern|
    ensures r == Shift(GroupEnd(pattern[openIndex..], 0), openIndex)
  {
    hide GroupEnd;
    var depth := 0;
    var i := openIndex;
    while i < |pattern|
      invariant openIndex <= i <= |pattern| + 1
      invariant Shift(GroupEnd(pattern[openIndex..], 0), openIndex) == if i > |pattern| then -1 else Shift(GroupEnd(pattern[i..], depth), i)
    {
      GroupEndAt(pattern, i, depth);
      match pattern[i] {
        case '\\' => i := i + 1;
        case '(' => depth := depth + 1;
        case ')' =>
          depth := depth - 1;
          if depth == 0 {
            return i;
          }
        case _ =>
      }
      i := i + 1;
    }
    GroupEndEmpty(pattern);
    r := -1;
  }

  lemma GroupEndEmpty(pattern: string)
    ensures forall depth :: GroupEnd(pattern[|pattern|..], depth) == -1
  {}

  lemma GroupEndAt(s: string, i: nat, depth: int)
    requires i < |s|
    ensures Shift(GroupEnd(s[i..], depth), i) ==
            if s[i] == '\\' then (if i + 1 == |s| then -1 else Shift(GroupEnd(s[i + 2..], depth), i + 2)) else
            if s[i] == '(' then Shift(GroupEnd(s[i + 1..], depth + 1), i + 1) else
            if s[i] == ')' then (if depth == 1 then i else Shift(GroupEnd(s[i + 1..], depth - 1), i + 1)) else
            Shift(GroupEnd(s[i + 1..], depth), i + 1)
  {
    Suffix(s, i);
  }

  method SplitAlternatives(body: string) returns (result: seq<string>)
    ensures result == Split("", body, 0)
  {
    hide Split;
    result := [];
    var depth := 0;
    var start := 0;
    var i := 0;
    assert body[0..0] == "" && body[0..] == body && Split("", body, 0) == [] + Split("", body, 0);
    while i < |body|
      invariant 0 <= start <= i <= |body| + 1 && start <= |body|
      invariant Split("", body, 0) == result + (if i > |body| then [body[start..]] else Split(body[start..i], body[i..], depth))
    {
      SplitAt(body, start, i, depth);
      match body[i] {
        case '\\' => i := i + 1;
        case '(' => depth := depth + 1;
        case ')' => depth := depth - 1;
        case '|' =>
          if depth == 0 {
            ghost var more := Split("", body[i + 1..], 0);
            assert result + ([body[start..i]] + more) == result + [body[start..i]] + more;
            result := result + [body[start..i]];
            start := i + 1;
            assert body[start..start] == "";
          }
        case _ =>
      }
      i := i + 1;
    }
    SplitEnds(body[start..], if i <= |body| then body[i..] else "", depth);
    if i <= |body| { assert body[start..i] == body[start..]; }
    result := result + [body[start..]];
  }

  lemma SplitEnds(piece: string, s: string, depth: int)
    requires s == ""
    ensures Split(piece, s, depth) == [piece]
  {}

  lemma SplitAt(s: string, start: nat, i: nat, depth: int)
    requires start <= i < |s|
    ensures Split(s[start..i], s[i..], depth) ==
            if s[i] == '\\' then (if i + 1 == |s| then [s[start..]] else Split(s[start..i + 2], s[i + 2..], depth)) else
            if s[i] == '(' then Split(s[start..i + 1], s[i + 1..], depth + 1) else
            if s[i] == ')' then Split(s[start..i + 1], s[i + 1..], depth - 1) else
            if s[i] == '|' && depth == 0 then [s[start..i]] + Split("", s[i + 1..], depth) else
            Split(s[start..i + 1], s[i + 1..], depth)
  {
    Suffix(s, i);
    assert s[start..i] + s[i..][..1] == s[start..i + 1];
    if i + 1 < |s| { assert s[start..i] + s[i..][..2] == s[start..i + 2]; }
    assert s[start..i] + s[i..] == s[start..];
  }
}
