/**
 The expander as it runs: index loops over the text, and one list of results that every
 recursive call appends to.
 */
module BraceExpander {
  import opened Wrappers
  import opened Texts
  import opened BraceRanges
  import opened BraceItems
  import opened BraceExpansion

  method Expand(text: string, limit: nat) returns (r: Result<seq<string>>)
    ensures Answers(r, [], Expansion(text), limit)
    ensures r.LimitExceeded? <==> Stops(text, 0, limit)
  {
    r := ExpandInto(text, [], limit);
  }

  // ---- where the limit stops the expander ----

  /** Some call on the way begins with more results than the limit, and none before it ran into a range without end. */
  ghost predicate Stops(text: string, count: nat, limit: nat)
    decreases |text|, 1, 0
  {
    count > limit ||
    var open := OpeningBrace(text);
    open >= 0 &&
    var close := Shift(MatchingBrace(text[open..], 0), open);
    close >= 0 &&
    var prefix, body, suffix := text[..open], text[open + 1..close], text[close + 1..];
    CloseAfterOpen(text, open);
    match RangeOf(body)
    case NoResult => false
    case Items(items) => ItemsFit(body); StopsAmong(prefix, items, suffix, count, limit, |text|)
    case NotARange =>
      var alternatives := Split("", body, 0);
      AlternativesFit(body);
      if |alternatives| < 2 then Stops(body, 0, limit) || (Expansion(body).Some? && Stops(suffix, 0, limit))
      else StopsAmong(prefix, alternatives, suffix, count, limit, |text|)
  }

  ghost predicate StopsAmong(prefix: string, pieces: seq<string>, suffix: string, count: nat, limit: nat, bound: nat)
    requires forall k :: 0 <= k < |pieces| ==> |prefix| + |pieces[k]| + |suffix| < bound
    decreases bound, 0, |pieces|
  {
    pieces != [] &&
    var first := Expansion(prefix + pieces[0] + suffix);
    || Stops(prefix + pieces[0] + suffix, count, limit)
    || (first.Some? && StopsAmong(prefix, pieces[1..], suffix, count + |first.value|, limit, bound))
  }

  /** Every group met on the way is a range or has alternatives; none keeps its braces. */
  ghost predicate AllGroups(text: string)
    decreases |text|, 1, 0
  {
    var open := OpeningBrace(text);
    open < 0 ||
    var close := Shift(MatchingBrace(text[open..], 0), open);
    close < 0 ||
    var prefix, body, suffix := text[..open], text[open + 1..close], text[close + 1..];
    CloseAfterOpen(text, open);
    match RangeOf(body)
    case NoResult => true
    case Items(items) => ItemsFit(body); AllGroupsAmong(prefix, items, suffix, |text|)
    case NotARange =>
      var alternatives := Split("", body, 0);
      AlternativesFit(body);
      |alternatives| >= 2 && AllGroupsAmong(prefix, alternatives, suffix, |text|)
  }

  ghost predicate AllGroupsAmong(prefix: string, pieces: seq<string>, suffix: string, bound: nat)
    requires forall k :: 0 <= k < |pieces| ==> |prefix| + |pieces[k]| + |suffix| < bound
    decreases bound, 0, |pieces|
  {
    pieces != [] ==> AllGroups(prefix + pieces[0] + suffix) && AllGroupsAmong(prefix, pieces[1..], suffix, bound)
  }

  /**
   The limit is looked at as each call begins, so a text whose groups all are groups may come to one
   result more than the limit, and is refused exactly when it comes to more than that.
   */
  lemma {:induction false} LimitExactly(text: string, count: nat, limit: nat)
    requires Expansion(text).Some? && AllGroups(text)
    ensures Stops(text, count, limit) <==> count + |Expansion(text).value| > limit + 1
    ensures Expansion(text).value != []
    decreases |text|, 1, 0
  {
    hide OpeningBrace, MatchingBrace, Split, RangeOf, ExpandAll, StopsAmong, AllGroupsAmong;
    ExpansionSome(text);
    var open := OpeningBrace(text);
    if open >= 0 {
      var close := Shift(MatchingBrace(text[open..], 0), open);
      if close >= 0 {
        CloseAfterOpen(text, open);
        var prefix, body, suffix := text[..open], text[open + 1..close], text[close + 1..];
        if RangeOf(body).Items? {
          ItemsFit(body);
          LimitAmong(prefix, RangeOf(body).items, suffix, count, limit, |text|);
        } else if RangeOf(body).NotARange? {
          AlternativesFit(body);
          LimitAmong(prefix, Split("", body, 0), suffix, count, limit, |text|);
        }
      }
    }
  }

  lemma {:induction false} LimitAmong(prefix: string, pieces: seq<string>, suffix: string, count: nat, limit: nat, bound: nat)
    requires pieces != [] && forall k :: 0 <= k < |pieces| ==> |prefix| + |pieces[k]| + |suffix| < bound
    requires ExpandAll(prefix, pieces, suffix, bound).Some? && AllGroupsAmong(prefix, pieces, suffix, bound)
    ensures StopsAmong(prefix, pieces, suffix, count, limit, bound)
            <==> count + |ExpandAll(prefix, pieces, suffix, bound).value| > limit + 1
    decreases bound, 0, |pieces|
  {
    hide Expansion, Stops, AllGroups;
    var text, rest := prefix + pieces[0] + suffix, pieces[1..];
    var first := Expansion(text).value;
    LimitExactly(text, count, limit);
    if rest != [] {
      LimitAmong(prefix, rest, suffix, count + |first|, limit, bound);
      EachSome(prefix, rest, suffix, bound);
    }
  }

  /**
   Results only when there are some, and all of them; the limit only when there are more results
   than that; and no end only when there is no result.
   */
  predicate Answers(r: Result<seq<string>>, before: seq<string>, words: Option<seq<string>>, limit: nat) {
    match r
    case Ok(value) => words.Some? && value == before + words.value
    case LimitExceeded => words.Some? ==> |before| + |words.value| > limit
    case Endless => words.None?
  }

  /** Appends what `text` expands to, unless there is already more than the limit. */
  method ExpandInto(text: string, before: seq<string>, limit: nat) returns (r: Result<seq<string>>)
    ensures Answers(r, before, Expansion(text), limit)
    ensures r.LimitExceeded? <==> Stops(text, |before|, limit)
    decreases |text|, 1, 0
  {
    hide OpeningBrace, MatchingBrace, Split, Product, ExpandAll, StopsAmong, RangeOf;
    if |before| > limit {
      return LimitExceeded;
    }
    var open := FindOpeningBrace(text);
    if open < 0 {
      return Ok(before + [text]);
    }
    CloseAfterOpen(text, open);
    var close := FindMatchingBrace(text, open);
    if close < 0 {
      return Ok(before + [text]);
    }
    var prefix, body, suffix := text[..open], text[open + 1..close], text[close + 1..];
    var range := TryExpandRange(body);
    if range.NoResult? {
      return Endless;
    }
    if range.Items? {
      ItemsFit(body);
      r := ExpandEach(prefix, range.items, suffix, before, limit, |text|);
      return;
    }
    AlternativesFit(body);
    var alternatives := SplitAlternatives(body);
    if |alternatives| < 2 {
      r := ExpandLiteral(prefix, body, suffix, before, limit);
      return;
    }
    r := ExpandEach(prefix, alternatives, suffix, before, limit, |text|);
  }

  /** A group without alternatives: its body and what follows are expanded by themselves. */
  method ExpandLiteral(prefix: string, body: string, suffix: string, before: seq<string>, limit: nat) returns (r: Result<seq<string>>)
    ensures Answers(r, before, Recombined(prefix, Expansion(body), Expansion(suffix)), limit)
    ensures r.LimitExceeded? <==> Stops(body, 0, limit) || (Expansion(body).Some? && Stops(suffix, 0, limit))
    decreases |body| + |suffix|, 2, 0
  {
    hide Expansion, Product, Stops;
    if Expansion(body).Some? && Expansion(suffix).Some? {
      ExpansionSome(body);
      ExpansionSome(suffix);
      ProductSizes(prefix, Expansion(body).value, Expansion(suffix).value);
    }
    var bodies := ExpandInto(body, [], limit);
    if !bodies.Ok? {
      return bodies;
    }
    var suffixes := ExpandInto(suffix, [], limit);
    if !suffixes.Ok? {
      return suffixes;
    }
    assert [] + Expansion(body).value == Expansion(body).value && [] + Expansion(suffix).value == Expansion(suffix).value;
    var combined := Recombine(prefix, bodies.value, suffixes.value);
    r := Ok(before + combined);
  }

  method ExpandEach(prefix: string, pieces: seq<string>, suffix: string, before: seq<string>, limit: nat, ghost bound: nat)
    returns (r: Result<seq<string>>)
    requires forall k :: 0 <= k < |pieces| ==> |prefix| + |pieces[k]| + |suffix| < bound
    ensures Answers(r, before, ExpandAll(prefix, pieces, suffix, bound), limit)
    ensures r.LimitExceeded? <==> StopsAmong(prefix, pieces, suffix, |before|, limit, bound)
    decreases bound, 0, 0
  {
    hide Expansion, ExpandAll, Stops;
    r := Ok(before);
    assert pieces[0..] == pieces;
    ghost var whole := ExpandAll(prefix, pieces, suffix, bound);
    AllAppended(before, whole);
    for k := 0 to |pieces|
      invariant r.Ok? && Appended(before, whole) == Appended(r.value, ExpandAll(prefix, pieces[k..], suffix, bound))
      invariant StopsAmong(prefix, pieces, suffix, |before|, limit, bound) <==> StopsAmong(prefix, pieces[k..], suffix, |r.value|, limit, bound)
    {
      ghost var rest := pieces[k..];
      assert rest[0] == pieces[k] && rest[1..] == pieces[k + 1..];
      ghost var start := r.value;
      ghost var first, more := Expansion(prefix + pieces[k] + suffix), ExpandAll(prefix, rest[1..], suffix, bound);
      NextAppended(prefix, rest, suffix, bound, start);
      r := ExpandInto(prefix + pieces[k] + suffix, r.value, limit);
      if !r.Ok? {
        return;
      }
    }
    NoneAppended(prefix, pieces[|pieces|..], suffix, bound, r.value);
  }

  ghost function Appended(before: seq<string>, words: Option<seq<string>>): Option<seq<string>> {
    if words.None? then None else Some(before + words.value)
  }

  lemma AllAppended(before: seq<string>, words: Option<seq<string>>)
    ensures Appended(before, words).Some? ==> |Appended(before, words).value| == |before| + |words.value|
  {}

  lemma NextAppended(prefix: string, pieces: seq<string>, suffix: string, bound: nat, before: seq<string>)
    requires pieces != [] && forall k :: 0 <= k < |pieces| ==> |prefix| + |pieces[k]| + |suffix| < bound
    ensures var first, more := Expansion(prefix + pieces[0] + suffix), ExpandAll(prefix, pieces[1..], suffix, bound);
            Appended(before, ExpandAll(prefix, pieces, suffix, bound))
            == if first.None? then None else Appended(before + first.value, more)
  {
    hide Expansion;
    var first, more := Expansion(prefix + pieces[0] + suffix), ExpandAll(prefix, pieces[1..], suffix, bound);
    if first.Some? && more.Some? { Associate(before, first.value, more.value); }
  }

  lemma NoneAppended(prefix: string, pieces: seq<string>, suffix: string, bound: nat, before: seq<string>)
    requires pieces == []
    ensures Appended(before, ExpandAll(prefix, pieces, suffix, bound)) == Some(before)
  {
    assert before + [] == before;
  }

  lemma Associate(a: seq<string>, b: seq<string>, c: seq<string>)
    ensures a + (b + c) == (a + b) + c
  {}

  /** A literal group: the braces stay, around each body and before each suffix. */
  method Recombine(prefix: string, bodies: seq<string>, suffixes: seq<string>) returns (r: seq<string>)
    ensures r == Product(Product([prefix + "{"], bodies), Map("}", suffixes))
  {
    hide Product;
    r := [];
    ProductOne(prefix + "{", bodies);
    ghost var xs, ys := Map(prefix + "{", bodies), Map("}", suffixes);
    assert xs[0..] == xs;
    for i := 0 to |bodies|
      invariant r + Product(xs[i..], ys) == Product(xs, ys)
    {
      ProductStep(xs[i..], ys);
      assert xs[i..][0] == prefix + "{" + bodies[i] && xs[i..][1..] == xs[i + 1..];
      ghost var start := r;
      for j := 0 to |suffixes|
        invariant r == start + Map(xs[i], ys)[..j]
      {
        assert Map(xs[i], ys)[j] == xs[i] + ("}" + suffixes[j]) == prefix + "{" + bodies[i] + "}" + suffixes[j];
        r := r + [prefix + "{" + bodies[i] + "}" + suffixes[j]];
      }
      assert Map(xs[i], ys)[..|suffixes|] == Map(xs[i], ys);
      Associate(start, Map(xs[i], ys), Product(xs[i + 1..], ys));
    }
    assert xs[|bodies|..] == [];
    ProductNone(ys);
    assert r + [] == r;
  }

  lemma ProductStep(xs: seq<string>, ys: seq<string>)
    requires xs != []
    ensures Product(xs, ys) == Map(xs[0], ys) + Product(xs[1..], ys)
  {}

  lemma ProductNone(ys: seq<string>)
    ensures Product([], ys) == []
  {}

  lemma ProductOne(x: string, ys: seq<string>)
    ensures Product([x], ys) == Map(x, ys)
  {
    assert [x][1..] == [];
    assert Map(x, ys) + [] == Map(x, ys);
  }

  lemma ProductSizes(prefix: string, bodies: seq<string>, suffixes: seq<string>)
    requires bodies != [] && suffixes != []
    ensures var all := Product(Product([prefix + "{"], bodies), Map("}", suffixes));
            |bodies| <= |all| && |suffixes| <= |all|
  {
    var b, s := |bodies|, |suffixes|;
    assert |Product([prefix + "{"], bodies)| == 1 * b;
    Grows(b, s);
  }

  lemma Grows(b: nat, s: nat)
    requires b > 0 && s > 0
    ensures b <= b * s && s <= b * s
  {}

  lemma {:induction false} ExpansionSome(text: string)
    requires Expansion(text).Some?
    ensures Expansion(text).value != []
    decreases |text|
  {
    hide OpeningBrace, MatchingBrace, Split, Product, RangeOf;
    var open := OpeningBrace(text);
    if open >= 0 {
      var close := Shift(MatchingBrace(text[open..], 0), open);
      if close >= 0 {
        CloseAfterOpen(text, open);
        var prefix, body, suffix := text[..open], text[open + 1..close], text[close + 1..];
        AlternativesFit(body);
        if RangeOf(body).Items? {
          ItemsFit(body);
          EachSome(prefix, RangeOf(body).items, suffix, |text|);
        } else if |Split("", body, 0)| < 2 {
          ExpansionSome(body);
          ExpansionSome(suffix);
          ProductSizes(prefix, Expansion(body).value, Expansion(suffix).value);
        } else {
          EachSome(prefix, Split("", body, 0), suffix, |text|);
        }
      }
    }
  }

  lemma EachSome(prefix: string, pieces: seq<string>, suffix: string, bound: nat)
    requires pieces != [] && forall k :: 0 <= k < |pieces| ==> |prefix| + |pieces[k]| + |suffix| < bound
    requires ExpandAll(prefix, pieces, suffix, bound).Some?
    ensures ExpandAll(prefix, pieces, suffix, bound).value != []
    decreases bound, 0
  {
    hide Expansion;
    ExpansionSome(prefix + pieces[0] + suffix);
  }

  // ---- the scanners ----

  lemma Rest(s: string, i: nat)
    requires i < |s|
    ensures s[i..] != "" && s[i..][0] == s[i] && s[i..][1..] == s[i + 1..]
    ensures |s[i..]| > 1 ==> s[i..][1] == s[i + 1] && s[i..][2..] == s[i + 2..]
  {}

  /** The index of the next `c` at or after `from0`, or -1. */
  method FindCharacter(text: string, c: char, from0: nat) returns (r: int)
    requires from0 <= |text|
    ensures r == Shift(IndexOf(text[from0..], c), from0)
  {
    var i := from0;
    while i < |text|
      invariant from0 <= i <= |text|
      invariant Shift(IndexOf(text[from0..], c), from0) == Shift(IndexOf(text[i..], c), i)
    {
      Rest(text, i);
      if text[i] == c {
        return i;
      }
      i := i + 1;
    }
    r := -1;
  }

  /** The index just past a quoted part: after its closing quote, or the end of the text. */
  method SkipQuote(text: string, i: nat) returns (next: nat)
    requires i < |text|
    ensures i < next <= |text| && text[next..] == AfterQuote(text[i..])
  {
    var end := FindCharacter(text, text[i], i + 1);
    Rest(text, i);
    next := if end < 0 then |text| else end + 1;
  }

  method FindMatchingBrace(text: string, open: nat) returns (r: int)
    requires open <= |text|
    ensures r == Shift(MatchingBrace(text[open..], 0), open)
  {
    hide MatchingBrace;
    var depth := 0;
    var i := open;
    while i < |text|
      invariant open <= i <= |text|
      invariant Shift(MatchingBrace(text[open..], 0), open) == Shift(MatchingBrace(text[i..], depth), i)
    {
      MatchingAt(text, i, depth);
      if text[i] == '\\' {
        i := if i + 1 < |text| then i + 2 else i + 1;
      } else if IsQuote(text[i]) {
        i := SkipQuote(text, i);
      } else {
        if text[i] == '{' {
          depth := depth + 1;
        } else if text[i] == '}' {
          depth := depth - 1;
          if depth == 0 {
            return i;
          }
        }
        i := i + 1;
      }
    }
    MatchingNone(text[i..]);
    r := -1;
  }

  lemma MatchingNone(s: string)
    requires s == ""
    ensures forall depth :: MatchingBrace(s, depth) == -1
  {}

  lemma MatchingAt(s: string, i: nat, depth: int)
    requires i < |s|
    ensures Shift(MatchingBrace(s[i..], depth), i) ==
            if s[i] == '\\' then (if i + 1 == |s| then Shift(MatchingBrace(s[i + 1..], depth), i + 1) else Shift(MatchingBrace(s[i + 2..], depth), i + 2))
            else if IsQuote(s[i]) then
              var rest := AfterQuote(s[i..]);
              Shift(MatchingBrace(rest, depth), |s| - |rest|)
            else if s[i] == '{' then Shift(MatchingBrace(s[i + 1..], depth + 1), i + 1)
            else if s[i] == '}' then (if depth == 1 then i else Shift(MatchingBrace(s[i + 1..], depth - 1), i + 1))
            else Shift(MatchingBrace(s[i + 1..], depth), i + 1)
  {
    hide AfterQuote;
    Rest(s, i);
  }

  method FindOpeningBrace(text: string) returns (r: int)
    ensures r == OpeningBrace(text)
  {
    hide OpeningBrace, MatchingBrace, AfterQuote;
    var i := 0;
    assert text[0..] == text;
    while i < |text|
      invariant 0 <= i <= |text|
      invariant OpeningBrace(text) == Shift(OpeningBrace(text[i..]), i)
    {
      OpeningAt(text, i);
      if text[i] == '\\' {
        i := if i + 1 < |text| then i + 2 else i + 1;
      } else if IsQuote(text[i]) {
        i := SkipQuote(text, i);
      } else if text[i] == '$' && i + 1 < |text| && text[i + 1] == '{' {
        var end := FindMatchingBrace(text, i + 1);
        i := if end < 0 then |text| else end + 1;
      } else if text[i] == '{' {
        return i;
      } else {
        i := i + 1;
      }
    }
    OpeningNone(text[i..]);
    r := -1;
  }

  lemma OpeningNone(s: string)
    requires s == ""
    ensures OpeningBrace(s) == -1
  {}

  lemma OpeningAt(s: string, i: nat)
    requires i < |s|
    ensures Shift(OpeningBrace(s[i..]), i) ==
            if s[i] == '\\' then (if i + 1 == |s| then Shift(OpeningBrace(s[i + 1..]), i + 1) else Shift(OpeningBrace(s[i + 2..]), i + 2))
            else if IsQuote(s[i]) then
              var rest := AfterQuote(s[i..]);
              Shift(OpeningBrace(rest), |s| - |rest|)
            else if s[i] == '$' && i + 1 < |s| && s[i + 1] == '{' then
              var end := Shift(MatchingBrace(s[i + 1..], 0), i + 1);
              if end < 0 then Shift(OpeningBrace(s[|s|..]), |s|) else Shift(OpeningBrace(s[end + 1..]), end + 1)
            else if s[i] == '{' then i
            else Shift(OpeningBrace(s[i + 1..]), i + 1)
  {
    hide AfterQuote, MatchingBrace;
    Rest(s, i);
    if s[i] == '$' && i + 1 < |s| && s[i + 1] == '{' {
      var end := MatchingBrace(s[i + 1..], 0);
      if end >= 0 { assert s[i..][end + 2..] == s[i + end + 2..]; }
    }
  }

  method SplitAlternatives(body: string) returns (result: seq<string>)
    ensures result == Split("", body, 0)
  {
    hide Split, AfterQuote;
    result := [];
    var depth := 0;
    var start := 0;
    var i := 0;
    assert body[0..0] == "" && body[0..] == body && [] + Split("", body, 0) == Split("", body, 0);
    while i < |body|
      invariant 0 <= start <= i <= |body|
      invariant Split("", body, 0) == result + Split(body[start..i], body[i..], depth)
    {
      SplitAt(body, start, i, depth);
      if body[i] == '\\' {
        i := if i + 1 < |body| then i + 2 else i + 1;
      } else if IsQuote(body[i]) {
        i := SkipQuote(body, i);
      } else {
        if body[i] == '{' {
          depth := depth + 1;
        } else if body[i] == '}' {
          depth := depth - 1;
        } else if body[i] == ',' && depth == 0 {
          Associate(result, [body[start..i]], Split("", body[i + 1..], 0));
          result := result + [body[start..i]];
          start := i + 1;
          assert body[start..i + 1] == "";
        }
        i := i + 1;
      }
    }
    SplitNone(body[start..i], body[i..], depth);
    assert body[start..i] == body[start..];
    result := result + [body[start..]];
  }

  lemma SplitNone(piece: string, s: string, depth: int)
    requires s == ""
    ensures Split(piece, s, depth) == [piece]
  {}

  lemma SplitAt(s: string, start: nat, i: nat, depth: int)
    requires start <= i < |s|
    ensures Split(s[start..i], s[i..], depth) ==
            if s[i] == '\\' then
              (if i + 1 == |s| then Split(s[start..i + 1], s[i + 1..], depth) else Split(s[start..i + 2], s[i + 2..], depth))
            else if IsQuote(s[i]) then
              var rest := AfterQuote(s[i..]);
              Split(s[start..|s| - |rest|], rest, depth)
            else if s[i] == '{' then Split(s[start..i + 1], s[i + 1..], depth + 1)
            else if s[i] == '}' then Split(s[start..i + 1], s[i + 1..], depth - 1)
            else if s[i] == ',' && depth == 0 then [s[start..i]] + Split("", s[i + 1..], depth)
            else Split(s[start..i + 1], s[i + 1..], depth)
  {
    hide AfterQuote;
    Rest(s, i);
    assert s[start..i] + s[i..][..1] == s[start..i + 1];
    if s[i] == '\\' {
      if i + 1 < |s| {
        assert s[start..i] + s[i..][..2] == s[start..i + 2];
      } else {
        assert s[start..i] + s[i..] == s[start..i + 1];
        assert s[i + 1..] == "";
      }
    } else if IsQuote(s[i]) {
      var rest := AfterQuote(s[i..]);
      assert s[start..i] + s[i..][..|s[i..]| - |rest|] == s[start..|s| - |rest|];
    }
  }
}
