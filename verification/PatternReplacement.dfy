/**
 Matching a part of a text: the shortest and longest matching prefix and suffix, the first
 longest match, and the replacement of one or all matches.
 */
module PatternReplacement {
  import opened Wrappers
  import opened ShellPattern
  import PatternMatcher

  ghost predicate MatchAt(o: Options, text: string, pattern: string, i: nat, j: nat) {
    i <= j <= |text| && Matches(o, text[i..j], pattern)
  }

  /** Of the matches starting at or after `start`, the one that starts first and, of those, ends last. */
  ghost predicate LeftmostLongest(o: Options, text: string, pattern: string, start: nat, i: nat, j: nat) {
    && start <= i
    && MatchAt(o, text, pattern, i, j)
    && (forall a: nat, b: nat :: start <= a < i ==> !MatchAt(o, text, pattern, a, b))
    && (forall b: nat :: j < b ==> !MatchAt(o, text, pattern, i, b))
  }

  method MatchPrefix(text: string, pattern: string, longest: bool, o: Options) returns (best: int)
    ensures best == -1 ==> forall k: nat :: !MatchAt(o, text, pattern, 0, k)
    ensures best != -1 ==> 0 <= best && MatchAt(o, text, pattern, 0, best)
    ensures best != -1 ==> forall k: nat :: MatchAt(o, text, pattern, 0, k) ==> if longest then k <= best else best <= k
  {
    hide Matches;
    best := -1;
    var end := if longest then |text| else 0;
    while if longest then end >= 0 else end <= |text|
      invariant -1 <= end <= |text| + 1
      invariant longest ==> end <= |text| && forall k: nat :: k > end ==> !MatchAt(o, text, pattern, 0, k)
      invariant !longest ==> 0 <= end && forall k: nat :: k < end ==> !MatchAt(o, text, pattern, 0, k)
      decreases if longest then end else |text| - end
    {
      assert text[0..end] == text[..end];
      var matches := PatternMatcher.IsMatch(text[..end], pattern, o);
      if matches {
        best := end;
        break;
      }
      end := end + if longest then -1 else 1;
    }
  }

  method MatchSuffix(text: string, pattern: string, longest: bool, o: Options) returns (start: int)
    ensures start == -1 ==> forall k: nat :: !MatchAt(o, text, pattern, k, |text|)
    ensures start != -1 ==> 0 <= start && MatchAt(o, text, pattern, start, |text|)
    ensures start != -1 ==> forall k: nat :: MatchAt(o, text, pattern, k, |text|) ==> if longest then start <= k else k <= start
  {
    hide Matches;
    start := if longest then 0 else |text|;
    while if longest then start <= |text| else start >= 0
      invariant -1 <= start <= |text| + 1
      invariant longest ==> 0 <= start && forall k: nat :: k < start ==> !MatchAt(o, text, pattern, k, |text|)
      invariant !longest ==> start <= |text| && forall k: nat :: k > start ==> !MatchAt(o, text, pattern, k, |text|)
      decreases if longest then |text| - start else start
    {
      assert text[start..|text|] == text[start..];
      var matches := PatternMatcher.IsMatch(text[start..], pattern, o);
      if matches {
        return;
      }
      start := start + if longest then 1 else -1;
    }
    start := -1;
  }

  /** The start and length of the first match at or after `start`, the longest where several start there. */
  method FindSubstring(text: string, pattern: string, start0: nat, o: Options) returns (r: Option<(nat, nat)>)
    ensures r.None? ==> forall a: nat, b: nat :: start0 <= a ==> !MatchAt(o, text, pattern, a, b)
    ensures r.Some? ==> LeftmostLongest(o, text, pattern, start0, r.value.0, r.value.0 + r.value.1)
  {
    hide Matches;
    var start := start0;
    while start <= |text|
      invariant start0 <= start
      invariant forall a: nat, b: nat :: start0 <= a < start ==> !MatchAt(o, text, pattern, a, b)
    {
      var end := |text|;
      while end >= start
        invariant start - 1 <= end <= |text|
        invariant forall b: nat :: b > end ==> !MatchAt(o, text, pattern, start, b)
      {
        var matches := PatternMatcher.IsMatch(text[start..end], pattern, o);
        if matches {
          return Some((start, end - start));
        }
        end := end - 1;
      }
      start := start + 1;
    }
    r := None;
  }

  // ---- replacement ----

  /** Where the search resumes: after the match, or one further on when it was empty. */
  function After(i: nat, j: nat): nat {
    if j > i then j else i + 1
  }

  /** The matches replaced from `start` on: each the leftmost longest of those after the one before it. */
  ghost function Replaced(o: Options, text: string, pattern: string, start: nat): seq<(nat, nat)>
    decreases |text| + 1 - start
  {
    if start <= |text| && exists i: nat, j: nat :: LeftmostLongest(o, text, pattern, start, i, j) then
      var i: nat, j: nat :| LeftmostLongest(o, text, pattern, start, i, j);
      [(i, j)] + Replaced(o, text, pattern, After(i, j))
    else []
  }

  /** `text` from `start` on, with each of `spans` replaced by what `f` makes of it. */
  ghost function Splice(text: string, spans: seq<(nat, nat)>, f: string -> string, start: nat): string
    requires start <= |text| && Ordered(text, spans, start)
  {
    if spans == [] then text[start..]
    else text[start..spans[0].0] + f(text[spans[0].0..spans[0].1]) + Splice(text, spans[1..], f, spans[0].1)
  }

  /** The spans are in the text from `start` on, in order, and do not overlap. */
  ghost predicate Ordered(text: string, spans: seq<(nat, nat)>, start: nat) {
    spans == [] || (start <= spans[0].0 <= spans[0].1 <= |text| && Ordered(text, spans[1..], spans[0].1))
  }

  /** The spans `${v//p/r}` replaces from `start` on, or the one `${v/p/r}` does. */
  ghost function Chosen(o: Options, text: string, pattern: string, all: bool, start: nat): seq<(nat, nat)> {
    var spans := Replaced(o, text, pattern, start);
    if all || spans == [] then spans else spans[..1]
  }

  /** `${v/p/r}`, `${v//p/r}`, `${v/#p/r}` and `${v/%p/r}`. */
  datatype ReplaceOperator = ReplaceFirst | ReplaceAll | ReplacePrefix | ReplaceSuffix

  ghost predicate LongestPrefix(o: Options, text: string, pattern: string, j: nat) {
    MatchAt(o, text, pattern, 0, j) && forall k: nat :: MatchAt(o, text, pattern, 0, k) ==> k <= j
  }

  ghost predicate LongestSuffix(o: Options, text: string, pattern: string, i: nat) {
    MatchAt(o, text, pattern, i, |text|) && forall k: nat :: MatchAt(o, text, pattern, k, |text|) ==> i <= k
  }

  /** The spans an operator replaces: at most one at the start, or at the end, or those found one after another. */
  ghost function Spans(o: Options, text: string, pattern: string, op: ReplaceOperator): seq<(nat, nat)> {
    match op
    case ReplaceFirst => Chosen(o, text, pattern, false, 0)
    case ReplaceAll => Chosen(o, text, pattern, true, 0)
    case ReplacePrefix => if exists j: nat :: LongestPrefix(o, text, pattern, j) then var j: nat :| LongestPrefix(o, text, pattern, j); [(0, j)] else []
    case ReplaceSuffix =>
      if exists i: nat :: LongestSuffix(o, text, pattern, i) then var i: nat :| LongestSuffix(o, text, pattern, i); [(i, |text|)] else []
  }

  method Replace(value: string, pattern: string, replacement: string, op: ReplaceOperator, o: Options) returns (r: string)
    ensures Ordered(value, Spans(o, value, pattern, op), 0)
    ensures r == Splice(value, Spans(o, value, pattern, op), (_: string) => replacement, 0)
  {
    hide Matches, Chosen;
    ghost var f := (_: string) => replacement;
    match op
    case ReplacePrefix =>
      var length := MatchPrefix(value, pattern, true, o);
      r := if length >= 0 then replacement + value[length..] else value;
      if length >= 0 {
        assert LongestPrefix(o, value, pattern, length);
        OneSpan(value, 0, length, f);
      } else { NoSpan(value, f); }
    case ReplaceSuffix =>
      var start := MatchSuffix(value, pattern, true, o);
      r := if start >= 0 then value[..start] + replacement else value;
      if start >= 0 {
        assert LongestSuffix(o, value, pattern, start);
        OneSpan(value, start, |value|, f);
      } else { NoSpan(value, f); }
    case ReplaceFirst => r := ReplaceMatches(value, pattern, replacement, false, o);
    case ReplaceAll => r := ReplaceMatches(value, pattern, replacement, true, o);
  }

  lemma OneSpan(text: string, i: nat, j: nat, f: string -> string)
    requires i <= j <= |text|
    ensures Ordered(text, [(i, j)], 0) && Splice(text, [(i, j)], f, 0) == text[..i] + f(text[i..j]) + text[j..]
  {
    var spans := [(i, j)];
    assert spans[1..] == [] && text[0..i] == text[..i];
  }

  lemma NoSpan(text: string, f: string -> string)
    ensures Splice(text, [], f, 0) == text
  {
    assert text[0..] == text;
  }

  /** The first match, or every match, found from the start on. */
  method ReplaceMatches(value: string, pattern: string, replacement: string, all: bool, o: Options) returns (r: string)
    ensures Ordered(value, Chosen(o, value, pattern, all, 0), 0)
    ensures r == Splice(value, Chosen(o, value, pattern, all, 0), (_: string) => replacement, 0)
  {
    hide LeftmostLongest, MatchAt, Matches, Chosen, Splice, Ordered;
    ghost var f := (_: string) => replacement;
    ghost var rest := Chosen(o, value, pattern, all, 0);
    ChosenOrdered(o, value, pattern, all, 0);
    ghost var whole := Splice(value, rest, f, 0);
    r := "";
    var position := 0;
    assert whole == r + Onward(value, rest, f, position);
    while position <= |value|
      invariant position >= 0
      invariant rest == Chosen(o, value, pattern, all, position)
      invariant position <= |value| ==> Ordered(value, rest, position)
      invariant whole == r + Onward(value, rest, f, position)
    {
      var found := FindSubstring(value, pattern, position, o);
      ChosenAt(o, value, pattern, all, position, found);
      if found.None? {
        break;
      }
      var (start, length) := found.value;
      MatchBounds(o, value, pattern, position, start, start + length);
      var next := start + if length > 1 then length else 1;
      ghost var tail := rest[1..];
      ChosenOrdered(o, value, pattern, all, next);
      SpliceStep(value, rest, f, position, next);
      ghost var before := r;
      r := r + value[position..start] + replacement;
      if length == 0 && start < |value| {
        r := r + [value[start]];
      }
      ghost var piece := value[position..start] + replacement + if length == 0 && start < |value| then [value[start]] else "";
      assert r == before + piece;
      Associate(before, piece, Onward(value, tail, f, next));
      rest := tail;
      position := next;
      if !all {
        break;
      }
    }
    OnwardEnds(value, f, position);
    if position <= |value| {
      r := r + value[position..];
    } else {
      assert r + "" == r;
    }
  }

  lemma Associate(a: string, b: string, c: string)
    ensures a + (b + c) == (a + b) + c
  {}

  /** What is still to be written once the search stands at `position`. */
  ghost function Onward(text: string, spans: seq<(nat, nat)>, f: string -> string, position: nat): string {
    if position <= |text| && Ordered(text, spans, position) then Splice(text, spans, f, position) else ""
  }

  lemma OnwardEnds(text: string, f: string -> string, position: nat)
    ensures Onward(text, [], f, position) == if position <= |text| then text[position..] else ""
  {}

  /** One match and, when it is empty, the character after it. */
  lemma SpliceStep(text: string, spans: seq<(nat, nat)>, f: string -> string, position: nat, next: nat)
    requires position <= |text| && Ordered(text, spans, position) && spans != []
    requires next == After(spans[0].0, spans[0].1) && Ordered(text, spans[1..], next)
    ensures var (i, j) := spans[0];
            Onward(text, spans, f, position) ==
            (text[position..i] + f(text[i..j]) + if i == j && i < |text| then [text[i]] else "") + Onward(text, spans[1..], f, next)
  {
    var (i, j) := spans[0];
    var tail := spans[1..];
    var head := text[position..i] + f(text[i..j]);
    assert Onward(text, spans, f, position) == head + Splice(text, tail, f, j);
    if i == j && i < |text| {
      SpliceSkip(text, tail, f, i);
      assert head + ([text[i]] + Splice(text, tail, f, next)) == head + [text[i]] + Splice(text, tail, f, next);
    } else if i == j {
      assert tail == [];
      assert head + "" == head;
      assert text[j..] == "";
    } else {
      assert head + "" == head;
    }
  }

  lemma SpliceSkip(text: string, spans: seq<(nat, nat)>, f: string -> string, j: nat)
    requires j < |text| && Ordered(text, spans, j + 1) && Ordered(text, spans, j)
    ensures Splice(text, spans, f, j) == [text[j]] + Splice(text, spans, f, j + 1)
  {
    if spans == [] {
      assert text[j..] == [text[j]] + text[j + 1..];
    } else {
      var (a, b) := spans[0];
      assert text[j..a] == [text[j]] + text[j + 1..a];
      var last := Splice(text, spans[1..], f, b);
      assert ([text[j]] + text[j + 1..a]) + f(text[a..b]) + last == [text[j]] + (text[j + 1..a] + f(text[a..b]) + last);
    }
  }

  lemma MatchBounds(o: Options, text: string, pattern: string, start: nat, i: nat, j: nat)
    requires LeftmostLongest(o, text, pattern, start, i, j)
    ensures start <= i <= j <= |text|
  {}

  /** There is only one leftmost longest match. */
  lemma LeftmostLongestUnique(o: Options, text: string, pattern: string, start: nat, i: nat, j: nat, a: nat, b: nat)
    requires LeftmostLongest(o, text, pattern, start, i, j) && LeftmostLongest(o, text, pattern, start, a, b)
    ensures i == a && j == b
  {
    hide Matches;
  }

  lemma ChosenAt(o: Options, text: string, pattern: string, all: bool, start: nat, found: Option<(nat, nat)>)
    requires start <= |text|
    requires found.None? ==> forall a: nat, b: nat :: start <= a ==> !MatchAt(o, text, pattern, a, b)
    requires found.Some? ==> LeftmostLongest(o, text, pattern, start, found.value.0, found.value.0 + found.value.1)
    ensures var spans := Chosen(o, text, pattern, all, start);
            if found.None? then spans == []
            else
              var (i, n) := found.value;
              spans == [(i, i + n)] + (if all then Chosen(o, text, pattern, all, After(i, i + n)) else [])
  {
    hide Matches;
    if found.None? {
      if i: nat, j: nat :| LeftmostLongest(o, text, pattern, start, i, j) {
        assert false;
      }
    } else {
      var (a, n) := found.value;
      var b := a + n;
      var i: nat, j: nat :| LeftmostLongest(o, text, pattern, start, i, j) && Replaced(o, text, pattern, start) == [(i, j)] + Replaced(o, text, pattern, After(i, j));
      LeftmostLongestUnique(o, text, pattern, start, i, j, a, b);
    }
  }

  lemma ChosenOrdered(o: Options, text: string, pattern: string, all: bool, start: nat)
    ensures Ordered(text, Chosen(o, text, pattern, all, start), start)
  {
    ReplacedOrdered(o, text, pattern, start);
  }

  lemma {:induction false} ReplacedOrdered(o: Options, text: string, pattern: string, start: nat)
    ensures Ordered(text, Replaced(o, text, pattern, start), start)
    decreases |text| + 1 - start
  {
    hide Matches;
    var spans := Replaced(o, text, pattern, start);
    if spans != [] {
      var i: nat, j: nat :| LeftmostLongest(o, text, pattern, start, i, j) && spans == [(i, j)] + Replaced(o, text, pattern, After(i, j));
      ReplacedOrdered(o, text, pattern, After(i, j));
      assert spans[1..] == Replaced(o, text, pattern, After(i, j));
    }
  }

  // ---- what is replaced ----

  /** A match somewhere after `start` has a leftmost longest one before or at it. */
  lemma LeftmostLongestExists(o: Options, text: string, pattern: string, start: nat, a: nat, b: nat)
    requires start <= a && MatchAt(o, text, pattern, a, b)
    ensures exists i: nat, j: nat :: i <= a && LeftmostLongest(o, text, pattern, start, i, j)
    decreases a, |text| - b
  {
    hide Matches;
    if LeftmostLongest(o, text, pattern, start, a, b) {
    } else if c: nat, d: nat :| start <= c < a && MatchAt(o, text, pattern, c, d) {
      LeftmostLongestExists(o, text, pattern, start, c, d);
    } else {
      var d: nat :| b < d && MatchAt(o, text, pattern, a, d);
      LeftmostLongestExists(o, text, pattern, start, a, d);
    }
  }

  /** Nothing that matches is left standing: each match starts inside, or at, a replaced one. */
  lemma {:induction false} EveryMatchIsReplaced(o: Options, text: string, pattern: string, start: nat, a: nat, b: nat)
    requires start <= a && MatchAt(o, text, pattern, a, b)
    ensures exists k: nat :: k < |Replaced(o, text, pattern, start)| && Covers(Replaced(o, text, pattern, start)[k], a)
    decreases |text| + 1 - start
  {
    hide Matches;
    LeftmostLongestExists(o, text, pattern, start, a, b);
    var spans := Replaced(o, text, pattern, start);
    var c: nat, d: nat :| c <= a && LeftmostLongest(o, text, pattern, start, c, d);
    var i: nat, j: nat :| LeftmostLongest(o, text, pattern, start, i, j) && spans == [(i, j)] + Replaced(o, text, pattern, After(i, j));
    LeftmostLongestUnique(o, text, pattern, start, i, j, c, d);
    if a < After(i, j) {
      assert Covers(spans[0], a);
    } else {
      EveryMatchIsReplaced(o, text, pattern, After(i, j), a, b);
      var rest := Replaced(o, text, pattern, After(i, j));
      var k: nat :| k < |rest| && Covers(rest[k], a);
      assert spans[k + 1] == rest[k];
    }
  }

  predicate Covers(span: (nat, nat), a: nat) {
    span.0 <= a < After(span.0, span.1)
  }

  /** Every replaced span is a match, and the longest one there. */
  lemma {:induction false} OnlyMatchesAreReplaced(o: Options, text: string, pattern: string, start: nat, k: nat)
    requires k < |Replaced(o, text, pattern, start)|
    ensures var (i, j) := Replaced(o, text, pattern, start)[k];
            MatchAt(o, text, pattern, i, j) && forall b: nat :: b > j ==> !MatchAt(o, text, pattern, i, b)
    decreases |text| + 1 - start
  {
    hide Matches;
    var spans := Replaced(o, text, pattern, start);
    var i: nat, j: nat :| LeftmostLongest(o, text, pattern, start, i, j) && spans == [(i, j)] + Replaced(o, text, pattern, After(i, j));
    if k > 0 {
      OnlyMatchesAreReplaced(o, text, pattern, After(i, j), k - 1);
    }
  }

  /** Replacing each match by itself changes nothing, so all that is not matched is kept, in order. */
  lemma {:induction false} SpliceIdentity(text: string, spans: seq<(nat, nat)>, start: nat)
    requires start <= |text| && Ordered(text, spans, start)
    ensures Splice(text, spans, (s: string) => s, start) == text[start..]
  {
    if spans != [] {
      var (i, j) := spans[0];
      SpliceIdentity(text, spans[1..], j);
      assert text[start..i] + text[i..j] + text[j..] == text[start..];
    }
  }

  /** Replacing all matches replaces an empty one at the very end exactly when the pattern matches "". */
  lemma EndIsReplaced(o: Options, text: string, pattern: string)
    ensures (|text|, |text|) in Replaced(o, text, pattern, 0) <==> Matches(o, "", pattern)
  {
    hide Matches, Replaced;
    var spans := Replaced(o, text, pattern, 0);
    assert text[|text|..|text|] == "";
    if Matches(o, "", pattern) {
      assert MatchAt(o, text, pattern, |text|, |text|);
      EveryMatchIsReplaced(o, text, pattern, 0, |text|, |text|);
      var k: nat :| k < |spans| && Covers(spans[k], |text|);
      OnlyMatchesAreReplaced(o, text, pattern, 0, k);
      assert spans[k] == (|text|, |text|);
    }
    if (|text|, |text|) in spans {
      var k: nat :| k < |spans| && spans[k] == (|text|, |text|);
      OnlyMatchesAreReplaced(o, text, pattern, 0, k);
    }
  }
}
