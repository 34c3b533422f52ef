/**
 Field splitting of an expansion's result on IFS, compared with the rule of section 2.6.5 of
 POSIX XCU: how a text is cut into fields and delimiters, and that there is only one such way.
 */
module FieldSplitting {
  import opened Texts

  /** The value of IFS, and which characters the platform takes for white space. */
  datatype Separators = Separators(characters: string, white: char -> bool)

  predicate IsSeparator(ifs: Separators, c: char) {
    c in ifs.characters
  }

  /** White space that is also in IFS. */
  predicate IsSpace(ifs: Separators, c: char) {
    ifs.white(c) && c in ifs.characters
  }

  predicate IsMark(ifs: Separators, c: char) {
    IsSeparator(ifs, c) && !IsSpace(ifs, c)
  }

  lemma SpaceSeparates(ifs: Separators)
    ensures forall c :: IsSpace(ifs, c) ==> IsSeparator(ifs, c)
    ensures forall c :: IsMark(ifs, c) <==> IsSeparator(ifs, c) && !IsSpace(ifs, c)
  {}

  predicate AllSpace(ifs: Separators, s: string) {
    forall k :: 0 <= k < |s| ==> IsSpace(ifs, s[k])
  }

  predicate Plain(ifs: Separators, s: string) {
    forall k :: 0 <= k < |s| ==> !IsSeparator(ifs, s[k])
  }

  // ---- the rule ----

  /** A field and the delimiter after it: IFS white space, at most one other separator, and white space again. */
  datatype Cut = Cut(field: string, before: string, mark: string, after: string)

  function Flat(cuts: seq<Cut>): string {
    if cuts == [] then "" else
    var c := cuts[0];
    c.field + (c.before + (c.mark + (c.after + Flat(cuts[1..]))))
  }

  predicate IsDelimiter(ifs: Separators, c: Cut) {
    && AllSpace(ifs, c.before) && AllSpace(ifs, c.after)
    && (c.mark == "" || (|c.mark| == 1 && IsMark(ifs, c.mark[0])))
    && (c.mark == "" ==> c.after == "")
  }

  /**
   Every field is free of separators, every delimiter is as long as it can be, and every field
   but the last has one; where nothing follows a delimiter no field is opened.
   */
  predicate Proper(ifs: Separators, cuts: seq<Cut>) {
    cuts == [] ||
    var c, rest := cuts[0], Flat(cuts[1..]);
    && Plain(ifs, c.field) && IsDelimiter(ifs, c) && Proper(ifs, cuts[1..])
    && (|cuts| == 1 ==> c.field + c.before + c.mark != "")
    && (|cuts| > 1 ==> c.before + c.mark != "" && rest != "" && !IsSpace(ifs, rest[0]) && (c.mark == "" ==> !IsSeparator(ifs, rest[0])))
  }

  /** The text, with the white space before its first field. */
  predicate Reads(ifs: Separators, text: string, lead: string, cuts: seq<Cut>) {
    && text == lead + Flat(cuts) && AllSpace(ifs, lead) && Proper(ifs, cuts)
    && (Flat(cuts) != "" ==> !IsSpace(ifs, Flat(cuts)[0]))
  }

  function FieldsOf(cuts: seq<Cut>): (r: seq<string>)
    ensures |r| == |cuts| && forall k :: 0 <= k < |r| ==> r[k] == cuts[k].field
  {
    seq(|cuts|, k requires 0 <= k < |cuts| => cuts[k].field)
  }

  // ---- the splitter's own reading ----

  function PlainLength(ifs: Separators, s: string): (n: nat)
    ensures n <= |s|
  {
    if s != "" && !IsSeparator(ifs, s[0]) then 1 + PlainLength(ifs, s[1..]) else 0
  }

  function SkipSpace(ifs: Separators, s: string): (r: string)
    ensures |r| <= |s|
  {
    if s != "" && IsSpace(ifs, s[0]) then SkipSpace(ifs, s[1..]) else s
  }

  function SkipMark(ifs: Separators, s: string): string {
    if s != "" && IsMark(ifs, s[0]) then s[1..] else s
  }

  function AfterDelimiter(ifs: Separators, s: string): string {
    SkipSpace(ifs, SkipMark(ifs, SkipSpace(ifs, s)))
  }

  function Fields(ifs: Separators, s: string): seq<string>
    decreases |s|
  {
    if s == "" then [] else
    var n := PlainLength(ifs, s);
    FieldShrinks(ifs, s);
    [s[..n]] + Fields(ifs, AfterDelimiter(ifs, s[n..]))
  }

  lemma FieldShrinks(ifs: Separators, s: string)
    requires s != ""
    ensures |AfterDelimiter(ifs, s[PlainLength(ifs, s)..])| < |s|
  {
    if PlainLength(ifs, s) == 0 { assert s[0..] == s; }
  }

  function Split(ifs: Separators, text: string): seq<string> {
    Fields(ifs, SkipSpace(ifs, text))
  }

  // ---- the splitter ----

  datatype Field = Field(text: string, quoted: bool)

  function Marked(fields: seq<string>): (r: seq<Field>)
    ensures |r| == |fields| && forall k :: 0 <= k < |r| ==> r[k] == Field(fields[k], true)
  {
    seq(|fields|, k requires 0 <= k < |fields| => Field(fields[k], true))
  }

  /** The fields after a split: the first goes on the last one there, each of the others is a new one. */
  function Appended(fields: seq<Field>, more: seq<string>): seq<Field>
    requires fields != []
  {
    if more == [] then fields else
    var last := |fields| - 1;
    fields[..last] + [Field(fields[last].text + more[0], true)] + Marked(more[1..])
  }

  method AppendSplit(fields0: seq<Field>, ifs: Separators, text: string) returns (fields: seq<Field>)
    requires fields0 != []
    ensures var last := |fields0| - 1;
            fields == if ifs.characters == "" || text == "" then fields0[last := Field(fields0[last].text + text, fields0[last].quoted)]
                      else Appended(fields0, Split(ifs, text))
  {
    hide Fields, PlainLength, SkipSpace, IsSeparator, IsSpace, AfterDelimiter, Appended, Split;
    SplitIs(ifs, text);
    fields := fields0;
    var last := |fields| - 1;
    if |ifs.characters| == 0 || |text| == 0 {
      return fields[last := Field(fields[last].text + text, fields[last].quoted)];
    }
    assert text[0..] == text;
    var position := SkipSpaces(ifs, text, 0);
    if position >= |text| {
      FieldsAt(ifs, text, |text|);
      AppendedNone(fields0);
      return;
    }
    AppendedNone(fields0);
    ghost var all := Split(ifs, text);
    ghost var done: seq<string> := [];
    var first := true;
    while true
      invariant 0 <= position < |text|
      invariant first <==> done == []
      invariant all == done + Fields(ifs, text[position..])
      invariant fields == Appended(fields0, done)
      decreases |text| - position
    {
      FieldsAt(ifs, text, position);
      var start := position;
      position := SkipPlain(ifs, text, start);
      ghost var field := text[start..position];
      AppendedNext(fields0, done, field);
      if !first {
        fields := fields + [Field("", false)];
      }
      var end := |fields| - 1;
      fields := fields[end := Field(fields[end].text + text[start..position], true)];
      first := false;
      assert "" + field == field;
      ghost var rest := Fields(ifs, AfterDelimiter(ifs, text[position..]));
      assert all == (done + [field]) + rest;
      done := done + [field];
      if position >= |text| {
        AfterNothing(ifs, text[position..]);
        assert done + [] == done;
        return;
      }
      position := SkipDelimiter(ifs, text, position);
      if position >= |text| {
        FieldsAt(ifs, text, |text|);
        assert done + [] == done;
        return;
      }
      Progress(ifs, text, start, position);
    }
  }

  lemma SplitIs(ifs: Separators, text: string)
    ensures Split(ifs, text) == Fields(ifs, SkipSpace(ifs, text))
  {}

  lemma AppendedNone(fields: seq<Field>)
    requires fields != []
    ensures Appended(fields, []) == fields
  {}

  /** One delimiter: optional white space, at most one other separator, then optional white space. */
  method SkipDelimiter(ifs: Separators, text: string, from0: nat) returns (position: nat)
    requires from0 <= |text|
    ensures from0 <= position <= |text| && text[position..] == AfterDelimiter(ifs, text[from0..])
  {
    hide IsSeparator, IsSpace, SkipSpace;
    position := SkipSpaces(ifs, text, from0);
    if position < |text| {
      assert text[position..][0] == text[position] && text[position..][1..] == text[position + 1..];
      if IsSeparator(ifs, text[position]) && !IsSpace(ifs, text[position]) {
        position := position + 1;
      }
    }
    position := SkipSpaces(ifs, text, position);
  }

  method SkipSpaces(ifs: Separators, text: string, from0: nat) returns (position: nat)
    requires from0 <= |text|
    ensures from0 <= position <= |text| && text[position..] == SkipSpace(ifs, text[from0..])
  {
    position := from0;
    while position < |text| && IsSpace(ifs, text[position])
      invariant from0 <= position <= |text| && SkipSpace(ifs, text[position..]) == SkipSpace(ifs, text[from0..])
    {
      assert text[position..][1..] == text[position + 1..];
      position := position + 1;
    }
    if position < |text| { assert text[position..][0] == text[position]; }
  }

  method SkipPlain(ifs: Separators, text: string, start: nat) returns (position: nat)
    requires start <= |text|
    ensures position == start + PlainLength(ifs, text[start..]) <= |text|
  {
    position := start;
    while position < |text| && !IsSeparator(ifs, text[position])
      invariant start <= position <= |text|
      invariant start + PlainLength(ifs, text[start..]) == position + PlainLength(ifs, text[position..])
    {
      assert text[position..][1..] == text[position + 1..];
      position := position + 1;
    }
    if position < |text| { assert text[position..][0] == text[position]; }
  }

  lemma FieldsAt(ifs: Separators, text: string, p: nat)
    requires p <= |text|
    ensures p == |text| ==> Fields(ifs, text[p..]) == []
    ensures p < |text| ==>
              var end := p + PlainLength(ifs, text[p..]);
              && end <= |text|
              && Fields(ifs, text[p..]) == [text[p..end]] + Fields(ifs, AfterDelimiter(ifs, text[end..]))
  {
    if p < |text| {
      var n := PlainLength(ifs, text[p..]);
      assert text[p..][..n] == text[p..p + n] && text[p..][n..] == text[p + n..];
    }
  }

  lemma AfterNothing(ifs: Separators, s: string)
    requires s == ""
    ensures Fields(ifs, AfterDelimiter(ifs, s)) == []
  {}

  lemma Progress(ifs: Separators, text: string, start: nat, position: nat)
    requires start < |text| && position <= |text|
    requires start + PlainLength(ifs, text[start..]) <= |text|
    requires text[position..] == AfterDelimiter(ifs, text[start + PlainLength(ifs, text[start..])..])
    ensures start < position
  {
    FieldShrinks(ifs, text[start..]);
    var n := PlainLength(ifs, text[start..]);
    assert text[start..][n..] == text[start + n..];
  }

  lemma AppendedNext(fields: seq<Field>, done: seq<string>, field: string)
    requires fields != []
    ensures done != [] ==> Appended(fields, done + [field]) == Appended(fields, done) + [Field(field, true)]
    ensures done == [] ==> Appended(fields, done + [field])
                           == fields[|fields| - 1 := Field(fields[|fields| - 1].text + field, true)]
  {
    if done != [] {
      assert (done + [field])[1..] == done[1..] + [field];
      assert Marked(done[1..] + [field]) == Marked(done[1..]) + [Field(field, true)];
    } else {
      assert ([] + [field])[1..] == [];
      var last := |fields| - 1;
      assert fields[..last] + [Field(fields[last].text + field, true)] + [] == fields[last := Field(fields[last].text + field, true)];
    }
  }

  // ---- the splitter follows the rule ----

  lemma {:induction false} PlainThen(ifs: Separators, field: string, rest: string)
    requires Plain(ifs, field) && (rest != "" ==> IsSeparator(ifs, rest[0]))
    ensures PlainLength(ifs, field + rest) == |field|
  {
    if field == "" {
      assert field + rest == rest;
    } else {
      assert (field + rest)[1..] == field[1..] + rest;
      assert !IsSeparator(ifs, field[0]);
      PlainThen(ifs, field[1..], rest);
    }
  }

  lemma {:induction false} SpaceThen(ifs: Separators, space: string, rest: string)
    requires AllSpace(ifs, space) && (rest != "" ==> !IsSpace(ifs, rest[0]))
    ensures SkipSpace(ifs, space + rest) == rest
  {
    if space == "" {
      assert space + rest == rest;
    } else {
      assert (space + rest)[1..] == space[1..] + rest;
      assert IsSpace(ifs, space[0]);
      SpaceThen(ifs, space[1..], rest);
    }
  }

  /** However a text is cut by the rule, the splitter finds those fields. */
  lemma {:induction false} FieldsAreCut(ifs: Separators, cuts: seq<Cut>)
    requires Proper(ifs, cuts)
    ensures Fields(ifs, Flat(cuts)) == FieldsOf(cuts)
    decreases |cuts|
  {
    hide Fields, IsSpace, IsSeparator, IsDelimiter, AfterDelimiter, PlainLength;
    if cuts == [] {
      FieldsAt(ifs, "", 0);
      assert ""[0..] == "";
    } else {
      var c, rest := cuts[0], Flat(cuts[1..]);
      if |cuts| == 1 { assert cuts[1..] == []; }
      DelimiterThen(ifs, c, rest);
      FieldThen(ifs, c, rest);
      FieldsAreCut(ifs, cuts[1..]);
      assert FieldsOf(cuts) == [c.field] + FieldsOf(cuts[1..]);
    }
  }

  lemma FieldThen(ifs: Separators, c: Cut, rest: string)
    requires Plain(ifs, c.field)
    requires var tail := c.before + (c.mark + (c.after + rest));
             && AfterDelimiter(ifs, tail) == rest && (tail != "" ==> IsSeparator(ifs, tail[0]))
             && c.field + tail != ""
    ensures Fields(ifs, c.field + (c.before + (c.mark + (c.after + rest)))) == [c.field] + Fields(ifs, rest)
  {
    hide Fields, IsSpace, IsSeparator, AfterDelimiter, PlainLength;
    var tail := c.before + (c.mark + (c.after + rest));
    PlainThen(ifs, c.field, tail);
    var text := c.field + tail;
    assert text[0..] == text && text[0..|c.field|] == c.field && text[|c.field|..] == tail;
    FieldsAt(ifs, text, 0);
  }

  lemma DelimiterThen(ifs: Separators, c: Cut, rest: string)
    requires IsDelimiter(ifs, c)
    requires rest != "" ==> !IsSpace(ifs, rest[0]) && c.before + c.mark != "" && (c.mark == "" ==> !IsSeparator(ifs, rest[0]))
    ensures var tail := c.before + (c.mark + (c.after + rest));
            AfterDelimiter(ifs, tail) == rest && (tail != "" ==> IsSeparator(ifs, tail[0]))
  {
    hide IsSpace, IsSeparator, IsMark;
    SpaceSeparates(ifs);
    var end := c.after + rest;
    SpaceThen(ifs, c.after, rest);
    if c.mark == "" {
      assert end == rest && c.mark + end == rest;
      SpaceThen(ifs, c.before, rest);
      assert SkipMark(ifs, rest) == rest;
      SpaceThen(ifs, "", rest);
      assert "" + rest == rest;
    } else {
      assert (c.mark + end)[0] == c.mark[0] && (c.mark + end)[1..] == end;
      SpaceThen(ifs, c.before, c.mark + end);
    }
    assert c.before != "" ==> IsSpace(ifs, c.before[0]);
  }

  /** So there is one way to cut a text, and it is the splitter's. */
  lemma SplitFollowsTheRule(ifs: Separators, text: string, lead: string, cuts: seq<Cut>)
    requires Reads(ifs, text, lead, cuts)
    ensures Split(ifs, text) == FieldsOf(cuts)
  {
    SpaceThen(ifs, lead, Flat(cuts));
    FieldsAreCut(ifs, cuts);
  }

  // ---- every text can be cut ----

  lemma {:induction false} SpacePrefix(ifs: Separators, s: string) returns (space: string)
    ensures s == space + SkipSpace(ifs, s) && AllSpace(ifs, space)
    ensures SkipSpace(ifs, s) != "" ==> !IsSpace(ifs, SkipSpace(ifs, s)[0])
  {
    hide IsSpace;
    if s != "" && IsSpace(ifs, s[0]) {
      var more := SpacePrefix(ifs, s[1..]);
      space := [s[0]] + more;
      assert s == [s[0]] + (more + SkipSpace(ifs, s[1..]));
    } else {
      space := "";
    }
  }

  lemma {:induction false} PlainPrefix(ifs: Separators, s: string)
    ensures var n := PlainLength(ifs, s);
            Plain(ifs, s[..n]) && (n < |s| ==> IsSeparator(ifs, s[n]))
  {
    if s != "" && !IsSeparator(ifs, s[0]) {
      PlainPrefix(ifs, s[1..]);
      var n := PlainLength(ifs, s[1..]);
      assert s[..n + 1] == [s[0]] + s[1..][..n];
    }
  }

  lemma {:induction false} CutsOf(ifs: Separators, s: string) returns (cuts: seq<Cut>)
    ensures Proper(ifs, cuts) && Flat(cuts) == s && (cuts == [] <==> s == "")
    decreases |s|
  {
    hide IsSpace, IsSeparator, IsMark, PlainLength, SkipSpace, Plain, Flat;
    if s == "" {
      FlatNone();
      return [];
    }
    var n := PlainLength(ifs, s);
    PlainPrefix(ifs, s);
    var field, r := s[..n], s[n..];
    FieldShrinks(ifs, s);
    var c := OneCut(ifs, field, r);
    var rest := AfterDelimiter(ifs, r);
    var more := CutsOf(ifs, rest);
    cuts := [c] + more;
    assert cuts[1..] == more;
    FlatOne(cuts);
    assert s == field + r;
    FlatNone();
    assert r == "" ==> AfterDelimiter(ifs, r) == "" by { if r == "" { NothingAfter(ifs); } }
  }

  lemma NothingAfter(ifs: Separators)
    ensures AfterDelimiter(ifs, "") == ""
  {}

  lemma FlatNone()
    ensures Flat([]) == ""
    ensures forall cuts: seq<Cut> :: cuts != [] && cuts[0].field + cuts[0].before + cuts[0].mark != "" ==> Flat(cuts) != ""
  {}

  lemma FlatOne(cuts: seq<Cut>)
    requires cuts != []
    ensures Flat(cuts) == cuts[0].field + (cuts[0].before + (cuts[0].mark + (cuts[0].after + Flat(cuts[1..]))))
  {}

  /** The delimiter at the front of what follows a field, as long as it can be. */
  lemma OneCut(ifs: Separators, field: string, r: string) returns (c: Cut)
    requires r != "" ==> IsSeparator(ifs, r[0])
    ensures c.field == field && IsDelimiter(ifs, c)
    ensures r == c.before + (c.mark + (c.after + AfterDelimiter(ifs, r)))
    ensures r != "" ==> c.before + c.mark != ""
    ensures var rest := AfterDelimiter(ifs, r);
            rest != "" ==> !IsSpace(ifs, rest[0]) && (c.mark == "" ==> !IsSeparator(ifs, rest[0]))
  {
    hide IsSpace, IsSeparator, IsMark, SkipSpace;
    SpaceSeparates(ifs);
    var before := SpacePrefix(ifs, r);
    var r1 := SkipSpace(ifs, r);
    var r2 := SkipMark(ifs, r1);
    var mark := if r1 != "" && IsMark(ifs, r1[0]) then [r1[0]] else "";
    assert r1 == mark + r2;
    var after := SpacePrefix(ifs, r2);
    var rest := SkipSpace(ifs, r2);
    if mark == "" {
      assert r2 == r1;
    }
    c := Cut(field, before, mark, after);
    assert r == before + (mark + (after + rest));
  }

  lemma SplitCuts(ifs: Separators, text: string) returns (lead: string, cuts: seq<Cut>)
    ensures Reads(ifs, text, lead, cuts) && Split(ifs, text) == FieldsOf(cuts)
  {
    lead := SpacePrefix(ifs, text);
    cuts := CutsOf(ifs, SkipSpace(ifs, text));
    SplitFollowsTheRule(ifs, text, lead, cuts);
  }

  // ---- what follows ----

  /** What is not a separator. */
  function Kept(ifs: Separators, s: string): string {
    if s == "" then "" else (if IsSeparator(ifs, s[0]) then "" else [s[0]]) + Kept(ifs, s[1..])
  }

  lemma {:induction false} KeptConcat(ifs: Separators, a: string, b: string)
    ensures Kept(ifs, a + b) == Kept(ifs, a) + Kept(ifs, b)
  {
    if a == "" {
      assert a + b == b;
    } else {
      assert (a + b)[1..] == a[1..] + b;
      KeptConcat(ifs, a[1..], b);
    }
  }

  lemma {:induction false} KeptAll(ifs: Separators, s: string)
    ensures Plain(ifs, s) ==> Kept(ifs, s) == s
    ensures (forall k :: 0 <= k < |s| ==> IsSeparator(ifs, s[k])) ==> Kept(ifs, s) == ""
  {
    if s != "" {
      KeptAll(ifs, s[1..]);
      assert s == [s[0]] + s[1..];
    }
  }

  /** No field holds a separator, and everything else survives, in order. */
  lemma SplitKeepsTheRest(ifs: Separators, text: string)
    ensures forall k :: 0 <= k < |Split(ifs, text)| ==> Plain(ifs, Split(ifs, text)[k])
    ensures Concat(Split(ifs, text)) == Kept(ifs, text)
  {
    hide Split;
    var lead, cuts := SplitCuts(ifs, text);
    CutsKeep(ifs, cuts);
    KeptConcat(ifs, lead, Flat(cuts));
    KeptAll(ifs, lead);
  }

  lemma {:induction false} CutsKeep(ifs: Separators, cuts: seq<Cut>)
    requires Proper(ifs, cuts)
    ensures forall k :: 0 <= k < |cuts| ==> Plain(ifs, cuts[k].field)
    ensures Concat(FieldsOf(cuts)) == Kept(ifs, Flat(cuts))
    decreases |cuts|
  {
    if cuts != [] {
      var c, rest := cuts[0], Flat(cuts[1..]);
      CutsKeep(ifs, cuts[1..]);
      assert FieldsOf(cuts)[1..] == FieldsOf(cuts[1..]);
      KeptConcat(ifs, c.field, c.before + (c.mark + (c.after + rest)));
      KeptConcat(ifs, c.before, c.mark + (c.after + rest));
      KeptConcat(ifs, c.mark, c.after + rest);
      KeptConcat(ifs, c.after, rest);
      KeptAll(ifs, c.field);
      KeptAll(ifs, c.before);
      KeptAll(ifs, c.mark);
      KeptAll(ifs, c.after);
      forall k | 0 < k < |cuts| ensures Plain(ifs, cuts[k].field) { assert cuts[k] == cuts[1..][k - 1]; }
    }
  }

  /** Where IFS is only white space no field is empty. */
  lemma SpaceSeparatesWords(ifs: Separators, text: string)
    requires forall c :: c in ifs.characters ==> ifs.white(c)
    ensures forall k :: 0 <= k < |Split(ifs, text)| ==> Split(ifs, text)[k] != ""
  {
    hide Split;
    var lead, cuts := SplitCuts(ifs, text);
    WordsOnly(ifs, cuts);
  }

  lemma {:induction false} WordsOnly(ifs: Separators, cuts: seq<Cut>)
    requires Proper(ifs, cuts) && (Flat(cuts) != "" ==> !IsSpace(ifs, Flat(cuts)[0]))
    requires forall c :: c in ifs.characters ==> ifs.white(c)
    ensures forall k :: 0 <= k < |cuts| ==> cuts[k].field != ""
    decreases |cuts|
  {
    if cuts != [] {
      var c := cuts[0];
      assert c.mark == "";
      assert c.before != "" ==> IsSpace(ifs, c.before[0]);
      WordsOnly(ifs, cuts[1..]);
      forall k | 0 < k < |cuts| ensures cuts[k].field != "" { assert cuts[k] == cuts[1..][k - 1]; }
    }
  }
}
