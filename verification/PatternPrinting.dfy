/**
 Patterns as they are written: the text of a sequence of pieces parses to what the pieces say, so that the parse
 of every bracket, range, class and group is pinned by how it is spelled.
 */
module PatternPrinting {
  import opened Texts
  import opened Wrappers
  import opened ShellPattern

  datatype Member = One(c: char) | EscapedOne(c: char) | Span(low: char, high: char) | Named(name: string)

  datatype Piece =
    | Plain(c: char)
    | Escaped(c: char)
    | Any
    | Many
    | Set(mark: string, members: seq<Member>)
    | Choice(op: char, alternatives: seq<PieceList>)

  /** A sequence of pieces. */
  datatype PieceList = Empty | More(first: Piece, rest: PieceList)

  // ---- the text ----

  function MemberText(m: Member): (s: string)
    ensures s != ""
  {
    match m
    case One(c) => [c]
    case EscapedOne(c) => ['\\', c]
    case Span(low, high) => [low, '-', high]
    case Named(name) => "[:" + name + ":]"
  }

  function MembersText(members: seq<Member>): string {
    if members == [] then "" else MemberText(members[0]) + MembersText(members[1..])
  }

  function PieceText(p: Piece): (s: string)
    ensures s != ""
    decreases p, 1
  {
    match p
    case Plain(c) => [c]
    case Escaped(c) => ['\\', c]
    case Any => "?"
    case Many => "*"
    case Set(mark, members) => "[" + (mark + (MembersText(members) + "]"))
    case Choice(op, alternatives) => [op, '('] + (ChoiceText(alternatives) + ")")
  }

  function Text(ps: PieceList): string
    decreases ps, 2
  {
    if ps.Empty? then "" else PieceText(ps.first) + Text(ps.rest)
  }

  function ChoiceText(alternatives: seq<PieceList>): string
    decreases alternatives, 0
  {
    if alternatives == [] then ""
    else if |alternatives| == 1 then Text(alternatives[0])
    else Text(alternatives[0]) + ("|" + ChoiceText(alternatives[1..]))
  }

  // ---- what can be written ----

  /** A character that need not be escaped: inside a group, no parenthesis and no bar. */
  predicate Unescaped(c: char, inside: bool) {
    c != '\\' && (inside ==> c !in "()|")
  }

  predicate MemberFits(m: Member, inside: bool) {
    match m
    case One(c) => c !in "[]-" && Unescaped(c, inside)
    case EscapedOne(_) => true
    case Span(low, high) => low !in "[]-" && high != ']' && Unescaped(low, inside) && Unescaped(high, inside)
    case Named(name) => forall k :: 0 <= k < |name| ==> name[k] != ':' && Unescaped(name[k], inside)
  }

  predicate MembersFit(members: seq<Member>, inside: bool) {
    forall k :: 0 <= k < |members| ==> MemberFits(members[k], inside)
  }

  predicate StartsWith(s: string, c: char) {
    s != "" && s[0] == c
  }

  /** Whether a piece is read as itself before `rest`. */
  predicate PieceFits(p: Piece, rest: string, inside: bool)
    decreases p, 1
  {
    match p
    case Plain(c) => c !in "?*[" && Unescaped(c, inside) && (c in "+@!" ==> !StartsWith(rest, '('))
    case Escaped(_) => true
    case Any => !StartsWith(rest, '(')
    case Many => !StartsWith(rest, '(') && !StartsWith(rest, '*')
    case Set(mark, members) =>
      && members != [] && MembersFit(members, inside)
      && (mark == "" || mark == "!" || mark == "^") && (mark == "" ==> !StartsWith(MembersText(members), '!') && !StartsWith(MembersText(members), '^'))
    case Choice(op, alternatives) => op in "?*+@!" && alternatives != [] && forall k :: 0 <= k < |alternatives| ==> AllFit(alternatives[k], true)
  }

  predicate AllFit(ps: PieceList, inside: bool)
    decreases ps, 2
  {
    ps.More? ==> PieceFits(ps.first, Text(ps.rest), inside) && AllFit(ps.rest, inside)
  }

  // ---- what it parses to ----

  function ItemOf(m: Member): Item {
    match m
    case One(c) => Single(c)
    case EscapedOne(c) => Single(c)
    case Span(low, high) => Range(low, high)
    case Named(name) => Class(name)
  }

  function ItemsOf(members: seq<Member>): seq<Item> {
    if members == [] then [] else [ItemOf(members[0])] + ItemsOf(members[1..])
  }

  /** The pattern says what the pieces say; what a failing bracket is retried as is not looked at. */
  ghost predicate Says(pat: Pat, ps: PieceList)
    decreases ps
  {
    if ps.Empty? then pat == End else
    match ps.first
    case Plain(c) => pat.Literal? && pat.c == c && Says(pat.next, ps.rest)
    case Escaped(c) => pat.Literal? && pat.c == c && Says(pat.next, ps.rest)
    case Any => pat.AnyChar? && Says(pat.next, ps.rest)
    case Many => pat.Star? && Says(pat.next, ps.rest)
    case Set(mark, members) => pat.Bracket? && pat.negated == (mark != "") && pat.items == ItemsOf(members) && Says(pat.next, ps.rest)
    case Choice(op, alternatives) =>
      && pat.Group? && pat.op == op && |pat.alternatives| == |alternatives|
      && (forall k :: 0 <= k < |alternatives| ==> Says(pat.alternatives[k], alternatives[k]))
      && Says(pat.next, ps.rest)
  }

  // ---- brackets ----

  lemma {:induction false} ClassEndAt(name: string, rest: string)
    requires forall k :: 0 <= k < |name| ==> name[k] != ':'
    ensures ClassEnd(name + (":]" + rest)) == |name|
  {
    var s := name + (":]" + rest);
    if name != "" {
      assert s[1..] == name[1..] + (":]" + rest);
      ClassEndAt(name[1..], rest);
    }
  }

  /** One member is read as itself where no hyphen follows it. */
  lemma MemberReads(m: Member, rest: string, inside: bool)
    requires MemberFits(m, inside) && rest != "" && rest[0] != '-'
    ensures BracketItem(MemberText(m) + rest) == (ItemOf(m), |MemberText(m)|)
    ensures (MemberText(m) + rest)[0] != ']' && (MemberText(m) + rest)[0] != '-'
  {
    hide ClassEnd;
    var s := MemberText(m) + rest;
    match m
    case One(c) => assert s[1] == rest[0];
    case EscapedOne(c) => assert s[2] == rest[0];
    case Span(low, high) =>
    case Named(name) => NamedReads(name, rest, inside);
  }

  lemma NamedReads(name: string, rest: string, inside: bool)
    requires MemberFits(Named(name), inside)
    ensures var s := MemberText(Named(name)) + rest; s != "" && BracketItem(s) == (Class(name), |name| + 4) && s[0] == '['
  {
    hide ClassEnd;
    var s := "[:" + (name + (":]" + rest));
    Nested(name, rest);
    assert s[2..] == name + (":]" + rest) && s[2..2 + |name|] == name;
    ClassEndAt(name, rest);
  }

  lemma Nested(name: string, rest: string)
    ensures "[:" + name + ":]" + rest == "[:" + (name + (":]" + rest))
  {}

  lemma MembersStart(members: seq<Member>, rest: string, inside: bool)
    requires MembersFit(members, inside) && rest != "" && rest[0] != '-'
    ensures MembersText(members) + rest != "" && (MembersText(members) + rest)[0] != '-'
    ensures members != [] ==> (MembersText(members) + rest)[0] != ']'
  {
    if members != [] {
      assert MembersText(members) + rest == MemberText(members[0]) + (MembersText(members[1..]) + rest);
      assert MemberFits(members[0], inside);
    }
  }

  lemma {:induction false} MembersRead(members: seq<Member>, rest: string, first: bool, inside: bool)
    requires MembersFit(members, inside) && (members == [] ==> !first)
    ensures BracketBody(MembersText(members) + ("]" + rest), first) == Some((ItemsOf(members), rest))
    decreases |members|
  {
    hide BracketItem, MemberText, ItemOf;
    var s := MembersText(members) + ("]" + rest);
    if members == [] {
      assert s == "]" + rest && s[1..] == rest;
    } else {
      var m, more := members[0], MembersText(members[1..]) + ("]" + rest);
      assert s == MemberText(m) + more;
      MembersStart(members[1..], "]" + rest, inside);
      MemberReads(m, more, inside);
      assert s[|MemberText(m)|..] == more;
      MembersRead(members[1..], rest, false, inside);
    }
  }

  // ---- groups ----

  /** A text that a group's scan passes: the depth, and the piece under way, are as if it were not there. */
  ghost predicate Passes(t: string) {
    && (forall more: string, depth: int :: depth >= 1 ==> GroupEnd(t + more, depth) == Shift(GroupEnd(more, depth), |t|))
    && (forall piece: string, more: string, depth: int :: depth >= 0 ==> Split(piece, t + more, depth) == Split(piece + t, more, depth))
  }

  lemma PassesNothing()
    ensures Passes("")
  {
    forall more: string ensures "" + more == more {}
    forall piece: string ensures piece + "" == piece {}
  }

  lemma PassesBoth(a: string, b: string)
    requires Passes(a) && Passes(b)
    ensures Passes(a + b)
  {
    hide GroupEnd, Split;
    forall more: string, depth: int | depth >= 1 ensures GroupEnd(a + b + more, depth) == Shift(GroupEnd(more, depth), |a + b|) {
      assert a + b + more == a + (b + more);
    }
    forall piece: string, more: string, depth: int | depth >= 0 ensures Split(piece, a + b + more, depth) == Split(piece + (a + b), more, depth) {
      assert a + b + more == a + (b + more) && piece + (a + b) == piece + a + b;
    }
  }

  lemma PassesPlain(c: char)
    requires Unescaped(c, true)
    ensures Passes([c])
  {
    forall more: string ensures ([c] + more)[1..] == more && ([c] + more)[..1] == [c] {}
  }

  lemma PassesEscape(c: char)
    ensures Passes(['\\', c])
  {
    forall more: string ensures (['\\', c] + more)[2..] == more && (['\\', c] + more)[..2] == ['\\', c] {}
  }

  lemma {:induction false} PassesAllPlain(s: string)
    requires forall k :: 0 <= k < |s| ==> Unescaped(s[k], true)
    ensures Passes(s)
  {
    hide Passes;
    if s == "" {
      PassesNothing();
    } else {
      PassesPlain(s[0]);
      PassesAllPlain(s[1..]);
      PassesBoth([s[0]], s[1..]);
      assert [s[0]] + s[1..] == s;
    }
  }

  lemma MemberPasses(m: Member)
    requires MemberFits(m, true)
    ensures Passes(MemberText(m))
  {
    hide Passes;
    if m.EscapedOne? { PassesEscape(m.c); } else { PassesAllPlain(MemberText(m)); }
  }

  lemma {:induction false} MembersPass(members: seq<Member>)
    requires MembersFit(members, true)
    ensures Passes(MembersText(members))
  {
    hide Passes, MemberFits, MemberText;
    if members == [] {
      PassesNothing();
    } else {
      MemberPasses(members[0]);
      MembersPass(members[1..]);
      PassesBoth(MemberText(members[0]), MembersText(members[1..]));
    }
  }

  /** Inside its parentheses a bar, too, is passed. */
  lemma PassesInner(t: string)
    requires PassesDeep(t)
    ensures Passes("(" + (t + ")"))
  {
    hide PassesDeep;
    var g := "(" + (t + ")");
    forall more: string, depth: int | depth >= 1 ensures GroupEnd(g + more, depth) == Shift(GroupEnd(more, depth), |g|) {
      InnerEnd(t, more, depth);
    }
    forall piece: string, more: string, depth: int | depth >= 0 ensures Split(piece, g + more, depth) == Split(piece + g, more, depth) {
      InnerSplit(t, piece, more, depth);
    }
  }

  /** Passed at every depth but the outermost. */
  ghost predicate PassesDeep(t: string) {
    && (forall more: string, depth: int :: depth >= 1 ==> GroupEnd(t + more, depth) == Shift(GroupEnd(more, depth), |t|))
    && (forall piece: string, more: string, depth: int :: depth >= 1 ==> Split(piece, t + more, depth) == Split(piece + t, more, depth))
  }

  lemma InnerEnd(t: string, more: string, depth: int)
    requires PassesDeep(t) && depth >= 1
    ensures GroupEnd("(" + (t + ")") + more, depth) == Shift(GroupEnd(more, depth), |t| + 2)
  {
    hide PassesDeep, GroupEnd;
    var close := ")" + more;
    Regroup("(", t, ")", more);
    EndOpens(t + close, depth);
    DeepEnd(t, close, depth + 1);
    EndCloses(more, depth + 1);
  }

  lemma Regroup(a: string, b: string, c: string, d: string)
    ensures a + (b + c) + d == a + (b + (c + d))
  {}

  lemma DeepEnd(t: string, more: string, depth: int)
    requires PassesDeep(t) && depth >= 1
    ensures GroupEnd(t + more, depth) == Shift(GroupEnd(more, depth), |t|)
  {}

  lemma EndOpens(more: string, depth: int)
    ensures GroupEnd("(" + more, depth) == Shift(GroupEnd(more, depth + 1), 1)
  {
    assert ("(" + more)[1..] == more;
  }

  lemma EndCloses(more: string, depth: int)
    requires depth >= 1
    ensures GroupEnd(")" + more, depth) == if depth == 1 then 0 else Shift(GroupEnd(more, depth - 1), 1)
  {
    assert (")" + more)[1..] == more;
  }

  lemma InnerSplit(t: string, piece: string, more: string, depth: int)
    requires PassesDeep(t) && depth >= 0
    ensures Split(piece, "(" + (t + ")") + more, depth) == Split(piece + ("(" + (t + ")")), more, depth)
  {
    hide GroupEnd;
    var close := ")" + more;
    var s := "(" + (t + ")") + more;
    assert s[1..] == t + close && s[..1] == "(" && close[1..] == more && close[..1] == ")";
    assert Split(piece + "(", t + close, depth + 1) == Split(piece + "(" + t, close, depth + 1);
    assert piece + "(" + t + ")" == piece + ("(" + (t + ")"));
  }

  lemma PassesIsDeep(t: string)
    requires Passes(t)
    ensures PassesDeep(t)
  {}

  lemma DeepBar(a: string, b: string)
    requires PassesDeep(a) && PassesDeep(b)
    ensures PassesDeep(a + ("|" + b))
  {
    hide GroupEnd, Split;
    var t := a + ("|" + b);
    forall more: string, depth: int | depth >= 1 ensures GroupEnd(t + more, depth) == Shift(GroupEnd(more, depth), |t|) {
      assert t + more == a + ("|" + (b + more));
      BarEnd(b + more, depth);
    }
    forall piece: string, more: string, depth: int | depth >= 1 ensures Split(piece, t + more, depth) == Split(piece + t, more, depth) {
      assert t + more == a + ("|" + (b + more));
      BarSplit(piece + a, b + more, depth);
      assert piece + a + "|" + b == piece + t;
    }
  }

  lemma BarEnd(more: string, depth: int)
    ensures GroupEnd("|" + more, depth) == Shift(GroupEnd(more, depth), 1)
  {
    assert ("|" + more)[1..] == more;
  }

  lemma BarSplit(piece: string, more: string, depth: int)
    requires depth >= 1
    ensures Split(piece, "|" + more, depth) == Split(piece + "|", more, depth)
  {
    assert ("|" + more)[1..] == more && ("|" + more)[..1] == "|";
  }

  lemma {:induction false} PiecePasses(p: Piece, rest: string)
    requires PieceFits(p, rest, true)
    ensures Passes(PieceText(p))
    decreases p, 1
  {
    hide Passes, AllFit, MembersFit, MembersText, ChoiceText;
    match p
    case Plain(c) => PassesPlain(c);
    case Escaped(c) => PassesEscape(c);
    case Any => PassesPlain('?');
    case Many => PassesPlain('*');
    case Set(mark, members) =>
      MembersPass(members);
      PassesAllPlain("[");
      PassesAllPlain("]");
      PassesAllPlain(mark);
      PassesBoth(MembersText(members), "]");
      PassesBoth(mark, MembersText(members) + "]");
      PassesBoth("[", mark + (MembersText(members) + "]"));
    case Choice(op, alternatives) =>
      ChoicePasses(alternatives);
      PassesPlain(op);
      PassesInner(ChoiceText(alternatives));
      PassesBoth([op], "(" + (ChoiceText(alternatives) + ")"));
      assert PieceText(p) == [op] + ("(" + (ChoiceText(alternatives) + ")"));
  }

  lemma {:induction false} TextPasses(ps: PieceList)
    requires AllFit(ps, true)
    ensures Passes(Text(ps))
    decreases ps, 2
  {
    hide Passes, PieceFits, PieceText;
    if ps.Empty? {
      PassesNothing();
    } else {
      PiecePasses(ps.first, Text(ps.rest));
      TextPasses(ps.rest);
      PassesBoth(PieceText(ps.first), Text(ps.rest));
    }
  }

  lemma {:induction false} ChoicePasses(alternatives: seq<PieceList>)
    requires forall k :: 0 <= k < |alternatives| ==> AllFit(alternatives[k], true)
    ensures PassesDeep(ChoiceText(alternatives))
    decreases alternatives, 0
  {
    hide Passes, PassesDeep, AllFit, Text;
    if alternatives == [] {
      PassesNothing();
      PassesIsDeep("");
    } else {
      TextPasses(alternatives[0]);
      PassesIsDeep(Text(alternatives[0]));
      if |alternatives| > 1 {
        ChoicePasses(alternatives[1..]);
        DeepBar(Text(alternatives[0]), ChoiceText(alternatives[1..]));
      }
    }
  }

  /** The alternatives' texts, one by one. */
  function EachText(alternatives: seq<PieceList>): (r: seq<string>)
    ensures |r| == |alternatives| && forall k :: 0 <= k < |r| ==> r[k] == Text(alternatives[k])
  {
    seq(|alternatives|, k requires 0 <= k < |alternatives| => Text(alternatives[k]))
  }

  lemma {:induction false} ChoiceSplits(alternatives: seq<PieceList>)
    requires alternatives != [] && forall k :: 0 <= k < |alternatives| ==> AllFit(alternatives[k], true)
    ensures Split("", ChoiceText(alternatives), 0) == EachText(alternatives)
    decreases |alternatives|
  {
    hide Passes, AllFit, Text, Split;
    var a := Text(alternatives[0]);
    TextPasses(alternatives[0]);
    if |alternatives| == 1 {
      SplitEnds(a);
      assert EachText(alternatives) == [a];
    } else {
      var b := ChoiceText(alternatives[1..]);
      SplitBar(a, b);
      ChoiceSplits(alternatives[1..]);
      assert EachText(alternatives) == [a] + EachText(alternatives[1..]);
    }
  }

  lemma SplitEnds(a: string)
    requires Passes(a)
    ensures Split("", a, 0) == [a]
  {
    assert a + "" == a && "" + a == a;
    assert Split("", a + "", 0) == Split("" + a, "", 0);
  }

  lemma SplitBar(a: string, b: string)
    requires Passes(a)
    ensures Split("", a + ("|" + b), 0) == [a] + Split("", b, 0)
  {
    assert "" + a == a && ("|" + b)[1..] == b;
    assert Split("", a + ("|" + b), 0) == Split("" + a, "|" + b, 0);
  }

  lemma ChoiceEnds(alternatives: seq<PieceList>, rest: string)
    requires forall k :: 0 <= k < |alternatives| ==> AllFit(alternatives[k], true)
    ensures GroupEnd("(" + (ChoiceText(alternatives) + ")") + rest, 0) == |ChoiceText(alternatives)| + 1
  {
    hide PassesDeep, AllFit, ChoiceText;
    ChoicePasses(alternatives);
    var t := ChoiceText(alternatives);
    EndOfInner(t, rest);
  }

  lemma EndOfInner(t: string, rest: string)
    requires PassesDeep(t)
    ensures GroupEnd("(" + (t + ")") + rest, 0) == |t| + 1
  {
    hide PassesDeep, GroupEnd;
    var close := ")" + rest;
    Regroup("(", t, ")", rest);
    EndOpens(t + close, 0);
    DeepEnd(t, close, 1);
    EndCloses(rest, 1);
  }

  // ---- the theorem ----

  /** A written pattern parses to what it says. */
  lemma {:induction false} ParseReads(ps: PieceList, inside: bool)
    requires AllFit(ps, inside)
    ensures Says(Parse(Text(ps), true), ps)
    decreases ps, 1
  {
    hide PieceFits, PieceText;
    if ps.More? {
      ParseReads(ps.rest, inside);
      match ps.first
      case Set(_, _) => SetReads(ps, inside);
      case Choice(_, _) => ChoiceReads(ps, inside);
      case _ => PlainReads(ps, inside);
    }
  }

  lemma ParsePlain(c: char, more: string)
    requires c !in "?*[\\" && (c in "+@!" ==> !StartsWith(more, '('))
    ensures Parse([c] + more, true) == Literal(c, Parse(more, true))
  {
    hide BracketBody, GroupEnd, Split, ParseAll;
    assert ([c] + more)[1..] == more;
  }

  lemma ParseEscape(c: char, more: string)
    ensures Parse(['\\', c] + more, true) == Literal(c, Parse(more, true))
  {
    hide BracketBody, GroupEnd, Split, ParseAll;
    assert (['\\', c] + more)[2..] == more;
  }

  lemma ParseAny(more: string)
    requires !StartsWith(more, '(')
    ensures Parse("?" + more, true) == AnyChar(Parse(more, true))
  {
    hide BracketBody, GroupEnd, Split, ParseAll;
    assert ("?" + more)[1..] == more;
  }

  lemma ParseMany(more: string)
    requires !StartsWith(more, '(') && !StartsWith(more, '*')
    ensures Parse("*" + more, true) == Star(Parse(more, true))
  {
    hide BracketBody, GroupEnd, Split, ParseAll, SkipStars;
    OneStar(more);
    NoStar(more);
  }

  lemma PlainReads(ps: PieceList, inside: bool)
    requires ps.More? && PieceFits(ps.first, Text(ps.rest), inside) && !ps.first.Set? && !ps.first.Choice?
    requires Says(Parse(Text(ps.rest), true), ps.rest)
    ensures Says(Parse(Text(ps), true), ps)
  {
    hide AllFit, Parse, MembersText, ChoiceText;
    var more := Text(ps.rest);
    assert Text(ps) == PieceText(ps.first) + more;
    match ps.first
    case Plain(c) => ParsePlain(c, more);
    case Escaped(c) => ParseEscape(c, more);
    case Any => ParseAny(more);
    case Many => ParseMany(more);
  }

  lemma SetReads(ps: PieceList, inside: bool)
    requires ps.More? && PieceFits(ps.first, Text(ps.rest), inside) && ps.first.Set?
    requires Says(Parse(Text(ps.rest), true), ps.rest)
    ensures Says(Parse(Text(ps), true), ps)
  {
    hide AllFit, BracketBody, MembersText, MembersFit, Parse, Text, Says;
    var Set(mark, members) := ps.first;
    var more := Text(ps.rest);
    var body := MembersText(members) + ("]" + more);
    MembersRead(members, more, true, inside);
    if mark == "" { MarkShows(members, more); }
    var s := "[" + (mark + body);
    assert s[1..] == mark + body && (if mark == "" then s[1..] == body else s[1] == mark[0] && s[2..] == body);
    SetText(ps);
    ParseBracket(s, mark != "", ItemsOf(members), more);
    SaysBracket(ps, Parse(s, true));
  }

  lemma SetText(ps: PieceList)
    requires ps.More? && ps.first.Set?
    ensures Text(ps) == "[" + (ps.first.mark + (MembersText(ps.first.members) + ("]" + Text(ps.rest))))
  {
    hide MembersText;
    var Set(mark, members) := ps.first;
    assert PieceText(ps.first) + Text(ps.rest) == "[" + (mark + (MembersText(members) + ("]" + Text(ps.rest))));
  }

  lemma ParseBracket(s: string, negated: bool, items: seq<Item>, more: string)
    requires |s| > 1 && s[0] == '[' && IsNegation(s) == negated
    requires BracketBody(s[if negated then 2 else 1..], true) == Some((items, more))
    ensures var pat := Parse(s, true); pat.Bracket? && pat.negated == negated && pat.items == items && pat.next == Parse(more, true)
  {
    hide BracketBody, GroupEnd, Split, ParseAll;
  }

  lemma SaysBracket(ps: PieceList, pat: Pat)
    requires ps.More? && ps.first.Set? && pat.Bracket? && pat.negated == (ps.first.mark != "") && pat.items == ItemsOf(ps.first.members)
    requires Says(pat.next, ps.rest)
    ensures Says(pat, ps)
  {}

  lemma MarkShows(members: seq<Member>, more: string)
    requires members != [] && !StartsWith(MembersText(members), '!') && !StartsWith(MembersText(members), '^')
    ensures var body := MembersText(members) + ("]" + more); body[0] != '!' && body[0] != '^'
  {}

  lemma {:induction false} ChoiceReads(ps: PieceList, inside: bool)
    requires ps.More? && PieceFits(ps.first, Text(ps.rest), inside) && ps.first.Choice?
    requires Says(Parse(Text(ps.rest), true), ps.rest)
    ensures Says(Parse(Text(ps), true), ps)
    decreases ps, 0
  {
    hide AllFit, GroupEnd, Split, ChoiceText, Text, Parse, Says;
    var Choice(op, alternatives) := ps.first;
    var more, inner := Text(ps.rest), ChoiceText(alternatives);
    ChoiceIs(ps);
    var s := [op, '('] + (inner + ")") + more;
    assert s[1..] == "(" + (inner + ")") + more;
    ChoiceEnds(alternatives, more);
    assert s[2..|inner| + 2] == inner && s[|inner| + 3..] == more;
    ChoiceSplits(alternatives);
    ParseGroup(s, inner, EachText(alternatives), more);
    forall k | 0 <= k < |alternatives| ensures Says(Parse(Text(alternatives[k]), true), alternatives[k]) {
      ParseReads(alternatives[k], true);
    }
    SaysGroup(ps, Parse(s, true));
  }

  lemma ChoiceIs(ps: PieceList)
    requires ps.More? && ps.first.Choice?
    ensures Text(ps) == [ps.first.op, '('] + (ChoiceText(ps.first.alternatives) + ")") + Text(ps.rest)
  {
    hide ChoiceText;
  }

  lemma ParseGroup(s: string, inner: string, texts: seq<string>, more: string)
    requires |s| > 1 && IsGroupStart(s, true) && GroupEnd(s[1..], 0) == |inner| + 1 && |inner| + 3 <= |s|
    requires s[2..|inner| + 2] == inner && s[|inner| + 3..] == more && Split("", inner, 0) == texts
    ensures var pat := Parse(s, true);
            && pat.Group? && pat.op == s[0] && pat.next == Parse(more, true) && |pat.alternatives| == |texts|
            && forall k :: 0 <= k < |texts| ==> pat.alternatives[k] == Parse(texts[k], true)
  {
    hide GroupEnd, Split, BracketBody;
  }

  lemma SaysGroup(ps: PieceList, pat: Pat)
    requires ps.More? && ps.first.Choice? && pat.Group? && pat.op == ps.first.op && |pat.alternatives| == |ps.first.alternatives|
    requires forall k :: 0 <= k < |pat.alternatives| ==> Says(pat.alternatives[k], ps.first.alternatives[k])
    requires Says(pat.next, ps.rest)
    ensures Says(pat, ps)
  {}

  // ---- what single patterns take ----

  /** A group that is never closed matches nothing. */
  lemma UnclosedGroupIsNever(op: char, ps: PieceList)
    requires op in "?*+@!" && AllFit(ps, true)
    ensures Parse([op, '('] + Text(ps), true) == Never
  {
    hide AllFit, Text, Split, BracketBody, ParseAll, GroupEnd;
    var t := Text(ps);
    TextPasses(ps);
    var s := [op, '('] + t;
    assert s[1..] == "(" + t && t + "" == t;
    EndOpens(t, 0);
    assert GroupEnd(t + "", 1) == Shift(GroupEnd("", 1), |t|);
    EndOfNothing(1);
  }

  lemma EndOfNothing(depth: int)
    ensures GroupEnd("", depth) == -1
  {}

  /** A character from one end to the other, or, where case is ignored, one whose other case is. */
  predicate IsBetween(o: Options, low: char, c: char, high: char) {
    low <= c <= high || (o.caseInsensitive && (low <= o.lower(c) <= high || low <= o.upper(c) <= high))
  }

  /** Of single characters `[a-z]` takes those from one end to the other, and `[!a-z]` and `[^a-z]` all others. */
  lemma RangeTakes(o: Options, low: char, high: char, mark: string, c: char)
    requires MemberFits(Span(low, high), false) && low !in "?*+@!^"
    requires mark == "" || (mark == "!" && low != '(') || mark == "^"
    ensures Matches(o, [c], "[" + (mark + ([low, '-', high] + "]"))) <==> (IsBetween(o, low, c, high) <==> mark == "")
  {
    hide Text, BracketBody, GroupEnd, Split, ParseAll, In, Parse;
    var body := [low, '-', high] + "]";
    var s := "[" + (mark + body);
    OneSpan(low, high);
    if mark == "" { assert s[1..] == body; } else { assert s[1] == mark[0] && s[2..] == body; }
    ClosedBracket(o, s, mark != "", [Range(low, high)]);
    var pat := Parse(s, o.extGlob);
    OneRange(o, [Range(low, high)], c);
    TakesOne(o, pat, c);
  }

  lemma OneSpan(low: char, high: char)
    requires MemberFits(Span(low, high), false)
    ensures BracketBody([low, '-', high] + "]", true) == Some(([Range(low, high)], ""))
  {
    hide BracketBody;
    var members := [Span(low, high)];
    assert members[1..] == [] && MemberText(members[0]) == [low, '-', high];
    assert MembersText(members) == MemberText(members[0]) + MembersText(members[1..]);
    assert MembersText(members) + ("]" + "") == [low, '-', high] + "]";
    assert ItemsOf(members) == [ItemOf(members[0])] + ItemsOf(members[1..]) == [Range(low, high)];
    MembersRead(members, "", true, false);
  }

  lemma OneRange(o: Options, items: seq<Item>, c: char)
    requires |items| == 1 && items[0].Range?
    ensures AnyItem(o, items, c) <==> IsBetween(o, items[0].low, c, items[0].high)
  {
    assert AnyItem(o, items, c) <==> ItemMatches(o, items[0], c);
  }

  /** A closed bracket with nothing after it, and plain text where it is retried. */
  lemma ClosedBracket(o: Options, s: string, negated: bool, items: seq<Item>)
    requires |s| > 2 && s[0] == '[' && IsNegation(s) == negated && s[1] !in "?*[\\" && (s[1] in "+@!" ==> s[2] != '(')
    requires BracketBody(s[if negated then 2 else 1..], true) == Some((items, ""))
    ensures var pat := Parse(s, o.extGlob); pat.Bracket? && pat.negated == negated && pat.items == items && pat.next == End && pat.asLiteral.Literal?
  {
    hide BracketBody, GroupEnd, Split, ParseAll;
    assert s[1..][0] == s[1] && s[1..][1] == s[2];
  }

  lemma TakesOne(o: Options, pat: Pat, c: char)
    requires pat.Bracket? && pat.next == End && pat.asLiteral.Literal?
    ensures In(o, pat, [c]) <==> AnyItem(o, pat.items, c) != pat.negated
  {
    hide AnyItem;
    assert [c][1..] == "";
  }

  // ---- without extended patterns ----

  ghost predicate HasNoGroup(pat: Pat) {
    match pat
    case End => true
    case Literal(_, next) => HasNoGroup(next)
    case AnyChar(next) => HasNoGroup(next)
    case Star(next) => HasNoGroup(next)
    case Bracket(_, _, next, asLiteral) => HasNoGroup(next) && HasNoGroup(asLiteral)
    case Group(_, _, _) => false
    case Never => false
  }

  /** Where extended patterns are off, no parenthesis begins a group, and every pattern can match something. */
  lemma {:induction false} NoGroupsUnlessAsked(p: string)
    ensures HasNoGroup(Parse(p, false))
    decreases |p|
  {
    hide BracketBody, GroupEnd, Split, ParseAll;
    if p != "" {
      NoGroupsUnlessAsked(p[1..]);
      if p[0] == '\\' && |p| > 1 {
        NoGroupsUnlessAsked(p[2..]);
      } else if p[0] == '*' {
        NoGroupsUnlessAsked(SkipStars(p));
      } else if p[0] == '[' {
        var body := BracketBody(p[if IsNegation(p) then 2 else 1..], true);
        if body.Some? { NoGroupsUnlessAsked(body.value.1); }
      }
    }
  }
}
