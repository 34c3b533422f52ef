/**
 A word as a sequence of parts: letters, escapes, continued lines, quotes, expansions, substitutions and groups.
 A word is read from a text if and only if such parts spell it and something that cuts it comes next.
 */
module ShellWordParts {
  import opened Wrappers
  import opened ShellWords
  import opened ShellNesting
  import opened ShellNestingLaws

  datatype Part =
    | Letter(c: char)
    | Escaped(c: char)
    | Joined
    | Quoted(item: Item)
    | Expansion(item: Item)
    | Translated(items: seq<Item>)
    | Group(items: seq<Item>)
    | Process(sign: char, items: seq<Item>)
    | LastBackslash

  function PartText(part: Part): (s: string)
    ensures s != ""
  {
    match part
    case Letter(c) => [c]
    case Escaped(c) => ['\\', c]
    case Joined => "\\\n"
    case Quoted(item) => Spell(item)
    case Expansion(item) => Spell(item)
    case Translated(items) => "$\"" + (Text(items) + "\"")
    case Group(items) => "(" + (Text(items) + ")")
    case Process(sign, items) => [sign, '('] + (Text(items) + ")")
    case LastBackslash => "\\"
  }

  /** What the word keeps of it: all but a continued line. */
  function PartKept(part: Part): string {
    if part.Joined? then "" else PartText(part)
  }

  function PartsText(parts: seq<Part>): string {
    if parts == [] then "" else PartText(parts[0]) + PartsText(parts[1..])
  }

  function PartsKept(parts: seq<Part>): string {
    if parts == [] then "" else PartKept(parts[0]) + PartsKept(parts[1..])
  }

  /** Whether a part can come after `text` of the word and before `rest` of the script. */
  predicate PartFits(text: string, part: Part, rest: string) {
    match part
    case Letter(c) => !EndsWord(c) && c !in "'\"\\`" && (c == '$' ==> At(rest, 0) !in "$({'\"")
    case Escaped(c) => c != '\n'
    case Joined => true
    case Quoted(item) => (item.Single? || item.Double?) && Fits(item, InParens)
    case Expansion(item) => !item.Plain? && !item.Escape? && Fits(item, InDouble) && MayPrecede(item, InDouble, At(rest, 0))
    case Translated(items) => AllFit(items, InDouble, '"')
    case Group(items) => TakesGroup(text) && AllFit(items, InParens, ')')
    case Process(sign, items) => (sign == '<' || sign == '>') && AllFit(items, InParens, ')')
    case LastBackslash => rest == ""
  }

  predicate PartsFit(text: string, parts: seq<Part>, rest: string)
    decreases |parts|
  {
    parts != [] ==>
      && PartFits(text, parts[0], PartsText(parts[1..]) + rest)
      && PartsFit(text + PartKept(parts[0]), parts[1..], rest)
  }

  // ---- one part ----

  lemma AtRest(s: string, p: nat)
    requires p <= |s|
    ensures At(s[p..], 0) == At(s, p)
  {}

  lemma DollarOutside(s: string, p: nat)
    requires p <= |s| && At(s, p) != '"'
    ensures DollarEnd(s, p, false) == DollarEnd(s, p, true)
  {
    hide QuotedEnd, DoubleEnd, ArithmeticEnd, BraceEnd, BalancedEnd;
  }

  lemma NotSpecial()
    ensures EndsWord('(') && EndsWord('<') && EndsWord('>')
    ensures !EndsWord('\'') && !EndsWord('"') && !EndsWord('`') && !EndsWord('$') && !EndsWord('\\')
    ensures forall c :: EndsWord(c) && c != '<' && c != '>' && c != '(' ==> c in " \t\n\r;&|)"
  {
    SignsThatEnd();
  }

  /** A part that stands at a place is the piece that is read there. */
  lemma PieceOfPart(s: string, p: nat, text: string, part: Part)
    requires Stands(s, p, PartText(part)) && p + |PartText(part)| <= |s| && PartFits(text, part, s[p + |PartText(part)|..])
    ensures PieceAt(s, p, text) == if part.Joined? then Vanishes(p + 2) else Takes(p + |PartText(part)|)
  {
    hide QuotedEnd, DoubleEnd, DollarEnd, BalancedEnd, TakesGroup, EndsWord, Stands, Text, AllFit;
    NotSpecial();
    StandsFirst(s, p, PartText(part));
    AtRest(s, p + |PartText(part)|);
    match part
    case Letter(c) => LetterTaken(s, p);
    case Escaped(c) => StandsAt(s, p, PartText(part), 1);
    case Joined => StandsAt(s, p, PartText(part), 1);
    case Quoted(item) => QuotedTaken(s, p, item);
    case Expansion(item) => ExpansionTaken(s, p, item);
    case Translated(items) =>
      StandsSplit(s, p, "$\"", Text(items) + "\"");
      StandsAt(s, p, PartText(part), 1);
      DoubleEnds(s, p + 2, items);
      DollarQuote(s, p);
    case Group(items) =>
      GroupTaken(s, p, "(", items);
    case Process(sign, items) =>
      StandsAt(s, p, PartText(part), 1);
      GroupTaken(s, p, [sign, '('], items);
    case LastBackslash =>
  }

  lemma LetterTaken(s: string, p: nat)
    requires p < |s| && (s[p] == '$' ==> At(s, p + 1) !in "$({'\"")
    ensures s[p] == '$' ==> DollarEnd(s, p + 1, false) == Some(p + 1)
  {}

  lemma DollarQuote(s: string, p: nat)
    requires p + 1 < |s| && s[p + 1] == '"'
    ensures DollarEnd(s, p + 1, false) == DoubleEnd(s, p + 2)
  {}

  lemma QuotedTaken(s: string, p: nat, item: Item)
    requires Stands(s, p, Spell(item)) && (item.Single? || item.Double?) && Fits(item, InParens)
    ensures p < |s| && if item.Single? then s[p] == '\'' && QuotedEnd(s, p + 1, '\'', false) == Some(p + |Spell(item)|)
                       else s[p] == '"' && DoubleEnd(s, p + 1) == Some(p + |Spell(item)|)
  {
    hide QuotedEnd, DoubleEnd, Stands, Text, AllFit;
    StandsFirst(s, p, Spell(item));
    match item
    case Single(body) => SingleStands(s, p, body);
    case Double(items) =>
      StandsSplit(s, p, "\"", Text(items) + "\"");
      DoubleEnds(s, p + 1, items);
  }

  lemma ExpansionTaken(s: string, p: nat, item: Item)
    requires Stands(s, p, Spell(item)) && !item.Plain? && !item.Escape? && Fits(item, InDouble)
    requires MayPrecede(item, InDouble, At(s, p + |Spell(item)|))
    ensures p < |s| && if item.Backquoted? then s[p] == '`' && QuotedEnd(s, p + 1, '`', true) == Some(p + |Spell(item)|)
                       else s[p] == '$' && DollarEnd(s, p + 1, false) == Some(p + |Spell(item)|)
  {
    hide QuotedEnd, DoubleEnd, DollarEnd, Stands, Text, AllFit;
    StandsFirst(s, p, Spell(item));
    if item.Backquoted? {
      StandsSplit(s, p, "`", Text(item.items) + "`");
      EscapedEnds(s, p + 1, item.items, '`');
    } else {
      DollarEnds(s, p, item);
      StandsAt(s, p, Spell(item), 1);
      assert Spell(item)[1] != '"';
      DollarOutside(s, p + 1);
    }
  }

  lemma GroupTaken(s: string, p: nat, opening: string, items: seq<Item>)
    requires Stands(s, p, opening + (Text(items) + ")")) && AllFit(items, InParens, ')')
    ensures p + |opening| <= |s| && BalancedEnd(s, p + |opening|, '(', ')', 1) == Some(p + |opening + (Text(items) + ")")|)
  {
    hide BalancedEnd, Stands, Text, AllFit;
    StandsSplit(s, p, opening, Text(items) + ")");
    ParensPast(s, p + |opening|, items, 1);
    StandsSplit(s, p + |opening|, Text(items), ")");
    ParensClose(s, p + |opening| + |Text(items)|);
  }

  /** And a piece that is read is a part that stands there. */
  lemma PartOfPiece(s: string, p: nat, text: string) returns (part: Part)
    requires p <= |s| && (PieceAt(s, p, text).Takes? || PieceAt(s, p, text).Vanishes?)
    ensures IsPart(s, p, text, part, PieceAt(s, p, text).end) && (part.Joined? <==> PieceAt(s, p, text).Vanishes?)
  {
    hide QuotedEnd, DoubleEnd, DollarEnd, BalancedEnd, TakesGroup, EndsWord, IsPart;
    NotSpecial();
    var e := PieceAt(s, p, text).end;
    if EndsWord(s[p]) {
      part := PartOfSign(s, p, text, e);
    } else {
      match s[p]
      case '\\' => part := PartOfBackslash(s, p, text);
      case '\'' => part := PartOfQuote(s, p, text, e);
      case '"' => part := PartOfQuote(s, p, text, e);
      case '`' => part := PartOfQuote(s, p, text, e);
      case '$' => part := DollarRead(s, p, text, e);
      case c => part := PartOfLetter(s, p, text);
    }
  }

  ghost predicate IsPart(s: string, p: nat, text: string, part: Part, e: nat) {
    p < e <= |s| && s[p..e] == PartText(part) && PartFits(text, part, s[e..])
  }

  lemma PartOfLetter(s: string, p: nat, text: string) returns (part: Part)
    requires p < |s| && !EndsWord(s[p]) && s[p] !in "'\"\\`$"
    ensures IsPart(s, p, text, part, p + 1) && !part.Joined?
  {
    hide EndsWord;
    part := Letter(s[p]);
  }

  lemma PartOfBackslash(s: string, p: nat, text: string) returns (part: Part)
    requires p < |s| && s[p] == '\\'
    ensures IsPart(s, p, text, part, EscapeEnd(s, p)) && (part.Joined? <==> At(s, p + 1) == '\n')
  {
    part := if At(s, p + 1) == '\n' then Joined else if p + 1 < |s| then Escaped(s[p + 1]) else LastBackslash;
    if p + 1 < |s| { assert s[p..p + 2] == [s[p], s[p + 1]]; }
  }

  lemma PartOfSign(s: string, p: nat, text: string, e: nat) returns (part: Part)
    requires p < |s| && if IsSubstitution(s, p) then BalancedEnd(s, p + 2, '(', ')', 1) == Some(e)
                        else s[p] == '(' && TakesGroup(text) && BalancedEnd(s, p + 1, '(', ')', 1) == Some(e)
    ensures IsPart(s, p, text, part, e) && !part.Joined?
  {
    hide BalancedEnd, TakesGroup, Text, AllFit, Reads;
    if IsSubstitution(s, p) {
      var items, q := ParensReads(s, p + 2, 1, e);
      part := ProcessRead(s, p, items, q, e);
    } else {
      var items, q := ParensReads(s, p + 1, 1, e);
      part := GroupRead(s, p, text, items, q, e);
    }
  }

  lemma PartOfQuote(s: string, p: nat, text: string, e: nat) returns (part: Part)
    requires p < |s| && s[p] in "'\"`"
    requires Some(e) == match s[p] case '\'' => QuotedEnd(s, p + 1, '\'', false) case '"' => DoubleEnd(s, p + 1) case _ => QuotedEnd(s, p + 1, '`', true)
    ensures IsPart(s, p, text, part, e) && !part.Joined?
  {
    hide QuotedEnd, DoubleEnd, Text, AllFit, Reads, Fits, Spell;
    match s[p]
    case '\'' =>
      SingleSpelled(s, p, InParens);
      part := Quoted(Single(s[p + 1..e - 1]));
    case '"' =>
      var inner := DoubleReads(s, p + 1, e);
      DoubleSpelled(s, p, inner, e - 1, InParens);
      part := Quoted(Double(inner));
    case _ =>
      var inner := EscapedReads(s, p + 1, '`', e);
      BackquoteSpelled(s, p, inner, e - 1);
      part := Expansion(Backquoted(inner));
  }

  lemma ProcessRead(s: string, p: nat, items: seq<Item>, q: nat, e: nat) returns (part: Part)
    requires p + 1 < |s| && (s[p] == '<' || s[p] == '>') && s[p + 1] == '('
    requires Reads(s, p + 2, items, q, InParens, ')') && BalancedEnd(s, q, '(', ')', 1) == Some(e)
    ensures p < e <= |s| && part == Process(s[p], items) && s[p..e] == PartText(part) && AllFit(items, InParens, ')')
  {
    part := Process(s[p], items);
    Around(s, p, 2, q);
  }

  lemma GroupRead(s: string, p: nat, text: string, items: seq<Item>, q: nat, e: nat) returns (part: Part)
    requires p < |s| && s[p] == '(' && TakesGroup(text)
    requires Reads(s, p + 1, items, q, InParens, ')') && BalancedEnd(s, q, '(', ')', 1) == Some(e)
    ensures p < e <= |s| && part == Group(items) && s[p..e] == PartText(part) && AllFit(items, InParens, ')')
  {
    part := Group(items);
    Around(s, p, 1, q);
  }

  lemma DollarRead(s: string, p: nat, text: string, e: nat) returns (part: Part)
    requires p < |s| && s[p] == '$' && DollarEnd(s, p + 1, false) == Some(e)
    ensures IsPart(s, p, text, part, e) && !part.Joined?
  {
    hide DoubleEnd, DollarEnd, IsPart, Reads, AllFit, Text, Fits, Spell;
    if At(s, p + 1) == '"' {
      DollarQuote(s, p);
      var inner := DoubleReads(s, p + 2, e);
      part := Translated(inner);
      TranslatedSpelled(s, p, text, inner, e - 1);
    } else {
      DollarOutside(s, p + 1);
      var i := DollarReads(s, p, e);
      part := if i.Plain? then Letter('$') else Expansion(i);
      ExpansionSpelled(s, p, text, i, e);
    }
  }

  lemma ExpansionSpelled(s: string, p: nat, text: string, i: Item, e: nat)
    requires p < e <= |s| && s[p] == '$' && At(s, p + 1) != '"' && s[p..e] == Spell(i) && Fits(i, InDouble) && MayPrecede(i, InDouble, At(s, e))
    ensures IsPart(s, p, text, if i.Plain? then Letter('$') else Expansion(i), e)
  {
    hide Fits, Text, EndsWord;
    NotSpecial();
    AtRest(s, e);
    assert s[p..e][0] == s[p];
    if i.Plain? { PlainDollar(s, p, i, e); }
  }

  lemma PlainDollar(s: string, p: nat, i: Item, e: nat)
    requires i.Plain? && p < e <= |s| && s[p] == '$' && s[p..e] == Spell(i)
    ensures i == Plain('$') && e == p + 1
  {
    assert s[p..e][0] == s[p];
  }

  lemma TranslatedSpelled(s: string, p: nat, text: string, inner: seq<Item>, c: nat)
    requires p + 1 < |s| && s[p] == '$' && s[p + 1] == '"' && Reads(s, p + 2, inner, c, InDouble, '"')
    ensures IsPart(s, p, text, Translated(inner), c + 1)
  {
    hide AllFit, Text;
    Around(s, p, 2, c);
  }

  // ---- words ----

  lemma {:induction false} WordOfParts(s: string, p: nat, text: string, parts: seq<Part>, end: nat)
    requires p <= end <= |s| && s[p..end] == PartsText(parts) && PartsFit(text, parts, s[end..])
    requires end == |s| || Cuts(s, end, text + PartsKept(parts))
    ensures WordFrom(s, p, text) == Some((text + PartsKept(parts), end))
    decreases |parts|
  {
    hide PieceAt, PartText, PartFits, Cuts, Stands, WordFrom, PartsText;
    if parts == [] {
      assert PartsText([]) == "" by { NoParts(); }
      assert text + "" == text;
      EndedExactly(s, p, text);
      WordStep(s, p, text);
    } else {
      var part, rest := parts[0], parts[1..];
      var m := p + |PartText(part)|;
      PartsApart(s, p, parts, end);
      PieceOfPart(s, p, text, part);
      KeptText(part);
      WordGoesOn(s, p, text, part);
      Assoc(text, PartKept(part), PartsKept(rest));
      WordOfParts(s, m, text + PartKept(part), rest, end);
    }
  }

  lemma NoParts()
    ensures PartsText([]) == ""
  {}

  lemma WordGoesOn(s: string, p: nat, text: string, part: Part)
    requires p <= |s| && PieceAt(s, p, text) == if part.Joined? then Vanishes(p + 2) else Takes(p + |PartText(part)|)
    requires p + |PartText(part)| <= |s| && s[p..p + |PartText(part)|] == PartText(part)
    ensures WordFrom(s, p, text) == WordFrom(s, p + |PartText(part)|, text + PartKept(part))
  {
    hide PieceAt, PartText;
    KeptText(part);
    if part.Joined? { assert text + "" == text; }
  }

  lemma KeptText(part: Part)
    ensures part.Joined? ==> PartKept(part) == "" && |PartText(part)| == 2
    ensures !part.Joined? ==> PartKept(part) == PartText(part)
  {}

  lemma Assoc(a: string, b: string, c: string)
    ensures a + (b + c) == a + b + c && a + "" == a
  {}

  lemma PartsApart(s: string, p: nat, parts: seq<Part>, end: nat)
    requires parts != [] && p <= end <= |s| && s[p..end] == PartsText(parts)
    ensures var m := p + |PartText(parts[0])|;
            && p < m <= end && Stands(s, p, PartText(parts[0])) && s[p..m] == PartText(parts[0])
            && s[m..end] == PartsText(parts[1..]) && PartsText(parts[1..]) + s[end..] == s[m..]
  {
    hide PartText;
    TwoApart(s, p, PartText(parts[0]), PartsText(parts[1..]), end);
  }

  lemma TwoApart(s: string, p: nat, a: string, b: string, end: nat)
    requires p <= end <= |s| && s[p..end] == a + b
    ensures var m := p + |a|; m <= end && s[p..m] == a && s[m..end] == b && b + s[end..] == s[m..]
  {
    var m := p + |a|;
    assert s[p..end][..|a|] == s[p..m] && s[p..end][|a|..] == s[m..end];
    assert (a + b)[..|a|] == a && (a + b)[|a|..] == b;
    Split(s, p, m, end);
  }

  lemma {:induction false} PartsOfWord(s: string, p: nat, text: string) returns (parts: seq<Part>)
    requires p <= |s| && WordFrom(s, p, text).Some?
    ensures var (all, end) := WordFrom(s, p, text).value;
            && s[p..end] == PartsText(parts) && PartsFit(text, parts, s[end..]) && all == text + PartsKept(parts)
            && (end == |s| || Cuts(s, end, all))
    decreases |s| - p
  {
    hide PieceAt, PartText, PartFits, Cuts;
    var (all, end) := WordFrom(s, p, text).value;
    match PieceAt(s, p, text)
    case Ended =>
      parts := [];
      assert s[p..p] == "";
      Assoc(text, "", "");
      EndedExactly(s, p, text);
    case Vanishes(e) =>
      parts := MorePartsOfWord(s, p, text, e, text);
    case Takes(e) =>
      parts := MorePartsOfWord(s, p, text, e, text + s[p..e]);
  }

  lemma {:induction false} MorePartsOfWord(s: string, p: nat, text: string, e: nat, now: string) returns (parts: seq<Part>)
    requires p < e <= |s| && WordFrom(s, p, text).Some? && WordFrom(s, p, text) == WordFrom(s, e, now)
    requires (PieceAt(s, p, text) == Takes(e) && now == text + s[p..e]) || (PieceAt(s, p, text) == Vanishes(e) && now == text)
    ensures var (all, end) := WordFrom(s, p, text).value;
            && s[p..end] == PartsText(parts) && PartsFit(text, parts, s[end..]) && all == text + PartsKept(parts)
            && (end == |s| || Cuts(s, end, all))
    decreases |s| - p, 0
  {
    hide PieceAt, PartText, PartFits, Cuts, WordFrom;
    var part := PartOfPiece(s, p, text);
    var rest := PartsOfWord(s, e, now);
    parts := [part] + rest;
    var (all, end) := WordFrom(s, p, text).value;
    assert parts[1..] == rest;
    KeptText(part);
    Assoc(text, PartKept(part), PartsKept(rest));
    assert now == text + PartKept(part);
    Split(s, p, e, end);
  }

  lemma Split(s: string, p: nat, e: nat, end: nat)
    requires p <= e <= end <= |s|
    ensures s[p..end] == s[p..e] + s[e..end] && s[e..] == s[e..end] + s[end..]
  {}

  /** From `p` to `end` these parts spell a word of that text, and it is cut there. */
  ghost predicate IsWord(s: string, p: nat, parts: seq<Part>, all: string, end: nat) {
    && p <= end <= |s| && s[p..end] == PartsText(parts) && PartsFit("", parts, s[end..]) && all == PartsKept(parts)
    && (end == |s| || Cuts(s, end, all))
  }

  /** The word at a position is a text up to an end if and only if some parts spell it: so there is one such text and end at most. */
  lemma WordExactly(s: string, p: nat, all: string, end: nat)
    requires p <= |s|
    ensures WordFrom(s, p, "") == Some((all, end)) <==> exists parts: seq<Part> :: IsWord(s, p, parts, all, end)
  {
    hide WordFrom, PartsText, PartsFit, PartsKept, Cuts;
    if WordFrom(s, p, "") == Some((all, end)) {
      var parts := PartsOfWord(s, p, "");
      Empty(PartsKept(parts));
      assert IsWord(s, p, parts, all, end);
    }
    if parts: seq<Part> :| IsWord(s, p, parts, all, end) {
      Empty(PartsKept(parts));
      WordOfParts(s, p, "", parts, end);
    }
  }

  lemma Empty(s: string)
    ensures "" + s == s
  {}

  // ---- where a word goes on with a list of values ----

  predicate IsName(name: string) {
    name != "" && IsNameStart(name[0]) && forall k :: 1 <= k < |name| ==> IsNameCharacter(name[k])
  }

  predicate IsIndex(index: string) {
    index == "" || (|index| >= 2 && index[0] == '[' && index[|index| - 1] == ']' && '[' !in index[1..])
  }

  predicate Assigns(text: string, name: string, index: string, plus: string) {
    IsName(name) && IsIndex(index) && (plus == "" || plus == "+") && text == name + index + plus + "="
  }

  lemma {:induction false} LastBracketAt(text: string, end: nat, k: nat)
    requires k < end <= |text| && text[k] == '[' && '[' !in text[k + 1..end]
    ensures LastBracket(text, end) == k
  {
    if k + 1 < end {
      assert text[k + 1..end] == text[k + 1..end - 1] + [text[end - 1]];
      LastBracketAt(text, end - 1, k);
    }
  }

  lemma {:induction false} LastBracketIs(text: string, end: nat)
    requires end <= |text| && LastBracket(text, end) >= 0
    ensures var k := LastBracket(text, end); text[k] == '[' && '[' !in text[k + 1..end]
  {
    if text[end - 1] != '[' {
      LastBracketIs(text, end - 1);
      var k := LastBracket(text, end);
      assert text[k + 1..end] == text[k + 1..end - 1] + [text[end - 1]];
    }
  }

  /** The text of such a word so far is a name, an index in brackets perhaps, a plus perhaps, and an equals sign. */
  lemma AssignmentPrefixExactly(text: string)
    ensures EndsWithAssignmentPrefix(text) <==>
      exists name: string, index: string, plus: string :: Assigns(text, name, index, plus)
  {
    hide IsNameStart, IsNameCharacter, LastBracket;
    if EndsWithAssignmentPrefix(text) { var name, index, plus := PrefixParts(text); }
    if name: string, index: string, plus: string :| Assigns(text, name, index, plus) {
      PartsPrefix(text, name, index, plus);
    }
  }

  lemma PrefixParts(text: string) returns (name: string, index: string, plus: string)
    requires EndsWithAssignmentPrefix(text)
    ensures Assigns(text, name, index, plus)
  {
    hide IsNameStart, IsNameCharacter, LastBracket, IsName, IsIndex;
    var end0: nat := |text| - 1;
    var end1: nat := if end0 > 0 && text[end0 - 1] == '+' then end0 - 1 else end0;
    var end: nat := if end1 > 0 && text[end1 - 1] == ']' then LastBracket(text, end1) else end1;
    NamePart(text, end);
    IndexPart(text, end, end1);
    PlusPart(text, end1);
    name, index, plus := text[..end], text[end..end1], text[end1..end0];
    CutThrice(text, end, end1);
  }

  lemma NamePart(text: string, end: nat)
    requires 0 < end <= |text| && IsNameStart(text[0]) && forall i :: 1 <= i < end ==> IsNameCharacter(text[i])
    ensures IsName(text[..end])
  {
    hide IsNameStart, IsNameCharacter;
  }

  lemma IndexPart(text: string, end: nat, end1: nat)
    requires 0 < end1 <= |text| && end <= |text|
    requires if text[end1 - 1] == ']' then end == LastBracket(text, end1) else end == end1
    ensures end <= end1 && IsIndex(text[end..end1])
  {
    hide LastBracket;
    var index := text[end..end1];
    if text[end1 - 1] == ']' {
      LastBracketIs(text, end1);
      assert index[0] == '[' && index[|index| - 1] == ']';
      assert index[1..] == text[end + 1..end1];
    } else {
      assert index == "";
    }
  }

  lemma PlusPart(text: string, end1: nat)
    requires |text| > 0 && (end1 + 1 == |text| || (end1 + 2 == |text| && text[end1] == '+'))
    ensures text[end1..|text| - 1] == "" || text[end1..|text| - 1] == "+"
  {
    if end1 + 2 == |text| { assert text[end1..|text| - 1] == [text[end1]]; } else { assert text[end1..|text| - 1] == ""; }
  }

  lemma CutThrice(text: string, a: nat, b: nat)
    requires a <= b < |text|
    ensures text == text[..a] + text[a..b] + text[b..|text| - 1] + [text[|text| - 1]]
  {}

  lemma NameCharacters()
    ensures !IsNameCharacter('+') && !IsNameCharacter(']') && !IsNameCharacter('[')
    ensures forall c :: IsNameStart(c) ==> IsNameCharacter(c)
  {}

  lemma PartsPrefix(text: string, name: string, index: string, plus: string)
    requires Assigns(text, name, index, plus)
    ensures EndsWithAssignmentPrefix(text)
  {
    hide IsNameStart, IsNameCharacter, LastBracket;
    NameCharacters();
    var end1 := |name| + |index|;
    assert text[..|name|] == name && text[|name|..end1] == index;
    assert forall k :: 0 <= k < |name| ==> text[k] == name[k];
    if index == "" {
      assert text[end1 - 1] == name[|name| - 1];
    } else {
      assert text[end1 - 1] == index[|index| - 1] && text[|name|] == index[0];
      assert text[|name| + 1..end1] == index[1..];
      LastBracketAt(text, end1, |name|);
    }
    if plus == "+" { assert text[end1] == '+'; }
  }

  /** A parenthesis goes on with a word exactly there, and after the sign of an extended pattern. */
  lemma GroupFitsExactly(text: string, items: seq<Item>, rest: string)
    requires AllFit(items, InParens, ')')
    ensures PartFits(text, Group(items), rest) <==>
      || (exists name: string, index: string, plus: string :: Assigns(text, name, index, plus))
      || (exists before: string, sign: char :: sign in "?*+@!" && text == before + [sign])
  {
    hide EndsWithAssignmentPrefix, Assigns, AllFit;
    AssignmentPrefixExactly(text);
    if text != "" { assert text == text[..|text| - 1] + [text[|text| - 1]]; }
  }

  // ---- an example ----

  lemma OneMore(i: Item, rest: seq<Item>, r: Region, close: char)
    requires AllFit(rest, r, close) && Fits(i, r) && r != InDouble
    ensures AllFit([i] + rest, r, close) && Text([i] + rest) == Spell(i) + Text(rest)
  {
    assert ([i] + rest)[1..] == rest;
  }

  /** `f $(g)` between parentheses. */
  lemma NestedItems() returns (items: seq<Item>)
    ensures Text(items) == "f $(g)" && AllFit(items, InParens, ')')
  {
    hide Spell, Fits, AllFit, Text;
    var inner := [Plain('g')] + [];
    Simple('g');
    NoItems(InParens, ')');
    OneMore(Plain('g'), [], InParens, ')');
    RoundSpells(inner);
    Simple('$');
    Simple(' ');
    Simple('f');
    OneMore(Round(inner), [], InParens, ')');
    items := [Round(inner)] + [];
    OneMore(Plain('$'), items, InParens, ')');
    items := [Plain('$')] + items;
    OneMore(Plain(' '), items, InParens, ')');
    items := [Plain(' ')] + items;
    OneMore(Plain('f'), items, InParens, ')');
    items := [Plain('f')] + items;
  }

  lemma NoItems(r: Region, close: char)
    ensures AllFit([], r, close) && Text([]) == ""
  {}

  lemma Simple(c: char)
    requires c !in "'\"\\#()"
    ensures Fits(Plain(c), InParens) && Spell(Plain(c)) == [c]
  {}

  lemma RoundSpells(items: seq<Item>)
    requires AllFit(items, InParens, ')')
    ensures Fits(Round(items), InParens) && Spell(Round(items)) == "(" + (Text(items) + ")")
  {}

  /** `$(f $(g))` is one word, whole. */
  lemma NestedSubstitution()
    ensures var s := "$(f $(g))"; WordFrom(s, 0, "") == Some((s, |s|))
  {
    hide Text, AllFit, WordFrom;
    var s := "$(f $(g))";
    var items := NestedItems();
    var parts := [Expansion(Command(items))];
    assert Spell(Command(items)) == s && Fits(Command(items), InDouble);
    OnePart(s, parts[0]);
    WordExactly(s, 0, s, |s|);
  }

  lemma OnePart(s: string, part: Part)
    requires PartText(part) == PartKept(part) == s && PartFits("", part, "")
    ensures IsWord(s, 0, [part], s, |s|)
  {
    hide PartText, PartFits;
    var parts := [part];
    assert parts[1..] == [] && s + "" == s;
    assert PartsText(parts) == PartText(part) + PartsText([]) && PartsKept(parts) == PartKept(part) + PartsKept([]);
    assert s[0..|s|] == s && s[|s|..] == "";
    assert PartsText([]) + "" == "";
    assert PartsFit("" + PartKept(part), [], "");
  }
}
