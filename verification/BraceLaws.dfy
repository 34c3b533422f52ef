/**
 Words with brace groups, printed: their expansion is the product of the groups, in order.
 */
module BraceLaws {
  import opened Wrappers
  import opened Texts
  import opened BraceRanges
  import opened BraceItems
  import opened BraceExpansion

  /** Text, a choice of words, a range, or a group kept literally because it holds a single word. */
  datatype Word =
    | End
    | Text(text: string, next: Word)
    | Choice(alternatives: seq<Word>, next: Word)
    | Range(body: string, next: Word)
    | Kept(inner: Word, next: Word)

  function Print(w: Word): string {
    match w
    case End => ""
    case Text(text, next) => text + Print(next)
    case Choice(alternatives, next) => "{" + PrintAll(alternatives) + "}" + Print(next)
    case Range(body, next) => "{" + body + "}" + Print(next)
    case Kept(inner, next) => "{" + Print(inner) + "}" + Print(next)
  }

  function PrintAll(ws: seq<Word>): string {
    if ws == [] then "" else if |ws| == 1 then Print(ws[0]) else Print(ws[0]) + "," + PrintAll(ws[1..])
  }

  ghost function ItemsOf(body: string): seq<string> {
    if RangeOf(body).Items? then RangeOf(body).items else []
  }

  /** The strings a word stands for, the leftmost group varying slowest. */
  ghost function Strings(w: Word): seq<string> {
    match w
    case End => [""]
    case Text(text, next) => Map(text, Strings(next))
    case Choice(alternatives, next) => Product(StringsOfAll(alternatives), Strings(next))
    case Range(body, next) =>
      Product(ItemsOf(body), Strings(next))
    case Kept(inner, next) => Product(Product(["{"], Strings(inner)), Map("}", Strings(next)))
  }

  ghost function StringsOfAll(ws: seq<Word>): seq<string> {
    if ws == [] then [] else Strings(ws[0]) + StringsOfAll(ws[1..])
  }

  predicate PlainChar(c: char) {
    !IsSpecial(c)
  }

  predicate Plain(s: string) {
    forall k :: 0 <= k < |s| ==> PlainChar(s[k])
  }

  /** Only text that is plain; no comma where it would part alternatives; ranges and choices told apart. */
  ghost predicate WellFormed(w: Word, listed: bool) {
    match w
    case End => true
    case Text(text, next) => Plain(text) && (listed ==> ',' !in text) && WellFormed(next, listed)
    case Choice(alternatives, next) =>
      && |alternatives| >= 2 && AllWellFormed(alternatives) && WellFormed(next, listed)
    case Range(body, next) =>
      && RangeOf(body).Items? && (forall k :: 0 <= k < |ItemsOf(body)| ==> Plain(ItemsOf(body)[k]))
      && WellFormed(next, listed)
    case Kept(inner, next) =>
      WellFormed(inner, true) && RangeOf(Print(inner)) == NotARange && WellFormed(next, listed)
  }

  ghost predicate AllWellFormed(ws: seq<Word>) {
    ws == [] || (WellFormed(ws[0], true) && AllWellFormed(ws[1..]))
  }

  // ---- scanning what was printed ----

  lemma {:induction false} PlainMatching(s: string, b: string, depth: int)
    requires Plain(s)
    ensures MatchingBrace(s + b, depth) == Shift(MatchingBrace(b, depth), |s|)
  {
    if s == "" {
      assert s + b == b;
    } else {
      assert (s + b)[1..] == s[1..] + b;
      assert PlainChar(s[0]);
      PlainMatching(s[1..], b, depth);
    }
  }

  predicate IsGroup(w: Word) {
    w.Choice? || w.Range? || w.Kept?
  }

  function GroupBody(w: Word): string
    requires IsGroup(w)
  {
    match w
    case Choice(alternatives, _) => PrintAll(alternatives)
    case Range(body, _) => body
    case Kept(inner, _) => Print(inner)
  }

  lemma GroupPrint(w: Word, b: string)
    requires IsGroup(w)
    ensures Print(w) + b == "{" + (GroupBody(w) + ("}" + (Print(w.next) + b)))
    ensures |Print(w)| == |GroupBody(w)| + 2 + |Print(w.next)|
  {
    var body, rest := GroupBody(w), Print(w.next);
    assert Print(w) == "{" + body + "}" + rest;
    Reassociate(body, rest, b);
  }

  lemma Reassociate(body: string, rest: string, b: string)
    ensures "{" + body + "}" + rest + b == "{" + (body + ("}" + (rest + b)))
  {}

  lemma TextPrint(w: Word, b: string)
    requires w.Text?
    ensures Print(w) + b == w.text + (Print(w.next) + b) && |Print(w)| == |w.text| + |Print(w.next)|
  {}

  /** Inside a group the closing brace of a nested word never closes the group. */
  lemma WordMatching(w: Word, listed: bool, b: string, depth: int)
    requires WellFormed(w, listed) && depth >= 1
    ensures MatchingBrace(Print(w) + b, depth) == Shift(MatchingBrace(b, depth), |Print(w)|)
    decreases w, 1
  {
    hide MatchingBrace, Print, PrintAll, GroupBody, RangeOf;
    match w
    case End => EndPrint(b);
    case Text(text, next) =>
      TextPrint(w, b);
      PlainMatching(text, Print(next) + b, depth);
      WordMatching(next, listed, b, depth);
    case _ =>
      BodyMatching(w, listed, "}" + (Print(w.next) + b), depth + 1);
      GroupPrint(w, b);
      GroupMatching(GroupBody(w), Print(w.next) + b, depth);
      WordMatching(w.next, listed, b, depth);
  }

  lemma EndPrint(b: string)
    ensures Print(End) == "" && Print(End) + b == b
  {}

  lemma RangeIsPlain(body: string)
    requires RangeOf(body) != NotARange
    ensures Plain(body) && ',' !in body
  {
    hide RangeOf;
    RangeCharacters(body);
    forall k | 0 <= k < |body| ensures PlainChar(body[k]) {
      assert body[k] in body;
    }
  }

  lemma BodyMatching(w: Word, listed: bool, b: string, depth: int)
    requires WellFormed(w, listed) && IsGroup(w) && depth >= 1
    ensures MatchingBrace(GroupBody(w) + b, depth) == Shift(MatchingBrace(b, depth), |GroupBody(w)|)
    decreases w, 0
  {
    hide MatchingBrace, Print, PrintAll, RangeOf;
    match w
    case Choice(alternatives, _) => AllMatching(alternatives, b, depth);
    case Range(body, _) =>
      RangeIsPlain(body);
      PlainMatching(body, b, depth);
    case Kept(inner, _) => WordMatching(inner, true, b, depth);
  }

  lemma GroupMatching(body: string, b: string, depth: int)
    requires depth >= 0
    requires MatchingBrace(body + ("}" + b), depth + 1) == Shift(MatchingBrace("}" + b, depth + 1), |body|)
    ensures MatchingBrace("{" + (body + ("}" + b)), depth) == if depth == 0 then |body| + 1 else Shift(MatchingBrace(b, depth), |body| + 2)
  {
    assert ("{" + (body + ("}" + b)))[1..] == body + ("}" + b);
    assert ("}" + b)[1..] == b;
  }

  lemma ShiftedNone(r: int)
    requires r >= -1
    ensures Shift(r, 0) == r
  {}

  lemma Shifted3(r: int, a: nat, b: nat, c: nat)
    ensures Shift(Shift(Shift(r, a), b), c) == Shift(r, c + b + a)
  {}

  lemma AllMatching(ws: seq<Word>, b: string, depth: int)
    requires AllWellFormed(ws) && depth >= 1
    ensures MatchingBrace(PrintAll(ws) + b, depth) == Shift(MatchingBrace(b, depth), |PrintAll(ws)|)
    decreases ws
  {
    hide MatchingBrace, WellFormed, Print, Shift;
    if ws == [] {
      assert PrintAll(ws) + b == b;
      ShiftedNone(MatchingBrace(b, depth));
    } else if |ws| == 1 {
      WordMatching(ws[0], true, b, depth);
    } else {
      var more := PrintAll(ws[1..]) + b;
      WordMatching(ws[0], true, "," + more, depth);
      PlainMatching(",", more, depth);
      AllMatching(ws[1..], b, depth);
      assert PrintAll(ws) + b == Print(ws[0]) + ("," + more);
      Shifted3(MatchingBrace(b, depth), |PrintAll(ws[1..])|, 1, |Print(ws[0])|);
    }
  }

  lemma {:induction false} PlainSplit(piece: string, s: string, b: string, depth: int)
    requires Plain(s) && (depth == 0 ==> ',' !in s)
    ensures Split(piece, s + b, depth) == Split(piece + s, b, depth)
    decreases |s|
  {
    if s == "" {
      assert s + b == b && piece + s == piece;
    } else {
      assert (s + b)[1..] == s[1..] + b && (s + b)[..1] == s[..1];
      assert PlainChar(s[0]);
      assert depth == 0 ==> s[0] != ',';
      PlainSplit(piece + s[..1], s[1..], b, depth);
      assert piece + s[..1] + s[1..] == piece + s;
    }
  }

  /** A word is never parted by the commas of its own groups. */
  lemma WordSplit(w: Word, listed: bool, piece: string, b: string, depth: int)
    requires WellFormed(w, listed) && depth >= 0 && (depth == 0 ==> listed)
    ensures Split(piece, Print(w) + b, depth) == Split(piece + Print(w), b, depth)
    decreases w, 1
  {
    hide Split, Print, PrintAll, GroupBody, RangeOf;
    match w
    case End =>
      EndPrint(b);
      assert piece + "" == piece;
    case Text(text, next) =>
      TextPrint(w, b);
      PlainSplit(piece, text, Print(next) + b, depth);
      WordSplit(next, listed, piece + text, b, depth);
      TextPrint(w, "");
      PieceText(piece, w);
    case _ =>
      var body := GroupBody(w);
      BodySplit(w, listed, piece + "{", "}" + (Print(w.next) + b), depth + 1);
      GroupPrint(w, b);
      GroupSplit(piece, body, Print(w.next) + b, depth);
      WordSplit(w.next, listed, piece + "{" + body + "}", b, depth);
      PieceGroup(piece, w);
  }

  lemma PieceText(piece: string, w: Word)
    requires w.Text?
    ensures piece + w.text + Print(w.next) == piece + Print(w)
  {}

  lemma PieceGroup(piece: string, w: Word)
    requires IsGroup(w)
    ensures piece + "{" + GroupBody(w) + "}" + Print(w.next) == piece + Print(w)
  {
    var body, rest := GroupBody(w), Print(w.next);
    assert Print(w) == "{" + body + "}" + rest;
    assert piece + "{" + body + "}" + rest == piece + ("{" + body + "}" + rest);
  }

  lemma BodySplit(w: Word, listed: bool, piece: string, b: string, depth: int)
    requires WellFormed(w, listed) && IsGroup(w) && depth >= 1
    ensures Split(piece, GroupBody(w) + b, depth) == Split(piece + GroupBody(w), b, depth)
    decreases w, 0
  {
    hide Split, Print, PrintAll, RangeOf;
    match w
    case Choice(alternatives, _) => AllSplit(alternatives, piece, b, depth);
    case Range(body, _) =>
      RangeIsPlain(body);
      PlainSplit(piece, body, b, depth);
    case Kept(inner, _) => WordSplit(inner, true, piece, b, depth);
  }

  lemma GroupSplit(piece: string, body: string, b: string, depth: int)
    requires Split(piece + "{", body + ("}" + b), depth + 1) == Split(piece + "{" + body, "}" + b, depth + 1)
    ensures Split(piece, "{" + (body + ("}" + b)), depth) == Split(piece + "{" + body + "}", b, depth)
  {
    var s := "{" + (body + ("}" + b));
    assert s[1..] == body + ("}" + b) && s[..1] == "{";
    assert ("}" + b)[1..] == b && ("}" + b)[..1] == "}";
  }

  /** Inside a group, at some depth, even a list of words is not parted. */
  lemma AllSplit(ws: seq<Word>, piece: string, b: string, depth: int)
    requires AllWellFormed(ws) && depth >= 1
    ensures Split(piece, PrintAll(ws) + b, depth) == Split(piece + PrintAll(ws), b, depth)
    decreases ws
  {
    hide Split, WellFormed, Print;
    if ws == [] {
      assert PrintAll(ws) + b == b && piece + PrintAll(ws) == piece;
    } else if |ws| == 1 {
      WordSplit(ws[0], true, piece, b, depth);
    } else {
      var more := PrintAll(ws[1..]) + b;
      WordSplit(ws[0], true, piece, "," + more, depth);
      PlainSplit(piece + Print(ws[0]), ",", more, depth);
      AllSplit(ws[1..], piece + Print(ws[0]) + ",", b, depth);
      assert PrintAll(ws) + b == Print(ws[0]) + ("," + more);
      assert piece + Print(ws[0]) + "," + PrintAll(ws[1..]) == piece + PrintAll(ws);
    }
  }

  function Prints(ws: seq<Word>): (r: seq<string>)
    ensures |r| == |ws|
  {
    if ws == [] then [] else [Print(ws[0])] + Prints(ws[1..])
  }

  /** The body of a choice parts into exactly its alternatives. */
  lemma ChoiceSplits(ws: seq<Word>)
    requires AllWellFormed(ws) && ws != []
    ensures Split("", PrintAll(ws), 0) == Prints(ws)
    decreases ws
  {
    hide WellFormed, Print;
    assert "" + Print(ws[0]) == Print(ws[0]);
    if |ws| == 1 {
      WordSplit(ws[0], true, "", "", 0);
      assert Print(ws[0]) + "" == Print(ws[0]);
    } else {
      var more := "," + PrintAll(ws[1..]);
      WordSplit(ws[0], true, "", more, 0);
      assert Print(ws[0]) + more == PrintAll(ws);
      assert more[1..] == PrintAll(ws[1..]);
      assert Split(Print(ws[0]), more, 0) == [Print(ws[0])] + Split("", PrintAll(ws[1..]), 0);
      ChoiceSplits(ws[1..]);
    }
  }

  lemma {:induction false} PlainOpening(s: string, b: string)
    requires Plain(s)
    ensures OpeningBrace(s + b) == Shift(OpeningBrace(b), |s|)
  {
    if s == "" {
      assert s + b == b;
    } else {
      assert (s + b)[1..] == s[1..] + b;
      assert PlainChar(s[0]);
      PlainOpening(s[1..], b);
    }
  }

  // ---- products ----

  lemma {:induction false} ProductAppend(a: seq<string>, b: seq<string>, ys: seq<string>)
    ensures Product(a + b, ys) == Product(a, ys) + Product(b, ys)
    decreases |a|
  {
    if a == [] {
      assert a + b == b && Product(a, ys) + Product(b, ys) == Product(b, ys);
    } else {
      assert (a + b)[1..] == a[1..] + b;
      ProductAppend(a[1..], b, ys);
      assert Map(a[0], ys) + (Product(a[1..], ys) + Product(b, ys)) == Map(a[0], ys) + Product(a[1..], ys) + Product(b, ys);
    }
  }

  lemma MapMap(a: string, b: string, ys: seq<string>)
    ensures Map(a, Map(b, ys)) == Map(a + b, ys)
  {
    forall k | 0 <= k < |ys| ensures Map(a, Map(b, ys))[k] == Map(a + b, ys)[k] {
      assert a + (b + ys[k]) == a + b + ys[k];
    }
  }

  lemma MapAppend(a: string, xs: seq<string>, ys: seq<string>)
    ensures Map(a, xs + ys) == Map(a, xs) + Map(a, ys)
  {}

  lemma {:induction false} MapProduct(a: string, xs: seq<string>, ys: seq<string>)
    ensures Map(a, Product(xs, ys)) == Product(Map(a, xs), ys)
    decreases |xs|
  {
    if xs != [] {
      MapAppend(a, Map(xs[0], ys), Product(xs[1..], ys));
      MapMap(a, xs[0], ys);
      MapProduct(a, xs[1..], ys);
      assert Map(a, xs)[1..] == Map(a, xs[1..]);
    }
  }

  lemma {:induction false} ProductMapAssociates(xs: seq<string>, ys: seq<string>, zs: seq<string>)
    ensures Product(Product(xs, ys), zs) == Product(xs, Product(ys, zs))
    decreases |xs|
  {
    if xs != [] {
      ProductAppend(Map(xs[0], ys), Product(xs[1..], ys), zs);
      MapProduct(xs[0], ys, zs);
      ProductMapAssociates(xs[1..], ys, zs);
    }
  }

  // ---- the theorem ----

  function Append(a: Word, b: Word): Word {
    match a
    case End => b
    case Text(text, next) => Text(text, Append(next, b))
    case Choice(alternatives, next) => Choice(alternatives, Append(next, b))
    case Range(body, next) => Range(body, Append(next, b))
    case Kept(inner, next) => Kept(inner, Append(next, b))
  }

  lemma {:induction false} AppendPrints(a: Word, b: Word)
    ensures Print(Append(a, b)) == Print(a) + Print(b)
  {
    if a.End? {
      EndPrint(Print(b));
    } else {
      AppendPrints(a.next, b);
      if a.Text? {
        TextPrint(a, Print(b));
      } else {
        GroupPrint(a, Print(b));
        GroupPrint(Append(a, b), "");
        assert GroupBody(Append(a, b)) == GroupBody(a);
        Reassociate(GroupBody(a), Print(Append(a.next, b)), "");
        assert Print(Append(a, b)) + "" == Print(Append(a, b));
        assert Print(Append(a.next, b)) + "" == Print(Append(a.next, b));
      }
    }
  }

  lemma {:induction false} AppendWellFormed(a: Word, b: Word)
    requires WellFormed(a, true) && WellFormed(b, false)
    ensures WellFormed(Append(a, b), false)
  {
    if !a.End? {
      AppendWellFormed(a.next, b);
    }
  }

  lemma {:induction false} AppendStrings(a: Word, b: Word)
    ensures Strings(Append(a, b)) == Product(Strings(a), Strings(b))
  {
    hide Product;
    var zs := Strings(b);
    match a
    case End => ProductUnit(zs);
    case Text(text, next) =>
      AppendStrings(next, b);
      MapProduct(text, Strings(next), zs);
    case Choice(alternatives, next) =>
      AppendStrings(next, b);
      ProductMapAssociates(StringsOfAll(alternatives), Strings(next), zs);
    case Range(body, next) =>
      AppendStrings(next, b);
      ProductMapAssociates(ItemsOf(body), Strings(next), zs);
    case Kept(inner, next) =>
      AppendStrings(next, b);
      MapProduct("}", Strings(next), zs);
      ProductMapAssociates(Product(["{"], Strings(inner)), Map("}", Strings(next)), zs);
  }

  lemma ProductUnit(ys: seq<string>)
    ensures Product([""], ys) == ys
  {
    assert [""][1..] == [];
    assert forall k :: 0 <= k < |ys| ==> "" + ys[k] == ys[k];
    assert Map("", ys) == ys;
    assert Product([""], ys) == Map("", ys) + [];
  }

  /** The first group after plain text: where it opens and closes, and its body. */
  lemma GroupFound(prefix: string, w: Word)
    requires Plain(prefix) && IsGroup(w) && WellFormed(w, false)
    ensures var text := prefix + Print(w);
            var open := OpeningBrace(text);
            var close := open + |GroupBody(w)| + 1;
            && open == |prefix| && Shift(MatchingBrace(text[open..], 0), open) == close < |text|
            && text[..open] == prefix && text[open + 1..close] == GroupBody(w) && text[close + 1..] == Print(w.next)
  {
    hide MatchingBrace, OpeningBrace, Print, GroupBody, WellFormed;
    var body, rest := GroupBody(w), Print(w.next);
    var group := "{" + (body + ("}" + rest));
    GroupPrint(w, "");
    assert Print(w) + "" == Print(w) && rest + "" == rest;
    PlainOpening(prefix, group);
    OpensHere(group);
    BodyMatching(w, false, "}" + rest, 1);
    GroupMatching(body, rest, 0);
    var text := prefix + group;
    assert text[|prefix|..] == group && text[..|prefix|] == prefix;
    var close := |prefix| + |body| + 1;
    assert text[|prefix| + 1..close] == body;
    assert text[close + 1..] == rest;
  }

  lemma OpensHere(group: string)
    requires group != "" && group[0] == '{'
    ensures OpeningBrace(group) == 0
  {}

  /**
   The expansion of a printed word is the product of its groups, in order, whatever plain text
   stands before it.
   */
  lemma ExpandsToProduct(prefix: string, w: Word)
    requires Plain(prefix) && WellFormed(w, false)
    ensures Expansion(prefix + Print(w)) == Some(Map(prefix, Strings(w)))
    decreases 2 * |Print(w)| + 1, w, 1
  {
    hide Expansion, Print, Strings, WellFormed, Product, OpeningBrace;
    if w.End? {
      NothingToExpand(prefix);
      EndStrings();
      EndPrint("");
      assert prefix + "" == prefix;
      assert Map(prefix, [""]) == [prefix];
    } else if w.Text? {
      TextParts(w);
      assert prefix + (w.text + Print(w.next)) == prefix + w.text + Print(w.next);
      assert Plain(prefix + w.text);
      ExpandsToProduct(prefix + w.text, w.next);
      MapMap(prefix, w.text, Strings(w.next));
    } else {
      GroupFound(prefix, w);
      GroupFound("", w);
      assert "" + Print(w) == Print(w);
      if w.Choice? {
        ExpandsChoice(prefix, w);
      } else if w.Range? {
        ExpandsRange(prefix, w);
      } else {
        ExpandsKept(prefix, w);
      }
    }
  }

  lemma EndStrings()
    ensures Strings(End) == [""]
  {}

  lemma TextParts(w: Word)
    requires w.Text? && WellFormed(w, false)
    ensures Plain(w.text) && WellFormed(w.next, false) && Print(w) == w.text + Print(w.next)
    ensures Strings(w) == Map(w.text, Strings(w.next))
    ensures |Print(w.next)| <= |Print(w)|
  {}

  lemma NothingToExpand(text: string)
    requires Plain(text)
    ensures Expansion(text) == Some([text])
  {
    PlainOpening(text, "");
    assert text + "" == text;
  }

  lemma ExpandsKept(prefix: string, w: Word)
    requires Plain(prefix) && w.Kept? && WellFormed(w, false)
    ensures Expansion(prefix + Print(w)) == Some(Map(prefix, Strings(w)))
    decreases 2 * |Print(w)| + 1, w, 0
  {
    hide Print, Product, Expansion, WellFormed;
    var inner, next := w.inner, w.next;
    ExpansionKept(prefix, w);
    KeptParts(w);
    ExpandsToProduct("", inner);
    ExpandsToProduct("", next);
    var xs, zs := Strings(inner), Strings(next);
    MapNothing(xs);
    MapNothing(zs);
    var ys := Map("}", zs);
    MapProduct(prefix, Product(["{"], xs), ys);
    MapProduct(prefix, ["{"], xs);
    assert Map(prefix, ["{"]) == [prefix + "{"];
  }

  lemma KeptParts(w: Word)
    requires w.Kept? && WellFormed(w, false)
    ensures WellFormed(w.inner, false) && WellFormed(w.next, false)
    ensures "" + Print(w.inner) == Print(w.inner) && "" + Print(w.next) == Print(w.next)
    ensures |Print(w.inner)| < |Print(w)| && |Print(w.next)| < |Print(w)|
  {
    Loosen(w.inner);
    GroupPrint(w, "");
  }

  lemma ExpansionKept(prefix: string, w: Word)
    requires Plain(prefix) && w.Kept? && WellFormed(w, false)
    ensures Expansion(prefix + Print(w))
            == Recombined(prefix, Expansion(Print(w.inner)), Expansion(Print(w.next)))
  {
    hide Print, Product, OpeningBrace, MatchingBrace, Split, RangeOf, ExpandAll;
    GroupFound(prefix, w);
    assert GroupBody(w) == Print(w.inner);
    KeptSplits(w.inner);
  }

  lemma KeptSplits(inner: Word)
    requires WellFormed(inner, true)
    ensures Split("", Print(inner), 0) == [Print(inner)]
  {
    hide WellFormed, Print;
    WordSplit(inner, true, "", "", 0);
    assert Print(inner) + "" == Print(inner) && "" + Print(inner) == Print(inner);
  }

  lemma {:induction false} Loosen(w: Word)
    requires WellFormed(w, true)
    ensures WellFormed(w, false)
  {
    if !w.End? {
      Loosen(w.next);
    }
  }

  lemma MapNothing(ys: seq<string>)
    ensures Map("", ys) == ys
  {
    assert forall k :: 0 <= k < |ys| ==> "" + ys[k] == ys[k];
  }

  lemma ExpandsRange(prefix: string, w: Word)
    requires Plain(prefix) && w.Range? && WellFormed(w, false)
    ensures Expansion(prefix + Print(w)) == Some(Map(prefix, Strings(w)))
    decreases 2 * |Print(w)| + 1, w, 0
  {
    hide Print, Product, OpeningBrace, MatchingBrace, Split, ExpandAll, RangeOf;
    GroupFound(prefix, w);
    GroupFound("", w);
    assert "" + Print(w) == Print(w);
    assert GroupBody(w) == w.body;
    ItemsFit(w.body);
    GroupPrint(w, "");
    ExpandsItems(prefix, ItemsOf(w.body), w.next, |prefix + Print(w)|);
  }

  lemma ExpandsItems(prefix: string, items: seq<string>, next: Word, bound: nat)
    requires Plain(prefix) && WellFormed(next, false)
    requires forall k :: 0 <= k < |items| ==> Plain(items[k])
    requires forall k :: 0 <= k < |items| ==> |prefix| + |items[k]| + |Print(next)| < bound
    ensures ExpandAll(prefix, items, Print(next), bound) == Some(Map(prefix, Product(items, Strings(next))))
    decreases 2 * |Print(next)| + 2, next, 0, |items|
  {
    hide Expansion, Print, Strings, WellFormed;
    var ys := Strings(next);
    if items != [] {
      assert Plain(prefix + items[0]);
      ExpandsToProduct(prefix + items[0], next);
      ExpandsItems(prefix, items[1..], next, bound);
      MapMap(prefix, items[0], ys);
      MapAppend(prefix, Map(items[0], ys), Product(items[1..], ys));
    }
  }

  lemma ExpandsChoice(prefix: string, w: Word)
    requires Plain(prefix) && w.Choice? && WellFormed(w, false)
    ensures Expansion(prefix + Print(w)) == Some(Map(prefix, Strings(w)))
    decreases 2 * |Print(w)| + 1, w, 0
  {
    hide Print, Product, OpeningBrace, MatchingBrace, Split, ExpandAll, RangeOf;
    GroupFound(prefix, w);
    GroupFound("", w);
    assert "" + Print(w) == Print(w);
    var ws := w.alternatives;
    assert GroupBody(w) == PrintAll(ws);
    ChoiceSplits(ws);
    ChoiceIsNoRange(ws);
    AlternativesFit(PrintAll(ws));
    GroupPrint(w, "");
    ExpandsAlternatives(prefix, ws, w.next, |prefix + Print(w)|, |Print(w)|);
  }

  lemma ChoiceIsNoRange(ws: seq<Word>)
    requires |ws| >= 2
    ensures RangeOf(PrintAll(ws)) == NotARange
  {
    hide RangeOf, Print;
    assert PrintAll(ws)[|Print(ws[0])|] == ',';
    if RangeOf(PrintAll(ws)) != NotARange { RangeIsPlain(PrintAll(ws)); }
  }

  lemma ExpandsAlternatives(prefix: string, ws: seq<Word>, next: Word, bound: nat, most: nat)
    requires Plain(prefix) && AllWellFormed(ws) && WellFormed(next, false)
    requires forall k :: 0 <= k < |ws| ==> |Prints(ws)[k]| + |Print(next)| < most && |prefix| + |Prints(ws)[k]| + |Print(next)| < bound
    ensures ExpandAll(prefix, Prints(ws), Print(next), bound)
            == Some(Map(prefix, Product(StringsOfAll(ws), Strings(next))))
    decreases 2 * most, next, 0, |ws|
  {
    hide Expansion, ExpandAll, Print, Strings, WellFormed, Product, RangeOf, Map;
    var ys := Strings(next);
    if ws == [] {
      ProductEmpty(ys);
      AllNone(prefix, Print(next), bound);
    } else {
      var w := Append(ws[0], next);
      assert Prints(ws)[0] == Print(ws[0]) && Prints(ws)[1..] == Prints(ws[1..]);
      AppendPrints(ws[0], next);
      assert prefix + Print(ws[0]) + Print(next) == prefix + Print(w);
      AppendWellFormed(ws[0], next);
      ExpandsToProduct(prefix, w);
      AppendStrings(ws[0], next);
      ExpandsAlternatives(prefix, ws[1..], next, bound, most);
      var xs := Strings(ws[0]);
      var more := StringsOfAll(ws[1..]);
      ProductAppend(xs, more, ys);
      MapAppend(prefix, Product(xs, ys), Product(more, ys));
      AllNext(prefix, Prints(ws), Print(next), bound);
      assert StringsOfAll(ws) == xs + more;
    }
  }

  lemma AllNext(prefix: string, pieces: seq<string>, suffix: string, bound: nat)
    requires pieces != [] && forall k :: 0 <= k < |pieces| ==> |prefix| + |pieces[k]| + |suffix| < bound
    ensures ExpandAll(prefix, pieces, suffix, bound)
            == Both(Expansion(prefix + pieces[0] + suffix), ExpandAll(prefix, pieces[1..], suffix, bound))
  {
    hide Expansion;
  }

  lemma AllNone(prefix: string, suffix: string, bound: nat)
    ensures ExpandAll(prefix, [], suffix, bound) == Some([]) && Map(prefix, []) == []
  {}

  lemma ProductEmpty(ys: seq<string>)
    ensures Product([], ys) == []
  {}

  // ---- a range without result ----

  /** A word whose first group never ends expands to nothing at all. */
  lemma EndlessGroup(prefix: string, body: string, suffix: string)
    requires Plain(prefix) && RangeOf(body) == NoResult
    ensures Expansion(prefix + "{" + body + "}" + suffix) == None
  {
    hide RangeOf, OpeningBrace, MatchingBrace, ExpandAll;
    RangeIsPlain(body);
    var group := "{" + (body + ("}" + suffix));
    var text := prefix + group;
    assert prefix + "{" + body + "}" + suffix == text;
    PlainOpening(prefix, group);
    OpensHere(group);
    PlainMatching(body, "}" + suffix, 1);
    GroupMatching(body, suffix, 0);
    assert text[|prefix|..] == group && text[..|prefix|] == prefix;
    assert text[|prefix| + 1..|prefix| + |body| + 1] == body;
  }

  // ---- an item that is a backslash ----

  /** A backslash takes the meaning from the character after it, so a group that begins there is none. */
  lemma BackslashHides(prefix: string, c: char, rest: string)
    requires Plain(prefix)
    ensures OpeningBrace(prefix + "\\" + [c] + rest) == Shift(OpeningBrace(rest), |prefix| + 2)
  {
    var s := "\\" + [c] + rest;
    assert s[2..] == rest;
    assert OpeningBrace(s) == Shift(OpeningBrace(rest), 2);
    PlainOpening(prefix, s);
    assert prefix + s == prefix + "\\" + [c] + rest;
  }

  /** After such an item the group that follows the range stays as it was written. */
  lemma BackslashHidesAGroup(prefix: string, inner: string)
    requires Plain(prefix) && Plain(inner)
    ensures Expansion(prefix + "\\" + "{" + inner + "}") == Some([prefix + "\\" + "{" + inner + "}"])
  {
    hide OpeningBrace, MatchingBrace, RangeOf;
    BackslashHides(prefix, '{', inner + "}");
    PlainOpening(inner, "}");
    NoOpening();
    assert prefix + "\\" + ['{'] + (inner + "}") == prefix + "\\" + "{" + inner + "}";
  }

  lemma NoOpening()
    ensures OpeningBrace("}") == -1
  {
    assert "}"[1..] == "" && OpeningBrace("") == -1;
  }
}
