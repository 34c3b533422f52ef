/**
 What simple patterns match, told without the parsed form: plain text itself, a star anything, a question mark
 one character, and a group of words one of them, none of them, or any number of them in a row.
 */
module PatternMeanings {
  import opened Texts
  import opened Wrappers
  import opened ShellPattern
  import opened PatternPrinting

  /** Text in which no character means anything but itself. */
  predicate IsPlainWord(w: string) {
    forall k :: 0 <= k < |w| ==> w[k] !in "?*+@![\\()|"
  }

  /** The same text, up to case where that is ignored. */
  predicate Alike(o: Options, s: string, w: string) {
    |s| == |w| && forall k :: 0 <= k < |s| ==> CharsEqual(o, s[k], w[k])
  }

  /** Without that option it is the same text. */
  lemma AlikeIsEqual(o: Options, s: string, w: string)
    requires !o.caseInsensitive
    ensures Alike(o, s, w) <==> s == w
  {}

  lemma PlainStep(o: Options, c: char, rest: string)
    requires c !in "?*+@![\\()|"
    ensures Parse([c] + rest, o.extGlob) == Literal(c, Parse(rest, o.extGlob))
  {
    hide GroupEnd, Split, BracketBody, ParseAll;
    assert ([c] + rest)[1..] == rest;
  }

  /** Plain text in front of a pattern takes text like it from the front. */
  lemma {:induction false} WordInFront(o: Options, w: string, rest: string, s: string)
    requires IsPlainWord(w)
    ensures Matches(o, s, w + rest) <==> |s| >= |w| && Alike(o, s[..|w|], w) && Matches(o, s[|w|..], rest)
    decreases |w|
  {
    hide Parse, CharsEqual;
    if w == "" {
      assert w + rest == rest && s[..0] == "" && s[0..] == s;
    } else {
      var more := w[1..] + rest;
      assert w + rest == [w[0]] + more;
      PlainStep(o, w[0], more);
      if s != "" {
        WordInFront(o, w[1..], rest, s[1..]);
        if |s| >= |w| {
          assert s[1..][..|w| - 1] == s[..|w|][1..] && s[1..][|w| - 1..] == s[|w|..];
          AlikeStep(o, s[..|w|], w);
        }
      }
    }
  }

  lemma AlikeStep(o: Options, s: string, w: string)
    requires |s| == |w| > 0
    ensures Alike(o, s, w) <==> CharsEqual(o, s[0], w[0]) && Alike(o, s[1..], w[1..])
  {
    hide CharsEqual;
    if CharsEqual(o, s[0], w[0]) && Alike(o, s[1..], w[1..]) {
      forall k | 0 <= k < |s| ensures CharsEqual(o, s[k], w[k]) {
        if k > 0 { assert s[k] == s[1..][k - 1] && w[k] == w[1..][k - 1]; }
      }
    }
    if Alike(o, s, w) {
      forall k | 0 <= k < |s| - 1 ensures CharsEqual(o, s[1..][k], w[1..][k]) { assert s[1..][k] == s[k + 1] && w[1..][k] == w[k + 1]; }
    }
  }

  /** Plain text matches itself and nothing else. */
  lemma WordsMatchThemselves(o: Options, w: string, s: string)
    requires IsPlainWord(w)
    ensures Matches(o, s, w) <==> Alike(o, s, w)
  {
    hide CharsEqual;
    WordInFront(o, w, "", s);
    assert w + "" == w;
    if |s| == |w| { assert s[..|w|] == s; }
  }

  /** A star between two words takes anything at all. */
  lemma StarTakesAnything(o: Options, a: string, b: string, s: string)
    requires IsPlainWord(a) && IsPlainWord(b)
    ensures Matches(o, s, a + ("*" + b)) <==> |s| >= |a| + |b| && Alike(o, s[..|a|], a) && Alike(o, s[|s| - |b|..], b)
  {
    hide Parse, CharsEqual, Alike;
    WordInFront(o, a, "*" + b, s);
    if |s| >= |a| {
      var t := s[|a|..];
      StarStep(o, b);
      forall k | 0 <= k <= |t| ensures In(o, Parse(b, o.extGlob), t[k..]) <==> Alike(o, t[k..], b) { WordsMatchThemselves(o, b, t[k..]); }
      AlikeLength(o, b);
      if |t| >= |b| { assert t[|t| - |b|..] == s[|s| - |b|..]; }
    }
  }

  lemma AlikeLength(o: Options, w: string)
    ensures forall s: string :: Alike(o, s, w) ==> |s| == |w|
  {}

  lemma StarStep(o: Options, b: string)
    requires IsPlainWord(b)
    ensures Parse("*" + b, o.extGlob) == Star(Parse(b, o.extGlob))
  {
    hide GroupEnd, Split, BracketBody, ParseAll;
    OneStar(b);
    NoStar(b);
    if b != "" { assert ("*" + b)[1] == b[0]; }
  }

  /** A question mark takes one character, whichever it is. */
  lemma QuestionTakesOne(o: Options, a: string, b: string, s: string)
    requires IsPlainWord(a) && IsPlainWord(b)
    ensures Matches(o, s, a + ("?" + b)) <==> |s| == |a| + 1 + |b| && Alike(o, s[..|a|], a) && Alike(o, s[|a| + 1..], b)
  {
    hide Parse, CharsEqual, Alike;
    WordInFront(o, a, "?" + b, s);
    AlikeLength(o, b);
    if |s| >= |a| {
      var t := s[|a|..];
      QuestionStep(o, b);
      if t != "" {
        WordsMatchThemselves(o, b, t[1..]);
        assert t[1..] == s[|a| + 1..];
      }
    }
  }

  lemma QuestionStep(o: Options, b: string)
    requires IsPlainWord(b)
    ensures Parse("?" + b, o.extGlob) == AnyChar(Parse(b, o.extGlob))
  {
    hide GroupEnd, Split, BracketBody, ParseAll;
    assert ("?" + b)[1..] == b;
    if b != "" { assert ("?" + b)[1] == b[0]; }
  }

  // ---- groups of words ----

  function LettersOf(w: string): PieceList {
    if w == "" then Empty else More(Plain(w[0]), LettersOf(w[1..]))
  }

  lemma {:induction false} LettersFit(w: string)
    requires IsPlainWord(w)
    ensures Text(LettersOf(w)) == w && AllFit(LettersOf(w), true)
    decreases |w|
  {
    if w != "" {
      LettersFit(w[1..]);
      assert [w[0]] + w[1..] == w;
    }
  }

  function AllLetters(words: seq<string>): (r: seq<PieceList>)
    ensures |r| == |words| && forall k :: 0 <= k < |r| ==> r[k] == LettersOf(words[k])
  {
    seq(|words|, k requires 0 <= k < |words| => LettersOf(words[k]))
  }

  /** The words with a bar between each two. */
  function Barred(words: seq<string>): string {
    if words == [] then "" else if |words| == 1 then words[0] else words[0] + ("|" + Barred(words[1..]))
  }

  predicate ArePlainWords(words: seq<string>) {
    words != [] && forall k :: 0 <= k < |words| ==> words[k] != "" && IsPlainWord(words[k])
  }

  lemma {:induction false} BarredIs(words: seq<string>)
    requires ArePlainWords(words)
    ensures ChoiceText(AllLetters(words)) == Barred(words)
    decreases |words|
  {
    LettersFit(words[0]);
    if |words| > 1 {
      assert AllLetters(words)[1..] == AllLetters(words[1..]);
      BarredIs(words[1..]);
    }
  }

  lemma GroupParses(op: char, words: seq<string>)
    requires op in "?*+@!" && ArePlainWords(words)
    ensures var pat := Parse([op, '('] + (Barred(words) + ")"), true);
            && pat.Group? && pat.op == op && pat.next == End && |pat.alternatives| == |words|
            && forall k :: 0 <= k < |words| ==> pat.alternatives[k] == Parse(words[k], true)
  {
    hide AllFit, Text, GroupEnd, Split, Parse, ChoiceText, LettersOf, IsPlainWord;
    var alternatives, inner := AllLetters(words), Barred(words);
    BarredIs(words);
    forall k | 0 <= k < |words| ensures AllFit(alternatives[k], true) && Text(alternatives[k]) == words[k] { LettersFit(words[k]); }
    ChoiceEnds(alternatives, "");
    ChoiceSplits(alternatives);
    var s := [op, '('] + (inner + ")");
    assert s[1..] == "(" + (inner + ")") + "";
    assert s[2..|inner| + 2] == inner && s[|inner| + 3..] == "";
    assert EachText(alternatives) == words;
    ParseGroup(s, inner, words, "");
    ParsesToEnd();
  }

  lemma ParsesToEnd()
    ensures Parse("", true) == End
  {}

  /** One of the words. */
  ghost predicate IsOneOf(o: Options, s: string, words: seq<string>) {
    exists k :: 0 <= k < |words| && Alike(o, s, words[k])
  }

  /** Words in a row, each one of them. */
  ghost predicate IsRowOf(o: Options, parts: seq<string>, words: seq<string>) {
    forall i :: 0 <= i < |parts| ==> IsOneOf(o, parts[i], words)
  }

  lemma InSomeIsOneOf(o: Options, pat: Pat, words: seq<string>, s: string)
    requires o.extGlob && ArePlainWords(words) && pat.Group? && |pat.alternatives| == |words|
    requires forall k :: 0 <= k < |words| ==> pat.alternatives[k] == Parse(words[k], true)
    ensures InSome(o, pat.alternatives, s) <==> IsOneOf(o, s, words)
  {
    hide Parse, Alike, IsPlainWord, In;
    forall k | 0 <= k < |words| ensures In(o, pat.alternatives[k], s) <==> Alike(o, s, words[k]) { WordsMatchThemselves(o, words[k], s); }
  }

  /** A group with nothing after it takes all of the text or none. */
  lemma InGroup(o: Options, op: char, alternatives: seq<Pat>, s: string)
    ensures In(o, Group(op, alternatives, End), s) <==>
              || ((op == '?' || op == '*') && s == "")
              || ((op == '?' || op == '@') && InSome(o, alternatives, s))
              || ((op == '*' || op == '+') && s != "" && Repeated(o, alternatives, s))
              || (op == '!' && !InSome(o, alternatives, s))
  {
    hide InSome, Repeated;
    forall k | 0 <= k <= |s| ensures In(o, End, s[k..]) <==> k == |s| {}
    assert s[..|s|] == s && s[0..] == s;
  }

  /** `@(a|b)` is one of the words, `?(a|b)` that or nothing, and `!(a|b)` anything else. */
  lemma GroupsTakeWords(o: Options, words: seq<string>, s: string)
    requires o.extGlob && ArePlainWords(words)
    ensures Matches(o, s, ['@', '('] + (Barred(words) + ")")) <==> IsOneOf(o, s, words)
    ensures Matches(o, s, ['?', '('] + (Barred(words) + ")")) <==> s == "" || IsOneOf(o, s, words)
    ensures Matches(o, s, ['!', '('] + (Barred(words) + ")")) <==> !IsOneOf(o, s, words)
  {
    hide Parse, IsOneOf, ArePlainWords, Barred, In;
    OneGroup(o, '@', words, s);
    OneGroup(o, '?', words, s);
    OneGroup(o, '!', words, s);
  }

  lemma OneGroup(o: Options, op: char, words: seq<string>, s: string)
    requires o.extGlob && ArePlainWords(words) && op in "@?!"
    ensures Matches(o, s, [op, '('] + (Barred(words) + ")")) <==>
              if op == '@' then IsOneOf(o, s, words) else if op == '?' then s == "" || IsOneOf(o, s, words) else !IsOneOf(o, s, words)
  {
    hide Parse, IsOneOf, ArePlainWords, Barred, In;
    GroupParses(op, words);
    var pat := Parse([op, '('] + (Barred(words) + ")"), true);
    InGroup(o, op, pat.alternatives, s);
    InSomeIsOneOf(o, pat, words, s);
  }

  /** `*(a|b)` is any number of the words in a row, and `+(a|b)` at least one. */
  lemma GroupsTakeRows(o: Options, words: seq<string>, s: string)
    requires o.extGlob && ArePlainWords(words)
    ensures Matches(o, s, ['*', '('] + (Barred(words) + ")")) <==>
              exists parts: seq<string> :: IsRowOf(o, parts, words) && Concat(parts) == s
    ensures Matches(o, s, ['+', '('] + (Barred(words) + ")")) <==>
              exists parts: seq<string> :: IsRowOf(o, parts, words) && Concat(parts) == s && parts != []
  {
    hide Parse, IsOneOf, ArePlainWords, Barred, In;
    OneRow(o, '*', words, s);
    OneRow(o, '+', words, s);
    NoRow(o, words);
    if Matches(o, s, ['*', '('] + (Barred(words) + ")")) && s == "" { assert IsRowOf(o, [], words) && Concat([]) == s; }
    forall parts: seq<string> | parts == [] && Concat(parts) == s ensures s == "" {}
  }

  lemma NoRow(o: Options, words: seq<string>)
    ensures IsRowOf(o, [], words) && Concat([]) == ""
  {}

  lemma OneRow(o: Options, op: char, words: seq<string>, s: string)
    requires o.extGlob && ArePlainWords(words) && (op == '*' || op == '+')
    ensures Matches(o, s, [op, '('] + (Barred(words) + ")")) <==>
              (op == '*' && s == "") || exists parts: seq<string> :: IsRowOf(o, parts, words) && Concat(parts) == s && parts != []
  {
    hide Parse, IsOneOf, ArePlainWords, Barred, In, Repeated;
    GroupParses(op, words);
    var pat := Parse([op, '('] + (Barred(words) + ")"), true);
    InGroup(o, op, pat.alternatives, s);
    RepeatedIsRow(o, pat, words, s);
  }

  lemma RepeatedIsRow(o: Options, pat: Pat, words: seq<string>, s: string)
    requires o.extGlob && ArePlainWords(words) && pat.Group? && |pat.alternatives| == |words|
    requires forall k :: 0 <= k < |words| ==> pat.alternatives[k] == Parse(words[k], true)
    ensures Repeated(o, pat.alternatives, s) <==> exists parts: seq<string> :: IsRowOf(o, parts, words) && Concat(parts) == s && parts != []
    ensures Repeated(o, pat.alternatives, s) ==> s != ""
  {
    hide Parse, IsOneOf, InSome;
    forall parts: seq<string> ensures Pieces(o, pat.alternatives, parts) <==> IsRowOf(o, parts, words) {
      forall i | 0 <= i < |parts| ensures InSome(o, pat.alternatives, parts[i]) <==> IsOneOf(o, parts[i], words) {
        InSomeIsOneOf(o, pat, words, parts[i]);
      }
      forall i | 0 <= i < |parts| && IsOneOf(o, parts[i], words) ensures parts[i] != "" { NoWordIsEmpty(o, parts[i], words); }
    }
  }

  lemma NoWordIsEmpty(o: Options, s: string, words: seq<string>)
    requires ArePlainWords(words) && IsOneOf(o, s, words)
    ensures s != ""
  {}
}
