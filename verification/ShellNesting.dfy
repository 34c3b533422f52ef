/**
 What may stand between an opening and its close: a grammar of quotes, escapes, comments, groups and expansions.
 A scan ends at a position exactly when the text up to it is spelled by that grammar.
 */
module ShellNesting {
  import opened Wrappers
  import opened ShellWords

  /** Something that a scan passes as a whole. A comment ends with its line. */
  datatype Item =
    | Plain(c: char)
    | Escape(c: char)
    | Single(body: string)
    | Double(items: seq<Item>)
    | Comment(line: string)
    | Round(items: seq<Item>)
    | Curly(items: seq<Item>)
    | Backquoted(items: seq<Item>)
    | Ansi(items: seq<Item>)
    | Pid
    | Command(items: seq<Item>)
    | Arithmetic(items: seq<Item>, closed: bool)
    | Braced(items: seq<Item>)

  function Spell(i: Item): (s: string)
    ensures s != ""
  {
    match i
    case Plain(c) => [c]
    case Escape(c) => ['\\', c]
    case Single(body) => "'" + body + "'"
    case Double(items) => "\"" + (Text(items) + "\"")
    case Comment(line) => "#" + line + "\n"
    case Round(items) => "(" + (Text(items) + ")")
    case Curly(items) => "{" + (Text(items) + "}")
    case Backquoted(items) => "`" + (Text(items) + "`")
    case Ansi(items) => "$'" + (Text(items) + "'")
    case Pid => "$$"
    case Command(items) => "$(" + (Text(items) + ")")
    case Arithmetic(items, closed) => "$((" + (Text(items) + if closed then "))" else ")")
    case Braced(items) => "${" + (Text(items) + "}")
  }

  function Text(items: seq<Item>): string {
    if items == [] then "" else Spell(items[0]) + Text(items[1..])
  }

  /** Where an item stands: inside parentheses, braces, arithmetic, double quotes, or quotes in which a backslash escapes. */
  datatype Region = InParens | InBraces | InArithmetic | InDouble | InEscaped(quote: char)

  /** The characters that are not plain there. */
  function Special(r: Region): string {
    match r
    case InParens => "'\"\\#()"
    case InBraces => "'\"\\{}"
    case InArithmetic => "()"
    case InDouble => "\"\\`"
    case InEscaped(quote) => [quote, '\\']
  }

  /** The first character of what comes next. */
  function First(s: string): char
    requires s != ""
  {
    s[0]
  }

  predicate Fits(i: Item, r: Region)
    decreases i, 1
  {
    match i
    case Plain(c) => c !in Special(r)
    case Escape(_) => r != InArithmetic && (r.InEscaped? ==> r.quote != '\\')
    case Single(body) => (r == InParens || r == InBraces) && '\'' !in body
    case Double(items) => (r == InParens || r == InBraces) && AllFit(items, InDouble, '"')
    case Comment(line) => r == InParens && '\n' !in line
    case Round(items) => (r == InParens || r == InArithmetic) && AllFit(items, r, ')')
    case Curly(items) => r == InBraces && AllFit(items, InBraces, '}')
    case Backquoted(items) => r == InDouble && AllFit(items, InEscaped('`'), '`')
    case Ansi(items) => r == InDouble && AllFit(items, InEscaped('\''), '\'')
    case Pid => r == InDouble
    case Command(items) => r == InDouble && AllFit(items, InParens, ')') && First(Text(items) + ")") != '('
    case Arithmetic(items, closed) => r == InDouble && AllFit(items, InArithmetic, ')')
    case Braced(items) => r == InDouble && AllFit(items, InBraces, '}')
  }

  /** A dollar sign by itself is not followed by what would open an expansion, and a single close not by another. */
  predicate MayPrecede(i: Item, r: Region, next: char) {
    r == InDouble ==> (i == Plain('$') ==> next !in "$({'") && (i.Arithmetic? && !i.closed ==> next != ')')
  }

  /** A sequence of items in front of `close`. */
  predicate AllFit(items: seq<Item>, r: Region, close: char)
    decreases items, 0
  {
    items != [] ==> Fits(items[0], r) && MayPrecede(items[0], r, First(Text(items[1..]) + [close])) && AllFit(items[1..], r, close)
  }

  // ---- text in place ----

  /** `t` stands at `p`. */
  predicate Stands(s: string, p: nat, t: string) {
    p + |t| <= |s| && s[p..p + |t|] == t
  }

  lemma StandsSplit(s: string, p: nat, a: string, b: string)
    ensures Stands(s, p, a + b) <==> Stands(s, p, a) && Stands(s, p + |a|, b)
  {
    if p + |a + b| <= |s| {
      assert s[p..p + |a + b|] == s[p..p + |a|] + s[p + |a|..p + |a + b|];
      if s[p..p + |a + b|] == a + b {
        assert (a + b)[..|a|] == a && (a + b)[|a|..] == b;
        assert s[p..p + |a + b|][..|a|] == s[p..p + |a|];
      }
    }
  }

  lemma StandsAt(s: string, p: nat, t: string, k: nat)
    requires Stands(s, p, t) && k < |t|
    ensures p + k < |s| && s[p + k] == t[k] && At(s, p + k) == t[k]
  {
    assert s[p..p + |t|][k] == s[p + k];
  }

  lemma StandsFirst(s: string, p: nat, t: string)
    requires Stands(s, p, t) && t != ""
    ensures p < |s| && s[p] == At(s, p) == First(t)
  {
    StandsAt(s, p, t, 0);
  }

  // ---- a scan passes over what fits ----

  lemma {:induction false} SingleEnds(s: string, p: nat, body: string)
    requires Stands(s, p, body + "'") && '\'' !in body
    ensures QuotedEnd(s, p, '\'', false) == Some(p + |body| + 1)
    decreases |body|
  {
    StandsFirst(s, p, body + "'");
    if body != "" {
      assert body + "'" == [body[0]] + (body[1..] + "'");
      StandsSplit(s, p, [body[0]], body[1..] + "'");
      SingleEnds(s, p + 1, body[1..]);
    }
  }

  lemma {:induction false} LineEnds(s: string, p: nat, line: string)
    requires Stands(s, p, line + "\n") && '\n' !in line
    ensures LineEnd(s, p) == p + |line|
    decreases |line|
  {
    StandsFirst(s, p, line + "\n");
    if line != "" {
      assert line + "\n" == [line[0]] + (line[1..] + "\n");
      StandsSplit(s, p, [line[0]], line[1..] + "\n");
      LineEnds(s, p + 1, line[1..]);
    }
  }

  lemma TextSplit(s: string, p: nat, items: seq<Item>, close: string)
    requires items != [] && Stands(s, p, Text(items) + close)
    ensures Stands(s, p, Spell(items[0])) && Stands(s, p + |Spell(items[0])|, Text(items[1..]) + close)
    ensures |Text(items)| == |Spell(items[0])| + |Text(items[1..])|
  {
    hide Spell, Stands;
    assert Text(items) + close == Spell(items[0]) + (Text(items[1..]) + close);
    StandsSplit(s, p, Spell(items[0]), Text(items[1..]) + close);
  }

  lemma {:induction false} EscapedEnds(s: string, p: nat, items: seq<Item>, quote: char)
    requires quote != '\\' && AllFit(items, InEscaped(quote), quote) && Stands(s, p, Text(items) + [quote])
    ensures QuotedEnd(s, p, quote, true) == Some(p + |Text(items)| + 1)
    decreases items
  {
    hide Stands;
    StandsFirst(s, p, Text(items) + [quote]);
    if items != [] {
      TextSplit(s, p, items, [quote]);
      StandsFirst(s, p, Spell(items[0]));
      if items[0].Escape? { StandsAt(s, p, Spell(items[0]), 1); }
      EscapedEnds(s, p + |Spell(items[0])|, items[1..], quote);
    }
  }

  lemma {:induction false} ArithmeticPast(s: string, p: nat, items: seq<Item>, depth: nat)
    requires depth > 0 && AllFit(items, InArithmetic, ')') && Stands(s, p, Text(items) + ")")
    ensures p + |Text(items)| < |s| && ArithmeticEnd(s, p, depth) == ArithmeticEnd(s, p + |Text(items)|, depth)
    decreases items
  {
    hide Stands;
    StandsFirst(s, p, Text(items) + ")");
    if items != [] {
      var i := items[0];
      TextSplit(s, p, items, ")");
      StandsFirst(s, p, Spell(i));
      if i.Round? {
        StandsSplit(s, p, "(", Text(i.items) + ")");
        ArithmeticPast(s, p + 1, i.items, depth + 1);
        StandsSplit(s, p + 1, Text(i.items), ")");
        StandsFirst(s, p + 1 + |Text(i.items)|, ")");
      }
      ArithmeticPast(s, p + |Spell(i)|, items[1..], depth);
    }
  }

  lemma SingleStands(s: string, p: nat, body: string)
    requires Stands(s, p, Spell(Single(body))) && '\'' !in body
    ensures p < |s| && s[p] == '\'' && QuotedEnd(s, p + 1, '\'', false) == Some(p + |Spell(Single(body))|)
  {
    hide Stands;
    StandsFirst(s, p, Spell(Single(body)));
    assert Spell(Single(body)) == "'" + (body + "'");
    StandsSplit(s, p, "'", body + "'");
    SingleEnds(s, p + 1, body);
  }

  lemma CommentStands(s: string, p: nat, line: string)
    requires Stands(s, p, Spell(Comment(line))) && '\n' !in line
    ensures p + 1 + |line| < |s| && s[p] == '#' && LineEnd(s, p + 1) == p + 1 + |line| && s[p + 1 + |line|] == '\n'
  {
    hide Stands;
    StandsFirst(s, p, Spell(Comment(line)));
    assert Spell(Comment(line)) == "#" + (line + "\n");
    StandsSplit(s, p, "#", line + "\n");
    LineEnds(s, p + 1, line);
    StandsSplit(s, p + 1, line, "\n");
    StandsFirst(s, p + 1 + |line|, "\n");
  }

  /** Past an item inside parentheses, whatever comes after. */
  lemma {:induction false} ParensItem(s: string, p: nat, i: Item, depth: nat)
    requires depth > 0 && Fits(i, InParens) && Stands(s, p, Spell(i))
    ensures p + |Spell(i)| <= |s| && BalancedEnd(s, p, '(', ')', depth) == BalancedEnd(s, p + |Spell(i)|, '(', ')', depth)
    decreases i, 1
  {
    hide QuotedEnd, DoubleEnd, LineEnd, Stands, Text, AllFit;
    StandsFirst(s, p, Spell(i));
    StandsWithin(s, p, Spell(i));
    match i
    case Plain(_) =>
    case Escape(_) => StandsAt(s, p, Spell(i), 1);
    case Single(body) => SingleStands(s, p, body);
    case Double(items) =>
      StandsSplit(s, p, "\"", Text(items) + "\"");
      DoubleEnds(s, p + 1, items);
    case Comment(line) => CommentStands(s, p, line);
    case Round(items) => ParensRound(s, p, items, depth);
  }

  lemma {:induction false} ParensRound(s: string, p: nat, items: seq<Item>, depth: nat)
    requires depth > 0 && AllFit(items, InParens, ')') && Stands(s, p, Spell(Round(items)))
    ensures var e := p + |Spell(Round(items))|;
            p < e <= |s| && s[p] == '(' && BalancedEnd(s, p, '(', ')', depth) == BalancedEnd(s, e, '(', ')', depth)
    decreases items, 1
  {
    hide Stands, Text, AllFit;
    StandsFirst(s, p, Spell(Round(items)));
    StandsSplit(s, p, "(", Text(items) + ")");
    ParensPast(s, p + 1, items, depth + 1);
    StandsSplit(s, p + 1, Text(items), ")");
    StandsFirst(s, p + 1 + |Text(items)|, ")");
  }

  lemma StandsWithin(s: string, p: nat, t: string)
    requires Stands(s, p, t)
    ensures p + |t| <= |s|
  {}

  lemma {:induction false} ParensPast(s: string, p: nat, items: seq<Item>, depth: nat)
    requires depth > 0 && AllFit(items, InParens, ')') && Stands(s, p, Text(items) + ")")
    ensures p + |Text(items)| < |s| && BalancedEnd(s, p, '(', ')', depth) == BalancedEnd(s, p + |Text(items)|, '(', ')', depth)
    decreases items, 0
  {
    hide BalancedEnd, Spell, Fits, Stands;
    StandsFirst(s, p, Text(items) + ")");
    if items != [] {
      TextSplit(s, p, items, ")");
      ParensItem(s, p, items[0], depth);
      ParensPast(s, p + |Spell(items[0])|, items[1..], depth);
    }
  }

  lemma {:induction false} BracesItem(s: string, p: nat, i: Item, depth: nat)
    requires depth > 0 && Fits(i, InBraces) && Stands(s, p, Spell(i))
    ensures p + |Spell(i)| <= |s| && BraceEnd(s, p, depth) == BraceEnd(s, p + |Spell(i)|, depth)
    decreases i, 1
  {
    hide QuotedEnd, DoubleEnd, Stands, Text, AllFit;
    StandsFirst(s, p, Spell(i));
    StandsWithin(s, p, Spell(i));
    match i
    case Plain(_) =>
    case Escape(_) => StandsAt(s, p, Spell(i), 1);
    case Single(body) => SingleStands(s, p, body);
    case Double(items) =>
      StandsSplit(s, p, "\"", Text(items) + "\"");
      DoubleEnds(s, p + 1, items);
    case Curly(items) =>
      StandsSplit(s, p, "{", Text(items) + "}");
      BracesPast(s, p + 1, items, depth + 1);
      StandsSplit(s, p + 1, Text(items), "}");
      StandsFirst(s, p + 1 + |Text(items)|, "}");
  }

  lemma {:induction false} BracesPast(s: string, p: nat, items: seq<Item>, depth: nat)
    requires depth > 0 && AllFit(items, InBraces, '}') && Stands(s, p, Text(items) + "}")
    ensures p + |Text(items)| < |s| && BraceEnd(s, p, depth) == BraceEnd(s, p + |Text(items)|, depth)
    decreases items, 0
  {
    hide BraceEnd, Spell, Fits, Stands;
    StandsFirst(s, p, Text(items) + "}");
    if items != [] {
      TextSplit(s, p, items, "}");
      BracesItem(s, p, items[0], depth);
      BracesPast(s, p + |Spell(items[0])|, items[1..], depth);
    }
  }

  /** An expansion after its dollar sign, in double quotes. */
  lemma {:induction false} DollarEnds(s: string, p: nat, i: Item)
    requires Fits(i, InDouble) && First(Spell(i)) == '$' && Stands(s, p, Spell(i)) && MayPrecede(i, InDouble, At(s, p + |Spell(i)|))
    ensures p + |Spell(i)| <= |s| && DollarEnd(s, p + 1, true) == Some(p + |Spell(i)|)
    decreases i, 1
  {
    hide QuotedEnd, DoubleEnd, BraceEnd, BalancedEnd, ArithmeticEnd, Stands, Text, AllFit;
    var t := Spell(i);
    StandsWithin(s, p, t);
    StandsFirst(s, p, t);
    if |t| > 1 { StandsAt(s, p, t, 1); }
    match i
    case Plain(_) =>
    case Pid =>
    case Ansi(items) =>
      StandsSplit(s, p, "$'", Text(items) + "'");
      EscapedEnds(s, p + 2, items, '\'');
    case Command(items) =>
      StandsSplit(s, p, "$(", Text(items) + ")");
      StandsFirst(s, p + 2, Text(items) + ")");
      ParensPast(s, p + 2, items, 1);
      StandsSplit(s, p + 2, Text(items), ")");
      ParensClose(s, p + 2 + |Text(items)|);
    case Arithmetic(items, closed) =>
      ArithmeticEnds(s, p, i);
    case Braced(items) =>
      StandsSplit(s, p, "${", Text(items) + "}");
      BracesPast(s, p + 2, items, 1);
      StandsSplit(s, p + 2, Text(items), "}");
      BracesClose(s, p + 2 + |Text(items)|);
  }

  lemma ParensClose(s: string, p: nat)
    requires Stands(s, p, ")")
    ensures p < |s| && BalancedEnd(s, p, '(', ')', 1) == Some(p + 1)
  {
    StandsFirst(s, p, ")");
  }

  lemma BracesClose(s: string, p: nat)
    requires Stands(s, p, "}")
    ensures p < |s| && BraceEnd(s, p, 1) == Some(p + 1)
  {
    StandsFirst(s, p, "}");
  }

  lemma ArithmeticEnds(s: string, p: nat, i: Item)
    requires i.Arithmetic? && Fits(i, InDouble) && Stands(s, p, Spell(i)) && (!i.closed ==> At(s, p + |Spell(i)|) != ')')
    ensures p + 3 <= |s| && At(s, p + 1) == '(' && At(s, p + 2) == '(' && ArithmeticEnd(s, p + 3, 1) == Some(p + |Spell(i)|)
  {
    hide Stands, Text, AllFit;
    var inner, close := Text(i.items), if i.closed then "))" else ")";
    StandsSplit(s, p, "$((", inner + close);
    StandsAt(s, p, Spell(i), 1);
    StandsAt(s, p, Spell(i), 2);
    StandsSplit(s, p + 3, inner, close);
    var q := p + 3 + |inner|;
    StandsAt(s, q, close, 0);
    if i.closed {
      StandsAt(s, q, close, 1);
      assert close == ")" + ")";
      StandsSplit(s, q, ")", ")");
    }
    StandsSplit(s, p + 3, inner, ")");
    ArithmeticPast(s, p + 3, i.items, 1);
  }

  lemma {:induction false} DoubleItem(s: string, p: nat, i: Item)
    requires Fits(i, InDouble) && Stands(s, p, Spell(i)) && MayPrecede(i, InDouble, At(s, p + |Spell(i)|))
    ensures p + |Spell(i)| <= |s| && DoubleEnd(s, p) == DoubleEnd(s, p + |Spell(i)|)
    decreases i, 2
  {
    hide QuotedEnd, DollarEnd, Stands, AllFit, Text;
    StandsWithin(s, p, Spell(i));
    StandsFirst(s, p, Spell(i));
    if First(Spell(i)) == '$' {
      DollarEnds(s, p, i);
    } else if i.Backquoted? {
      StandsSplit(s, p, "`", Text(i.items) + "`");
      EscapedEnds(s, p + 1, i.items, '`');
    } else if i.Escape? {
      StandsAt(s, p, Spell(i), 1);
    }
  }

  lemma {:induction false} DoubleEnds(s: string, p: nat, items: seq<Item>)
    requires AllFit(items, InDouble, '"') && Stands(s, p, Text(items) + "\"")
    ensures p < |s| && DoubleEnd(s, p) == Some(p + |Text(items)| + 1)
    decreases items, 0
  {
    hide Spell, Fits, MayPrecede, Stands;
    StandsFirst(s, p, Text(items) + "\"");
    if items == [] {
      QuoteCloses(s, p);
    } else {
      hide DoubleEnd;
      var i := items[0];
      TextSplit(s, p, items, "\"");
      StandsFirst(s, p + |Spell(i)|, Text(items[1..]) + "\"");
      DoubleItem(s, p, i);
      DoubleEnds(s, p + |Spell(i)|, items[1..]);
    }
  }

  lemma QuoteCloses(s: string, p: nat)
    requires p < |s| && s[p] == '"'
    ensures DoubleEnd(s, p) == Some(p + 1)
  {}
}
