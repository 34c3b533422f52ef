/**
 The grammar of nested text is the scans' own: each of them ends at a position if and only if what stands
 before it is spelled by the grammar. Without quotes, escapes and comments that is counting parentheses.
 */
module ShellNestingLaws {
  import opened Wrappers
  import opened ShellWords
  import opened ShellNesting

  // ---- a scan that ends has read what fits ----

  /** From `p` to `q` the text is these items, and `close` stands at `q`. */
  ghost predicate Reads(s: string, p: nat, items: seq<Item>, q: nat, r: Region, close: char) {
    p <= q < |s| && s[q] == close && AllFit(items, r, close) && s[p..q] == Text(items)
  }

  lemma ReadsNone(s: string, p: nat, r: Region, close: char)
    requires p < |s| && s[p] == close
    ensures Reads(s, p, [], p, r, close)
  {
    assert s[p..p] == "";
  }

  /** One more item in front. */
  lemma ReadsMore(s: string, p: nat, i: Item, m: nat, items: seq<Item>, q: nat, r: Region, close: char)
    requires p < m <= |s| && s[p..m] == Spell(i) && Fits(i, r) && Reads(s, m, items, q, r, close) && MayPrecede(i, r, s[m])
    ensures Reads(s, p, [i] + items, q, r, close)
  {
    hide Fits, Spell, MayPrecede;
    var all := [i] + items;
    assert all[1..] == items;
    assert s[p..q] == s[p..m] + s[m..q];
    assert s[m..q] + [close] == s[m..q + 1];
    assert First(Text(items) + [close]) == s[m];
  }

  lemma {:induction false} EscapedReads(s: string, p: nat, quote: char, e: nat) returns (items: seq<Item>)
    requires p <= |s| && quote != '\\' && QuotedEnd(s, p, quote, true) == Some(e)
    ensures Reads(s, p, items, e - 1, InEscaped(quote), quote)
    decreases |s| - p
  {
    hide Reads;
    if s[p] == quote {
      ReadsNone(s, p, InEscaped(quote), quote);
      items := [];
    } else {
      var i := if s[p] == '\\' && p + 1 < |s| then Escape(s[p + 1]) else Plain(s[p]);
      var m := p + |Spell(i)|;
      var rest := EscapedReads(s, m, quote, e);
      ReadsAt(s, m, rest, e - 1, InEscaped(quote), quote);
      ReadsMore(s, p, i, m, rest, e - 1, InEscaped(quote), quote);
      items := [i] + rest;
    }
  }

  lemma ReadsAt(s: string, p: nat, items: seq<Item>, q: nat, r: Region, close: char)
    requires Reads(s, p, items, q, r, close)
    ensures p <= q < |s| && s[q] == close
  {}

  lemma {:induction false} ArithmeticReads(s: string, p: nat, depth: nat, e: nat) returns (items: seq<Item>, q: nat)
    requires p <= |s| && depth > 0 && ArithmeticEnd(s, p, depth) == Some(e)
    ensures Reads(s, p, items, q, InArithmetic, ')') && ArithmeticEnd(s, q, depth) == Some(e)
    decreases |s| - p
  {
    hide Reads;
    if s[p] == ')' {
      ReadsNone(s, p, InArithmetic, ')');
      items, q := [], p;
    } else {
      var i, m := Plain(s[p]), p + 1;
      if s[p] == '(' {
        var inner, c := ArithmeticReads(s, p + 1, depth + 1, e);
        ReadsAt(s, p + 1, inner, c, InArithmetic, ')');
        i, m := Round(inner), c + 1;
        RoundSpelled(s, p, inner, c, InArithmetic);
      }
      var rest;
      rest, q := ArithmeticReads(s, m, depth, e);
      ReadsAt(s, m, rest, q, InArithmetic, ')');
      ReadsMore(s, p, i, m, rest, q, InArithmetic, ')');
      items := [i] + rest;
    }
  }

  /** A text in place, with its first `k` characters and its last one apart. */
  lemma Around(s: string, p: nat, k: nat, c: nat)
    requires p + k <= c < |s|
    ensures s[p..c + 1] == s[p..p + k] + (s[p + k..c] + [s[c]])
    ensures k == 1 ==> s[p..p + k] == [s[p]]
    ensures k == 2 ==> s[p..p + k] == [s[p], s[p + 1]]
  {}

  lemma Flat(a: string, b: string, c: string)
    ensures a + b + c == a + (b + c)
  {}

  lemma RoundSpelled(s: string, p: nat, inner: seq<Item>, c: nat, r: Region)
    requires p < |s| && s[p] == '(' && Reads(s, p + 1, inner, c, r, ')') && (r == InParens || r == InArithmetic)
    ensures s[p..c + 1] == Spell(Round(inner)) && Fits(Round(inner), r)
  {
    Around(s, p, 1, c);
  }

  lemma CurlySpelled(s: string, p: nat, inner: seq<Item>, c: nat)
    requires p < |s| && s[p] == '{' && Reads(s, p + 1, inner, c, InBraces, '}')
    ensures s[p..c + 1] == Spell(Curly(inner)) && Fits(Curly(inner), InBraces)
  {
    Around(s, p, 1, c);
  }

  lemma DoubleSpelled(s: string, p: nat, inner: seq<Item>, c: nat, r: Region)
    requires p < |s| && s[p] == '"' && Reads(s, p + 1, inner, c, InDouble, '"') && (r == InParens || r == InBraces)
    ensures s[p..c + 1] == Spell(Double(inner)) && Fits(Double(inner), r)
  {
    Around(s, p, 1, c);
  }

  lemma SingleSpelled(s: string, p: nat, r: Region)
    requires p < |s| && s[p] == '\'' && QuotedEnd(s, p + 1, '\'', false).Some? && (r == InParens || r == InBraces)
    ensures var e := QuotedEnd(s, p + 1, '\'', false).value;
            s[p..e] == Spell(Single(s[p + 1..e - 1])) && Fits(Single(s[p + 1..e - 1]), r)
  {
    hide QuotedEnd;
    NoQuoteExactly(s, p + 1, '\'');
    var e := QuotedEnd(s, p + 1, '\'', false).value;
    Around(s, p, 1, e - 1);
    Flat([s[p]], s[p + 1..e - 1], [s[e - 1]]);
  }

  lemma CommentSpelled(s: string, p: nat)
    requires p < |s| && s[p] == '#' && LineEnd(s, p + 1) < |s|
    ensures var e := LineEnd(s, p + 1);
            s[p..e + 1] == Spell(Comment(s[p + 1..e])) && Fits(Comment(s[p + 1..e]), InParens)
  {
    var e := LineEnd(s, p + 1);
    Around(s, p, 1, e);
    Flat([s[p]], s[p + 1..e], [s[e]]);
  }

  /** The item inside parentheses that stands at `p`, and where it ends. */
  lemma {:induction false} ParensItemReads(s: string, p: nat, depth: nat, e: nat) returns (i: Item, m: nat)
    requires p < |s| && depth > 0 && s[p] != ')' && BalancedEnd(s, p, '(', ')', depth) == Some(e)
    ensures p < m <= |s| && s[p..m] == Spell(i) && Fits(i, InParens) && BalancedEnd(s, m, '(', ')', depth) == Some(e)
    decreases |s| - p, 0
  {
    hide QuotedEnd, DoubleEnd, LineEnd, Reads, AllFit, Text;
    match s[p]
    case '\'' =>
      SingleSpelled(s, p, InParens);
      m := QuotedEnd(s, p + 1, '\'', false).value;
      i := Single(s[p + 1..m - 1]);
    case '"' =>
      m := DoubleEnd(s, p + 1).value;
      var inner := DoubleReads(s, p + 1, m);
      DoubleSpelled(s, p, inner, m - 1, InParens);
      i := Double(inner);
    case '\\' =>
      m := EscapeEnd(s, p);
      NothingCloses(s);
      NothingClosesAt(s, depth);
      i := Escape(s[p + 1]);
    case '#' =>
      var line := LineEnd(s, p + 1);
      NothingClosesAt(s, depth);
      CommentSpelled(s, p);
      i, m := Comment(s[p + 1..line]), line + 1;
    case '(' =>
      var inner, c := ParensReads(s, p + 1, depth + 1, e);
      ReadsAt(s, p + 1, inner, c, InParens, ')');
      RoundSpelled(s, p, inner, c, InParens);
      i, m := Round(inner), c + 1;
    case c =>
      i, m := Plain(c), p + 1;
  }

  lemma NothingClosesAt(s: string, depth: nat)
    requires depth > 0
    ensures BalancedEnd(s, |s|, '(', ')', depth) == None && BraceEnd(s, |s|, depth) == None
  {}

  lemma {:induction false} ParensReads(s: string, p: nat, depth: nat, e: nat) returns (items: seq<Item>, q: nat)
    requires p <= |s| && depth > 0 && BalancedEnd(s, p, '(', ')', depth) == Some(e)
    ensures Reads(s, p, items, q, InParens, ')') && BalancedEnd(s, q, '(', ')', depth) == Some(e)
    decreases |s| - p, 1
  {
    hide Reads, BalancedEnd, Spell, Fits;
    NothingClosesAt(s, depth);
    if s[p] == ')' {
      ReadsNone(s, p, InParens, ')');
      items, q := [], p;
    } else {
      var i, m := ParensItemReads(s, p, depth, e);
      var rest;
      rest, q := ParensReads(s, m, depth, e);
      ReadsAt(s, m, rest, q, InParens, ')');
      ReadsMore(s, p, i, m, rest, q, InParens, ')');
      items := [i] + rest;
    }
  }

  lemma {:induction false} BracesItemReads(s: string, p: nat, depth: nat, e: nat) returns (i: Item, m: nat)
    requires p < |s| && depth > 0 && s[p] != '}' && BraceEnd(s, p, depth) == Some(e)
    ensures p < m <= |s| && s[p..m] == Spell(i) && Fits(i, InBraces) && BraceEnd(s, m, depth) == Some(e)
    decreases |s| - p, 0
  {
    hide QuotedEnd, DoubleEnd, Reads, AllFit, Text;
    match s[p]
    case '\'' =>
      SingleSpelled(s, p, InBraces);
      m := QuotedEnd(s, p + 1, '\'', false).value;
      i := Single(s[p + 1..m - 1]);
    case '"' =>
      m := DoubleEnd(s, p + 1).value;
      var inner := DoubleReads(s, p + 1, m);
      DoubleSpelled(s, p, inner, m - 1, InBraces);
      i := Double(inner);
    case '\\' =>
      m := EscapeEnd(s, p);
      NothingClosesAt(s, depth);
      i := Escape(s[p + 1]);
    case '{' =>
      var inner, c := BracesReads(s, p + 1, depth + 1, e);
      ReadsAt(s, p + 1, inner, c, InBraces, '}');
      CurlySpelled(s, p, inner, c);
      i, m := Curly(inner), c + 1;
    case c =>
      i, m := Plain(c), p + 1;
  }

  lemma {:induction false} BracesReads(s: string, p: nat, depth: nat, e: nat) returns (items: seq<Item>, q: nat)
    requires p <= |s| && depth > 0 && BraceEnd(s, p, depth) == Some(e)
    ensures Reads(s, p, items, q, InBraces, '}') && BraceEnd(s, q, depth) == Some(e)
    decreases |s| - p, 1
  {
    hide Reads, BraceEnd, Spell, Fits;
    NothingClosesAt(s, depth);
    if s[p] == '}' {
      ReadsNone(s, p, InBraces, '}');
      items, q := [], p;
    } else {
      var i, m := BracesItemReads(s, p, depth, e);
      var rest;
      rest, q := BracesReads(s, m, depth, e);
      ReadsAt(s, m, rest, q, InBraces, '}');
      ReadsMore(s, p, i, m, rest, q, InBraces, '}');
      items := [i] + rest;
    }
  }

  /** The expansion that stands at `p`, up to `d`, in double quotes. */
  lemma {:induction false} DollarReads(s: string, p: nat, d: nat) returns (i: Item)
    requires p < |s| && s[p] == '$' && DollarEnd(s, p + 1, true) == Some(d)
    ensures p < d <= |s| && s[p..d] == Spell(i) && Fits(i, InDouble) && MayPrecede(i, InDouble, At(s, d))
    decreases |s| - p, 0
  {
    hide QuotedEnd, DoubleEnd, BraceEnd, BalancedEnd, ArithmeticEnd, Reads, AllFit, Text;
    match At(s, p + 1)
    case '$' => i := Pid;
    case '(' =>
      if At(s, p + 2) == '(' {
        i := ArithmeticSpelled(s, p, d);
      } else {
        var inner, c := ParensReads(s, p + 2, 1, d);
        i := CommandSpelled(s, p, inner, c, d);
      }
    case '{' =>
      var inner, c := BracesReads(s, p + 2, 1, d);
      i := BracedSpelled(s, p, inner, c, d);
    case '\'' =>
      var inner := EscapedReads(s, p + 2, '\'', d);
      ReadsAt(s, p + 2, inner, d - 1, InEscaped('\''), '\'');
      i := Ansi(inner);
      AnsiSpelled(s, p, inner, d - 1);
    case _ => i := Plain('$');
  }

  lemma AnsiSpelled(s: string, p: nat, inner: seq<Item>, c: nat)
    requires p + 1 < |s| && s[p] == '$' && s[p + 1] == '\'' && Reads(s, p + 2, inner, c, InEscaped('\''), '\'')
    ensures s[p..c + 1] == Spell(Ansi(inner)) && Fits(Ansi(inner), InDouble)
  {
    Around(s, p, 2, c);
  }

  lemma CommandSpelled(s: string, p: nat, inner: seq<Item>, c: nat, d: nat) returns (i: Item)
    requires p + 1 < |s| && s[p] == '$' && s[p + 1] == '(' && At(s, p + 2) != '('
    requires Reads(s, p + 2, inner, c, InParens, ')') && BalancedEnd(s, c, '(', ')', 1) == Some(d)
    ensures p < d <= |s| && i == Command(inner) && s[p..d] == Spell(i) && Fits(i, InDouble)
  {
    i := Command(inner);
    Around(s, p, 2, c);
    assert First(Text(inner) + ")") == s[p + 2] by { if inner == [] { assert c == p + 2; } }
  }

  lemma BracedSpelled(s: string, p: nat, inner: seq<Item>, c: nat, d: nat) returns (i: Item)
    requires p + 1 < |s| && s[p] == '$' && s[p + 1] == '{'
    requires Reads(s, p + 2, inner, c, InBraces, '}') && BraceEnd(s, c, 1) == Some(d)
    ensures p < d <= |s| && i == Braced(inner) && s[p..d] == Spell(i) && Fits(i, InDouble)
  {
    i := Braced(inner);
    Around(s, p, 2, c);
  }

  lemma ArithmeticSpelled(s: string, p: nat, d: nat) returns (i: Item)
    requires p + 2 < |s| && s[p] == '$' && s[p + 1] == '(' && s[p + 2] == '(' && ArithmeticEnd(s, p + 3, 1) == Some(d)
    ensures p < d <= |s| && i.Arithmetic? && s[p..d] == Spell(i) && Fits(i, InDouble) && MayPrecede(i, InDouble, At(s, d))
  {
    var inner, c := ArithmeticReads(s, p + 3, 1, d);
    i := Arithmetic(inner, d == c + 2);
    assert s[p..c] == [s[p], s[p + 1], s[p + 2]] + s[p + 3..c];
    assert s[p..c + 1] == s[p..c] + [s[c]];
    if d == c + 2 { assert s[p..d] == s[p..c] + [s[c], s[c + 1]]; }
  }

  lemma {:induction false} DoubleReads(s: string, p: nat, e: nat) returns (items: seq<Item>)
    requires p <= |s| && DoubleEnd(s, p) == Some(e)
    ensures Reads(s, p, items, e - 1, InDouble, '"')
    decreases |s| - p, 2
  {
    hide Reads, DollarEnd, QuotedEnd, AllFit, Text, MayPrecede;
    if s[p] == '"' {
      ReadsNone(s, p, InDouble, '"');
      items := [];
    } else {
      var i, m := DoubleItemReads(s, p, e);
      var rest := DoubleReads(s, m, e);
      ReadsAt(s, m, rest, e - 1, InDouble, '"');
      ReadsMore(s, p, i, m, rest, e - 1, InDouble, '"');
      items := [i] + rest;
    }
  }

  lemma {:induction false} DoubleItemReads(s: string, p: nat, e: nat) returns (i: Item, m: nat)
    requires p < |s| && s[p] != '"' && DoubleEnd(s, p) == Some(e)
    ensures p < m < |s| && s[p..m] == Spell(i) && Fits(i, InDouble) && MayPrecede(i, InDouble, s[m]) && DoubleEnd(s, m) == Some(e)
    decreases |s| - p, 1
  {
    hide Reads, DollarEnd, QuotedEnd, AllFit, Text;
    match s[p]
    case '\\' => i, m := Escape(s[p + 1]), p + 2;
    case '$' =>
      m := DollarEnd(s, p + 1, true).value;
      i := DollarReads(s, p, m);
    case '`' =>
      m := QuotedEnd(s, p + 1, '`', true).value;
      var inner := EscapedReads(s, p + 1, '`', m);
      i := Backquoted(inner);
      BackquoteSpelled(s, p, inner, m - 1);
    case c => i, m := Plain(c), p + 1;
  }

  lemma BackquoteSpelled(s: string, p: nat, inner: seq<Item>, c: nat)
    requires p < |s| && s[p] == '`' && Reads(s, p + 1, inner, c, InEscaped('`'), '`')
    ensures s[p..c + 1] == Spell(Backquoted(inner)) && Fits(Backquoted(inner), InDouble)
  {
    Around(s, p, 1, c);
  }

  // ---- the theorems ----

  lemma ReadsStands(s: string, p: nat, items: seq<Item>, q: nat, r: Region, close: char)
    requires Reads(s, p, items, q, r, close)
    ensures Stands(s, p, Text(items) + [close]) && p + |Text(items)| == q && AllFit(items, r, close)
  {
    assert s[p..q + 1] == s[p..q] + [s[q]];
  }

  /** From `p` the text is these items and then `close`, after which stands `e`. */
  ghost predicate Closes(s: string, p: nat, items: seq<Item>, e: nat, r: Region, close: char) {
    p < e && Reads(s, p, items, e - 1, r, close)
  }

  /** Inside parentheses a scan ends right after the close if and only if the grammar spells what stands before it. */
  lemma ParensExactly(s: string, p: nat, e: nat)
    requires p <= |s|
    ensures BalancedEnd(s, p, '(', ')', 1) == Some(e) <==> exists items: seq<Item> :: Closes(s, p, items, e, InParens, ')')
  {
    hide Reads, Stands, Text, AllFit;
    if BalancedEnd(s, p, '(', ')', 1) == Some(e) {
      var items, q := ParensReads(s, p, 1, e);
      ReadsAt(s, p, items, q, InParens, ')');
      assert Closes(s, p, items, e, InParens, ')');
    }
    if exists items: seq<Item> :: Closes(s, p, items, e, InParens, ')') {
      var items: seq<Item> :| Closes(s, p, items, e, InParens, ')');
      ReadsStands(s, p, items, e - 1, InParens, ')');
      ReadsAt(s, p, items, e - 1, InParens, ')');
      ParensPast(s, p, items, 1);
    }
  }

  /** So does one inside braces, */
  lemma BracesExactly(s: string, p: nat, e: nat)
    requires p <= |s|
    ensures BraceEnd(s, p, 1) == Some(e) <==> exists items: seq<Item> :: Closes(s, p, items, e, InBraces, '}')
  {
    hide Reads, Stands, Text, AllFit;
    if BraceEnd(s, p, 1) == Some(e) {
      var items, q := BracesReads(s, p, 1, e);
      ReadsAt(s, p, items, q, InBraces, '}');
      assert Closes(s, p, items, e, InBraces, '}');
    }
    if exists items: seq<Item> :: Closes(s, p, items, e, InBraces, '}') {
      var items: seq<Item> :| Closes(s, p, items, e, InBraces, '}');
      ReadsStands(s, p, items, e - 1, InBraces, '}');
      ReadsAt(s, p, items, e - 1, InBraces, '}');
      BracesPast(s, p, items, 1);
    }
  }

  /** and one inside double quotes, */
  lemma DoubleExactly(s: string, p: nat, e: nat)
    requires p <= |s|
    ensures DoubleEnd(s, p) == Some(e) <==> exists items: seq<Item> :: Closes(s, p, items, e, InDouble, '"')
  {
    hide Reads, Stands, Text, AllFit, DoubleEnd;
    if DoubleEnd(s, p) == Some(e) {
      var items := DoubleReads(s, p, e);
      assert Closes(s, p, items, e, InDouble, '"');
    }
    if exists items: seq<Item> :: Closes(s, p, items, e, InDouble, '"') {
      var items: seq<Item> :| Closes(s, p, items, e, InDouble, '"');
      ReadsStands(s, p, items, e - 1, InDouble, '"');
      DoubleEnds(s, p, items);
    }
  }

  /** and one inside quotes in which a backslash escapes. */
  lemma EscapedExactly(s: string, p: nat, quote: char, e: nat)
    requires p <= |s| && quote != '\\'
    ensures QuotedEnd(s, p, quote, true) == Some(e) <==> exists items: seq<Item> :: Closes(s, p, items, e, InEscaped(quote), quote)
  {
    hide Reads, Stands, Text, AllFit, QuotedEnd;
    if QuotedEnd(s, p, quote, true) == Some(e) {
      var items := EscapedReads(s, p, quote, e);
      assert Closes(s, p, items, e, InEscaped(quote), quote);
    }
    if exists items: seq<Item> :: Closes(s, p, items, e, InEscaped(quote), quote) {
      var items: seq<Item> :| Closes(s, p, items, e, InEscaped(quote), quote);
      ReadsStands(s, p, items, e - 1, InEscaped(quote), quote);
      EscapedEnds(s, p, items, quote);
    }
  }

  /** In an arithmetic expansion it takes a second close along where there is one. */
  lemma ArithmeticExactly(s: string, p: nat, e: nat)
    requires p <= |s|
    ensures ArithmeticEnd(s, p, 1) == Some(e) <==>
      exists items: seq<Item>, q: nat :: Reads(s, p, items, q, InArithmetic, ')') && e == if At(s, q + 1) == ')' then q + 2 else q + 1
  {
    hide Reads, Stands, Text, AllFit;
    if ArithmeticEnd(s, p, 1) == Some(e) {
      var items, q := ArithmeticReads(s, p, 1, e);
      ReadsAt(s, p, items, q, InArithmetic, ')');
    }
    if exists items: seq<Item>, q: nat :: Reads(s, p, items, q, InArithmetic, ')') && e == if At(s, q + 1) == ')' then q + 2 else q + 1 {
      var items: seq<Item>, q: nat :| Reads(s, p, items, q, InArithmetic, ')') && e == if At(s, q + 1) == ')' then q + 2 else q + 1;
      ReadsStands(s, p, items, q, InArithmetic, ')');
      ReadsAt(s, p, items, q, InArithmetic, ')');
      ArithmeticPast(s, p, items, 1);
    }
  }

  // ---- counting ----

  /** How many more closes than openings stand from `p` to `q`. */
  function Excess(s: string, p: nat, q: nat, open: char, close: char): int
    requires p <= q <= |s|
    decreases q - p
  {
    if p == q then 0 else (if s[p] == close then 1 else if s[p] == open then -1 else 0) + Excess(s, p + 1, q, open, close)
  }

  /** `e` is right after the first close that outnumbers the openings by `depth`; none if none does. */
  ghost predicate FirstExcess(s: string, p: nat, open: char, close: char, depth: int, e: Option<nat>)
    requires p <= |s|
  {
    match e
    case None => forall q :: p <= q <= |s| ==> Excess(s, p, q, open, close) < depth
    case Some(end) =>
      && p < end <= |s| && Excess(s, p, end, open, close) == depth
      && forall q :: p <= q < end ==> Excess(s, p, q, open, close) < depth
  }

  lemma ExcessNext(s: string, p: nat, open: char, close: char, depth: int, e: Option<nat>)
    requires p < |s| && depth > 0
    requires FirstExcess(s, p + 1, open, close, depth - if s[p] == close then 1 else if s[p] == open then -1 else 0, e)
    ensures FirstExcess(s, p, open, close, depth, e)
  {}

  lemma ExcessHere(s: string, p: nat, open: char, close: char)
    requires p < |s| && s[p] == close
    ensures FirstExcess(s, p, open, close, 1, Some(p + 1))
  {
    assert Excess(s, p + 1, p + 1, open, close) == 0;
  }

  /** Over text without quotes, escapes and number signs a parenthesis is closed where the closes first outnumber the openings. */
  lemma {:induction false} ParensCount(s: string, p: nat, depth: nat)
    requires p <= |s| && depth > 0 && forall k :: p <= k < |s| ==> s[k] !in "'\"\\#"
    ensures FirstExcess(s, p, '(', ')', depth, BalancedEnd(s, p, '(', ')', depth))
    decreases |s| - p
  {
    hide FirstExcess;
    NoExcess(s, '(', ')', depth);
    if p < |s| {
      assert s[p] !in "'\"\\#";
      if s[p] == ')' && depth == 1 {
        ExcessHere(s, p, '(', ')');
      } else {
        var next: nat := if s[p] == '(' then depth + 1 else if s[p] == ')' then depth - 1 else depth;
        ParensCount(s, p + 1, next);
        ExcessNext(s, p, '(', ')', depth, BalancedEnd(s, p + 1, '(', ')', next));
      }
    }
  }

  lemma NoExcess(s: string, open: char, close: char, depth: int)
    requires depth > 0
    ensures FirstExcess(s, |s|, open, close, depth, None)
  {}

  /** So is a brace, over text without quotes and escapes, */
  lemma {:induction false} BracesCount(s: string, p: nat, depth: nat)
    requires p <= |s| && depth > 0 && forall k :: p <= k < |s| ==> s[k] !in "'\"\\"
    ensures FirstExcess(s, p, '{', '}', depth, BraceEnd(s, p, depth))
    decreases |s| - p
  {
    hide FirstExcess;
    NoExcess(s, '{', '}', depth);
    if p < |s| {
      assert s[p] !in "'\"\\";
      if s[p] == '}' && depth == 1 {
        ExcessHere(s, p, '{', '}');
      } else {
        var next: nat := if s[p] == '{' then depth + 1 else if s[p] == '}' then depth - 1 else depth;
        BracesCount(s, p + 1, next);
        ExcessNext(s, p, '{', '}', depth, BraceEnd(s, p + 1, next));
      }
    }
  }

  /** and an arithmetic expansion, over any text, but for the second close. */
  lemma {:induction false} ArithmeticCount(s: string, p: nat, depth: nat)
    requires p <= |s| && depth > 0
    ensures var e := ArithmeticEnd(s, p, depth);
            if e.None? then FirstExcess(s, p, '(', ')', depth, None)
            else exists q: nat :: FirstExcess(s, p, '(', ')', depth, Some(q)) && e.value == if At(s, q) == ')' then q + 1 else q
    decreases |s| - p
  {
    hide FirstExcess;
    NoExcess(s, '(', ')', depth);
    if p < |s| {
      if s[p] == ')' && depth == 1 {
        ExcessHere(s, p, '(', ')');
      } else {
        var next: nat := if s[p] == '(' then depth + 1 else if s[p] == ')' then depth - 1 else depth;
        ArithmeticCount(s, p + 1, next);
        if ArithmeticEnd(s, p + 1, next).None? {
          ExcessNext(s, p, '(', ')', depth, None);
        } else {
          var q: nat :| FirstExcess(s, p + 1, '(', ')', next, Some(q))
            && ArithmeticEnd(s, p + 1, next).value == if At(s, q) == ')' then q + 1 else q;
          ExcessNext(s, p, '(', ')', depth, Some(q));
        }
      }
    }
  }
}
