/** Every tree the parser builds from a text has identifiers for its names and no empty arrays, so printing what was
    read can be judged without further assumptions. */
module HeliosNamed {
  import opened Bits
  import opened Wrappers
  import A = HeliosAst
  import opened HeliosLexer
  import opened HeliosFormat
  import opened HeliosReading
  import opened HeliosParser
  import opened HeliosStable
  import opened HeliosRoundTrip

  predicate NamedToken(t: Token) {
    t.Ident? ==> IsName(t.name)
  }

  predicate NamedTokens(ts: seq<Token>) {
    forall i :: 0 <= i < |ts| ==> NamedToken(ts[i])
  }

  lemma NamedRest(ts: seq<Token>, i: nat)
    requires NamedTokens(ts) && i <= |ts|
    ensures NamedTokens(ts[i..]) && (i < |ts| ==> NamedToken(ts[i]))
  {
    hide NamedToken;
    assert forall j :: 0 <= j < |ts[i..]| ==> ts[i..][j] == ts[i + j];
  }

  // The lexer.

  lemma {:induction false} WordChars(t: string)
    ensures forall i :: 0 <= i < WordLength(t) ==> IsWord(t[i])
  {
    if IsWord(At(t, 0)) {
      WordChars(t[1..]);
      assert forall i :: 1 <= i < WordLength(t) ==> t[i] == t[1..][i - 1];
    }
  }

  lemma WordIsName(w: string)
    requires w != "" && !IsDigit(w[0]) && forall i :: 0 <= i < |w| ==> IsWord(w[i])
    ensures NamedToken(WordToken(w))
  {
    assert WordToken(w).Ident? ==> WordToken(w) == Ident(w);
  }

  lemma SymbolIsNoName(t: string)
    requires t != ""
    ensures Symbol(t).Some? ==> !Symbol(t).value.token.Ident?
  {
  }

  lemma ScanNamed(u: string)
    ensures Scan(u).Some? ==> NamedToken(Scan(u).value.token)
  {
    hide WordToken, Symbol, WordLength;
    var c := At(u, 0);
    if c != '\0' && c != '"' && c != '\'' && !StartsNumber(u) {
      if IsAlpha(c) || c == '_' {
        var k := WordLength(u);
        WordChars(u);
        WordStarts(u);
        WordIsName(u[..k]);
      } else {
        SymbolIsNoName(u);
      }
    }
  }

  lemma WordStarts(u: string)
    requires IsWord(At(u, 0))
    ensures WordLength(u) > 0
  {
  }

  lemma {:induction false} NextNamed(t: string)
    ensures NamedToken(Next(t).token)
    decreases |t|
  {
    hide Scan, NamedToken;
    var u := SkipSpace(t);
    ScanNamed(u);
    if Scan(u).None? {
      NextNamed(u[1..]);
    }
  }

  lemma {:induction false} LexNamed(t: string)
    ensures NamedTokens(Lex(t))
    decreases |t|
  {
    hide Next, NamedToken;
    var r := Next(t);
    NextNamed(t);
    if r.token != Eof && r.token != Foreign {
      LexNamed(r.rest);
    }
  }

  // The parser.

  lemma {:induction false} ExprNamed(ts: seq<Token>)
    requires NamedTokens(ts) && Expr(ts).Some?
    ensures Writable(Expr(ts).value.tree) && NamedTokens(Expr(ts).value.rest)
    decreases |ts|, 40
  {
    hide Ladder, CastTail, Writable, NamedTokens;
    LadderNamed(ts, 8);
    CastTailNamed(Ladder(ts, 8).value.tree, Ladder(ts, 8).value.rest);
  }

  lemma {:induction false} CastTailNamed(e: Tree, k: seq<Token>)
    requires Writable(e) && NamedTokens(k)
    ensures Writable(CastTail(e, k).tree) && NamedTokens(CastTail(e, k).rest)
    decreases |k|
  {
    hide NamedTokens;
    if Peek(k) == As {
      NamedRest(k, 1);
      if |k| > 2 {
        NamedRest(k[1..], 1);
      }
      CastTailNamed(Cast(e, if Peek(k[1..]) == TBool then A.ToBool else A.ToInt), Advance(k[1..]));
    }
  }

  lemma {:induction false} LadderNamed(ts: seq<Token>, level: nat)
    requires level <= 8 && NamedTokens(ts) && Ladder(ts, level).Some?
    ensures Writable(Ladder(ts, level).value.tree) && NamedTokens(Ladder(ts, level).value.rest)
    decreases |ts|, 20 + level
  {
    hide Unary, Tail, Writable, NamedTokens;
    if level == 0 {
      UnaryNamed(ts);
    } else {
      LadderNamed(ts, level - 1);
      TailNamed(Ladder(ts, level - 1).value.tree, Ladder(ts, level - 1).value.rest, level);
    }
  }

  lemma {:induction false} TailNamed(l: Tree, k: seq<Token>, level: nat)
    requires 1 <= level <= 8 && Writable(l) && NamedTokens(k) && Tail(l, k, level).Some?
    ensures Writable(Tail(l, k, level).value.tree) && NamedTokens(Tail(l, k, level).value.rest)
    decreases |k|, 0
  {
    hide Ladder, NamedTokens, OpAt, IsName;
    var op := OpAt(level, Peek(k));
    if op.Some? {
      NotLast(level, Peek(k));
      NamedRest(k, 1);
      LadderNamed(k[1..], level - 1);
      var p := Ladder(k[1..], level - 1).value;
      TailNamed(Bin(l, op.value, p.tree), p.rest, level);
    }
  }

  lemma {:induction false} UnaryNamed(ts: seq<Token>)
    requires NamedTokens(ts) && Unary(ts).Some?
    ensures Writable(Unary(ts).value.tree) && NamedTokens(Unary(ts).value.rest)
    decreases |ts|, 15
  {
    hide Postfix, NamedTokens, IsName;
    if UnOf(Peek(ts)).Some? || Peek(ts) == Star {
      NamedRest(ts, 1);
      PostfixNamed(ts[1..]);
    } else {
      PostfixNamed(ts);
    }
  }

  lemma {:induction false} PostfixNamed(ts: seq<Token>)
    requires NamedTokens(ts) && Postfix(ts).Some?
    ensures Writable(Postfix(ts).value.tree) && NamedTokens(Postfix(ts).value.rest)
    decreases |ts|, 10
  {
    hide Primary, PostTail, Writable, NamedTokens;
    PrimaryNamed(ts);
    PostTailNamed(Primary(ts).value.tree, Primary(ts).value.rest);
  }

  lemma {:induction false} PostTailNamed(e: Tree, k: seq<Token>)
    requires Writable(e) && NamedTokens(k) && PostTail(e, k).Some?
    ensures Writable(PostTail(e, k).value.tree) && NamedTokens(PostTail(e, k).value.rest)
    decreases |k|, 0
  {
    hide Expr, Names, NamedTokens, IsName;
    if Peek(k) == LBracket {
      NamedRest(k, 1);
      ExprNamed(k[1..]);
      var p := Expr(k[1..]).value;
      NamedRest(p.rest, 1);
      PostTailNamed(Index(e, p.tree), p.rest[1..]);
    } else if Peek(k) == Dot {
      NamesNamed(k);
      var n := Names(k).value;
      PostTailNamed(Fields(e, n.names), n.rest);
    }
  }

  lemma {:induction false} NamesNamed(ts: seq<Token>)
    requires NamedTokens(ts) && Names(ts).Some?
    ensures var n := Names(ts).value;
            NamedTokens(n.rest) && (forall i :: 0 <= i < |n.names| ==> IsName(n.names[i]))
            && (Peek(ts) == Dot ==> n.names != [])
    decreases |ts|
  {
    hide NamedTokens, IsName;
    if Peek(ts) == Dot {
      assert Peek(ts[1..]).Ident? && Peek(ts[1..]) == ts[1];
      NamedRest(ts, 1);
      NamedRest(ts, 2);
      NamesNamed(ts[2..]);
    }
  }

  lemma {:induction false} PrimaryNamed(ts: seq<Token>)
    requires NamedTokens(ts) && Primary(ts).Some?
    ensures Writable(Primary(ts).value.tree) && NamedTokens(Primary(ts).value.rest)
    decreases |ts|, 5
  {
    hide Primary, Writable, NamedTokens;
    match Peek(ts)
    case IntLit(_) | BoolLit(_) | Amp | Input => AtomNamed(ts);
    case Ident(_) => CallNamed(ts);
    case LParen =>
      AtGroup(ts);
      NamedRest(ts, 1);
      ExprNamed(ts[1..]);
      NamedRest(Expr(ts[1..]).value.rest, 1);
    case LBracket => ArrayNamed(ts);
    case Star | Minus | Bang | Tilde => PrefixNamed(ts);
    case _ => NoPrimary(ts);
  }

  lemma AtomNamed(ts: seq<Token>)
    requires NamedTokens(ts) && Primary(ts).Some?
    requires var t := Peek(ts); t.IntLit? || t.BoolLit? || t == Amp || t == Token.Input
    ensures Writable(Primary(ts).value.tree) && NamedTokens(Primary(ts).value.rest)
  {
    hide NamedTokens, IsName, Expr, Args, Items;
    NamedRest(ts, 1);
    if ts[0] == Amp {
      hide Primary;
      AmpNamed(ts);
    } else if ts[0] == Token.Input && Peek(ts[1..]) == LParen {
      NamedRest(ts, 3);
    }
  }

  lemma AmpNamed(ts: seq<Token>)
    requires NamedTokens(ts) && Primary(ts).Some? && Peek(ts) == Amp
    ensures Writable(Primary(ts).value.tree) && NamedTokens(Primary(ts).value.rest)
  {
    hide NamedTokens, IsName, Expr, Args, Items;
    assert Peek(ts[1..]) == ts[1];
    NamedRest(ts, 1);
    NamedRest(ts, 2);
    NamedRest(ts[1..], 0);
    assert ts[1..][0] == ts[1];
  }

  lemma {:induction false} CallNamed(ts: seq<Token>)
    requires NamedTokens(ts) && Primary(ts).Some? && Peek(ts).Ident?
    ensures Writable(Primary(ts).value.tree) && NamedTokens(Primary(ts).value.rest)
    decreases |ts|, 4
  {
    hide Args, NamedTokens, IsName, AllWritable;
    NamedRest(ts, 0);
    NamedRest(ts, 1);
    if Peek(ts[1..]) == LParen {
      NamedRest(ts, 2);
      ArgsNamed(ts[2..]);
      NamedRest(Args(ts[2..]).value.rest, 1);
    }
  }

  lemma {:induction false} ArrayNamed(ts: seq<Token>)
    requires NamedTokens(ts) && Primary(ts).Some? && Peek(ts) == LBracket
    ensures Writable(Primary(ts).value.tree) && NamedTokens(Primary(ts).value.rest)
    decreases |ts|, 4
  {
    hide Expr, Items, Primary, NamedTokens, IsName;
    AtArray(ts);
    NamedRest(ts, 1);
    ExprNamed(ts[1..]);
    var p := Expr(ts[1..]).value;
    ItemsNamed(p.rest);
    var i := Items(p.rest).value;
    NamedRest(i.rest, 1);
    assert ([p.tree] + i.trees)[1..] == i.trees;
  }

  lemma {:induction false} PrefixNamed(ts: seq<Token>)
    requires NamedTokens(ts) && Primary(ts).Some? && (UnOf(Peek(ts)).Some? || Peek(ts) == Star)
    ensures Writable(Primary(ts).value.tree) && NamedTokens(Primary(ts).value.rest)
    decreases |ts|, 4
  {
    hide Primary, NamedTokens, IsName;
    AtPrefix(ts);
    NamedRest(ts, 1);
    PrimaryNamed(ts[1..]);
  }

  lemma {:induction false} ArgsNamed(ts: seq<Token>)
    requires NamedTokens(ts) && Args(ts).Some?
    ensures AllWritable(Args(ts).value.trees) && NamedTokens(Args(ts).value.rest)
    decreases |ts|, 50
  {
    hide Expr, NamedTokens, Writable;
    if Peek(ts) != RParen && Peek(ts) != Eof {
      ExprNamed(ts);
      var p := Expr(ts).value;
      var u := if Peek(p.rest) == Comma then p.rest[1..] else p.rest;
      if Peek(p.rest) == Comma {
        NamedRest(p.rest, 1);
      }
      ArgsNamed(u);
      assert ([p.tree] + Args(u).value.trees)[1..] == Args(u).value.trees;
    }
  }

  lemma {:induction false} ItemsNamed(ts: seq<Token>)
    requires NamedTokens(ts) && Items(ts).Some?
    ensures AllWritable(Items(ts).value.trees) && NamedTokens(Items(ts).value.rest)
    decreases |ts|, 0
  {
    hide Expr, NamedTokens, Writable;
    if Peek(ts) == Comma {
      NamedRest(ts, 1);
      if Peek(ts[1..]) != RBracket {
        ExprNamed(ts[1..]);
        var p := Expr(ts[1..]).value;
        ItemsNamed(p.rest);
        assert ([p.tree] + Items(p.rest).value.trees)[1..] == Items(p.rest).value.trees;
      }
    }
  }

  /** Formatting the expression a text stands for gives a text that stands for the same expression exactly if
      its shape shows in the text and no minus sign or i32::MIN changes in reading. */
  lemma FormattedTextParses(text: string)
    requires ParseText(text).Some?
    ensures var e := ParseText(text).value;
            ParseText(Text(e, "")) == Some(e) <==> Stable(e) && Mins(e) == 0 && Merges(e) == 0
  {
    hide Expr, Lex, Named, Writable, Stable, Text, Mins, Merges;
    LexNamed(text);
    ExprNamed(Lex(text));
    WritableNamed(ParseText(text).value);
    ParsePrinted(ParseText(text).value);
  }

  // Texts that formatting changes.

  /** A text in parentheses, followed by more. */
  function Grouped(e: Tree, k: string): string {
    "(" + Text(e, ")" + k)
  }

  lemma LexGrouped(e: Tree, k: string, ks: seq<Token>)
    requires Named(e) && Mins(e) == 0 && Merges(e) == 0 && Tokenised(k) == ks
    ensures Tokenised(Grouped(e, k)) == [LParen] + Tokens(e, [RParen] + ks)
  {
    hide Tokenised, Text, Tokens, Lexed, Named, Mins, Merges;
    LexBracket(')', k);
    LexText(e, ")" + k, [RParen] + ks);
    LexedIsTokens(e, [RParen] + ks);
    LexBracket('(', Text(e, ")" + k));
  }

  lemma ReadGrouped(e: Tree, ks: seq<Token>)
    requires Stable(e)
    ensures PostReaches([LParen] + Tokens(e, [RParen] + ks), e, ks)
  {
    hide Stable, Tokens, ExprIs, PrimaryIs, PostReaches;
    ReadExpr(e, [RParen] + ks);
    StepParen(Tokens(e, [RParen] + ks), e, ks);
    StepPostBase([LParen] + Tokens(e, [RParen] + ks), e, ks);
  }

  /** An operand that is the whole text. */
  lemma WholeText(text: string, e: Tree)
    requires UnaryIs(Tokenised(text), e, [Eof])
    ensures ParseText(text) == Some(e)
  {
    hide UnaryIs, LadderIs, ExprReaches, Expr, Lex;
    var ts := Tokenised(text);
    StepLadder(ts, e, [Eof], 8);
    StepExpr(ts, e, [Eof]);
    StepExprEnd(ts, e, [Eof]);
  }

  /** The text of a subscript with its base in parentheses. */
  function GroupedIndex(e: Tree, i: Tree): string {
    Grouped(e, "[" + Text(i, "]"))
  }

  function IndexTokens(e: Tree, i: Tree): seq<Token> {
    [LParen] + Tokens(e, [RParen] + ([LBracket] + Tokens(i, [RBracket] + [Eof])))
  }

  lemma LexIndex(e: Tree, i: Tree)
    requires Named(e) && Mins(e) == 0 && Merges(e) == 0 && Named(i) && Mins(i) == 0 && Merges(i) == 0
    ensures Tokenised(GroupedIndex(e, i)) == IndexTokens(e, i)
  {
    hide Tokenised, Text, Tokens, Lexed, Named, Mins, Merges, Grouped;
    var k := [RBracket] + [Eof];
    NoText();
    LexBracket(']', "");
    assert [']'] + "" == "]";
    LexText(i, "]", k);
    LexedIsTokens(i, k);
    LexBracket('[', Text(i, "]"));
    LexGrouped(e, "[" + Text(i, "]"), [LBracket] + Tokens(i, k));
  }

  lemma ReadIndex(e: Tree, i: Tree)
    requires Stable(e) && Stable(i)
    ensures UnaryIs(IndexTokens(e, i), Index(e, i), [Eof])
  {
    hide Tokens, Stable, UnaryIs, PostfixIs, PostReaches, ExprIs;
    var k := [RBracket] + [Eof];
    var ts := IndexTokens(e, i);
    ReadGrouped(e, [LBracket] + Tokens(i, k));
    ReadExpr(i, k);
    StepIndex(ts, e, Tokens(i, k), i, [Eof]);
    StepPostEnd(ts, Index(e, i), [Eof]);
    StepPlain(ts, Index(e, i), [Eof]);
  }

  /** A subscript of something in parentheses that is not a postfix expression is read, but printed without the
      parentheses, and then reads differently. */
  lemma GroupedIndexChanges(e: Tree, i: Tree)
    requires Named(e) && Stable(e) && Mins(e) == 0 && Merges(e) == 0 && !Post(e)
    requires Named(i) && Stable(i) && Mins(i) == 0 && Merges(i) == 0
    ensures ParseText(GroupedIndex(e, i)) == Some(Index(e, i))
    ensures ParseText(Text(Index(e, i), "")) != Some(Index(e, i))
  {
    hide Tokenised, Text, Stable, Post, Mins, Merges, ParseText, UnaryIs, GroupedIndex, IndexTokens;
    LexIndex(e, i);
    ReadIndex(e, i);
    WholeText(GroupedIndex(e, i), Index(e, i));
    ParsePrinted(Index(e, i));
    IndexUnstable(e, i);
  }

  lemma NoText()
    ensures Tokenised("") == [Eof]
  {
  }

  lemma IndexUnstable(e: Tree, i: Tree)
    requires !Post(e)
    ensures !Stable(Index(e, i))
  {
    assert !Post(Index(e, i));
    assert !Operand(Index(e, i));
  }

  lemma NumberStable(n: i32)
    ensures Stable(Lit(n))
  {
    assert Prim(Lit(n));
    assert Post(Lit(n));
    assert Operand(Lit(n));
  }

  lemma LexMinus(n: i32)
    requires n >= 0
    ensures Tokenised("-" + Grouped(Lit(n), "")) == [Minus] + ([LParen] + Tokens(Lit(n), [RParen] + [Eof]))
  {
    hide Tokenised, Text, Tokens, Grouped;
    var e := Lit(n);
    NoText();
    LexGrouped(e, "", [Eof]);
    GroupStarts(e, "");
    LexPrefix('-', Grouped(e, ""));
    assert ['-'] + Grouped(e, "") == "-" + Grouped(e, "");
  }

  lemma ReadMinus(n: i32)
    ensures UnaryIs([Minus] + ([LParen] + Tokens(Lit(n), [RParen] + [Eof])), Un(A.Neg, Lit(n)), [Eof])
  {
    hide Tokens, Stable, UnaryIs, PostfixIs, PostReaches;
    NumberStable(n);
    var ts := [LParen] + Tokens(Lit(n), [RParen] + [Eof]);
    ReadGrouped(Lit(n), [Eof]);
    StepPostEnd(ts, Lit(n), [Eof]);
    StepOuter(ts, Lit(n), [Eof], A.Neg);
  }

  /** A number in parentheses behind a minus sign is read as a negation, printed without the parentheses, and then
      reads as a negative number. */
  lemma GroupedMinusChanges(n: i32)
    requires n >= 0
    ensures ParseText("-" + Grouped(Lit(n), "")) == Some(Un(A.Neg, Lit(n)))
    ensures ParseText(Text(Un(A.Neg, Lit(n)), "")) != Some(Un(A.Neg, Lit(n)))
  {
    hide Tokenised, Text, Tokens, Stable, ParseText, UnaryIs, Grouped;
    LexMinus(n);
    ReadMinus(n);
    WholeText("-" + Grouped(Lit(n), ""), Un(A.Neg, Lit(n)));
    ParsePrinted(Un(A.Neg, Lit(n)));
  }

  lemma GroupStarts(e: Tree, k: string)
    ensures At(Grouped(e, k), 0) == '('
  {
    hide Text;
  }

  lemma CastShape(x: string)
    requires IsName(x)
    ensures var e := Cast(Var(x), A.ToInt); Named(e) && Stable(e) && Mins(e) == 0 && Merges(e) == 0 && !Post(e)
  {
    hide IsName;
    assert Prim(Var(x));
    assert Post(Var(x));
    assert Operand(Var(x));
    assert Stable(Var(x));
    assert !Prim(Cast(Var(x), A.ToInt));
  }

  lemma CastText()
    ensures GroupedIndex(Cast(Var("x"), A.ToInt), Lit(0)) == "(x as int)[0]"
  {
    assert Text(Lit(0), "]") == "0]";
    assert ")" + ("[" + "0]") == ")[0]";
    assert Text(Cast(Var("x"), A.ToInt), ")[0]") == "x" + (" " + ("as" + (" " + ("int" + ")[0]"))));
    assert "x" + (" " + ("as" + (" " + ("int" + ")[0]")))) == "x as int)[0]";
    assert "(" + "x as int)[0]" == "(x as int)[0]";
  }

  /** Two such texts. */
  lemma TextsThatChange()
    ensures var e := Index(Cast(Var("x"), A.ToInt), Lit(0));
            ParseText("(x as int)[0]") == Some(e) && ParseText(Text(e, "")) != Some(e)
    ensures var e := Un(A.Neg, Lit(5));
            ParseText("-(5)") == Some(e) && ParseText(Text(e, "")) != Some(e)
  {
    hide ParseText, Text, Grouped, GroupedIndex, Stable, Post, Named, Mins, Merges;
    CastShape("x");
    NumberShape(0);
    CastText();
    GroupedIndexChanges(Cast(Var("x"), A.ToInt), Lit(0));
    GroupedMinusChanges(5);
    FiveText();
  }

  lemma NumberShape(n: i32)
    requires n >= 0
    ensures Named(Lit(n)) && Stable(Lit(n)) && Mins(Lit(n)) == 0 && Merges(Lit(n)) == 0
  {
    NumberStable(n);
  }

  lemma FiveText()
    ensures "-" + Grouped(Lit(5), "") == "-(5)"
  {
    assert Text(Lit(5), ")") == "5)";
  }
}
