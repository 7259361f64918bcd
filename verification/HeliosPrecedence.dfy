/** Which operators bind tighter: expressions written with few parentheses are read back unchanged. */
module HeliosPrecedence {
  import opened Wrappers
  import A = HeliosAst
  import opened HeliosLexer
  import opened HeliosFormat
  import opened HeliosReading
  import opened HeliosParser
  import opened HeliosStable
  import opened HeliosSparse
  import N = HeliosNamed

  /** The loop over the operators of a level comes to hold e, with the tokens k still to read. */
  predicate LevelReaches(ts: seq<Token>, level: nat, e: Tree, k: seq<Token>)
    requires 1 <= level <= 8
  {
    Ladder(ts, level) == Tail(e, k, level)
  }

  /** Nothing in k continues an operand, and an operator it starts with is on this level or a looser one. */
  predicate Follows(k: seq<Token>, level: nat) {
    EndsPost(k) && (OpOf(Peek(k)).Some? ==> LevelOf(OpOf(Peek(k)).value) >= level)
  }

  lemma GroupIsLevel(op: A.BinOp)
    ensures LevelOf(op) == Group(op) + 1
  {
  }

  lemma OperatorFollows(op: A.BinOp, mid: seq<Token>)
    ensures Follows([OpToken(op)] + mid, Group(op) + 1)
  {
    After(OpToken(op), mid);
    OpTokenOf(op);
    GroupIsLevel(op);
  }

  /** A level has nothing to add in front of an operator of a looser one. */
  lemma LevelEnds(ts: seq<Token>, level: nat, e: Tree, k: seq<Token>)
    requires 1 <= level <= 8 && LevelReaches(ts, level, e, k) && Follows(k, level + 1)
    ensures LadderIs(ts, level, e, k)
  {
    hide Ladder;
    OperandRound(e, k, level);
  }

  lemma LevelBegins(ts: seq<Token>, level: nat, e: Tree, k: seq<Token>)
    requires 1 <= level <= 8 && LadderIs(ts, level - 1, e, k)
    ensures LevelReaches(ts, level, e, k)
  {
    hide Tail;
  }

  /** One more operator of a level, and its right operand. */
  lemma LevelOperator(ts: seq<Token>, l: Tree, op: A.BinOp, mid: seq<Token>, r: Tree, k: seq<Token>)
    requires LevelReaches(ts, Group(op) + 1, l, [OpToken(op)] + mid) && LadderIs(mid, Group(op), r, k)
    ensures LevelReaches(ts, Group(op) + 1, Bin(l, op, r), k)
  {
    hide Ladder;
    GroupIsLevel(op);
    After(OpToken(op), mid);
    OpTokenOf(op);
    OperandRound(l, [OpToken(op)] + mid, Group(op) + 1);
  }

  /** An operand on its own, read on a level. */
  lemma UnaryReaches(ts: seq<Token>, e: Tree, k: seq<Token>, level: nat)
    requires 1 <= level <= 8 && UnaryIs(ts, e, k) && Follows(k, level)
    ensures LevelReaches(ts, level, e, k)
  {
    hide UnaryIs, LadderIs, LevelReaches;
    StepLadder(ts, e, k, level - 1);
    LevelBegins(ts, level, e, k);
  }

  // Reading back. The lemmas follow the places of the text.

  /** A token that an expression can begin with, and that is no prefix operator. */
  predicate StartsFlat(t: Token) {
    Begins(t) && UnOf(t).None? && t != Star
  }

  lemma FlatTokens(t: Token)
    ensures t.IntLit? || t.BoolLit? || t.Ident? || t == Token.Input || t == LParen || t == LBracket || t == Amp ==>
              StartsFlat(t)
    ensures t == Star || t == Minus || t == Bang || t == Tilde ==> Begins(t)
  {
  }

  lemma {:induction false} FirstBare(e: Tree, k: seq<Token>)
    ensures var t := Peek(BareTokens(e, k)); if Looseness(e) == 0 then StartsFlat(t) else Begins(t)
    decreases e, 0
  {
    hide Group, WrittenTokens, WrittenListTokens, TokenNames, DigitFirst, StartsFlat, Begins, OpToken;
    FlatTokens(Peek(BareTokens(e, k)));
    match e
    case Bin(l, op, r) => FirstWritten(l, 2 + Group(op), [OpToken(op)] + WrittenTokens(r, 1 + Group(op), k));
    case Cast(x, t) => FirstWritten(x, 10, [As] + ([TargetToken(t)] + k));
    case Index(b, i) => FirstWritten(b, 0, [LBracket] + WrittenTokens(i, 10, [RBracket] + k));
    case Fields(b, fs) => FirstWritten(b, 0, TokenNames(fs, k));
    case _ =>
  }

  lemma {:induction false} FirstWritten(e: Tree, most: nat, k: seq<Token>)
    ensures var t := Peek(WrittenTokens(e, most, k)); Begins(t) && (most == 0 ==> StartsFlat(t))
    decreases e, 1
  {
    hide BareTokens, Looseness, UnOf, Begins;
    FlatTokens(LParen);
    if Looseness(e) <= most {
      FirstBare(e, k);
    }
  }

  lemma {:induction false} BarePost(e: Tree, k: seq<Token>)
    requires Writable(e) && Looseness(e) == 0 && Peek(k) != LParen && (e.Fields? ==> Peek(k) != Dot)
    ensures PostReaches(BareTokens(e, k), e, k)
    decreases e, 0
  {
    hide PrimaryIs, PostReaches, ExprIs, ArgsAre, WrittenTokens, IsName, Group;
    var ts := BareTokens(e, k);
    match e
    case Lit(_) | Truth(_) | Var(_) | AddrOf(_) | Input =>
      BareAtom(e, k);
      StepPostBase(ts, e, k);
    case Call(f, args) =>
      BareCall(f, args, k);
      StepPostBase(ts, e, k);
    case Array(items) =>
      WrittenArray(items, k);
      StepPostBase(ts, e, k);
    case Index(b, i) => BareIndex(b, i, k);
    case Fields(b, fs) => BareFields(b, fs, k);
    case _ =>
  }

  lemma {:induction false} BareCall(f: string, args: seq<Tree>, k: seq<Token>)
    requires AllWritable(args)
    ensures PrimaryIs(BareTokens(Call(f, args), k), Call(f, args), k)
    decreases Call(f, args), -1
  {
    hide PrimaryIs, ArgsAre, WrittenListTokens;
    WrittenArgs(args, [RParen] + k);
    StepCall(f, WrittenListTokens(args, [RParen] + k), args, k);
  }

  lemma {:induction false} BareIndex(b: Tree, i: Tree, k: seq<Token>)
    requires Writable(b) && Writable(i)
    ensures PostReaches(BareTokens(Index(b, i), k), Index(b, i), k)
    decreases Index(b, i), -1
  {
    hide PostReaches, ExprIs, WrittenTokens, Writable;
    var u := WrittenTokens(i, 10, [RBracket] + k);
    WrittenExpr(i, [RBracket] + k);
    WrittenBase(b, [LBracket] + u);
    StepIndex(BareTokens(Index(b, i), k), b, u, i, k);
  }

  lemma BareAtom(e: Tree, k: seq<Token>)
    requires (e.Lit? || e.Truth? || e.Var? || e.AddrOf? || e.Input?) && Peek(k) != LParen
    ensures PrimaryIs(BareTokens(e, k), e, k)
  {
    hide PrimaryIs;
    match e
    case Lit(n) => StepAtom(IntLit(n), k);
    case Truth(b) => StepAtom(BoolLit(b), k);
    case Var(x) => StepAtom(Ident(x), k);
    case AddrOf(x) => StepAtom(Ident(x), k);
    case Input => StepInput(k);
    case _ =>
  }

  lemma {:induction false} BareFields(b: Tree, fs: seq<string>, k: seq<Token>)
    requires Writable(b) && fs != [] && Peek(k) != LParen && Peek(k) != Dot
    ensures PostReaches(BareTokens(Fields(b, fs), k), Fields(b, fs), k)
    decreases Fields(b, fs), -1
  {
    hide PrimaryIs, PostReaches, Writable, WrittenTokens, Group;
    var ts, u := BareTokens(Fields(b, fs), k), TokenNames(fs, k);
    ReadNames(fs, k);
    if b.Fields? {
      Grouped(b, u);
      StepPostBase(ts, b, u);
    } else {
      WrittenBase(b, u);
    }
    StepFields(ts, b, u, fs, k);
  }

  lemma {:induction false} BareUnary(e: Tree, k: seq<Token>)
    requires Writable(e) && Looseness(e) <= 1 && EndsPost(k)
    ensures UnaryIs(BareTokens(e, k), e, k)
    decreases e, 1
  {
    hide UnaryIs, PostfixIs, PostReaches, PrimaryIs, WrittenTokens, Group, DigitFirst;
    var ts := BareTokens(e, k);
    match e
    case Un(op, x) =>
      var u := if op == A.Neg && DigitFirst(x) then [LParen] + BareTokens(x, [RParen] + k) else WrittenTokens(x, 0, k);
      if op == A.Neg && DigitFirst(x) {
        Grouped(x, k);
        StepPostBase(u, x, k);
      } else {
        WrittenBase(x, k);
      }
      StepPostEnd(u, x, k);
      StepOuter(u, x, k, op);
    case Deref(x) =>
      var u := WrittenTokens(x, 0, k);
      WrittenBase(x, k);
      StepPostEnd(u, x, k);
      StepOuter(u, x, k, A.Neg);
    case Bin(_, _, _) =>
    case Cast(_, _) =>
    case _ =>
      BarePost(e, k);
      StepPostEnd(ts, e, k);
      FirstBare(e, k);
      StepPlain(ts, e, k);
  }

  /** An expression whose text needs no parentheses on a level, read on that level. */
  lemma {:induction false} BareLevel(e: Tree, level: nat, k: seq<Token>)
    requires Writable(e) && 1 <= level <= 8 && Looseness(e) <= level + 1 && Follows(k, level)
    ensures LevelReaches(BareTokens(e, k), level, e, k)
    decreases e, level + 1
  {
    hide UnaryIs, LevelReaches, LadderIs, Follows, Writable, WrittenTokens, Group;
    var ts := BareTokens(e, k);
    if Looseness(e) <= 1 {
      assert EndsPost(k) by { FollowsEnds(k, level); }
      BareUnary(e, k);
      UnaryReaches(ts, e, k, level);
    } else if Looseness(e) == level + 1 {
      BareBin(e, k);
    } else {
      LooserFollows(k, level);
      BareLevel(e, level - 1, k);
      LevelEnds(ts, level - 1, e, k);
      LevelBegins(ts, level, e, k);
    }
  }

  lemma FollowsEnds(k: seq<Token>, level: nat)
    requires Follows(k, level)
    ensures EndsPost(k)
  {
  }

  lemma LooserFollows(k: seq<Token>, level: nat)
    requires Follows(k, level)
    ensures level > 0 ==> Follows(k, level - 1)
  {
  }

  lemma {:induction false} BareBin(e: Tree, k: seq<Token>)
    requires e.Bin? && Writable(e) && Follows(k, Group(e.op) + 1)
    ensures LevelReaches(BareTokens(e, k), Group(e.op) + 1, e, k)
    decreases e, 0
  {
    hide LevelReaches, LadderIs, Follows, WrittenTokens, Group;
    var g := Group(e.op);
    var mid := WrittenTokens(e.right, g + 1, k);
    OperatorFollows(e.op, mid);
    WrittenLevel(e.left, g + 2, g + 1, [OpToken(e.op)] + mid);
    WrittenOperand(e.right, g, k);
    LevelOperator(BareTokens(e, k), e.left, e.op, mid, e.right, k);
  }

  lemma {:induction false} BareExpr(e: Tree, k: seq<Token>)
    requires Writable(e) && EndsLadder(k)
    ensures ExprReaches(BareTokens(e, k), e, k)
    decreases e, 10
  {
    hide LevelReaches, LadderIs, ExprReaches, WrittenTokens, Group, IsName;
    var ts := BareTokens(e, k);
    match e
    case Cast(x, t) =>
      WrittenCasts(x, [As] + ([TargetToken(t)] + k));
      StepCast(ts, x, t, k);
    case _ =>
      BareLevel(e, 8, k);
      LevelEnds(ts, 8, e, k);
      StepExpr(ts, e, k);
  }

  lemma {:induction false} Grouped(e: Tree, k: seq<Token>)
    requires Writable(e)
    ensures PrimaryIs([LParen] + BareTokens(e, [RParen] + k), e, k)
    decreases e, 11
  {
    hide PrimaryIs, ExprIs, ExprReaches, BareTokens, Writable;
    var u := [RParen] + k;
    BareExpr(e, u);
    StepExprEnd(BareTokens(e, u), e, u);
    StepParen(BareTokens(e, u), e, k);
  }

  /** In front of a subscript or a field access. */
  lemma {:induction false} WrittenBase(e: Tree, k: seq<Token>)
    requires Writable(e) && Peek(k) != LParen && (e.Fields? ==> Peek(k) != Dot)
    ensures PostReaches(WrittenTokens(e, 0, k), e, k)
    decreases e, 12
  {
    hide PrimaryIs, PostReaches, BareTokens, Writable, Looseness;
    if Looseness(e) == 0 {
      BarePost(e, k);
    } else {
      Grouped(e, k);
      StepPostBase(WrittenTokens(e, 0, k), e, k);
    }
  }

  /** As the first operand of a level. */
  lemma {:induction false} WrittenLevel(e: Tree, most: nat, level: nat, k: seq<Token>)
    requires Writable(e) && 1 <= level <= 8 && most <= level + 1 && Follows(k, level)
    ensures LevelReaches(WrittenTokens(e, most, k), level, e, k)
    decreases e, 13
  {
    hide UnaryIs, LevelReaches, Follows, BareTokens, Writable, Looseness;
    if Looseness(e) <= most {
      BareLevel(e, level, k);
    } else {
      FollowsEnds(k, level);
      GroupedUnary(e, k);
      UnaryReaches(WrittenTokens(e, most, k), e, k, level);
    }
  }

  lemma {:induction false} GroupedUnary(e: Tree, k: seq<Token>)
    requires Writable(e) && EndsPost(k)
    ensures UnaryIs([LParen] + BareTokens(e, [RParen] + k), e, k)
    decreases e, 12
  {
    hide PrimaryIs, PostReaches, PostfixIs, UnaryIs, BareTokens, Writable;
    var ts := [LParen] + BareTokens(e, [RParen] + k);
    Grouped(e, k);
    StepPostBase(ts, e, k);
    StepPostEnd(ts, e, k);
    StepPlain(ts, e, k);
  }

  /** As a right operand: the levels below the operator's. */
  lemma {:induction false} WrittenOperand(e: Tree, level: nat, k: seq<Token>)
    requires Writable(e) && level <= 7 && Follows(k, level + 1)
    ensures LadderIs(WrittenTokens(e, level + 1, k), level, e, k)
    decreases e, 14
  {
    hide UnaryIs, LevelReaches, LadderIs, BareTokens, Writable, Looseness;
    var ts := WrittenTokens(e, level + 1, k);
    if level > 0 {
      LooserFollows(k, level + 1);
      WrittenLevel(e, level + 1, level, k);
      LevelEnds(ts, level, e, k);
    } else {
      if Looseness(e) <= 1 {
        BareUnary(e, k);
      } else {
        GroupedUnary(e, k);
      }
      StepLadder(ts, e, k, 0);
    }
  }

  /** As a whole expression, perhaps with casts to follow. */
  lemma {:induction false} WrittenCasts(e: Tree, k: seq<Token>)
    requires Writable(e) && EndsLadder(k)
    ensures ExprReaches(WrittenTokens(e, 10, k), e, k)
    decreases e, 12
  {
    hide ExprReaches, BareTokens, Group, Writable;
    BareExpr(e, k);
  }

  lemma {:induction false} WrittenExpr(e: Tree, k: seq<Token>)
    requires Writable(e) && EndsExpr(k)
    ensures ExprIs(WrittenTokens(e, 10, k), e, k)
    decreases e, 13
  {
    hide ExprReaches, ExprIs, WrittenTokens, Writable;
    WrittenCasts(e, k);
    StepExprEnd(WrittenTokens(e, 10, k), e, k);
  }

  lemma {:induction false} WrittenArgs(es: seq<Tree>, k: seq<Token>)
    requires AllWritable(es) && Peek(k) == RParen
    ensures ArgsAre(WrittenListTokens(es, k), es, k)
    decreases es, |es|
  {
    hide ExprIs, ArgsAre, Writable, WrittenTokens;
    if es == [] {
      StepNoArgs(k);
    } else if |es| == 1 {
      FirstWritten(es[0], 10, k);
      WrittenExpr(es[0], k);
      StepLastArg(WrittenTokens(es[0], 10, k), es[0], k);
      assert es == [es[0]];
    } else {
      var u := WrittenListTokens(es[1..], k);
      FirstWritten(es[0], 10, [Comma] + u);
      WrittenExpr(es[0], [Comma] + u);
      WrittenArgs(es[1..], k);
      StepArg(WrittenListTokens(es, k), es[0], u, es[1..], k);
      assert es == [es[0]] + es[1..];
    }
  }

  /** The tokens of the items after the first. */
  function MoreItems(es: seq<Tree>, k: seq<Token>): seq<Token> {
    if es == [] then k else [Comma] + WrittenListTokens(es, k)
  }

  lemma MoreItemsFirst(es: seq<Tree>, k: seq<Token>)
    ensures MoreItems(es, k) ==
            if es == [] then k else [Comma] + WrittenTokens(es[0], 10, MoreItems(es[1..], k))
    ensures Peek(k) == RBracket ==> EndsExpr(MoreItems(es, k))
  {
    hide WrittenTokens;
  }

  lemma {:induction false} WrittenArray(items: seq<Tree>, k: seq<Token>)
    requires AllWritable(items) && items != []
    ensures PrimaryIs([LBracket] + WrittenListTokens(items, [RBracket] + k), Array(items), k)
    decreases items, |items|, 1
  {
    hide ExprIs, ItemsAre, PrimaryIs, Writable, WrittenTokens;
    var u := [RBracket] + k;
    var mid := MoreItems(items[1..], u);
    WrittenItems(items[1..], u);
    WrittenExpr(items[0], mid);
    StepArray(WrittenTokens(items[0], 10, mid), items[0], mid, items[1..], k);
    assert items == [items[0]] + items[1..];
  }

  lemma {:induction false} WrittenItems(es: seq<Tree>, k: seq<Token>)
    requires AllWritable(es) && Peek(k) == RBracket
    ensures ItemsAre(MoreItems(es, k), es, k)
    decreases es, |es|
  {
    hide ExprIs, ItemsAre, Writable, WrittenTokens, WrittenListTokens, Begins;
    MoreItemsFirst(es, k);
    if es != [] {
      MoreItemsFirst(es[1..], k);
    }
    hide MoreItems, EndsExpr;
    if es == [] {
      StepNoItems(k);
    } else {
      var mid := MoreItems(es[1..], k);
      FirstWritten(es[0], 10, mid);
      WrittenExpr(es[0], mid);
      WrittenItems(es[1..], k);
      StepItem(WrittenTokens(es[0], 10, mid), es[0], mid, es[1..], k);
      assert es == [es[0]] + es[1..];
    }
  }

  /** Every expression written with few parentheses is read back unchanged. */
  lemma SparseParses(e: Tree)
    requires Writable(e)
    ensures ParseText(Written(e, 10, "")) == Some(e)
  {
    hide Written, WrittenTokens, Writable, ExprIs, Tokenised, Lex, ParseText;
    NoText();
    LexWritten(e, 10, "", [Eof]);
    WrittenExpr(e, [Eof]);
    ParsedWhole(Written(e, 10, ""), e);
  }

  lemma NoText()
    ensures Tokenised("") == [Eof] && Stops("")
  {
  }

  lemma ParsedWhole(text: string, e: Tree)
    requires ExprIs(Tokenised(text), e, [Eof])
    ensures ParseText(text) == Some(e)
  {
    hide Expr, Lex;
  }

  /** The trees that stand for some text are those with identifiers for names and without empty arrays. */
  lemma HasText(e: Tree)
    ensures (exists text :: ParseText(text) == Some(e)) <==> Writable(e)
  {
    hide Expr, Lex, Writable, Written, ParseText;
    if Writable(e) {
      SparseParses(e);
      assert ParseText(Written(e, 10, "")) == Some(e);
    }
    forall text | ParseText(text) == Some(e)
      ensures Writable(e)
    {
      ReadWritable(text);
    }
  }

  lemma ReadWritable(text: string)
    requires ParseText(text).Some?
    ensures Writable(ParseText(text).value)
  {
    hide Expr, Lex, Writable;
    N.LexNamed(text);
    N.ExprNamed(Lex(text));
  }

  /** Rewriting any accepted text with few parentheses keeps what it stands for. */
  lemma SparseFormats(text: string)
    requires ParseText(text).Some?
    ensures ParseText(Written(ParseText(text).value, 10, "")) == ParseText(text)
  {
    hide ParseText, Written, Writable;
    ReadWritable(text);
    SparseParses(ParseText(text).value);
  }

  /** `a op1 b op2 c`, for any operands the parser reads: the second operator gets b if it binds tighter, and
      otherwise the first one does. */
  lemma TwoOperators(ts: seq<Token>, a: Tree, op1: A.BinOp, us: seq<Token>, b: Tree, op2: A.BinOp, vs: seq<Token>,
                     c: Tree, k: seq<Token>)
    requires Unary(ts) == Some(Parse(a, [OpToken(op1)] + us))
    requires Unary(us) == Some(Parse(b, [OpToken(op2)] + vs))
    requires Unary(vs) == Some(Parse(c, k)) && EndsExpr(k)
    ensures Expr(ts) == Some(Parse(if Tighter(op2, op1) then Bin(a, op1, Bin(b, op2, c))
                                   else Bin(Bin(a, op1, b), op2, c), k))
  {
    hide Unary, Expr, UnaryIs, EndsExpr, Group, OpToken;
    Operands(ts, a, [OpToken(op1)] + us, us, b, [OpToken(op2)] + vs, vs, c, k);
    if Tighter(op2, op1) {
      SecondBinds(ts, a, op1, us, b, op2, vs, c, k);
    } else {
      FirstBinds(ts, a, op1, us, b, op2, vs, c, k);
    }
  }

  lemma SecondBinds(ts: seq<Token>, a: Tree, op1: A.BinOp, us: seq<Token>, b: Tree, op2: A.BinOp, vs: seq<Token>,
                    c: Tree, k: seq<Token>)
    requires UnaryIs(ts, a, [OpToken(op1)] + us) && UnaryIs(us, b, [OpToken(op2)] + vs) && UnaryIs(vs, c, k)
    requires EndsExpr(k) && Tighter(op2, op1)
    ensures Expr(ts) == Some(Parse(Bin(a, op1, Bin(b, op2, c)), k))
  {
    hide Expr, LevelReaches, LadderIs, Follows, Group, UnaryIs, EndsExpr, OpToken;
    var g1, g2 := Group(op1) + 1, Group(op2) + 1;
    var e := Bin(b, op2, c);
    OperatorFollows(op1, us);
    OperatorFollows(op2, vs);
    OperandLevel(vs, c, k, g2);
    UnaryReaches(us, b, [OpToken(op2)] + vs, g2);
    LevelOperator(us, b, op2, vs, c, k);
    EndFollows(k, g1);
    EndFollows(k, g1 - 1);
    Climb(us, e, k, g2, g1 - 1);
    LevelEnds(us, g1 - 1, e, k);
    UnaryReaches(ts, a, [OpToken(op1)] + us, g1);
    LevelOperator(ts, a, op1, us, e, k);
    Finish(ts, Bin(a, op1, e), k, g1);
  }

  lemma FirstBinds(ts: seq<Token>, a: Tree, op1: A.BinOp, us: seq<Token>, b: Tree, op2: A.BinOp, vs: seq<Token>,
                   c: Tree, k: seq<Token>)
    requires UnaryIs(ts, a, [OpToken(op1)] + us) && UnaryIs(us, b, [OpToken(op2)] + vs) && UnaryIs(vs, c, k)
    requires EndsExpr(k) && !Tighter(op2, op1)
    ensures Expr(ts) == Some(Parse(Bin(Bin(a, op1, b), op2, c), k))
  {
    hide Expr, LevelReaches, LadderIs, Follows, Group, UnaryIs, EndsExpr, OpToken;
    var g1, g2 := Group(op1) + 1, Group(op2) + 1;
    var e := Bin(a, op1, b);
    OperatorFollows(op1, us);
    OperatorFollows(op2, vs);
    OperandLevel(vs, c, k, g2);
    UnaryReaches(ts, a, [OpToken(op1)] + us, g1);
    OperandBefore(us, b, op2, vs, g1);
    LevelOperator(ts, a, op1, us, b, [OpToken(op2)] + vs);
    Climb(ts, e, [OpToken(op2)] + vs, g1, g2);
    LevelOperator(ts, e, op2, vs, c, k);
    Finish(ts, Bin(e, op2, c), k, g2);
  }

  lemma Operands(ts: seq<Token>, a: Tree, p: seq<Token>, us: seq<Token>, b: Tree, q: seq<Token>, vs: seq<Token>,
                 c: Tree, k: seq<Token>)
    requires Unary(ts) == Some(Parse(a, p)) && Unary(us) == Some(Parse(b, q)) && Unary(vs) == Some(Parse(c, k))
    ensures UnaryIs(ts, a, p) && UnaryIs(us, b, q) && UnaryIs(vs, c, k)
  {
    hide Unary;
  }

  lemma EndFollows(k: seq<Token>, level: nat)
    requires EndsExpr(k)
    ensures Follows(k, level)
  {
  }

  /** The last operand, below any level. */
  lemma OperandLevel(ts: seq<Token>, e: Tree, k: seq<Token>, level: nat)
    requires 1 <= level <= 8 && UnaryIs(ts, e, k) && EndsExpr(k)
    ensures LadderIs(ts, level - 1, e, k)
  {
    hide UnaryIs, LadderIs;
    StepLadder(ts, e, k, level - 1);
  }

  /** An operand in front of an operator of this level or a looser one. */
  lemma OperandBefore(ts: seq<Token>, e: Tree, op: A.BinOp, mid: seq<Token>, level: nat)
    requires 1 <= level <= Group(op) + 1 && UnaryIs(ts, e, [OpToken(op)] + mid)
    ensures LadderIs(ts, level - 1, e, [OpToken(op)] + mid)
  {
    hide UnaryIs, LadderIs, OpOf, OpToken, Group, LevelOf;
    GroupIsLevel(op);
    After(OpToken(op), mid);
    OpTokenOf(op);
    StepLadder(ts, e, [OpToken(op)] + mid, level - 1);
  }

  /** From one level to a looser one, with no operator in between. */
  lemma {:induction false} Climb(ts: seq<Token>, e: Tree, k: seq<Token>, low: nat, high: nat)
    requires 1 <= low <= high <= 8 && LevelReaches(ts, low, e, k) && Follows(k, high)
    ensures LevelReaches(ts, high, e, k)
    decreases high
  {
    hide LevelReaches, LadderIs;
    if low < high {
      Climb(ts, e, k, low, high - 1);
      LevelEnds(ts, high - 1, e, k);
      LevelBegins(ts, high, e, k);
    }
  }

  lemma Finish(ts: seq<Token>, e: Tree, k: seq<Token>, level: nat)
    requires 1 <= level <= 8 && LevelReaches(ts, level, e, k) && EndsExpr(k)
    ensures Expr(ts) == Some(Parse(e, k))
  {
    hide LevelReaches, LadderIs, ExprReaches, Expr;
    Climb(ts, e, k, level, 8);
    LevelEnds(ts, 8, e, k);
    StepExpr(ts, e, k);
    StepExprEnd(ts, e, k);
  }

  /** The same for names in a text: `x op1 y op2 z`. */
  lemma ThreeNames(x: string, op1: A.BinOp, y: string, op2: A.BinOp, z: string)
    requires IsName(x) && IsName(y) && IsName(z)
    ensures ParseText(x + (" " + (Spelled(op1) + (" " + (y + (" " + (Spelled(op2) + (" " + (z + "")))))))))
            == Some(if Tighter(op2, op1) then Bin(Var(x), op1, Bin(Var(y), op2, Var(z)))
                    else Bin(Bin(Var(x), op1, Var(y)), op2, Var(z)))
  {
    hide ParseText, IsName, Group, Spelled;
    if Tighter(op2, op1) {
      SecondFirst(x, op1, y, op2, z);
    } else {
      FirstFirst(x, op1, y, op2, z);
    }
  }

  lemma SecondFirst(x: string, op1: A.BinOp, y: string, op2: A.BinOp, z: string)
    requires IsName(x) && IsName(y) && IsName(z) && Tighter(op2, op1)
    ensures ParseText(x + (" " + (Spelled(op1) + (" " + (y + (" " + (Spelled(op2) + (" " + (z + "")))))))))
            == Some(Bin(Var(x), op1, Bin(Var(y), op2, Var(z))))
  {
    hide ParseText, IsName, Group, Spelled, Written, Writable;
    var e := Bin(Var(y), op2, Var(z));
    WrittenName(x, 2 + Group(op1), " " + (Spelled(op1) + (" " + Written(e, 1 + Group(op1), ""))));
    WrittenName(y, 2 + Group(op2), " " + (Spelled(op2) + (" " + (z + ""))));
    WrittenName(z, 1 + Group(op2), "");
    WrittenBin(Var(y), op2, Var(z), 1 + Group(op1), "");
    WrittenBin(Var(x), op1, e, 10, "");
    SparseParses(Bin(Var(x), op1, e));
  }

  lemma FirstFirst(x: string, op1: A.BinOp, y: string, op2: A.BinOp, z: string)
    requires IsName(x) && IsName(y) && IsName(z) && !Tighter(op2, op1)
    ensures ParseText(x + (" " + (Spelled(op1) + (" " + (y + (" " + (Spelled(op2) + (" " + (z + "")))))))))
            == Some(Bin(Bin(Var(x), op1, Var(y)), op2, Var(z)))
  {
    hide ParseText, IsName, Group, Spelled, Written, Writable;
    var e, u := Bin(Var(x), op1, Var(y)), " " + (Spelled(op2) + (" " + (z + "")));
    WrittenName(x, 2 + Group(op1), " " + (Spelled(op1) + (" " + (y + u))));
    WrittenName(y, 1 + Group(op1), u);
    WrittenName(z, 1 + Group(op2), "");
    WrittenBin(Var(x), op1, Var(y), 2 + Group(op2), u);
    WrittenBin(e, op2, Var(z), 10, "");
    SparseParses(Bin(e, op2, Var(z)));
  }

  lemma WrittenName(x: string, most: nat, k: string)
    requires IsName(x)
    ensures Writable(Var(x)) && Written(Var(x), most, k) == x + k
  {
  }

  lemma WrittenBin(l: Tree, op: A.BinOp, r: Tree, most: nat, k: string)
    requires Writable(l) && Writable(r) && 2 + Group(op) <= most
    ensures Writable(Bin(l, op, r))
    ensures Written(Bin(l, op, r), most, k) ==
            Written(l, 2 + Group(op), " " + (Spelled(op) + (" " + Written(r, 1 + Group(op), k))))
  {
    hide Group, Spelled;
    WritableBin(l, op, r);
    hide Writable;
    assert Bare(Bin(l, op, r), k) ==
           Written(l, 2 + Group(op), " " + (Spelled(op) + (" " + Written(r, 1 + Group(op), k)))) by {
      hide Written;
    }
  }

  lemma WritableBin(l: Tree, op: A.BinOp, r: Tree)
    requires Writable(l) && Writable(r)
    ensures Writable(Bin(l, op, r))
  {
    hide IsName;
  }
}
