/** Which expressions the parser reads back unchanged from the tokens of their printed form. */
module HeliosStable {
  import opened Wrappers
  import A = HeliosAst
  import opened HeliosLexer
  import opened HeliosFormat
  import opened HeliosParser

  // The shapes. Printing puts parentheses around binary operations only, so the order in which prefix
  // operators, subscripts, field accesses and casts were applied is not visible in the text. The parser
  // applies prefix operators except the first, then subscripts and fields, then the first prefix
  // operator, then casts.

  /** What a parser for primary expressions builds. */
  predicate Prim(e: Tree)
    decreases e, 1
  {
    match e
    case Lit(_) | Truth(_) | Var(_) | AddrOf(_) | Input => true
    case Bin(l, _, r) => Operand(l) && Operand(r)
    case Un(_, x) => Prim(x)
    case Deref(x) => Prim(x)
    case Call(_, args) => AllStable(args)
    case Array(items) => items != [] && AllStable(items)
    case Cast(_, _) | Index(_, _) | Fields(_, _) => false
  }

  predicate Post(e: Tree)
    decreases e, 2
  {
    match e
    case Index(b, i) => Post(b) && Stable(i)
    case Fields(b, fs) => Post(b) && !b.Fields? && fs != []
    case _ => Prim(e)
  }

  /** Whether the printed text starts with a prefix operator. */
  predicate Prefixed(e: Tree) {
    match e
    case Un(_, _) | Deref(_) => true
    case Index(b, _) => Prefixed(b)
    case Fields(b, _) => Prefixed(b)
    case Cast(x, _) => Prefixed(x)
    case _ => false
  }

  predicate Operand(e: Tree)
    decreases e, 3
  {
    match e
    case Un(_, x) => Post(x)
    case Deref(x) => Post(x)
    case _ => Post(e) && !Prefixed(e)
  }

  predicate Stable(e: Tree)
    decreases e, 4
  {
    match e
    case Cast(x, _) => Stable(x)
    case _ => Operand(e)
  }

  predicate AllStable(es: seq<Tree>)
    decreases es, |es|
  {
    es == [] || (Stable(es[0]) && AllStable(es[1..]))
  }

  // What may follow an expression for the parser to stop there.

  predicate EndsPost(k: seq<Token>) {
    Peek(k) != LParen && Peek(k) != LBracket && Peek(k) != Dot
  }

  /** Nothing in k continues an expression, except perhaps a cast. */
  predicate EndsLadder(k: seq<Token>) {
    k != [] && EndsPost(k) && OpOf(k[0]).None?
  }

  predicate EndsExpr(k: seq<Token>) {
    EndsLadder(k) && k[0] != As
  }

  // Parsing steps. Each predicate says what one parser function makes of the tokens ts: the tree e, with
  // the tokens k left over.

  predicate PrimaryIs(ts: seq<Token>, e: Tree, k: seq<Token>) {
    Primary(ts) == Some(Parse(e, k))
  }

  /** The loop over subscripts and fields comes to hold e, with the tokens k still to read. */
  predicate PostReaches(ts: seq<Token>, e: Tree, k: seq<Token>) {
    Postfix(ts) == PostTail(e, k)
  }

  predicate PostfixIs(ts: seq<Token>, e: Tree, k: seq<Token>) {
    Postfix(ts) == Some(Parse(e, k))
  }

  predicate UnaryIs(ts: seq<Token>, e: Tree, k: seq<Token>) {
    Unary(ts) == Some(Parse(e, k))
  }

  predicate LadderIs(ts: seq<Token>, level: nat, e: Tree, k: seq<Token>)
    requires level <= 8
  {
    Ladder(ts, level) == Some(Parse(e, k))
  }

  /** The loop over casts comes to hold e, with the tokens k still to read. */
  predicate ExprReaches(ts: seq<Token>, e: Tree, k: seq<Token>) {
    Expr(ts) == Some(CastTail(e, k))
  }

  predicate ExprIs(ts: seq<Token>, e: Tree, k: seq<Token>) {
    Expr(ts) == Some(Parse(e, k))
  }

  predicate ArgsAre(ts: seq<Token>, es: seq<Tree>, k: seq<Token>) {
    Args(ts) == Some(ParseList(es, k))
  }

  predicate ItemsAre(ts: seq<Token>, es: seq<Tree>, k: seq<Token>) {
    Items(ts) == Some(ParseList(es, k))
  }

  lemma After(t: Token, k: seq<Token>)
    ensures ([t] + k)[1..] == k && Peek([t] + k) == t
  {
  }

  lemma StepAtom(t: Token, k: seq<Token>)
    ensures t.IntLit? ==> PrimaryIs([t] + k, Lit(t.n), k)
    ensures t.BoolLit? ==> PrimaryIs([t] + k, Truth(t.b), k)
    ensures t.Ident? && Peek(k) != LParen ==> PrimaryIs([t] + k, Var(t.name), k)
    ensures t.Ident? ==> PrimaryIs([Amp] + ([t] + k), AddrOf(t.name), k)
  {
    After(t, k);
    After(Amp, [t] + k);
    assert ([Amp] + ([t] + k))[2..] == k;
  }

  lemma StepInput(k: seq<Token>)
    ensures PrimaryIs([Token.Input] + ([LParen] + ([RParen] + k)), Tree.Input, k)
  {
    var ts := [Token.Input] + ([LParen] + ([RParen] + k));
    assert ts[1..] == [LParen] + ([RParen] + k) && ts[2..] == [RParen] + k && ts[3..] == k;
  }

  lemma StepParen(u: seq<Token>, e: Tree, k: seq<Token>)
    requires ExprIs(u, e, [RParen] + k)
    ensures PrimaryIs([LParen] + u, e, k)
  {
    hide Expr;
    After(LParen, u);
    After(RParen, k);
  }

  lemma StepCall(f: string, u: seq<Token>, args: seq<Tree>, k: seq<Token>)
    requires ArgsAre(u, args, [RParen] + k)
    ensures PrimaryIs([Ident(f)] + ([LParen] + u), Call(f, args), k)
  {
    hide Args;
    After(Ident(f), [LParen] + u);
    After(LParen, u);
    After(RParen, k);
    assert ([Ident(f)] + ([LParen] + u))[2..] == u;
  }

  lemma StepArray(u: seq<Token>, e: Tree, mid: seq<Token>, es: seq<Tree>, k: seq<Token>)
    requires ExprIs(u, e, mid) && ItemsAre(mid, es, [RBracket] + k)
    ensures PrimaryIs([LBracket] + u, Array([e] + es), k)
  {
    hide Expr, Items;
    After(LBracket, u);
    After(RBracket, k);
  }

  /** A prefix operator in front of a primary expression. */
  lemma StepInner(u: seq<Token>, e: Tree, k: seq<Token>, op: A.UnOp)
    requires PrimaryIs(u, e, k)
    ensures PrimaryIs([Star] + u, Deref(e), k)
    ensures PrimaryIs([UnToken(op)] + u, Un(op, e), k)
  {
    After(Star, u);
    After(UnToken(op), u);
  }

  lemma StepPostBase(ts: seq<Token>, e: Tree, k: seq<Token>)
    requires PrimaryIs(ts, e, k)
    ensures PostReaches(ts, e, k)
  {
    hide Primary, PostTail;
  }

  lemma StepIndex(ts: seq<Token>, b: Tree, u: seq<Token>, i: Tree, k: seq<Token>)
    requires PostReaches(ts, b, [LBracket] + u) && ExprIs(u, i, [RBracket] + k)
    ensures PostReaches(ts, Index(b, i), k)
  {
    hide Expr, Postfix;
    After(LBracket, u);
    After(RBracket, k);
  }

  lemma StepFields(ts: seq<Token>, b: Tree, u: seq<Token>, fs: seq<string>, k: seq<Token>)
    requires PostReaches(ts, b, u) && Peek(u) == Dot && Names(u) == Some(NameList(fs, k))
    ensures PostReaches(ts, Fields(b, fs), k)
  {
    hide Expr, Postfix, Names;
  }

  lemma StepPostEnd(ts: seq<Token>, e: Tree, k: seq<Token>)
    requires PostReaches(ts, e, k) && EndsPost(k)
    ensures PostfixIs(ts, e, k)
  {
    hide Postfix;
  }

  /** The first prefix operator of an operand. */
  lemma StepOuter(u: seq<Token>, e: Tree, k: seq<Token>, op: A.UnOp)
    requires PostfixIs(u, e, k)
    ensures UnaryIs([Star] + u, Deref(e), k)
    ensures UnaryIs([UnToken(op)] + u, Un(op, e), k)
  {
    hide Postfix;
    After(Star, u);
    After(UnToken(op), u);
  }

  lemma StepPlain(ts: seq<Token>, e: Tree, k: seq<Token>)
    requires PostfixIs(ts, e, k) && UnOf(Peek(ts)).None? && Peek(ts) != Star
    ensures UnaryIs(ts, e, k)
  {
    hide Postfix;
  }

  lemma {:induction false} StepLadder(ts: seq<Token>, e: Tree, k: seq<Token>, level: nat)
    requires level <= 8 && UnaryIs(ts, e, k)
    requires OpOf(Peek(k)).None? || LevelOf(OpOf(Peek(k)).value) > level
    ensures LadderIs(ts, level, e, k)
  {
    hide Unary;
    if level > 0 {
      StepLadder(ts, e, k, level - 1);
      StepLevel(ts, e, k, level);
    }
  }

  lemma StepLevel(ts: seq<Token>, e: Tree, k: seq<Token>, level: nat)
    requires 1 <= level <= 8 && LadderIs(ts, level - 1, e, k) && OpAt(level, Peek(k)).None?
    ensures LadderIs(ts, level, e, k)
  {
  }

  /** One operator and its right operand. */
  lemma StepOperator(ts: seq<Token>, l: Tree, op: A.BinOp, mid: seq<Token>, r: Tree, k: seq<Token>)
    requires LadderIs(ts, LevelOf(op) - 1, l, [OpToken(op)] + mid) && LadderIs(mid, LevelOf(op) - 1, r, k)
    requires OpOf(Peek(k)).None?
    ensures LadderIs(ts, LevelOf(op), Bin(l, op, r), k)
  {
    var level := LevelOf(op);
    After(OpToken(op), mid);
    OpTokenOf(op);
    assert Tail(Bin(l, op, r), k, level) == Some(Parse(Bin(l, op, r), k));
    assert Tail(l, [OpToken(op)] + mid, level) == Some(Parse(Bin(l, op, r), k));
  }

  lemma OpTokenOf(op: A.BinOp)
    ensures OpOf(OpToken(op)) == Some(op) && EndsPost([OpToken(op)])
  {
  }

  /** A binary operation between operands, read on any level at or above its own. */
  lemma {:induction false} StepBin(ts: seq<Token>, l: Tree, op: A.BinOp, mid: seq<Token>, r: Tree, k: seq<Token>,
                                   level: nat)
    requires LevelOf(op) <= level <= 8
    requires UnaryIs(ts, l, [OpToken(op)] + mid) && UnaryIs(mid, r, k) && OpOf(Peek(k)).None?
    ensures LadderIs(ts, level, Bin(l, op, r), k)
  {
    hide UnaryIs, LadderIs;
    if level == LevelOf(op) {
      OpTokenOf(op);
      After(OpToken(op), mid);
      StepLadder(ts, l, [OpToken(op)] + mid, level - 1);
      StepLadder(mid, r, k, level - 1);
      StepOperator(ts, l, op, mid, r, k);
    } else {
      StepBin(ts, l, op, mid, r, k, level - 1);
      StepLevel(ts, Bin(l, op, r), k, level);
    }
  }

  lemma StepExpr(ts: seq<Token>, e: Tree, k: seq<Token>)
    requires LadderIs(ts, 8, e, k)
    ensures ExprReaches(ts, e, k)
  {
    hide Ladder;
  }

  lemma StepCast(ts: seq<Token>, e: Tree, t: A.CastTarget, k: seq<Token>)
    requires ExprReaches(ts, e, [As] + ([TargetToken(t)] + k)) && k != []
    ensures ExprReaches(ts, Cast(e, t), k)
  {
    hide Expr;
    After(As, [TargetToken(t)] + k);
    After(TargetToken(t), k);
  }

  lemma StepExprEnd(ts: seq<Token>, e: Tree, k: seq<Token>)
    requires ExprReaches(ts, e, k) && Peek(k) != As
    ensures ExprIs(ts, e, k)
  {
    hide Expr;
  }

  lemma StepNoArgs(k: seq<Token>)
    requires Peek(k) == RParen
    ensures ArgsAre(k, [], k)
  {
  }

  lemma StepArg(ts: seq<Token>, e: Tree, u: seq<Token>, es: seq<Tree>, k: seq<Token>)
    requires Begins(Peek(ts)) && ExprIs(ts, e, [Comma] + u) && ArgsAre(u, es, k)
    ensures ArgsAre(ts, [e] + es, k)
  {
    hide Expr;
    After(Comma, u);
  }

  lemma StepLastArg(ts: seq<Token>, e: Tree, k: seq<Token>)
    requires Begins(Peek(ts)) && ExprIs(ts, e, k) && Peek(k) == RParen
    ensures ArgsAre(ts, [e], k)
  {
    hide Expr;
    StepNoArgs(k);
    assert [e] + [] == [e];
  }

  lemma StepNoItems(k: seq<Token>)
    requires Peek(k) == RBracket
    ensures ItemsAre(k, [], k)
  {
  }

  lemma StepItem(u: seq<Token>, e: Tree, mid: seq<Token>, es: seq<Tree>, k: seq<Token>)
    requires Begins(Peek(u)) && ExprIs(u, e, mid) && ItemsAre(mid, es, k)
    ensures ItemsAre([Comma] + u, [e] + es, k)
  {
    hide Expr;
    After(Comma, u);
  }

  /** The tokens an expression can begin with. */
  predicate Begins(t: Token) {
    t.IntLit? || t.BoolLit? || t.Ident? || t == Token.Input || t == LParen || t == LBracket || t == Amp || t == Star
    || UnOf(t).Some?
  }

  /** The first token of an expression, and when it is a prefix operator. */
  lemma {:induction false} FirstToken(e: Tree, k: seq<Token>)
    ensures var t := Peek(Tokens(e, k)); Begins(t) && (UnOf(t).Some? || t == Star <==> Prefixed(e))
    decreases e
  {
    match e
    case Cast(x, t) => FirstToken(x, [As] + ([TargetToken(t)] + k));
    case Index(b, i) => FirstToken(b, [LBracket] + Tokens(i, [RBracket] + k));
    case Fields(b, fs) => FirstToken(b, TokenNames(fs, k));
    case _ =>
  }

  // Reading back: the parser functions applied to the tokens of a stable expression.

  lemma {:induction false} ReadPrim(e: Tree, k: seq<Token>)
    requires Prim(e) && Peek(k) != LParen
    ensures PrimaryIs(Tokens(e, k), e, k)
    decreases e, 1
  {
    hide PrimaryIs, ExprIs, ArgsAre, Operand;
    match e
    case Lit(n) => StepAtom(IntLit(n), k);
    case Truth(b) => StepAtom(BoolLit(b), k);
    case Var(x) => StepAtom(Ident(x), k);
    case AddrOf(x) => StepAtom(Ident(x), k);
    case Input => StepInput(k);
    case Bin(l, op, r) => ReadBin(l, op, r, k);
    case Un(op, x) =>
      ReadPrim(x, k);
      StepInner(Tokens(x, k), x, k, op);
    case Deref(x) =>
      ReadPrim(x, k);
      StepInner(Tokens(x, k), x, k, A.Neg);
    case Call(f, args) =>
      ReadArgs(args, [RParen] + k);
      StepCall(f, TokenList(args, [RParen] + k), args, k);
    case Array(items) => ReadArray(items, k);
  }

  lemma {:induction false} ReadBin(l: Tree, op: A.BinOp, r: Tree, k: seq<Token>)
    requires Operand(l) && Operand(r)
    ensures PrimaryIs(Tokens(Bin(l, op, r), k), Bin(l, op, r), k)
    decreases Bin(l, op, r), 0
  {
    hide PrimaryIs, ExprIs, ExprReaches, LadderIs, UnaryIs, Operand;
    var u := [RParen] + k;
    var mid := Tokens(r, u);
    var ts := Tokens(l, [OpToken(op)] + mid);
    OpTokenOf(op);
    ReadOperand(r, u);
    ReadOperand(l, [OpToken(op)] + mid);
    StepBin(ts, l, op, mid, r, u, 8);
    StepExpr(ts, Bin(l, op, r), u);
    StepExprEnd(ts, Bin(l, op, r), u);
    StepParen(ts, Bin(l, op, r), k);
  }

  lemma {:induction false} ReadPost(e: Tree, k: seq<Token>)
    requires Post(e) && Peek(k) != LParen && (e.Fields? ==> Peek(k) != Dot)
    ensures PostReaches(Tokens(e, k), e, k)
    decreases e, 2
  {
    hide PrimaryIs, PostReaches, ExprIs, Prim, Stable;
    match e
    case Index(b, i) =>
      var u := Tokens(i, [RBracket] + k);
      ReadExpr(i, [RBracket] + k);
      ReadPost(b, [LBracket] + u);
      StepIndex(Tokens(e, k), b, u, i, k);
    case Fields(b, fs) =>
      ReadNames(fs, k);
      ReadPost(b, TokenNames(fs, k));
      StepFields(Tokens(e, k), b, TokenNames(fs, k), fs, k);
    case _ =>
      ReadPrim(e, k);
      StepPostBase(Tokens(e, k), e, k);
  }

  lemma StepName(x: string, u: seq<Token>, fs: seq<string>, k: seq<Token>)
    requires Names(u) == Some(NameList(fs, k))
    ensures Names([Dot] + ([Ident(x)] + u)) == Some(NameList([x] + fs, k))
  {
    var ts := [Dot] + ([Ident(x)] + u);
    After(Dot, [Ident(x)] + u);
    After(Ident(x), u);
    assert ts[2..] == u && ts[1] == Ident(x);
  }

  lemma {:induction false} ReadNames(fs: seq<string>, k: seq<Token>)
    requires Peek(k) != Dot
    ensures Names(TokenNames(fs, k)) == Some(NameList(fs, k))
  {
    if fs != [] {
      ReadNames(fs[1..], k);
      StepName(fs[0], TokenNames(fs[1..], k), fs[1..], k);
      assert fs == [fs[0]] + fs[1..];
    }
  }

  lemma {:induction false} ReadOperand(e: Tree, k: seq<Token>)
    requires Operand(e) && EndsPost(k)
    ensures UnaryIs(Tokens(e, k), e, k)
    decreases e, 3
  {
    hide UnaryIs, PostfixIs, PostReaches, Post;
    match e
    case Un(op, x) =>
      ReadPost(x, k);
      StepPostEnd(Tokens(x, k), x, k);
      StepOuter(Tokens(x, k), x, k, op);
    case Deref(x) =>
      ReadPost(x, k);
      StepPostEnd(Tokens(x, k), x, k);
      StepOuter(Tokens(x, k), x, k, A.Neg);
    case _ =>
      ReadPost(e, k);
      StepPostEnd(Tokens(e, k), e, k);
      FirstToken(e, k);
      StepPlain(Tokens(e, k), e, k);
  }

  lemma {:induction false} ReadStable(e: Tree, k: seq<Token>)
    requires Stable(e) && EndsLadder(k)
    ensures ExprReaches(Tokens(e, k), e, k)
    decreases e, 4
  {
    hide UnaryIs, LadderIs, ExprReaches, Operand;
    match e
    case Cast(x, t) =>
      ReadStable(x, [As] + ([TargetToken(t)] + k));
      StepCast(Tokens(e, k), x, t, k);
    case _ =>
      ReadOperand(e, k);
      StepLadder(Tokens(e, k), e, k, 8);
      StepExpr(Tokens(e, k), e, k);
  }

  lemma {:induction false} ReadExpr(e: Tree, k: seq<Token>)
    requires Stable(e) && EndsExpr(k)
    ensures ExprIs(Tokens(e, k), e, k)
    decreases e, 5
  {
    ReadStable(e, k);
    StepExprEnd(Tokens(e, k), e, k);
  }

  lemma {:induction false} ReadArgs(es: seq<Tree>, k: seq<Token>)
    requires AllStable(es) && Peek(k) == RParen
    ensures ArgsAre(TokenList(es, k), es, k)
    decreases es, |es|
  {
    hide ExprIs, ArgsAre, Stable, Tokens;
    if es == [] {
      StepNoArgs(k);
    } else if |es| == 1 {
      FirstToken(es[0], k);
      ReadExpr(es[0], k);
      StepLastArg(Tokens(es[0], k), es[0], k);
      assert es == [es[0]];
    } else {
      var u := TokenList(es[1..], k);
      FirstToken(es[0], [Comma] + u);
      ReadExpr(es[0], [Comma] + u);
      ReadArgs(es[1..], k);
      StepArg(TokenList(es, k), es[0], u, es[1..], k);
      assert es == [es[0]] + es[1..];
    }
  }

  lemma {:induction false} ReadArray(items: seq<Tree>, k: seq<Token>)
    requires AllStable(items) && items != []
    ensures PrimaryIs(Tokens(Array(items), k), Array(items), k)
    decreases Array(items), 0
  {
    hide ExprIs, ItemsAre, PrimaryIs, Stable;
    var u := [RBracket] + k;
    var mid := ItemTokens(items[1..], u);
    ReadItems(items[1..], u);
    ReadExpr(items[0], mid);
    StepArray(Tokens(items[0], mid), items[0], mid, items[1..], k);
    assert items == [items[0]] + items[1..];
  }

  /** The tokens of the items after the first. */
  function ItemTokens(es: seq<Tree>, k: seq<Token>): seq<Token> {
    if es == [] then k else [Comma] + TokenList(es, k)
  }

  lemma {:induction false} ReadItems(es: seq<Tree>, k: seq<Token>)
    requires AllStable(es) && Peek(k) == RBracket
    ensures ItemsAre(ItemTokens(es, k), es, k)
    decreases es, |es|
  {
    hide ExprIs, ItemsAre, Stable, Tokens;
    if es == [] {
      StepNoItems(k);
    } else {
      var mid := ItemTokens(es[1..], k);
      FirstToken(es[0], mid);
      ReadExpr(es[0], mid);
      ReadItems(es[1..], k);
      StepItem(Tokens(es[0], mid), es[0], mid, es[1..], k);
      assert es == [es[0]] + es[1..];
    }
  }
}
