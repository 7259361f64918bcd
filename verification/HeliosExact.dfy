/** Only stable expressions are read back unchanged. */
module HeliosExact {
  import opened Wrappers
  import A = HeliosAst
  import opened HeliosLexer
  import opened HeliosFormat
  import opened HeliosParser
  import opened HeliosStable
  import opened HeliosAccounts

  // Where a parsed tree comes from. The predicates undo the loops of the parser one round at a time.

  predicate FromCasts(ts: seq<Token>, e: Tree, k: seq<Token>) {
    LadderIs(ts, 8, e, k) || (e.Cast? && FromCasts(ts, e.arg, [As] + ([TargetToken(e.target)] + k)))
  }

  ghost predicate FromLadder(ts: seq<Token>, level: nat, e: Tree, k: seq<Token>)
    requires level <= 8
    decreases e
  {
    || UnaryIs(ts, e, k)
    || (e.Bin? && LevelOf(e.op) <= level
        && exists mid :: LadderIs(mid, LevelOf(e.op) - 1, e.right, k)
                         && FromLadder(ts, LevelOf(e.op), e.left, [OpToken(e.op)] + mid))
  }

  ghost predicate FromPost(ts: seq<Token>, e: Tree, k: seq<Token>)
    decreases e
  {
    || PrimaryIs(ts, e, k)
    || (e.Index? && exists u :: ExprIs(u, e.at, [RBracket] + k) && FromPost(ts, e.base, [LBracket] + u))
    || (e.Fields? && e.names != [] && Peek(k) != Dot && FromPost(ts, e.base, TokenNames(e.names, k)))
  }

  lemma {:induction false} CastOrigin(ts: seq<Token>, e: Tree, k: seq<Token>)
    requires FromCasts(ts, e, k) && Proper(k)
    ensures var p := CastTail(e, k); FromCasts(ts, p.tree, p.rest)
    decreases |k|
  {
    hide LadderIs;
    if Peek(k) == As {
      var target := if k[1] == TBool then A.ToBool else A.ToInt;
      assert k[0] == As && 2 < |k|;
      assert k == [As] + ([TargetToken(target)] + k[2..]) && k[1..][1..] == k[2..] && Peek(k[1..]) == k[1];
      ProperAfter(k, 2);
      CastOrigin(ts, Cast(e, target), k[2..]);
    }
  }

  lemma ExprOrigin(ts: seq<Token>, e: Tree, k: seq<Token>)
    requires Proper(ts) && ExprIs(ts, e, k)
    ensures FromCasts(ts, e, k)
  {
    hide Ladder, CastTail, Good, Proper;
    LadderGood(ts, 8);
    var p := Ladder(ts, 8).value;
    GoodRest(ts, p.tree, p.rest);
    CastOrigin(ts, p.tree, p.rest);
  }

  lemma {:induction false} LadderOrigin(ts: seq<Token>, level: nat, e: Tree, k: seq<Token>)
    requires level <= 8 && LadderIs(ts, level, e, k)
    ensures FromLadder(ts, level, e, k)
    decreases level
  {
    hide Unary, Tail;
    if level > 0 {
      var p := Ladder(ts, level - 1).value;
      LadderOrigin(ts, level - 1, p.tree, p.rest);
      HigherLevel(ts, level - 1, level, p.tree, p.rest);
      TailOrigin(ts, p.tree, p.rest, level);
    }
  }

  lemma HigherLevel(ts: seq<Token>, low: nat, high: nat, e: Tree, k: seq<Token>)
    requires low <= high <= 8 && FromLadder(ts, low, e, k)
    ensures FromLadder(ts, high, e, k)
  {
    hide UnaryIs, LadderIs;
  }

  lemma {:induction false} TailOrigin(ts: seq<Token>, l: Tree, k: seq<Token>, level: nat)
    requires 1 <= level <= 8 && FromLadder(ts, level, l, k) && Tail(l, k, level).Some?
    ensures var p := Tail(l, k, level).value; FromLadder(ts, level, p.tree, p.rest)
    decreases |k|
  {
    hide Ladder, UnaryIs;
    var op := OpAt(level, Peek(k));
    if op.Some? {
      Split(k);
      var p := Ladder(k[1..], level - 1).value;
      assert LadderIs(k[1..], level - 1, p.tree, p.rest);
      assert FromLadder(ts, level, Bin(l, op.value, p.tree), p.rest);
      TailOrigin(ts, Bin(l, op.value, p.tree), p.rest, level);
    }
  }

  lemma PostfixOrigin(ts: seq<Token>, e: Tree, k: seq<Token>)
    requires PostfixIs(ts, e, k)
    ensures FromPost(ts, e, k)
  {
    hide Primary, PostTail;
    var p := Primary(ts).value;
    assert PrimaryIs(ts, p.tree, p.rest);
    PostTailOrigin(ts, p.tree, p.rest);
  }

  lemma {:induction false} PostTailOrigin(ts: seq<Token>, e: Tree, k: seq<Token>)
    requires FromPost(ts, e, k) && PostTail(e, k).Some?
    ensures var p := PostTail(e, k).value; FromPost(ts, p.tree, p.rest)
    decreases |k|
  {
    hide Expr, Names, PrimaryIs;
    if Peek(k) == LBracket {
      Split(k);
      var p := Expr(k[1..]).value;
      Split(p.rest);
      assert ExprIs(k[1..], p.tree, [RBracket] + p.rest[1..]);
      PostTailOrigin(ts, Index(e, p.tree), p.rest[1..]);
    } else if Peek(k) == Dot {
      NamesAre(k);
      var n := Names(k).value;
      assert FromPost(ts, Fields(e, n.names), n.rest);
      PostTailOrigin(ts, Fields(e, n.names), n.rest);
    }
  }

  lemma {:induction false} NamesAre(ts: seq<Token>)
    requires Names(ts).Some?
    ensures var n := Names(ts).value; TokenNames(n.names, n.rest) == ts && Peek(n.rest) != Dot
    ensures Peek(ts) == Dot ==> Names(ts).value.names != []
    decreases |ts|
  {
    hide Names;
    if Peek(ts) == Dot {
      FirstName(ts);
      NamesAre(ts[2..]);
      var n := Names(ts[2..]).value;
      assert ([ts[1].name] + n.names)[1..] == n.names;
    } else {
      NoNames(ts);
    }
  }

  lemma UnaryOrigin(ts: seq<Token>, e: Tree, k: seq<Token>)
    requires UnaryIs(ts, e, k)
    ensures if UnOf(Peek(ts)).Some? then e.Un? && e.uop == UnOf(Peek(ts)).value && PostfixIs(ts[1..], e.arg, k)
            else if Peek(ts) == Star then e.Deref? && PostfixIs(ts[1..], e.arg, k)
            else PostfixIs(ts, e, k)
  {
    hide Postfix;
  }

  /** What a primary expression can be, by its first token. */
  ghost predicate FromPrimary(ts: seq<Token>, e: Tree, k: seq<Token>) {
    && ts != []
    && match ts[0]
       case LParen => ExprIs(ts[1..], e, [RParen] + k)
       case Star => e.Deref? && PrimaryIs(ts[1..], e.arg, k)
       case Minus | Bang | Tilde => e.Un? && UnOf(ts[0]) == Some(e.uop) && PrimaryIs(ts[1..], e.arg, k)
       case Ident(x) =>
         if Peek(ts[1..]) == LParen then
           e.Call? && e.fname == x && |ts| >= 2 && ArgsAre(ts[2..], e.args, [RParen] + k)
         else e == Var(x)
       case Input => e == Tree.Input && (Peek(k) != LParen || Ends(ts, [RParen] + k))
       case LBracket =>
         e.Array? && e.items != []
         && exists mid :: ExprIs(ts[1..], e.items[0], mid) && ItemsAre(mid, e.items[1..], [RBracket] + k)
       case IntLit(n) => e == Lit(n)
       case BoolLit(b) => e == Truth(b)
       case Amp => e.AddrOf?
       case _ => false
  }

  lemma PrimaryOrigin(ts: seq<Token>, e: Tree, k: seq<Token>)
    requires PrimaryIs(ts, e, k)
    ensures FromPrimary(ts, e, k)
  {
    hide Expr, Args, Items;
    match ts[0]
    case LParen => Split(Expr(ts[1..]).value.rest);
    case LBracket => ArrayOrigin(ts, e, k);
    case Ident(_) => CallOrigin(ts, e, k);
    case Input =>
      if Peek(ts[1..]) == LParen {
        assert ts[2..] == [RParen] + k;
      }
    case _ =>
  }

  lemma ArrayOrigin(ts: seq<Token>, e: Tree, k: seq<Token>)
    requires PrimaryIs(ts, e, k) && Peek(ts) == LBracket
    ensures e.Array? && e.items != []
    ensures exists mid :: ExprIs(ts[1..], e.items[0], mid) && ItemsAre(mid, e.items[1..], [RBracket] + k)
  {
    hide Expr, Args, Items;
    var p := Expr(ts[1..]).value;
    var i := Items(p.rest).value;
    Split(i.rest);
    assert e.items[0] == p.tree && e.items[1..] == i.trees;
    assert ExprIs(ts[1..], e.items[0], p.rest) && ItemsAre(p.rest, e.items[1..], [RBracket] + k);
  }

  lemma CallOrigin(ts: seq<Token>, e: Tree, k: seq<Token>)
    requires PrimaryIs(ts, e, k) && Peek(ts).Ident?
    ensures if Peek(ts[1..]) == LParen then
              e.Call? && e.fname == ts[0].name && |ts| >= 2 && ArgsAre(ts[2..], e.args, [RParen] + k)
            else e == Var(ts[0].name)
  {
    hide Expr, Args, Items;
    if Peek(ts[1..]) == LParen {
      Split(Args(ts[2..]).value.rest);
    }
  }

  // Every origin accounts for its tokens.

  lemma IsGood(ts: seq<Token>, level: nat, e: Tree, k: seq<Token>)
    requires level <= 8 && Proper(ts)
    ensures PrimaryIs(ts, e, k) ==> Good(ts, e, k)
    ensures UnaryIs(ts, e, k) ==> Good(ts, e, k)
    ensures LadderIs(ts, level, e, k) ==> Good(ts, e, k)
    ensures ExprIs(ts, e, k) ==> Good(ts, e, k)
  {
    hide Primary, Unary, Ladder, Expr, Good, Proper;
    if PrimaryIs(ts, e, k) { PrimaryGood(ts); }
    if UnaryIs(ts, e, k) { UnaryGood(ts); }
    if LadderIs(ts, level, e, k) { LadderGood(ts, level); }
    if ExprIs(ts, e, k) { ExprGood(ts); }
  }

  lemma {:induction false} FromLadderGood(ts: seq<Token>, level: nat, e: Tree, k: seq<Token>)
    requires level <= 8 && Proper(ts) && FromLadder(ts, level, e, k)
    ensures Good(ts, e, k)
    decreases e
  {
    hide Good, Proper, UnaryIs, LadderIs;
    if UnaryIs(ts, e, k) {
      IsGood(ts, 0, e, k);
    } else {
      var mid :| LadderIs(mid, LevelOf(e.op) - 1, e.right, k)
                 && FromLadder(ts, LevelOf(e.op), e.left, [OpToken(e.op)] + mid);
      FromLadderGood(ts, LevelOf(e.op), e.left, [OpToken(e.op)] + mid);
      GoodRest(ts, e.left, [OpToken(e.op)] + mid);
      ProperAfter([OpToken(e.op)] + mid, 1);
      After(OpToken(e.op), mid);
      IsGood(mid, LevelOf(e.op) - 1, e.right, k);
      GoodBin(ts, e.left, e.op, mid, e.right, k);
    }
  }

  lemma {:induction false} FromPostGood(ts: seq<Token>, e: Tree, k: seq<Token>)
    requires Proper(ts) && FromPost(ts, e, k)
    ensures Good(ts, e, k)
    decreases e
  {
    hide Good, Proper, PrimaryIs, ExprIs, Run;
    if PrimaryIs(ts, e, k) {
      IsGood(ts, 0, e, k);
    } else if e.Index? {
      var u :| ExprIs(u, e.at, [RBracket] + k) && FromPost(ts, e.base, [LBracket] + u);
      FromPostGood(ts, e.base, [LBracket] + u);
      GoodRest(ts, e.base, [LBracket] + u);
      ProperAfter([LBracket] + u, 1);
      After(LBracket, u);
      IsGood(u, 0, e.at, [RBracket] + k);
      GoodIndex(ts, e.base, u, e.at, k);
    } else {
      FromPostGood(ts, e.base, TokenNames(e.names, k));
      TokenNamesRun(e.names, k);
      GoodFields(ts, e.base, TokenNames(e.names, k), e.names, k);
    }
  }

  lemma NameTokens(fs: seq<string>, k: seq<Token>)
    ensures TokenNames(fs, k) == if fs == [] then k else [Dot] + ([Ident(fs[0])] + TokenNames(fs[1..], k))
  {
  }

  lemma {:induction false} TokenNamesRun(fs: seq<string>, k: seq<Token>)
    requires fs != []
    ensures Run(TokenNames(fs, k), TokenNames(fs, []), 0, k)
    decreases fs
  {
    hide Run, Part, TokenNames;
    NameTokens(fs, k);
    NameTokens(fs, []);
    NameTokens(fs[1..], k);
    NameTokens(fs[1..], []);
    var u := TokenNames(fs[1..], k);
    OneToken(Ident(fs[0]), u);
    if |fs| > 1 {
      TokenNamesRun(fs[1..], k);
      TokenThen(Ident(fs[0]), u, TokenNames(fs[1..], []), 0, k);
    }
    TokenThen(Dot, [Ident(fs[0])] + u, [Ident(fs[0])] + TokenNames(fs[1..], []), 0, k);
  }

  lemma {:induction false} FromCastsGood(ts: seq<Token>, e: Tree, k: seq<Token>)
    requires Proper(ts) && FromCasts(ts, e, k)
    ensures Good(ts, e, k)
    decreases e
  {
    hide Good, Proper, LadderIs;
    if LadderIs(ts, 8, e, k) {
      IsGood(ts, 8, e, k);
    } else {
      FromCastsGood(ts, e.arg, [As] + ([TargetToken(e.target)] + k));
      GoodCast(ts, e.arg, e.target, k);
    }
  }

  /** Printed tokens account for themselves. */
  lemma {:induction false} TokensGood(e: Tree, k: seq<Token>)
    requires Named(e)
    ensures Good(Tokens(e, k), e, k)
    decreases e, 0
  {
    hide Good, Run, Part, IsName;
    match e
    case Lit(n) => GoodAtom(IntLit(n), k);
    case Truth(b) => GoodAtom(BoolLit(b), k);
    case Var(x) => GoodAtom(Ident(x), k);
    case AddrOf(x) => GoodAtom(Ident(x), k);
    case Input => GoodInput(k);
    case Bin(l, op, r) =>
      var u := [RParen] + k;
      TokensGood(r, u);
      TokensGood(l, [OpToken(op)] + Tokens(r, u));
      GoodBin(Tokens(l, [OpToken(op)] + Tokens(r, u)), l, op, Tokens(r, u), r, u);
      GoodParen(Tokens(l, [OpToken(op)] + Tokens(r, u)), e, k);
    case Un(op, x) =>
      TokensGood(x, k);
      GoodPrefix(Tokens(x, k), x, k, op);
    case Deref(x) =>
      TokensGood(x, k);
      GoodPrefix(Tokens(x, k), x, k, A.Neg);
    case Call(f, args) =>
      TokensPart(args, [RParen] + k);
      GoodCall(f, TokenList(args, [RParen] + k), args, k);
    case Cast(x, t) =>
      TokensGood(x, [As] + ([TargetToken(t)] + k));
      GoodCast(Tokens(e, k), x, t, k);
    case Array(items) =>
      TokensPart(items, [RBracket] + k);
      ArrayTokens(items, k);
    case Index(b, i) =>
      var u := Tokens(i, [RBracket] + k);
      TokensGood(i, [RBracket] + k);
      TokensGood(b, [LBracket] + u);
      GoodIndex(Tokens(e, k), b, u, i, k);
    case Fields(b, fs) =>
      TokenNamesRun(fs, k);
      TokensGood(b, TokenNames(fs, k));
      GoodFields(Tokens(e, k), b, TokenNames(fs, k), fs, k);
  }

  lemma ArrayTokens(items: seq<Tree>, k: seq<Token>)
    requires Part(TokenList(items, [RBracket] + k), WordsList(items), 0, [RBracket] + k)
    ensures Good(Tokens(Array(items), k), Array(items), k)
  {
    hide Run, Part;
    var u := TokenList(items, [RBracket] + k);
    ThenToken(u, WordsList(items), 0, RBracket, k);
    TokenThen(LBracket, u, WordsList(items) + [RBracket], 0, k);
  }

  lemma {:induction false} TokensPart(es: seq<Tree>, k: seq<Token>)
    requires NamedList(es)
    ensures Part(TokenList(es, k), WordsList(es), 0, k)
    decreases es, |es|
  {
    hide Good, Part, Tokens, Words, Named;
    NoTokens(k);
    if |es| == 1 {
      TokensGood(es[0], k);
      MoreArgs(Tokens(es[0], k), es[0], k, k, [], k);
      assert [es[0]] + [] == es;
    } else if |es| > 1 {
      var u := TokenList(es[1..], k);
      TokensGood(es[0], [Comma] + u);
      TokensPart(es[1..], k);
      After(Comma, u);
      MoreArgs(Tokens(es[0], [Comma] + u), es[0], [Comma] + u, u, es[1..], k);
      assert [es[0]] + es[1..] == es;
    }
  }

  // Two accounts of the same tokens.

  /** Two rests after the same words are equal if both begin with a word, and so are their parentheses. */
  lemma SameRest(ts: seq<Token>, w: seq<Token>, m: int, u: seq<Token>, n: int, v: seq<Token>)
    requires Part(ts, w, m, u) && Part(ts, w, n, v)
    requires u != [] && v != [] && !Silent(u[0]) && !Silent(v[0])
    ensures u == v && m == n
  {
    hide Excess;
    assert Strip(u) == Strip(ts)[|w|..] == Strip(v);
    if |u| > |v| {
      NotLonger(u, v);
    } else if |v| > |u| {
      NotLonger(v, u);
    }
  }

  /** A rest that begins with a word has more words than any shorter rest. */
  lemma NotLonger(u: seq<Token>, v: seq<Token>)
    requires |u| > |v| && u[|u| - |v|..] == v && !Silent(u[0])
    ensures |Strip(u)| > |Strip(v)|
  {
    hide Excess;
    var d := u[1..|u| - |v|];
    assert u[1..] == d + v;
    StripCat(d, v);
  }

  // Parentheses around a binary operation.

  /** A binary operation is read from an operator inside some number of parentheses. */
  lemma {:induction false} BinDepth(ts: seq<Token>, level: nat, e: Tree, k: seq<Token>) returns (m: nat,
                                    mid: seq<Token>)
    requires level <= 8 && Proper(ts) && e.Bin? && FromLadder(ts, level, e, k)
    ensures Part(ts, Words(e.left), m, [OpToken(e.op)] + mid)
    ensures if m > 0 then PrimaryIs(ts, e, k)
            else LadderIs(mid, LevelOf(e.op) - 1, e.right, k)
                 && FromLadder(ts, LevelOf(e.op), e.left, [OpToken(e.op)] + mid)
    decreases |ts|
  {
    hide Good, Run, Part, Proper, UnaryIs, LadderIs, PrimaryIs, ExprIs, PostfixIs, Words;
    if u :| LadderIs(u, LevelOf(e.op) - 1, e.right, k)
            && FromLadder(ts, LevelOf(e.op), e.left, [OpToken(e.op)] + u) {
      m, mid := 0, u;
      FromLadderGood(ts, LevelOf(e.op), e.left, [OpToken(e.op)] + mid);
      GoodIsPart(ts, e.left, [OpToken(e.op)] + mid);
    } else {
      UnaryBin(ts, e, k);
      PrimaryOrigin(ts, e, k);
      var v := ts[1..];
      Split(ts);
      ProperAfter(ts, 1);
      BinExpr(v, e, [RParen] + k);
      m, mid := BinDepth(v, 8, e, [RParen] + k);
      m := m + 1;
      OneToken(LParen, v);
      Joined(ts, [], 1, v, Words(e.left), m - 1, [OpToken(e.op)] + mid);
      assert [] + Words(e.left) == Words(e.left);
    }
  }

  lemma GoodIsPart(ts: seq<Token>, e: Tree, k: seq<Token>)
    requires Good(ts, e, k)
    ensures Part(ts, Words(e), 0, k)
  {
  }

  lemma UnaryBin(ts: seq<Token>, e: Tree, k: seq<Token>)
    requires UnaryIs(ts, e, k) && e.Bin?
    ensures PrimaryIs(ts, e, k)
  {
    hide UnaryIs, PostfixIs, PrimaryIs;
    UnaryOrigin(ts, e, k);
    PostfixOrigin(ts, e, k);
  }

  lemma BinExpr(ts: seq<Token>, e: Tree, k: seq<Token>)
    requires Proper(ts) && ExprIs(ts, e, k) && e.Bin?
    ensures FromLadder(ts, 8, e, k)
  {
    hide Proper, ExprIs, LadderIs;
    ExprOrigin(ts, e, k);
    LadderOrigin(ts, 8, e, k);
  }

  // The right edge of an expression.

  /** Whether the printed text ends with an empty pair of parentheses. */
  predicate RightOpen(e: Tree) {
    match e
    case Input => true
    case Call(_, args) => args == []
    case Un(_, x) => RightOpen(x)
    case Deref(x) => RightOpen(x)
    case _ => false
  }

  /** Parentheses at the end of the printed tokens. */
  function Trail(e: Tree): seq<Token> {
    match e
    case Input => [LParen] + [RParen]
    case Call(_, args) => if args == [] then [LParen] + [RParen] else Trail(args[|args| - 1]) + [RParen]
    case Bin(_, _, r) => Trail(r) + [RParen]
    case Un(_, x) => Trail(x)
    case Deref(x) => Trail(x)
    case _ => []
  }

  lemma {:induction false} TrailExcess(e: Tree, i: nat)
    requires i < |Trail(e)|
    ensures Excess(Trail(e)[i..]) < 0 || (i == 0 && RightOpen(e) && Trail(e) == [LParen] + [RParen])
    decreases e, 0
  {
    match e
    case Input => assert i == 1 ==> Trail(e)[i..] == [RParen];
    case Call(_, args) =>
      if args == [] {
        assert i == 1 ==> Trail(e)[i..] == [RParen];
      } else {
        ClosedTrail(args[|args| - 1], i);
      }
    case Bin(_, _, r) => ClosedTrail(r, i);
    case Un(_, x) => TrailExcess(x, i);
    case Deref(x) => TrailExcess(x, i);
    case _ =>
  }

  lemma {:induction false} ClosedTrail(x: Tree, i: nat)
    requires i <= |Trail(x)|
    ensures Excess((Trail(x) + [RParen])[i..]) < 0
    decreases x, 1
  {
    hide Trail, Strip, Excess;
    var t := Trail(x)[i..];
    assert (Trail(x) + [RParen])[i..] == t + [RParen];
    StripCat(t, [RParen]);
    SmallExcess();
    if i < |Trail(x)| {
      TrailExcess(x, i);
      assert i == 0 ==> t == Trail(x);
    } else {
      assert t == [];
    }
  }

  lemma SmallExcess()
    ensures Excess([]) == 0 && Excess([RParen]) == -1 && Excess([LParen] + [RParen]) == 0
  {
    hide Strip;
    StripCat([LParen], [RParen]);
    assert Excess([LParen]) == 1 + Excess([]);
    assert Excess([RParen]) == -1 + Excess([]);
  }

  predicate Ends(ts: seq<Token>, u: seq<Token>) {
    |u| <= |ts| && ts[|ts| - |u|..] == u
  }

  /** The tokens end with u, in front of which there is a word. */
  predicate WordBefore(ts: seq<Token>, u: seq<Token>) {
    Ends(ts, u) && |u| < |ts| && !Silent(ts[|ts| - |u| - 1])
  }

  lemma EndsThrough(ts: seq<Token>, v: seq<Token>, u: seq<Token>)
    requires Ends(ts, v)
    ensures Ends(v, u) ==> Ends(ts, u)
    ensures WordBefore(v, u) ==> WordBefore(ts, u)
  {
    assert |u| <= |v| ==> ts[|ts| - |u|..] == v[|v| - |u|..];
  }

  lemma TokenEnds(t: Token, u: seq<Token>)
    ensures Ends([t] + u, u) && (!Silent(t) ==> WordBefore([t] + u, u))
  {
  }

  lemma TokensEnd(e: Tree, k: seq<Token>)
    requires Named(e)
    ensures Ends(Tokens(e, k), k)
  {
    TokensGood(e, k);
  }

  lemma {:induction false} NamesTrail(fs: seq<string>, k: seq<Token>)
    requires fs != []
    ensures WordBefore(TokenNames(fs, k), k)
    decreases fs
  {
    hide WordBefore, Ends;
    var u := TokenNames(fs[1..], k);
    TokenEnds(Ident(fs[0]), u);
    TokenEnds(Dot, [Ident(fs[0])] + u);
    if |fs| > 1 {
      NamesTrail(fs[1..], k);
      EndsThrough([Ident(fs[0])] + u, u, k);
    }
    EndsThrough([Dot] + ([Ident(fs[0])] + u), [Ident(fs[0])] + u, k);
  }

  /** Printed tokens end with a word and the trail. */
  lemma {:induction false} TokensTrail(e: Tree, k: seq<Token>)
    requires Named(e)
    ensures WordBefore(Tokens(e, k), Trail(e) + k)
    decreases e, 0
  {
    hide IsName, WordBefore, Ends;
    var ts := Tokens(e, k);
    assert Trail(e) == [] ==> Trail(e) + k == k;
    match e
    case Lit(n) => TokenEnds(IntLit(n), k);
    case Truth(b) => TokenEnds(BoolLit(b), k);
    case Var(x) => TokenEnds(Ident(x), k);
    case AddrOf(x) =>
      TokenEnds(Ident(x), k);
      TokenEnds(Amp, [Ident(x)] + k);
      EndsThrough(ts, [Ident(x)] + k, k);
    case Input =>
      assert Trail(e) + k == [LParen] + ([RParen] + k);
      TokenEnds(Token.Input, [LParen] + ([RParen] + k));
    case Bin(l, op, r) =>
      var u := [RParen] + k;
      var v := [OpToken(op)] + Tokens(r, u);
      assert Trail(e) + k == Trail(r) + u;
      TokensTrail(r, u);
      TokenEnds(OpToken(op), Tokens(r, u));
      EndsThrough(v, Tokens(r, u), Trail(r) + u);
      TokensEnd(l, v);
      EndsThrough(Tokens(l, v), v, Trail(r) + u);
      TokenEnds(LParen, Tokens(l, v));
      EndsThrough(ts, Tokens(l, v), Trail(r) + u);
    case Un(op, x) =>
      TokensTrail(x, k);
      TokenEnds(UnToken(op), Tokens(x, k));
      EndsThrough(ts, Tokens(x, k), Trail(x) + k);
    case Deref(x) =>
      TokensTrail(x, k);
      TokenEnds(Star, Tokens(x, k));
      EndsThrough(ts, Tokens(x, k), Trail(x) + k);
    case Call(f, args) => CallTrail(f, args, k);
    case Cast(x, t) =>
      var u := [TargetToken(t)] + k;
      TokenEnds(TargetToken(t), k);
      TokenEnds(As, u);
      EndsThrough([As] + u, u, k);
      TokensEnd(x, [As] + u);
      EndsThrough(ts, [As] + u, k);
    case Array(items) =>
      ListEnds(items, [RBracket] + k);
      TokenEnds(RBracket, k);
      EndsThrough(TokenList(items, [RBracket] + k), [RBracket] + k, k);
      TokenEnds(LBracket, TokenList(items, [RBracket] + k));
      EndsThrough(ts, TokenList(items, [RBracket] + k), k);
    case Index(b, i) =>
      var u := Tokens(i, [RBracket] + k);
      TokenEnds(RBracket, k);
      TokensEnd(i, [RBracket] + k);
      EndsThrough(u, [RBracket] + k, k);
      TokenEnds(LBracket, u);
      EndsThrough([LBracket] + u, u, k);
      TokensEnd(b, [LBracket] + u);
      EndsThrough(ts, [LBracket] + u, k);
    case Fields(b, fs) =>
      NamesTrail(fs, k);
      TokensEnd(b, TokenNames(fs, k));
      EndsThrough(ts, TokenNames(fs, k), k);
  }

  lemma ListEnds(es: seq<Tree>, k: seq<Token>)
    requires NamedList(es)
    ensures Ends(TokenList(es, k), k)
  {
    hide TokenList;
    TokensPart(es, k);
  }

  lemma {:induction false} CallTrail(f: string, args: seq<Tree>, k: seq<Token>)
    requires NamedList(args)
    ensures WordBefore(Tokens(Call(f, args), k), Trail(Call(f, args)) + k)
    decreases Call(f, args), 0, 0
  {
    hide WordBefore, Ends;
    var u := [RParen] + k;
    var t := Trail(Call(f, args)) + k;
    var v := TokenList(args, u);
    if args == [] {
      assert t == [LParen] + u;
      TokenEnds(Ident(f), [LParen] + u);
    } else {
      ListTrail(args, u);
      assert t == Trail(args[|args| - 1]) + u;
      TokenEnds(LParen, v);
      TokenEnds(Ident(f), [LParen] + v);
      EndsThrough([LParen] + v, v, t);
      EndsThrough([Ident(f)] + ([LParen] + v), [LParen] + v, t);
    }
  }

  lemma {:induction false} ListTrail(es: seq<Tree>, k: seq<Token>)
    requires NamedList(es) && es != []
    ensures WordBefore(TokenList(es, k), Trail(es[|es| - 1]) + k)
    decreases es, |es|
  {
    hide WordBefore, Ends, Trail, Tokens;
    if |es| == 1 {
      TokensTrail(es[0], k);
    } else {
      assert es[1..][|es| - 2] == es[|es| - 1];
      ListTrail(es[1..], k);
      ThroughComma(es[0], TokenList(es[1..], k), Trail(es[|es| - 1]) + k);
    }
  }

  lemma ThroughComma(e: Tree, u: seq<Token>, v: seq<Token>)
    requires Named(e) && WordBefore(u, v)
    ensures WordBefore(Tokens(e, [Comma] + u), v)
  {
    hide WordBefore, Ends, Tokens, Named;
    TokenEnds(Comma, u);
    EndsThrough([Comma] + u, u, v);
    TokensEnd(e, [Comma] + u);
    EndsThrough(Tokens(e, [Comma] + u), [Comma] + u, v);
  }

  // Splitting a list at its commas.

  predicate SilentUpTo(ts: seq<Token>, j: nat) {
    j <= |ts| && forall i :: 0 <= i < j ==> Silent(ts[i])
  }

  /** Parentheses in front of the first word of an expression are all opening ones. */
  lemma {:induction false} Leading(e: Tree, k: seq<Token>, j: nat)
    requires SilentUpTo(Tokens(e, k), j)
    ensures Excess(Tokens(e, k)[..j]) == j
    decreases e
  {
    hide Excess, SilentUpTo;
    match e
    case Bin(l, op, r) =>
      var u := [OpToken(op)] + Tokens(r, [RParen] + k);
      OneParen(Tokens(l, u), j);
      if j > 0 {
        Leading(l, u, j - 1);
      }
    case Cast(x, t) => Leading(x, [As] + ([TargetToken(t)] + k), j);
    case Index(b, i) => Leading(b, [LBracket] + Tokens(i, [RBracket] + k), j);
    case Fields(b, fs) => Leading(b, TokenNames(fs, k), j);
    case _ => NoParen(Tokens(e, k), j);
  }

  lemma NoParen(ts: seq<Token>, j: nat)
    requires SilentUpTo(ts, j) && ts != [] && !Silent(ts[0])
    ensures Excess(ts[..j]) == j
  {
    assert ts[..0] == [];
  }

  lemma OneParen(ts: seq<Token>, j: nat)
    requires SilentUpTo([LParen] + ts, j)
    ensures j == 0 ==> Excess(([LParen] + ts)[..j]) == 0
    ensures j > 0 ==> SilentUpTo(ts, j - 1) && Excess(([LParen] + ts)[..j]) == 1 + Excess(ts[..j - 1])
  {
    if j > 0 {
      assert forall i :: 0 <= i < j - 1 ==> ts[i] == ([LParen] + ts)[i + 1];
      assert ([LParen] + ts)[..j][1..] == ts[..j - 1];
    }
  }

  lemma {:induction false} AllSilent(d: seq<Token>)
    requires Strip(d) == []
    ensures forall i :: 0 <= i < |d| ==> Silent(d[i])
  {
    if d != [] {
      AllSilent(d[1..]);
      assert forall i :: 1 <= i < |d| ==> d[i] == d[1..][i - 1];
    }
  }

  /** What lies between two rests of the same account. */
  lemma Between(ts: seq<Token>, w: seq<Token>, u: seq<Token>, v: seq<Token>)
    requires Part(ts, w, 0, u) && Part(ts, w, 0, v) && |u| >= |v|
    ensures var d := u[..|u| - |v|]; u == d + v && Strip(d) == [] && Excess(d) == 0
  {
    var d := u[..|u| - |v|];
    assert u[|u| - |v|..] == ts[|ts| - |v|..] && u == d + v;
    StripCat(d, v);
    assert |Strip(u)| == |Strip(d)| + |Strip(v)|;
    assert Strip(u) == Strip(ts)[|w|..] == Strip(v);
  }

  /** The parser does not stop in front of an empty pair of parentheses. */
  lemma {:induction false} PrimaryEdge(ts: seq<Token>, e: Tree, k: seq<Token>)
    requires Proper(ts) && PrimaryIs(ts, e, k) && RightOpen(e)
    ensures Ends(ts, [RParen] + k) || Peek(k) != LParen
    decreases |ts|, 1
  {
    hide PrimaryIs, ExprIs, ArgsAre, Good, Proper, Ends;
    PrimaryOrigin(ts, e, k);
    Split(ts);
    ProperAfter(ts, 1);
    match ts[0]
    case LParen =>
      ExprEnds(ts[1..], e, [RParen] + k);
      TokenEnds(LParen, ts[1..]);
      EndsThrough(ts, ts[1..], [RParen] + k);
    case Ident(_) => CallEdge(ts, e, k);
    case Star => InnerEdge(ts, e, k);
    case Minus | Bang | Tilde => InnerEdge(ts, e, k);
    case _ =>
  }

  lemma {:induction false} InnerEdge(ts: seq<Token>, e: Tree, k: seq<Token>)
    requires Proper(ts) && ts != [] && (e.Un? || e.Deref?) && RightOpen(e) && PrimaryIs(ts[1..], e.arg, k)
    ensures Ends(ts, [RParen] + k) || Peek(k) != LParen
    decreases |ts|, 0
  {
    hide PrimaryIs, Proper, Ends;
    ProperAfter(ts, 1);
    PrimaryEdge(ts[1..], e.arg, k);
    Split(ts);
    TokenEnds(ts[0], ts[1..]);
    EndsThrough(ts, ts[1..], [RParen] + k);
  }

  lemma CallEdge(ts: seq<Token>, e: Tree, k: seq<Token>)
    requires Proper(ts) && RightOpen(e)
    requires |ts| >= 2 && e.Call? && ArgsAre(ts[2..], e.args, [RParen] + k)
    ensures Ends(ts, [RParen] + k)
  {
    hide ArgsAre, Proper;
    ProperAfter(ts, 2);
    ArgsEnd(ts[2..], e.args, [RParen] + k);
  }

  lemma ExprEnds(ts: seq<Token>, e: Tree, k: seq<Token>)
    requires Proper(ts) && ExprIs(ts, e, k)
    ensures Ends(ts, k)
  {
    IsGood(ts, 0, e, k);
  }

  lemma ArgsEnd(ts: seq<Token>, es: seq<Tree>, k: seq<Token>)
    requires Proper(ts) && ArgsAre(ts, es, k)
    ensures Ends(ts, k)
  {
    ArgsPart(ts);
  }

  lemma RightEdge(ts: seq<Token>, e: Tree, k: seq<Token>)
    requires Proper(ts) && ExprIs(ts, e, k) && RightOpen(e)
    ensures Ends(ts, [RParen] + k) || Peek(k) != LParen
  {
    hide UnaryIs, PostfixIs, ExprIs, PrimaryIs, LadderIs, Proper;
    ExprOrigin(ts, e, k);
    LadderOrigin(ts, 8, e, k);
    UnaryOrigin(ts, e, k);
    if UnOf(Peek(ts)).Some? || Peek(ts) == Star {
      ProperAfter(ts, 1);
      PostfixOrigin(ts[1..], e.arg, k);
      PrimaryEdge(ts[1..], e.arg, k);
    } else {
      PostfixOrigin(ts, e, k);
      PrimaryEdge(ts, e, k);
    }
  }

  /** An expression in front of a comma is read up to that comma. */
  lemma SplitComma(a: Tree, b: Tree, k: seq<Token>, r: seq<Token>)
    requires var s := [Comma] + Tokens(b, k); Proper(Tokens(a, s)) && ExprIs(Tokens(a, s), a, r)
    requires Named(a)
    ensures r == [Comma] + Tokens(b, k)
  {
    hide ExprIs, Proper, Tokens, Strip, Excess;
    var s := [Comma] + Tokens(b, k);
    var ts := Tokens(a, s);
    IsGood(ts, 0, a, r);
    TokensGood(a, s);
    GoodIsPart(ts, a, r);
    GoodIsPart(ts, a, s);
    if |r| < |s| {
      BeyondComma(ts, Words(a), b, k, r);
      assert false;
    } else {
      Between(ts, Words(a), r, s);
      if |r| > |s| {
        BeforeEnd(a, s, r);
        RightEdge(ts, a, r);
        assert false;
      }
    }
  }

  /** A rest that starts beyond a comma starts right after it. */
  lemma BeyondComma(ts: seq<Token>, w: seq<Token>, b: Tree, k: seq<Token>, r: seq<Token>)
    requires var s := [Comma] + Tokens(b, k); |r| < |s| && Part(ts, w, 0, s) && Part(ts, w, 0, r)
    ensures |r| < |ts| && ts[|ts| - |r| - 1] == Comma
  {
    hide Tokens;
    var s := [Comma] + Tokens(b, k);
    Between(ts, w, s, r);
    var d := s[..|s| - |r|];
    var j := |d| - 1;
    AllSilent(d);
    assert forall i :: 0 <= i < j ==> Tokens(b, k)[i] == d[i + 1];
    Leading(b, k, j);
    assert d[1..] == Tokens(b, k)[..j];
    assert Excess(d) == 0 + Excess(d[1..]);
    assert ts[|ts| - |s|..][0] == s[0];
  }

  lemma WordInside(ts: seq<Token>, t: seq<Token>, r: seq<Token>)
    requires WordBefore(ts, t) && Ends(ts, r)
    ensures |r| > |t| ==> !Silent(r[|r| - |t| - 1])
  {
    assert |r| > |t| ==> r[|r| - |t| - 1] == ts[|ts| - |t| - 1];
  }

  /** A rest in front of whose end there are only parentheses starts within the trail. */
  lemma WithinTrail(a: Tree, s: seq<Token>, r: seq<Token>)
    requires Named(a) && |r| > |s| && Ends(Tokens(a, s), r) && SilentUpTo(r, |r| - |s|)
    ensures var t := Trail(a) + s; |r| <= |t| && r == t[|t| - |r|..] && WordBefore(Tokens(a, s), t)
  {
    hide Tokens, Trail, Named, Silent;
    TokensTrail(a, s);
    WordInside(Tokens(a, s), Trail(a) + s, r);
  }

  /** A rest that starts before the end of a is that of an empty pair of parentheses. */
  lemma BeforeEnd(a: Tree, s: seq<Token>, r: seq<Token>)
    requires Named(a) && |r| > |s| && Ends(Tokens(a, s), r)
    requires var d := r[..|r| - |s|]; r == d + s && Strip(d) == [] && Excess(d) == 0
    ensures RightOpen(a) && r == [LParen] + ([RParen] + s) && WordBefore(Tokens(a, s), r)
  {
    hide Tokens, Trail, Named, RightOpen, WordBefore, Ends, Strip, Excess;
    var d := r[..|r| - |s|];
    AllSilent(d);
    assert forall j :: 0 <= j < |d| ==> d[j] == r[j];
    WithinTrail(a, s, r);
    var t := Trail(a) + s;
    var i := |t| - |r|;
    assert d == Trail(a)[i..];
    TrailExcess(a, i);
    assert i == 0 && r == t;
    assert ([LParen] + [RParen]) + s == [LParen] + ([RParen] + s);
  }

  // Reading back unchanged implies being stable.

  lemma {:induction false} ExactPrim(e: Tree, k: seq<Token>)
    requires Named(e) && Proper(Tokens(e, k)) && PrimaryIs(Tokens(e, k), e, k)
    ensures Prim(e)
    decreases e, 1
  {
    hide PrimaryIs, ExprIs, ArgsAre, Proper, IsName, Operand, AllStable, NamedList;
    var ts := Tokens(e, k);
    PrimaryOrigin(ts, e, k);
    ProperAfter(ts, 1);
    match e
    case Lit(_) | Truth(_) | Var(_) | AddrOf(_) | Input =>
    case Bin(l, op, r) => ExactBin(l, op, r, k);
    case Un(op, x) =>
      PrefixToken(op, Tokens(x, k));
      ExactPrim(x, k);
    case Deref(x) =>
      After(Star, Tokens(x, k));
      ExactPrim(x, k);
    case Call(f, args) => ExactCall(f, args, k);
    case Array(items) => ExactArray(items, k);
    case Cast(_, _) | Index(_, _) | Fields(_, _) => NotParen(e, k);
  }

  lemma PrefixToken(op: A.UnOp, k: seq<Token>)
    ensures UnOf(Peek([UnToken(op)] + k)) == Some(op) && ([UnToken(op)] + k)[1..] == k
  {
  }

  lemma NotParen(e: Tree, k: seq<Token>)
    requires Named(e) && (e.Cast? || e.Index? || e.Fields?) && Proper(Tokens(e, k))
    ensures !PrimaryIs(Tokens(e, k), e, k)
  {
    hide PrimaryIs, ExprIs, Proper, Tokens, Named, Ends;
    var ts := Tokens(e, k);
    TokensTrail(e, k);
    assert Trail(e) + k == k;
    if PrimaryIs(ts, e, k) {
      PrimaryOrigin(ts, e, k);
      ProperAfter(ts, 1);
      ExprEnds(ts[1..], e, [RParen] + k);
      OneEnd(ts, k);
      assert false;
    }
  }

  lemma OneEnd(ts: seq<Token>, k: seq<Token>)
    requires ts != [] && Ends(ts[1..], [RParen] + k)
    ensures !WordBefore(ts, k)
  {
    assert ts[|ts| - |k| - 1] == ([RParen] + k)[0];
  }

  lemma {:induction false} ExactBin(l: Tree, op: A.BinOp, r: Tree, k: seq<Token>)
    requires var e := Bin(l, op, r); Named(e) && Proper(Tokens(e, k)) && PrimaryIs(Tokens(e, k), e, k)
    ensures Operand(l) && Operand(r)
    decreases Bin(l, op, r), 0
  {
    hide PrimaryIs, ExprIs, LadderIs, UnaryIs, Proper, Part, Good, Operand, Words;
    var e := Bin(l, op, r);
    var u := [RParen] + k;
    var s := [OpToken(op)] + Tokens(r, u);
    var v := Tokens(l, s);
    PrimaryOrigin(Tokens(e, k), e, k);
    After(LParen, v);
    ProperAfter(Tokens(e, k), 1);
    BinExpr(v, e, u);
    var m, mid := BinDepth(v, 8, e, u);
    TokensGood(l, s);
    GoodIsPart(v, l, s);
    OpSpeaks(op);
    SameRest(v, Words(l), m, [OpToken(op)] + mid, 0, s);
    After(OpToken(op), mid);
    After(OpToken(op), Tokens(r, u));
    GoodRest(v, l, s);
    ProperAfter(s, 1);
    LadderOrigin(mid, LevelOf(op) - 1, r, u);
    ExactLadder(r, u, LevelOf(op) - 1);
    ExactLadder(l, s, LevelOf(op));
  }

  lemma OpSpeaks(op: A.BinOp)
    ensures !Silent(OpToken(op))
  {
  }

  /** The account of a printed binary operation up to its operator: one parenthesis is open. */
  lemma BinTokens(l: Tree, op: A.BinOp, r: Tree, k: seq<Token>)
    ensures Tokens(Bin(l, op, r), k) == [LParen] + Tokens(l, [OpToken(op)] + Tokens(r, [RParen] + k))
  {
    hide OpToken;
  }

  lemma BinPart(l: Tree, op: A.BinOp, r: Tree, k: seq<Token>)
    requires Named(l)
    ensures Part(Tokens(Bin(l, op, r), k), Words(l), 1, [OpToken(op)] + Tokens(r, [RParen] + k))
  {
    hide Part, Good, Words, Named, Tokens, OpToken;
    var s := [OpToken(op)] + Tokens(r, [RParen] + k);
    BinTokens(l, op, r, k);
    TokensGood(l, s);
    GoodIsPart(Tokens(l, s), l, s);
    OneToken(LParen, Tokens(l, s));
    Joined([LParen] + Tokens(l, s), [], 1, Tokens(l, s), Words(l), 0, s);
    assert [] + Words(l) == Words(l);
  }

  /** A printed binary operation is read through its own parentheses. */
  lemma LadderOfBin(e: Tree, k: seq<Token>, level: nat)
    requires level <= 8 && e.Bin? && Named(e) && Proper(Tokens(e, k)) && FromLadder(Tokens(e, k), level, e, k)
    ensures PrimaryIs(Tokens(e, k), e, k)
  {
    hide PrimaryIs, Proper, Part, Words, LadderIs, UnaryIs, Tokens;
    var ts := Tokens(e, k);
    var m, mid := BinDepth(ts, level, e, k);
    BinPart(e.left, e.op, e.right, k);
    OpSpeaks(e.op);
    SameRest(ts, Words(e.left), m, [OpToken(e.op)] + mid, 1, [OpToken(e.op)] + Tokens(e.right, [RParen] + k));
  }

  lemma {:induction false} ExactLadder(e: Tree, k: seq<Token>, level: nat)
    requires level <= 8 && Named(e) && Proper(Tokens(e, k)) && FromLadder(Tokens(e, k), level, e, k)
    ensures Operand(e)
    decreases e, 4
  {
    hide PrimaryIs, LadderIs, UnaryIs, Proper, Tokens, Named;
    if e.Bin? {
      LadderOfBin(e, k, level);
      ExactPrim(e, k);
    } else {
      ExactUnary(e, k);
    }
  }

  lemma {:induction false} ExactUnary(e: Tree, k: seq<Token>)
    requires Named(e) && Proper(Tokens(e, k)) && UnaryIs(Tokens(e, k), e, k)
    ensures Operand(e)
    decreases e, 3
  {
    hide UnaryIs, PostfixIs, Proper, IsName, Post;
    var ts := Tokens(e, k);
    UnaryOrigin(ts, e, k);
    FirstToken(e, k);
    ProperAfter(ts, 1);
    match e
    case Un(op, x) =>
      PrefixToken(op, Tokens(x, k));
      PostfixOrigin(Tokens(x, k), x, k);
      ExactPost(x, k);
    case Deref(x) =>
      After(Star, Tokens(x, k));
      PostfixOrigin(Tokens(x, k), x, k);
      ExactPost(x, k);
    case _ =>
      PostfixOrigin(ts, e, k);
      ExactPost(e, k);
  }

  lemma {:induction false} ExactPost(e: Tree, k: seq<Token>)
    requires Named(e) && Proper(Tokens(e, k)) && FromPost(Tokens(e, k), e, k)
    ensures Post(e)
    decreases e, 2
  {
    hide PrimaryIs, ExprIs, Proper, Part, Good, Stable, Words, IsName;
    var ts := Tokens(e, k);
    if PrimaryIs(ts, e, k) {
      ExactPrim(e, k);
    } else if e.Index? {
      var u :| ExprIs(u, e.at, [RBracket] + k) && FromPost(ts, e.base, [LBracket] + u);
      var v := Tokens(e.at, [RBracket] + k);
      FromPostGood(ts, e.base, [LBracket] + u);
      TokensGood(e.base, [LBracket] + v);
      GoodIsPart(ts, e.base, [LBracket] + u);
      GoodIsPart(ts, e.base, [LBracket] + v);
      SameRest(ts, Words(e.base), 0, [LBracket] + u, 0, [LBracket] + v);
      After(LBracket, u);
      After(LBracket, v);
      ExactPost(e.base, [LBracket] + v);
      GoodRest(ts, e.base, [LBracket] + v);
      ProperAfter([LBracket] + v, 1);
      ExactExpr(e.at, [RBracket] + k);
    } else {
      ExactPost(e.base, TokenNames(e.names, k));
      if e.base.Fields? {
        NotParen(e.base, TokenNames(e.names, k));
      }
    }
  }

  lemma {:induction false} ExactExpr(e: Tree, k: seq<Token>)
    requires Named(e) && Proper(Tokens(e, k)) && ExprIs(Tokens(e, k), e, k)
    ensures Stable(e)
    decreases e, 6
  {
    hide ExprIs, FromCasts, Proper, Stable, Named, Tokens;
    ExprOrigin(Tokens(e, k), e, k);
    ExactCasts(e, k);
  }

  lemma {:induction false} ExactCasts(e: Tree, k: seq<Token>)
    requires Named(e) && Proper(Tokens(e, k)) && FromCasts(Tokens(e, k), e, k)
    ensures Stable(e)
    decreases e, 5
  {
    hide LadderIs, Proper, IsName, UnaryIs, Operand;
    if LadderIs(Tokens(e, k), 8, e, k) {
      LadderOrigin(Tokens(e, k), 8, e, k);
      ExactLadder(e, k, 8);
      OperandIsStable(e);
    } else {
      ExactCasts(e.arg, [As] + ([TargetToken(e.target)] + k));
    }
  }

  lemma OperandIsStable(e: Tree)
    requires Operand(e)
    ensures Stable(e)
  {
    assert e.Cast? ==> !Prim(e) && !Post(e);
  }

  // Lists.

  lemma ArgsOrigin(ts: seq<Token>, es: seq<Tree>, k: seq<Token>) returns (r: seq<Token>, u: seq<Token>)
    requires ArgsAre(ts, es, k) && Begins(Peek(ts))
    ensures es != [] && ExprIs(ts, es[0], r) && ArgsAre(u, es[1..], k)
    ensures r == if Peek(r) == Comma then [Comma] + u else u
  {
    hide Expr;
    var p := Expr(ts).value;
    r := p.rest;
    u := if Peek(r) == Comma then r[1..] else r;
    if Peek(r) == Comma {
      Split(r);
    }
    assert es[1..] == Args(u).value.trees;
  }

  lemma NoArgs(ts: seq<Token>, k: seq<Token>)
    requires ArgsAre(ts, [], k)
    ensures ts == k
  {
    hide Expr;
  }

  lemma {:induction false} ExactCall(f: string, args: seq<Tree>, k: seq<Token>)
    requires var e := Call(f, args); Named(e) && Proper(Tokens(e, k)) && PrimaryIs(Tokens(e, k), e, k)
    ensures AllStable(args)
    decreases Call(f, args), 0, 0
  {
    hide PrimaryIs, ArgsAre, Proper, IsName, AllStable, NamedList;
    var ts := Tokens(Call(f, args), k);
    var u := TokenList(args, [RParen] + k);
    PrimaryOrigin(ts, Call(f, args), k);
    After(Ident(f), [LParen] + u);
    assert ts[2..] == u;
    ProperAfter(ts, 2);
    ExactArgs(args, k);
  }

  lemma {:induction false} ExactArgs(es: seq<Tree>, k: seq<Token>)
    requires var u := [RParen] + k;
             NamedList(es) && Proper(TokenList(es, u)) && ArgsAre(TokenList(es, u), es, u)
    ensures AllStable(es)
    decreases es, |es|
  {
    hide ExprIs, ArgsAre, Proper, Stable, Named, Tokens, Good, Part, Run;
    var u := [RParen] + k;
    var ts := TokenList(es, u);
    if |es| == 1 {
      FirstToken(es[0], u);
      var r, v := ArgsOrigin(ts, es, u);
      NoArgs(v, u);
      LastItem(es[0], RParen, k, r);
      ExactExpr(es[0], u);
      assert es[1..] == [];
    } else if es != [] {
      var w := TokenList(es[1..], u);
      FirstToken(es[0], [Comma] + w);
      var r, v := ArgsOrigin(ts, es, u);
      SplitList(es, u, r);
      ExactExpr(es[0], [Comma] + w);
      After(Comma, v);
      After(Comma, w);
      TokensGood(es[0], [Comma] + w);
      GoodRest(ts, es[0], [Comma] + w);
      ProperAfter([Comma] + w, 1);
      ExactArgs(es[1..], k);
    }
  }

  /** The last item of a list is not read past its end. */
  lemma LastItem(a: Tree, t: Token, k: seq<Token>, r: seq<Token>)
    requires Named(a) && Proper(Tokens(a, [t] + k)) && ExprIs(Tokens(a, [t] + k), a, r)
    requires r == [t] + k || r == [Comma] + ([t] + k)
    ensures r == [t] + k
  {
    hide ExprIs, Tokens, Proper, Strip, Excess, Words;
    var ts := Tokens(a, [t] + k);
    IsGood(ts, 0, a, r);
    TokensGood(a, [t] + k);
    assert ts[|ts| - |r|..][0] == r[0];
  }

  lemma SplitList(es: seq<Tree>, k: seq<Token>, r: seq<Token>)
    requires |es| >= 2 && NamedList(es) && Proper(TokenList(es, k)) && ExprIs(TokenList(es, k), es[0], r)
    ensures r == [Comma] + TokenList(es[1..], k)
  {
    hide ExprIs, Proper, Named, Tokens;
    if |es| == 2 {
      SplitComma(es[0], es[1], k, r);
    } else {
      SplitComma(es[0], es[1], [Comma] + TokenList(es[1..][1..], k), r);
    }
  }

  lemma {:induction false} ExactArray(items: seq<Tree>, k: seq<Token>)
    requires var e := Array(items); Named(e) && Proper(Tokens(e, k)) && PrimaryIs(Tokens(e, k), e, k)
    ensures items != [] && AllStable(items)
    decreases Array(items), 0, 0
  {
    hide PrimaryIs, ExprIs, ItemsAre, Proper, IsName, AllStable, NamedList;
    var ts := Tokens(Array(items), k);
    var u := TokenList(items, [RBracket] + k);
    PrimaryOrigin(ts, Array(items), k);
    After(LBracket, u);
    ProperAfter(ts, 1);
    var mid :| ExprIs(u, items[0], mid) && ItemsAre(mid, items[1..], [RBracket] + k);
    ExactItems(items, k, mid);
  }

  lemma ItemsOrigin(ts: seq<Token>, es: seq<Tree>, k: seq<Token>) returns (r: seq<Token>)
    requires ItemsAre(ts, es, k)
    ensures if es == [] then ts == k || ts == [Comma] + k
            else Peek(ts) == Comma && ExprIs(ts[1..], es[0], r) && ItemsAre(r, es[1..], k)
  {
    hide Expr;
    r := [];
    if Peek(ts) == Comma {
      Split(ts);
      if es != [] {
        var p := Expr(ts[1..]).value;
        r := p.rest;
        assert es[1..] == Items(r).value.trees;
      }
    }
  }

  lemma {:induction false} ExactItems(es: seq<Tree>, k: seq<Token>, r: seq<Token>)
    requires es != [] && NamedList(es)
    requires var u := [RBracket] + k; Proper(TokenList(es, u)) && ExprIs(TokenList(es, u), es[0], r)
                                      && ItemsAre(r, es[1..], u)
    ensures AllStable(es)
    decreases es, |es|
  {
    hide ExprIs, ItemsAre, Proper, Stable, Named, Tokens, Good, Part, Run;
    var u := [RBracket] + k;
    var v := ItemsOrigin(r, es[1..], u);
    if |es| == 1 {
      LastItem(es[0], RBracket, k, r);
      ExactExpr(es[0], u);
    } else {
      var w := TokenList(es[1..], u);
      SplitList(es, u, r);
      ExactExpr(es[0], [Comma] + w);
      After(Comma, w);
      TokensGood(es[0], [Comma] + w);
      GoodRest(TokenList(es, u), es[0], [Comma] + w);
      ProperAfter([Comma] + w, 1);
      ExactItems(es[1..], k, v);
    }
  }
}
