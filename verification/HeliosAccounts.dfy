/** What the expression parser keeps of its tokens: everything except parentheses and commas appears in the
    tree, in order, and the parentheses it consumes match. */
module HeliosAccounts {
  import opened Wrappers
  import A = HeliosAst
  import opened HeliosLexer
  import opened HeliosFormat
  import opened HeliosParser
  import opened HeliosStable

  predicate Silent(t: Token) {
    t == LParen || t == RParen || t == Comma
  }

  /** The tokens other than parentheses and commas. */
  function Strip(ts: seq<Token>): seq<Token> {
    if ts == [] then [] else (if Silent(ts[0]) then [] else [ts[0]]) + Strip(ts[1..])
  }

  function Weight(t: Token): int {
    if t == LParen then 1 else if t == RParen then -1 else 0
  }

  /** Opening less closing parentheses. */
  function Excess(ts: seq<Token>): int {
    if ts == [] then 0 else Weight(ts[0]) + Excess(ts[1..])
  }

  lemma {:induction false} StripCat(a: seq<Token>, b: seq<Token>)
    ensures Strip(a + b) == Strip(a) + Strip(b) && Excess(a + b) == Excess(a) + Excess(b)
  {
    if a == [] {
      assert a + b == b;
    } else {
      assert (a + b)[1..] == a[1..] + b;
      StripCat(a[1..], b);
    }
  }

  /** The tokens of an expression other than parentheses and commas. */
  function Words(e: Tree): seq<Token>
    decreases e, 0
  {
    match e
    case Lit(n) => [IntLit(n)]
    case Truth(b) => [BoolLit(b)]
    case Var(x) => [Ident(x)]
    case Bin(l, op, r) => Words(l) + ([OpToken(op)] + Words(r))
    case Un(op, x) => [UnToken(op)] + Words(x)
    case Deref(x) => [Star] + Words(x)
    case Call(f, args) => [Ident(f)] + WordsList(args)
    case Cast(x, t) => Words(x) + ([As] + [TargetToken(t)])
    case Array(items) => [LBracket] + (WordsList(items) + [RBracket])
    case Index(b, i) => Words(b) + ([LBracket] + (Words(i) + [RBracket]))
    case Fields(b, fs) => Words(b) + TokenNames(fs, [])
    case AddrOf(x) => [Amp] + [Ident(x)]
    case Input => [Token.Input]
  }

  function WordsList(es: seq<Tree>): seq<Token>
    decreases es, |es|
  {
    if es == [] then [] else Words(es[0]) + WordsList(es[1..])
  }

  // Stretches of tokens.

  /** The tokens ts begin with a stretch whose words are w and whose parentheses leave n open; k comes after it. */
  predicate Part(ts: seq<Token>, w: seq<Token>, n: int, k: seq<Token>) {
    && |k| <= |ts| && ts[|ts| - |k|..] == k
    && Strip(ts) == w + Strip(k) && Excess(ts) == n + Excess(k)
  }

  /** A nonempty stretch that does not end with a comma, nor with the end of the text. */
  predicate Run(ts: seq<Token>, w: seq<Token>, n: int, k: seq<Token>) {
    Part(ts, w, n, k) && |k| < |ts| && ts[|ts| - |k| - 1] != Comma && ts[|ts| - |k| - 1] != Eof
  }

  lemma OneToken(t: Token, k: seq<Token>)
    ensures Part([t] + k, if Silent(t) then [] else [t], Weight(t), k)
    ensures t != Comma && t != Eof ==> Run([t] + k, if Silent(t) then [] else [t], Weight(t), k)
  {
    After(t, k);
  }

  lemma NoTokens(k: seq<Token>)
    ensures Part(k, [], 0, k)
  {
  }

  lemma Joined(ts: seq<Token>, v: seq<Token>, m: int, mid: seq<Token>, w: seq<Token>, n: int, k: seq<Token>)
    requires Part(ts, v, m, mid)
    ensures Part(mid, w, n, k) ==> Part(ts, v + w, m + n, k)
    ensures Run(mid, w, n, k) ==> Run(ts, v + w, m + n, k)
  {
    hide Strip, Excess;
    if Part(mid, w, n, k) {
      assert ts[|ts| - |k|..] == mid[|mid| - |k|..];
      assert Strip(ts) == v + (w + Strip(k)) == (v + w) + Strip(k);
      assert |k| < |mid| ==> ts[|ts| - |k| - 1] == mid[|mid| - |k| - 1];
    }
  }

  lemma RunIsPart(ts: seq<Token>, w: seq<Token>, n: int, k: seq<Token>)
    ensures Run(ts, w, n, k) ==> Part(ts, w, n, k) && |k| < |ts|
  {
  }

  predicate Good(ts: seq<Token>, e: Tree, k: seq<Token>) {
    Run(ts, Words(e), 0, k)
  }

  /** Every cast names its target, as printed casts do. */
  predicate Proper(ts: seq<Token>) {
    forall i {:trigger ts[i]} :: 0 <= i < |ts| && ts[i] == As ==>
      i + 2 < |ts| && (ts[i + 1] == TInt || ts[i + 1] == TBool)
  }

  lemma ProperRest(ts: seq<Token>, w: seq<Token>, n: int, k: seq<Token>)
    requires Proper(ts) && Part(ts, w, n, k)
    ensures Proper(k)
  {
    var d := |ts| - |k|;
    forall i | 0 <= i < |k| && k[i] == As
      ensures i + 2 < |k| && (k[i + 1] == TInt || k[i + 1] == TBool)
    {
      assert ts[d + i] == k[i] && (i + 1 < |k| ==> ts[d + i + 1] == k[i + 1]);
    }
  }

  // Putting stretches together.

  /** Two stretches in a row. */
  lemma Then(ts: seq<Token>, v: seq<Token>, m: int, mid: seq<Token>, w: seq<Token>, n: int, k: seq<Token>)
    requires Run(ts, v, m, mid) || Part(ts, v, m, mid)
    requires Run(mid, w, n, k)
    ensures Run(ts, v + w, m + n, k)
  {
    Joined(ts, v, m, mid, w, n, k);
  }

  lemma TokenThen(t: Token, u: seq<Token>, w: seq<Token>, n: int, k: seq<Token>)
    requires Run(u, w, n, k)
    ensures Run([t] + u, (if Silent(t) then [] else [t]) + w, Weight(t) + n, k)
  {
    OneToken(t, u);
    Then([t] + u, if Silent(t) then [] else [t], Weight(t), u, w, n, k);
  }

  lemma ThenToken(ts: seq<Token>, w: seq<Token>, n: int, t: Token, k: seq<Token>)
    requires Run(ts, w, n, [t] + k) || Part(ts, w, n, [t] + k)
    requires t != Comma && t != Eof
    ensures Run(ts, w + (if Silent(t) then [] else [t]), n + Weight(t), k)
  {
    OneToken(t, k);
    Then(ts, w, n, [t] + k, if Silent(t) then [] else [t], Weight(t), k);
  }

  lemma Split(ts: seq<Token>)
    requires ts != []
    ensures ts == [ts[0]] + ts[1..]
  {
  }

  lemma GoodParen(u: seq<Token>, e: Tree, k: seq<Token>)
    requires Good(u, e, [RParen] + k)
    ensures Good([LParen] + u, e, k)
  {
    hide Run, Words;
    ThenToken(u, Words(e), 0, RParen, k);
    TokenThen(LParen, u, Words(e) + [], -1, k);
    assert [] + (Words(e) + []) == Words(e);
  }

  lemma GoodBin(ts: seq<Token>, l: Tree, op: A.BinOp, mid: seq<Token>, r: Tree, k: seq<Token>)
    requires Good(ts, l, [OpToken(op)] + mid) && Good(mid, r, k)
    ensures Good(ts, Bin(l, op, r), k)
  {
    hide Run;
    TokenThen(OpToken(op), mid, Words(r), 0, k);
    Then(ts, Words(l), 0, [OpToken(op)] + mid, [OpToken(op)] + Words(r), 0, k);
  }

  lemma GoodPrefix(u: seq<Token>, e: Tree, k: seq<Token>, op: A.UnOp)
    requires Good(u, e, k)
    ensures Good([UnToken(op)] + u, Un(op, e), k) && Good([Star] + u, Deref(e), k)
  {
    hide Run;
    TokenThen(UnToken(op), u, Words(e), 0, k);
    TokenThen(Star, u, Words(e), 0, k);
  }

  lemma GoodCast(ts: seq<Token>, e: Tree, t: A.CastTarget, k: seq<Token>)
    requires Good(ts, e, [As] + ([TargetToken(t)] + k))
    ensures Good(ts, Cast(e, t), k)
  {
    hide Run;
    OneToken(TargetToken(t), k);
    TokenThen(As, [TargetToken(t)] + k, [TargetToken(t)], 0, k);
    Then(ts, Words(e), 0, [As] + ([TargetToken(t)] + k), [As] + [TargetToken(t)], 0, k);
  }

  lemma GoodIndex(ts: seq<Token>, b: Tree, u: seq<Token>, i: Tree, k: seq<Token>)
    requires Good(ts, b, [LBracket] + u) && Good(u, i, [RBracket] + k)
    ensures Good(ts, Index(b, i), k)
  {
    hide Run;
    ThenToken(u, Words(i), 0, RBracket, k);
    TokenThen(LBracket, u, Words(i) + [RBracket], 0, k);
    Then(ts, Words(b), 0, [LBracket] + u, [LBracket] + (Words(i) + [RBracket]), 0, k);
  }

  lemma GoodFields(ts: seq<Token>, b: Tree, u: seq<Token>, fs: seq<string>, k: seq<Token>)
    requires Good(ts, b, u) && Run(u, TokenNames(fs, []), 0, k)
    ensures Good(ts, Fields(b, fs), k)
  {
    hide Run;
    Then(ts, Words(b), 0, u, TokenNames(fs, []), 0, k);
  }

  lemma GoodCall(f: string, u: seq<Token>, args: seq<Tree>, k: seq<Token>)
    requires Part(u, WordsList(args), 0, [RParen] + k)
    ensures Good([Ident(f)] + ([LParen] + u), Call(f, args), k)
  {
    hide Run, Part;
    ThenToken(u, WordsList(args), 0, RParen, k);
    TokenThen(LParen, u, WordsList(args) + [], -1, k);
    TokenThen(Ident(f), [LParen] + u, [] + (WordsList(args) + []), 0, k);
    assert [] + (WordsList(args) + []) == WordsList(args);
  }

  lemma GoodArray(u: seq<Token>, e: Tree, mid: seq<Token>, es: seq<Tree>, k: seq<Token>)
    requires Good(u, e, mid) && Part(mid, WordsList(es), 0, [RBracket] + k)
    ensures Good([LBracket] + u, Array([e] + es), k)
  {
    hide Run, Part;
    ThenToken(mid, WordsList(es), 0, RBracket, k);
    Then(u, Words(e), 0, mid, WordsList(es) + [RBracket], 0, k);
    TokenThen(LBracket, u, Words(e) + (WordsList(es) + [RBracket]), 0, k);
    assert ([e] + es)[1..] == es;
    assert Words(e) + (WordsList(es) + [RBracket]) == WordsList([e] + es) + [RBracket];
  }

  lemma ProperAfter(ts: seq<Token>, i: nat)
    requires Proper(ts) && i <= |ts|
    ensures Proper(ts[i..])
  {
    var k := ts[i..];
    forall j | 0 <= j < |k| && k[j] == As
      ensures j + 2 < |k| && (k[j + 1] == TInt || k[j + 1] == TBool)
    {
      assert ts[i + j] == k[j] && (j + 1 < |k| ==> ts[i + j + 1] == k[j + 1]);
    }
  }

  lemma GoodRest(ts: seq<Token>, e: Tree, k: seq<Token>)
    requires Proper(ts) && Good(ts, e, k)
    ensures Proper(k)
  {
    ProperRest(ts, Words(e), 0, k);
  }

  // Every parser function.

  lemma {:induction false} ExprGood(ts: seq<Token>)
    requires Proper(ts) && Expr(ts).Some?
    ensures Good(ts, Expr(ts).value.tree, Expr(ts).value.rest)
    decreases |ts|, 40
  {
    hide Ladder, CastTail, Good, Proper;
    LadderGood(ts, 8);
    var p := Ladder(ts, 8).value;
    GoodRest(ts, p.tree, p.rest);
    CastTailGood(ts, p.tree, p.rest);
  }

  lemma {:induction false} CastTailGood(ts: seq<Token>, e: Tree, k: seq<Token>)
    requires Good(ts, e, k) && Proper(k)
    ensures Good(ts, CastTail(e, k).tree, CastTail(e, k).rest)
    decreases |k|
  {
    hide Good;
    if Peek(k) == As {
      var target := if k[1] == TBool then A.ToBool else A.ToInt;
      assert k[0] == As && 2 < |k|;
      assert k == [As] + ([TargetToken(target)] + k[2..]) && k[1..][1..] == k[2..] && Peek(k[1..]) == k[1];
      GoodCast(ts, e, target, k[2..]);
      ProperAfter(k, 2);
      CastTailGood(ts, Cast(e, target), k[2..]);
    }
  }

  lemma {:induction false} LadderGood(ts: seq<Token>, level: nat)
    requires level <= 8 && Proper(ts) && Ladder(ts, level).Some?
    ensures Good(ts, Ladder(ts, level).value.tree, Ladder(ts, level).value.rest)
    decreases |ts|, 20 + level
  {
    hide Unary, Tail, Good, Proper;
    if level == 0 {
      UnaryGood(ts);
    } else {
      LadderGood(ts, level - 1);
      var p := Ladder(ts, level - 1).value;
      GoodRest(ts, p.tree, p.rest);
      TailGood(ts, p.tree, p.rest, level);
    }
  }

  lemma {:induction false} TailGood(ts: seq<Token>, l: Tree, k: seq<Token>, level: nat)
    requires 1 <= level <= 8 && Good(ts, l, k) && Proper(k) && Tail(l, k, level).Some?
    ensures Good(ts, Tail(l, k, level).value.tree, Tail(l, k, level).value.rest)
    decreases |k|, 0
  {
    hide Ladder, Good, Proper;
    var op := OpAt(level, Peek(k));
    if op.Some? {
      Split(k);
      ProperAfter(k, 1);
      LadderGood(k[1..], level - 1);
      var p := Ladder(k[1..], level - 1).value;
      GoodBin(ts, l, op.value, k[1..], p.tree, p.rest);
      GoodRest(k[1..], p.tree, p.rest);
      TailGood(ts, Bin(l, op.value, p.tree), p.rest, level);
    }
  }

  lemma UnIsToken(t: Token)
    requires UnOf(t).Some?
    ensures UnToken(UnOf(t).value) == t
  {
  }

  lemma {:induction false} UnaryGood(ts: seq<Token>)
    requires Proper(ts) && Unary(ts).Some?
    ensures Good(ts, Unary(ts).value.tree, Unary(ts).value.rest)
    decreases |ts|, 15
  {
    hide Postfix, Good, Proper;
    var t := Peek(ts);
    if UnOf(t).Some? || t == Star {
      Split(ts);
      ProperAfter(ts, 1);
      PostfixGood(ts[1..]);
      var p := Postfix(ts[1..]).value;
      if UnOf(t).Some? {
        UnIsToken(t);
        GoodPrefix(ts[1..], p.tree, p.rest, UnOf(t).value);
      } else {
        GoodPrefix(ts[1..], p.tree, p.rest, A.Neg);
      }
    } else {
      PostfixGood(ts);
    }
  }

  lemma {:induction false} PostfixGood(ts: seq<Token>)
    requires Proper(ts) && Postfix(ts).Some?
    ensures Good(ts, Postfix(ts).value.tree, Postfix(ts).value.rest)
    decreases |ts|, 10
  {
    hide Primary, PostTail, Good, Proper;
    PrimaryGood(ts);
    var p := Primary(ts).value;
    GoodRest(ts, p.tree, p.rest);
    PostTailGood(ts, p.tree, p.rest);
  }

  lemma {:induction false} PostTailGood(ts: seq<Token>, e: Tree, k: seq<Token>)
    requires Good(ts, e, k) && Proper(k) && PostTail(e, k).Some?
    ensures Good(ts, PostTail(e, k).value.tree, PostTail(e, k).value.rest)
    decreases |k|, 0
  {
    hide Expr, Names, Good, Proper;
    if Peek(k) == LBracket {
      Split(k);
      ProperAfter(k, 1);
      ExprGood(k[1..]);
      var p := Expr(k[1..]).value;
      GoodRest(k[1..], p.tree, p.rest);
      Split(p.rest);
      GoodIndex(ts, e, k[1..], p.tree, p.rest[1..]);
      ProperAfter(p.rest, 1);
      PostTailGood(ts, Index(e, p.tree), p.rest[1..]);
    } else if Peek(k) == Dot {
      NamesRun(k);
      var n := Names(k).value;
      RunProper(k, TokenNames(n.names, []), 0, n.rest);
      GoodFields(ts, e, k, n.names, n.rest);
      PostTailGood(ts, Fields(e, n.names), n.rest);
    }
  }

  lemma RunProper(ts: seq<Token>, w: seq<Token>, n: int, k: seq<Token>)
    requires Proper(ts) && Run(ts, w, n, k)
    ensures Proper(k)
  {
    ProperRest(ts, w, n, k);
  }

  lemma {:induction false} NamesRun(ts: seq<Token>)
    requires Peek(ts) == Dot && Names(ts).Some?
    ensures Run(ts, TokenNames(Names(ts).value.names, []), 0, Names(ts).value.rest)
    decreases |ts|
  {
    hide Run, Part, Names;
    FirstName(ts);
    var x, u := ts[1].name, ts[2..];
    var r := Names(u).value;
    var w := TokenNames(r.names, []);
    if Peek(u) == Dot {
      NamesRun(u);
      TokenThen(Ident(x), u, w, 0, r.rest);
    } else {
      NoNames(u);
      OneToken(Ident(x), u);
    }
    TokenThen(Dot, [Ident(x)] + u, [Ident(x)] + w, 0, r.rest);
    assert ([x] + r.names)[1..] == r.names;
  }

  lemma FirstName(ts: seq<Token>)
    requires Peek(ts) == Dot && Names(ts).Some?
    ensures |ts| >= 2 && ts[1].Ident? && ts == [Dot] + ([ts[1]] + ts[2..])
    ensures var r := Names(ts[2..]); r.Some? && Names(ts) == Some(NameList([ts[1].name] + r.value.names, r.value.rest))
  {
    hide Names;
    NamesRound(ts);
    TwoAhead(ts);
  }

  lemma NamesRound(ts: seq<Token>)
    requires Peek(ts) == Dot && Names(ts).Some?
    ensures |ts| >= 2 && ts[1].Ident?
    ensures var r := Names(ts[2..]); r.Some? && Names(ts) == Some(NameList([ts[1].name] + r.value.names, r.value.rest))
  {
  }

  lemma TwoAhead(ts: seq<Token>)
    requires |ts| >= 2
    ensures ts == [ts[0]] + ([ts[1]] + ts[2..])
  {
  }

  lemma {:induction false} PrimaryGood(ts: seq<Token>)
    requires Proper(ts) && Primary(ts).Some?
    ensures Good(ts, Primary(ts).value.tree, Primary(ts).value.rest)
    decreases |ts|, 5
  {
    hide Primary, Good, Proper;
    match Peek(ts)
    case IntLit(_) | BoolLit(_) | Amp | Input => AtomGood(ts);
    case Ident(_) => NamedGood(ts);
    case LParen => GroupGood(ts);
    case LBracket => ArrayGood(ts);
    case Star | Minus | Bang | Tilde => PrefixGood(ts);
    case _ => NoPrimary(ts);
  }

  lemma AtomGood(ts: seq<Token>)
    requires Primary(ts).Some?
    requires var t := Peek(ts); t.IntLit? || t.BoolLit? || t == Amp || t == Token.Input
    ensures Good(ts, Primary(ts).value.tree, Primary(ts).value.rest)
  {
    hide Good, Expr, Args, Items;
    Split(ts);
    var t, u := ts[0], ts[1..];
    GoodAtom(t, u);
    if t == Amp {
      Split(u);
      assert u[1..] == ts[2..];
      GoodAtom(u[0], ts[2..]);
    } else if t == Token.Input && Peek(u) == LParen {
      assert ts == [Token.Input] + ([LParen] + ([RParen] + ts[3..]));
      GoodInput(ts[3..]);
    }
  }

  lemma {:induction false} NamedGood(ts: seq<Token>)
    requires Proper(ts) && Primary(ts).Some? && Peek(ts).Ident?
    ensures Good(ts, Primary(ts).value.tree, Primary(ts).value.rest)
    decreases |ts|, 4
  {
    hide Args, Good, Proper, Part;
    Split(ts);
    var x, u := ts[0].name, ts[1..];
    if Peek(u) == LParen {
      assert u == [LParen] + ts[2..];
      ProperAfter(ts, 2);
      ArgsPart(ts[2..]);
      var a := Args(ts[2..]).value;
      Split(a.rest);
      GoodCall(x, ts[2..], a.trees, a.rest[1..]);
    } else {
      GoodAtom(ts[0], u);
    }
  }

  lemma {:induction false} GroupGood(ts: seq<Token>)
    requires Proper(ts) && Primary(ts).Some? && Peek(ts) == LParen
    ensures Good(ts, Primary(ts).value.tree, Primary(ts).value.rest)
    decreases |ts|, 4
  {
    hide Expr, Primary, Good, Proper;
    AtGroup(ts);
    Split(ts);
    ProperAfter(ts, 1);
    ExprGood(ts[1..]);
    var p := Expr(ts[1..]).value;
    Split(p.rest);
    GoodParen(ts[1..], p.tree, p.rest[1..]);
  }

  lemma {:induction false} PrefixGood(ts: seq<Token>)
    requires Proper(ts) && Primary(ts).Some? && (UnOf(Peek(ts)).Some? || Peek(ts) == Star)
    ensures Good(ts, Primary(ts).value.tree, Primary(ts).value.rest)
    decreases |ts|, 4
  {
    hide Primary, Good, Proper;
    AtPrefix(ts);
    Split(ts);
    ProperAfter(ts, 1);
    var p := Primary(ts[1..]).value;
    PrimaryGood(ts[1..]);
    if ts[0] == Star {
      GoodPrefix(ts[1..], p.tree, p.rest, A.Neg);
    } else {
      UnIsToken(ts[0]);
      GoodPrefix(ts[1..], p.tree, p.rest, UnOf(ts[0]).value);
    }
  }

  lemma {:induction false} ArrayGood(ts: seq<Token>)
    requires Proper(ts) && Primary(ts).Some? && Peek(ts) == LBracket
    ensures Good(ts, Primary(ts).value.tree, Primary(ts).value.rest)
    decreases |ts|, 4
  {
    hide Expr, Items, Primary, Good, Proper, Part;
    AtArray(ts);
    Split(ts);
    ProperAfter(ts, 1);
    var u := ts[1..];
    ExprGood(u);
    var p := Expr(u).value;
    GoodRest(u, p.tree, p.rest);
    ItemsPart(p.rest);
    var i := Items(p.rest).value;
    Split(i.rest);
    GoodArray(u, p.tree, p.rest, i.trees, i.rest[1..]);
  }

  lemma GoodAtom(t: Token, k: seq<Token>)
    ensures t.IntLit? ==> Good([t] + k, Lit(t.n), k)
    ensures t.BoolLit? ==> Good([t] + k, Truth(t.b), k)
    ensures t.Ident? ==> Good([t] + k, Var(t.name), k) && Good([Amp] + ([t] + k), AddrOf(t.name), k)
    ensures t == Token.Input ==> Good([t] + k, Tree.Input, k)
  {
    hide Run, Part;
    OneToken(t, k);
    if t.Ident? {
      TokenThen(Amp, [t] + k, [t], 0, k);
    }
  }

  lemma GoodInput(k: seq<Token>)
    ensures Good([Token.Input] + ([LParen] + ([RParen] + k)), Tree.Input, k)
  {
    hide Run, Part;
    OneToken(RParen, k);
    TokenThen(LParen, [RParen] + k, [], -1, k);
    TokenThen(Token.Input, [LParen] + ([RParen] + k), [] + [], 0, k);
    assert [Token.Input] + ([] + []) == Words(Tree.Input);
  }

  lemma {:induction false} ArgsPart(ts: seq<Token>)
    requires Proper(ts) && Args(ts).Some?
    ensures Part(ts, WordsList(Args(ts).value.trees), 0, Args(ts).value.rest)
    decreases |ts|, 50
  {
    hide Expr, Good, Proper, Part;
    if Peek(ts) == RParen || Peek(ts) == Eof {
      NoTokens(ts);
    } else {
      ExprGood(ts);
      var p := Expr(ts).value;
      GoodRest(ts, p.tree, p.rest);
      var u := if Peek(p.rest) == Comma then p.rest[1..] else p.rest;
      if Peek(p.rest) == Comma {
        ProperAfter(p.rest, 1);
      }
      ArgsPart(u);
      MoreArgs(ts, p.tree, p.rest, u, Args(u).value.trees, Args(u).value.rest);
    }
  }

  lemma MoreArgs(ts: seq<Token>, e: Tree, mid: seq<Token>, u: seq<Token>, es: seq<Tree>, k: seq<Token>)
    requires Good(ts, e, mid) && (mid == u || (Peek(mid) == Comma && mid[1..] == u)) && Part(u, WordsList(es), 0, k)
    ensures Part(ts, WordsList([e] + es), 0, k)
  {
    hide Part;
    RunIsPart(ts, Words(e), 0, mid);
    NoTokens(mid);
    if mid != u {
      Split(mid);
      OneToken(Comma, u);
    }
    Joined(mid, [], 0, u, WordsList(es), 0, k);
    Joined(ts, Words(e), 0, mid, [] + WordsList(es), 0, k);
    assert [] + WordsList(es) == WordsList(es) && ([e] + es)[1..] == es;
  }

  lemma {:induction false} ItemsPart(ts: seq<Token>)
    requires Proper(ts) && Items(ts).Some?
    ensures Part(ts, WordsList(Items(ts).value.trees), 0, Items(ts).value.rest)
    decreases |ts|, 0
  {
    hide Expr, Good, Proper, Part;
    NoTokens(ts);
    if Peek(ts) == Comma {
      Split(ts);
      OneToken(Comma, ts[1..]);
      if Peek(ts[1..]) != RBracket {
        ProperAfter(ts, 1);
        ExprGood(ts[1..]);
        var p := Expr(ts[1..]).value;
        GoodRest(ts[1..], p.tree, p.rest);
        ItemsPart(p.rest);
        var i := Items(p.rest).value;
        MoreArgs(ts[1..], p.tree, p.rest, p.rest, i.trees, i.rest);
        Joined(ts, [], 0, ts[1..], WordsList([p.tree] + i.trees), 0, i.rest);
        assert [] + WordsList([p.tree] + i.trees) == WordsList([p.tree] + i.trees);
      }
    }
  }
}
