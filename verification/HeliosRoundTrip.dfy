/** Printing an expression and reading the text again. */
module HeliosRoundTrip {
  import opened Bits
  import opened Wrappers
  import A = HeliosAst
  import opened HeliosLexer
  import opened HeliosFormat
  import opened HeliosReading
  import opened HeliosParser
  import opened HeliosStable
  import opened HeliosAccounts
  import opened HeliosExact

  /** The number of literals i32::MIN, whose printed digits are no digits. */
  function Mins(e: Tree): nat
    decreases e, 0
  {
    match e
    case Lit(n) => if n == A.MIN_I32 then 1 else 0
    case Truth(_) | Var(_) | AddrOf(_) | Input => 0
    case Bin(l, _, r) => Mins(l) + Mins(r)
    case Un(_, x) => Mins(x)
    case Deref(x) => Mins(x)
    case Call(_, args) => MinsIn(args)
    case Cast(x, _) => Mins(x)
    case Array(items) => MinsIn(items)
    case Index(b, i) => Mins(b) + Mins(i)
    case Fields(b, _) => Mins(b)
  }

  function MinsIn(es: seq<Tree>): nat
    decreases es, |es|
  {
    if es == [] then 0 else Mins(es[0]) + MinsIn(es[1..])
  }

  /** The number of negations printed directly in front of a digit, which the lexer reads as one number. */
  function Merges(e: Tree): nat
    decreases e, 0
  {
    match e
    case Lit(_) | Truth(_) | Var(_) | AddrOf(_) | Input => 0
    case Bin(l, _, r) => Merges(l) + Merges(r)
    case Un(op, x) => (if op == A.Neg && StartsDigit(x) then 1 else 0) + Merges(x)
    case Deref(x) => Merges(x)
    case Call(_, args) => MergesIn(args)
    case Cast(x, _) => Merges(x)
    case Array(items) => MergesIn(items)
    case Index(b, i) => Merges(b) + Merges(i)
    case Fields(b, _) => Merges(b)
  }

  function MergesIn(es: seq<Tree>): nat
    decreases es, |es|
  {
    if es == [] then 0 else Merges(es[0]) + MergesIn(es[1..])
  }

  // Without those, the text reads as the tokens of the expression.

  lemma {:induction false} LexedIsTokens(e: Tree, k: seq<Token>)
    requires Mins(e) == 0 && Merges(e) == 0
    ensures Lexed(e, k) == Tokens(e, k)
    decreases e, 0
  {
    match e
    case Lit(_) | Truth(_) | Var(_) | AddrOf(_) | Input =>
    case Bin(l, op, r) =>
      LexedIsTokens(r, [RParen] + k);
      LexedIsTokens(l, [OpToken(op)] + Tokens(r, [RParen] + k));
    case Un(_, x) => LexedIsTokens(x, k);
    case Deref(x) => LexedIsTokens(x, k);
    case Call(_, args) => LexedIsTokenList(args, [RParen] + k);
    case Cast(x, t) => LexedIsTokens(x, [As] + ([TargetToken(t)] + k));
    case Array(items) => LexedIsTokenList(items, [RBracket] + k);
    case Index(b, i) =>
      LexedIsTokens(i, [RBracket] + k);
      LexedIsTokens(b, [LBracket] + Tokens(i, [RBracket] + k));
    case Fields(b, fs) => LexedIsTokens(b, TokenNames(fs, k));
  }

  lemma {:induction false} LexedIsTokenList(es: seq<Tree>, k: seq<Token>)
    requires MinsIn(es) == 0 && MergesIn(es) == 0
    ensures LexedList(es, k) == TokenList(es, k)
    decreases es, |es|
  {
    hide Lexed, Tokens, Mins, Merges;
    if |es| == 1 {
      LexedIsTokens(es[0], k);
    } else if |es| > 1 {
      LexedIsTokenList(es[1..], k);
      LexedIsTokens(es[0], [Comma] + TokenList(es[1..], k));
    }
  }

  // With one of them, numbers or words are missing from the tokens.

  function Ints(ts: seq<Token>): nat {
    if ts == [] then 0 else (if ts[0].IntLit? then 1 else 0) + Ints(ts[1..])
  }

  lemma {:induction false} IntsCat(a: seq<Token>, b: seq<Token>)
    ensures Ints(a + b) == Ints(a) + Ints(b)
  {
    if a == [] {
      assert a + b == b;
    } else {
      assert (a + b)[1..] == a[1..] + b;
      IntsCat(a[1..], b);
    }
  }

  lemma {:induction false} IntsStrip(ts: seq<Token>)
    ensures Ints(Strip(ts)) == Ints(ts)
  {
    if ts != [] {
      IntsStrip(ts[1..]);
      IntsCat(if Silent(ts[0]) then [] else [ts[0]], Strip(ts[1..]));
    }
  }

  /** Compared with v, the tokens u lack m number literals and n words. */
  predicate Lacks(u: seq<Token>, m: int, n: int, v: seq<Token>) {
    Ints(u) + m == Ints(v) && |Strip(u)| + n == |Strip(v)|
  }

  lemma LacksUnder(t: Token, u: seq<Token>, m: int, n: int, v: seq<Token>)
    requires Lacks(u, m, n, v)
    ensures Lacks([t] + u, m, n, [t] + v)
  {
    assert ([t] + u)[1..] == u && ([t] + v)[1..] == v;
  }

  /** A token that is missing. */
  lemma LacksToken(t: Token, u: seq<Token>, m: int, n: int, v: seq<Token>)
    requires Lacks(u, m, n, v)
    ensures Lacks(u, m + (if t.IntLit? then 1 else 0), n + (if Silent(t) then 0 else 1), [t] + v)
    ensures Lacks([t] + u, m - (if t.IntLit? then 1 else 0), n - (if Silent(t) then 0 else 1), v)
  {
    assert ([t] + u)[1..] == u && ([t] + v)[1..] == v;
  }

  /** Additional tokens in front. */
  lemma LacksMore(ts: seq<Token>, u: seq<Token>, m: int, n: int, v: seq<Token>)
    requires Lacks(u, m, n, v) && |ts| == 2
    requires !ts[0].IntLit? && !ts[1].IntLit?
    ensures Lacks([ts[0]] + ([ts[1]] + u), m, n - (if Silent(ts[0]) then 0 else 1) - (if Silent(ts[1]) then 0 else 1), v)
  {
    hide Lacks;
    LacksToken(ts[1], u, m, n, v);
    LacksToken(ts[0], [ts[1]] + u, m, n - (if Silent(ts[1]) then 0 else 1), v);
  }

  lemma LacksMin(u: seq<Token>, m: int, n: int, v: seq<Token>)
    requires Lacks(u, m, n, v)
    ensures Lacks(MinTokens(u), m + 1, n - 4, [IntLit(A.MIN_I32)] + v)
  {
    hide Lacks;
    var w := [IntLit(A.MIN_I32)] + v;
    LacksToken(IntLit(A.MIN_I32), u, m, n, v);
    LacksMore([Comma, LParen], u, m + 1, n + 1, w);
    var u2 := [Comma] + ([LParen] + u);
    LacksMore([Minus, Star], u2, m + 1, n + 1, w);
    var u4 := [Minus] + ([Star] + u2);
    LacksMore([Comma, LParen], u4, m + 1, n - 1, w);
    var u6 := [Comma] + ([LParen] + u4);
    LacksMore([Comma, RParen], u6, m + 1, n - 1, w);
    var u8 := [Comma] + ([RParen] + u6);
    LacksMore([Dot, Slash], u8, m + 1, n - 1, w);
    LacksToken(Minus, [Dot] + ([Slash] + u8), m + 1, n - 3, w);
  }

  lemma LacksNegation(u: seq<Token>, m: int, n: int, v: seq<Token>)
    requires Lacks(u, m, n, v)
    ensures Lacks(Negated(u), m, n + 1, [Minus] + v)
  {
    LacksToken(Minus, u, m, n, v);
    if u != [] && u[0].IntLit? {
      assert Negated(u)[1..] == u[1..];
    }
  }

  lemma {:induction false} LacksNames(fs: seq<string>, u: seq<Token>, m: int, n: int, v: seq<Token>)
    requires Lacks(u, m, n, v)
    ensures Lacks(TokenNames(fs, u), m, n, TokenNames(fs, v))
  {
    hide Lacks;
    if fs != [] {
      LacksNames(fs[1..], u, m, n, v);
      LacksUnder(Ident(fs[0]), TokenNames(fs[1..], u), m, n, TokenNames(fs[1..], v));
      LacksUnder(Dot, [Ident(fs[0])] + TokenNames(fs[1..], u), m, n, [Ident(fs[0])] + TokenNames(fs[1..], v));
    }
  }

  /** How many, compared with the tokens the expression should read as. */
  lemma {:induction false} LexedLacks(e: Tree, u: seq<Token>, m: int, n: int, v: seq<Token>)
    requires Lacks(u, m, n, v)
    ensures Lacks(Lexed(e, u), m + Mins(e), n + Merges(e) - 4 * Mins(e), Tokens(e, v))
    decreases e, 0
  {
    hide Lacks, StartsDigit, Negated;
    match e
    case Lit(k) =>
      LacksUnder(IntLit(k), u, m, n, v);
      LacksMin(u, m, n, v);
    case Truth(b) => LacksUnder(BoolLit(b), u, m, n, v);
    case Var(x) => LacksUnder(Ident(x), u, m, n, v);
    case AddrOf(x) =>
      LacksUnder(Ident(x), u, m, n, v);
      LacksUnder(Amp, [Ident(x)] + u, m, n, [Ident(x)] + v);
    case Input =>
      LacksUnder(RParen, u, m, n, v);
      LacksUnder(LParen, [RParen] + u, m, n, [RParen] + v);
      LacksUnder(Token.Input, [LParen] + ([RParen] + u), m, n, [LParen] + ([RParen] + v));
    case Bin(l, op, r) => BinLacks(l, op, r, u, m, n, v);
    case Un(op, x) =>
      LexedLacks(x, u, m, n, v);
      var d := n + Merges(x) - 4 * Mins(x);
      LacksUnder(UnToken(op), Lexed(x, u), m + Mins(x), d, Tokens(x, v));
      LacksNegation(Lexed(x, u), m + Mins(x), d, Tokens(x, v));
    case Deref(x) =>
      LexedLacks(x, u, m, n, v);
      LacksUnder(Star, Lexed(x, u), m + Mins(x), n + Merges(x) - 4 * Mins(x), Tokens(x, v));
    case Call(f, args) =>
      LacksUnder(RParen, u, m, n, v);
      var a, b := LexedList(args, [RParen] + u), TokenList(args, [RParen] + v);
      var d := n + MergesIn(args) - 4 * MinsIn(args);
      LexedListLacks(args, [RParen] + u, m, n, [RParen] + v);
      LacksUnder(LParen, a, m + MinsIn(args), d, b);
      LacksUnder(Ident(f), [LParen] + a, m + MinsIn(args), d, [LParen] + b);
    case Cast(x, t) =>
      LacksUnder(TargetToken(t), u, m, n, v);
      LacksUnder(As, [TargetToken(t)] + u, m, n, [TargetToken(t)] + v);
      LexedLacks(x, [As] + ([TargetToken(t)] + u), m, n, [As] + ([TargetToken(t)] + v));
    case Array(items) =>
      LacksUnder(RBracket, u, m, n, v);
      LexedListLacks(items, [RBracket] + u, m, n, [RBracket] + v);
      LacksUnder(LBracket, LexedList(items, [RBracket] + u), m + MinsIn(items),
                 n + MergesIn(items) - 4 * MinsIn(items), TokenList(items, [RBracket] + v));
    case Index(b, i) => IndexLacks(b, i, u, m, n, v);
    case Fields(b, fs) =>
      LacksNames(fs, u, m, n, v);
      LexedLacks(b, TokenNames(fs, u), m, n, TokenNames(fs, v));
  }

  lemma {:induction false} BinLacks(l: Tree, op: A.BinOp, r: Tree, u: seq<Token>, m: int, n: int, v: seq<Token>)
    requires Lacks(u, m, n, v)
    ensures var e := Bin(l, op, r); Lacks(Lexed(e, u), m + Mins(e), n + Merges(e) - 4 * Mins(e), Tokens(e, v))
    decreases Bin(l, op, r), 0, 0
  {
    hide Lacks;
    LacksUnder(RParen, u, m, n, v);
    LexedLacks(r, [RParen] + u, m, n, [RParen] + v);
    var a, b := Lexed(r, [RParen] + u), Tokens(r, [RParen] + v);
    var p, q := m + Mins(r), n + Merges(r) - 4 * Mins(r);
    LacksUnder(OpToken(op), a, p, q, b);
    LexedLacks(l, [OpToken(op)] + a, p, q, [OpToken(op)] + b);
    LacksUnder(LParen, Lexed(l, [OpToken(op)] + a), p + Mins(l), q + Merges(l) - 4 * Mins(l),
               Tokens(l, [OpToken(op)] + b));
  }

  lemma {:induction false} IndexLacks(b: Tree, i: Tree, u: seq<Token>, m: int, n: int, v: seq<Token>)
    requires Lacks(u, m, n, v)
    ensures var e := Index(b, i); Lacks(Lexed(e, u), m + Mins(e), n + Merges(e) - 4 * Mins(e), Tokens(e, v))
    decreases Index(b, i), 0, 0
  {
    hide Lacks;
    LacksUnder(RBracket, u, m, n, v);
    LexedLacks(i, [RBracket] + u, m, n, [RBracket] + v);
    var p, q := m + Mins(i), n + Merges(i) - 4 * Mins(i);
    LacksUnder(LBracket, Lexed(i, [RBracket] + u), p, q, Tokens(i, [RBracket] + v));
    LexedLacks(b, [LBracket] + Lexed(i, [RBracket] + u), p, q, [LBracket] + Tokens(i, [RBracket] + v));
  }

  lemma {:induction false} LexedListLacks(es: seq<Tree>, u: seq<Token>, m: int, n: int, v: seq<Token>)
    requires Lacks(u, m, n, v)
    ensures Lacks(LexedList(es, u), m + MinsIn(es), n + MergesIn(es) - 4 * MinsIn(es), TokenList(es, v))
    decreases es, |es|
  {
    hide Lacks, Lexed, Tokens, Mins, Merges;
    if es == [] {
    } else if |es| == 1 {
      assert MinsIn(es[1..]) == 0 && MergesIn(es[1..]) == 0;
      LexedLacks(es[0], u, m, n, v);
    } else {
      LexedListLacks(es[1..], u, m, n, v);
      var p, q := m + MinsIn(es[1..]), n + MergesIn(es[1..]) - 4 * MinsIn(es[1..]);
      var a, b := LexedList(es[1..], u), TokenList(es[1..], v);
      LacksUnder(Comma, a, p, q, b);
      LexedLacks(es[0], [Comma] + a, p, q, [Comma] + b);
    }
  }

  // Casts in the tokens read name their target.

  predicate CastsNamed(ts: seq<Token>) {
    Proper(ts) && ts != []
  }

  lemma CastsNamedToken(t: Token, k: seq<Token>)
    requires CastsNamed(k) && t != As
    ensures CastsNamed([t] + k)
  {
    assert forall i :: 1 <= i < |[t] + k| ==> ([t] + k)[i] == k[i - 1];
  }

  lemma CastsNamedCast(t: A.CastTarget, k: seq<Token>)
    requires CastsNamed(k)
    ensures CastsNamed([As] + ([TargetToken(t)] + k))
  {
    CastsNamedToken(TargetToken(t), k);
    var u := [TargetToken(t)] + k;
    assert forall i :: 1 <= i < |[As] + u| ==> ([As] + u)[i] == u[i - 1];
    assert ([As] + u)[1] == TargetToken(t);
  }

  lemma CastsNamedNegated(ts: seq<Token>)
    requires CastsNamed(ts)
    ensures CastsNamed(Negated(ts))
  {
    assert forall i :: 1 <= i < |ts| ==> Negated(ts)[i] == ts[i];
  }

  lemma {:induction false} CastsNamedNames(fs: seq<string>, k: seq<Token>)
    requires CastsNamed(k)
    ensures CastsNamed(TokenNames(fs, k))
  {
    hide CastsNamed;
    if fs != [] {
      CastsNamedNames(fs[1..], k);
      CastsNamedToken(Ident(fs[0]), TokenNames(fs[1..], k));
      CastsNamedToken(Dot, [Ident(fs[0])] + TokenNames(fs[1..], k));
    }
  }

  lemma CastsNamedMin(k: seq<Token>)
    requires CastsNamed(k)
    ensures CastsNamed(MinTokens(k))
  {
    hide CastsNamed;
    CastsNamedPair(Comma, LParen, k);
    var k2 := [Comma] + ([LParen] + k);
    CastsNamedPair(Minus, Star, k2);
    var k4 := [Minus] + ([Star] + k2);
    CastsNamedPair(Comma, LParen, k4);
    var k6 := [Comma] + ([LParen] + k4);
    CastsNamedPair(Comma, RParen, k6);
    var k8 := [Comma] + ([RParen] + k6);
    CastsNamedPair(Dot, Slash, k8);
    CastsNamedToken(Minus, [Dot] + ([Slash] + k8));
  }

  lemma CastsNamedPair(s: Token, t: Token, k: seq<Token>)
    requires CastsNamed(k) && s != As && t != As
    ensures CastsNamed([s] + ([t] + k))
  {
    hide CastsNamed;
    CastsNamedToken(t, k);
    CastsNamedToken(s, [t] + k);
  }

  lemma {:induction false} CastsNamedLexed(e: Tree, k: seq<Token>)
    requires CastsNamed(k)
    ensures CastsNamed(Lexed(e, k))
    decreases e, 0
  {
    hide CastsNamed, Negated, StartsDigit;
    match e
    case Lit(n) =>
      CastsNamedMin(k);
      CastsNamedToken(IntLit(n), k);
    case Truth(b) => CastsNamedToken(BoolLit(b), k);
    case Var(x) => CastsNamedToken(Ident(x), k);
    case AddrOf(x) => CastsNamedPair(Amp, Ident(x), k);
    case Input =>
      CastsNamedPair(LParen, RParen, k);
      CastsNamedToken(Token.Input, [LParen] + ([RParen] + k));
    case Bin(l, op, r) =>
      CastsNamedToken(RParen, k);
      CastsNamedLexed(r, [RParen] + k);
      CastsNamedToken(OpToken(op), Lexed(r, [RParen] + k));
      CastsNamedLexed(l, [OpToken(op)] + Lexed(r, [RParen] + k));
      CastsNamedToken(LParen, Lexed(l, [OpToken(op)] + Lexed(r, [RParen] + k)));
    case Un(op, x) =>
      CastsNamedLexed(x, k);
      CastsNamedNegated(Lexed(x, k));
      CastsNamedToken(UnToken(op), Lexed(x, k));
    case Deref(x) =>
      CastsNamedLexed(x, k);
      CastsNamedToken(Star, Lexed(x, k));
    case Call(f, args) =>
      CastsNamedToken(RParen, k);
      CastsNamedLexedList(args, [RParen] + k);
      CastsNamedPair(Ident(f), LParen, LexedList(args, [RParen] + k));
    case Cast(x, t) =>
      CastsNamedCast(t, k);
      CastsNamedLexed(x, [As] + ([TargetToken(t)] + k));
    case Array(items) =>
      CastsNamedToken(RBracket, k);
      CastsNamedLexedList(items, [RBracket] + k);
      CastsNamedToken(LBracket, LexedList(items, [RBracket] + k));
    case Index(b, i) =>
      CastsNamedToken(RBracket, k);
      CastsNamedLexed(i, [RBracket] + k);
      CastsNamedToken(LBracket, Lexed(i, [RBracket] + k));
      CastsNamedLexed(b, [LBracket] + Lexed(i, [RBracket] + k));
    case Fields(b, fs) =>
      CastsNamedNames(fs, k);
      CastsNamedLexed(b, TokenNames(fs, k));
  }

  lemma {:induction false} CastsNamedLexedList(es: seq<Tree>, k: seq<Token>)
    requires CastsNamed(k)
    ensures CastsNamed(LexedList(es, k))
    decreases es, |es|
  {
    hide CastsNamed, Lexed;
    if |es| == 1 {
      CastsNamedLexed(es[0], k);
    } else if |es| > 1 {
      CastsNamedLexedList(es[1..], k);
      CastsNamedToken(Comma, LexedList(es[1..], k));
      CastsNamedLexed(es[0], [Comma] + LexedList(es[1..], k));
    }
  }

  // The round trip.

  lemma SameCounts(ts: seq<Token>, us: seq<Token>, e: Tree, k: seq<Token>)
    requires Good(ts, e, k) && Good(us, e, k)
    ensures Ints(ts) == Ints(us) && |Strip(ts)| == |Strip(us)|
  {
    IntsStrip(ts);
    IntsStrip(us);
    assert Strip(ts) == Strip(us);
  }

  /** Two accounts of one expression lack nothing of each other. */
  lemma NothingLacks(e: Tree, ts: seq<Token>, m: int, n: int, us: seq<Token>, k: seq<Token>)
    requires Lacks(ts, m, n, us) && Good(ts, e, k) && Good(us, e, k)
    ensures m == 0 && n == 0
  {
    hide Good;
    SameCounts(ts, us, e, k);
  }

  lemma NoneLack(k: seq<Token>)
    ensures Lacks(k, 0, 0, k)
  {
  }

  lemma LexedProper(e: Tree)
    ensures Proper(Lexed(e, [Eof]))
  {
    CastsNamedLexed(e, [Eof]);
  }

  /** What is read back as e lacks nothing of e. */
  lemma ReadIsWhole(e: Tree)
    requires Named(e) && ExprIs(Lexed(e, [Eof]), e, [Eof])
    ensures Mins(e) == 0 && Merges(e) == 0
  {
    hide ExprIs, Named, Good, Lacks, Proper, StartsDigit, Negated, MinTokens;
    var k := [Eof];
    var ts, us := Lexed(e, k), Tokens(e, k);
    var m, n := Mins(e), Merges(e) - 4 * Mins(e);
    assert Good(ts, e, k) by {
      LexedProper(e);
      IsGood(ts, 0, e, k);
    }
    assert Good(us, e, k) by {
      TokensGood(e, k);
    }
    assert Lacks(ts, m, n, us) by {
      NoneLack(k);
      LexedLacks(e, k, 0, 0, k);
    }
    NothingLacks(e, ts, m, n, us, k);
  }

  lemma ReadsStable(e: Tree)
    requires Named(e) && CastsNamed(Tokens(e, [Eof]))
    ensures ExprIs(Tokens(e, [Eof]), e, [Eof]) <==> Stable(e)
  {
    hide ExprIs, Stable, Tokens, Named;
    if Stable(e) {
      ReadExpr(e, [Eof]);
    } else if ExprIs(Tokens(e, [Eof]), e, [Eof]) {
      ExactExpr(e, [Eof]);
    }
  }

  /** Printing an expression and parsing the text gives the expression back exactly if it has a shape that
      the text shows, no literal i32::MIN, and no negation directly in front of a digit. */
  lemma ParsePrinted(e: Tree)
    requires Named(e)
    ensures ParseText(Text(e, "")) == Some(e) <==> Stable(e) && Mins(e) == 0 && Merges(e) == 0
  {
    hide Text, Lexed, Tokens, Named, Stable, Mins, Merges, Expr;
    var k := [Eof];
    assert Tokenised("") == k;
    LexText(e, "", k);
    assert Lex(Text(e, "")) == Tokenised(Text(e, ""));
    assert ParseText(Text(e, "")) == Some(e) <==> ExprIs(Lexed(e, k), e, k);
    if ExprIs(Lexed(e, k), e, k) {
      ReadIsWhole(e);
    }
    if Mins(e) == 0 && Merges(e) == 0 {
      LexedIsTokens(e, k);
      CastsNamedLexed(e, k);
      ReadsStable(e);
    }
  }
}
