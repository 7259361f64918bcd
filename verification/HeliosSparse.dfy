/**
 * Writing expressions with few parentheses. The operator groups, spellings and the places that take an expression
 * without parentheses are written out here on their own, so that reading such a text back says what binds tighter
 * than what.
 */
module HeliosSparse {
  import opened Bits
  import opened Wrappers
  import A = HeliosAst
  import opened HeliosLexer
  import opened HeliosFormat
  import opened HeliosReading

  /** The groups of binary operators, counted from the tightest one. */
  function Group(op: A.BinOp): (g: nat)
    ensures g < 8
  {
    if op in {A.Mul, A.Div, A.Mod} then 0
    else if op in {A.Add, A.Sub} then 1
    else if op in {A.Shl, A.Shr} then 2
    else if op == A.BAnd then 3
    else if op == A.BXor then 4
    else if op == A.BOr then 5
    else if op in {A.Eq, A.Ne, A.Lt, A.Le, A.Gt, A.Ge} then 6
    else 7
  }

  /** Whether the first operator binds tighter than the second. */
  predicate Tighter(a: A.BinOp, b: A.BinOp) {
    Group(a) < Group(b)
  }

  function Spelled(op: A.BinOp): string {
    match op
    case Mul => "*" case Div => "/" case Mod => "%" case Add => "+" case Sub => "-" case Shl => "<<" case Shr => ">>"
    case BAnd => "&" case BXor => "^" case BOr => "|"
    case Eq => "==" case Ne => "!=" case Lt => "<" case Le => "<=" case Gt => ">" case Ge => ">="
    case LAnd => "&&" case LOr => "||"
  }

  /** How loosely an expression holds together: 0 for subscripts, fields and what needs no operator, 1 for prefix
      operators, 2 to 9 for the groups of binary operators, 10 for casts. */
  function Looseness(e: Tree): nat {
    match e
    case Bin(_, op, _) => 2 + Group(op)
    case Un(_, _) | Deref(_) => 1
    case Cast(_, _) => 10
    case _ => 0
  }

  /** Whether the text of an expression of looseness 0 starts with a digit. */
  predicate DigitFirst(e: Tree) {
    match e
    case Lit(n) => n >= 0 || n == A.MIN_I32
    case Index(b, _) => Looseness(b) == 0 && DigitFirst(b)
    case Fields(b, _) => Looseness(b) == 0 && !b.Fields? && DigitFirst(b)
    case _ => false
  }

  /** The text of an expression in a place that takes looseness up to the given one, followed by k. */
  function Written(e: Tree, most: nat, k: string): string
    decreases e, 1
  {
    if Looseness(e) <= most then Bare(e, k) else "(" + Bare(e, ")" + k)
  }

  function Bare(e: Tree, k: string): string
    decreases e, 0
  {
    match e
    case Lit(n) => (if n == A.MIN_I32 then "0x80000000" else Ascii(A.I32Text(n))) + k
    case Truth(b) => (if b then "true" else "false") + k
    case Var(x) => x + k
    case Bin(l, op, r) =>
      Written(l, 2 + Group(op), " " + (Spelled(op) + (" " + Written(r, 1 + Group(op), k))))
    case Un(op, x) =>
      (match op case Neg => "-" case Not => "!" case BNot => "~")
      + (if op == A.Neg && DigitFirst(x) then "(" + Bare(x, ")" + k) else Written(x, 0, k))
    case Deref(x) => "*" + Written(x, 0, k)
    case Call(f, args) => f + ("(" + WrittenList(args, ")" + k))
    case Cast(x, t) => Written(x, 10, " " + ("as" + (" " + ((if t == A.ToInt then "int" else "bool") + k))))
    case Array(items) => "[" + WrittenList(items, "]" + k)
    case Index(b, i) => Written(b, 0, "[" + Written(i, 10, "]" + k))
    case Fields(b, fs) => if b.Fields? then "(" + Bare(b, ")" + TextNames(fs, k)) else Written(b, 0, TextNames(fs, k))
    case AddrOf(x) => "&" + (x + k)
    case Input => "input" + ("(" + (")" + k))
  }

  function WrittenList(es: seq<Tree>, k: string): string
    decreases es, |es|
  {
    if es == [] then k
    else if |es| == 1 then Written(es[0], 10, k)
    else Written(es[0], 10, "," + (" " + WrittenList(es[1..], k)))
  }

  // The tokens of that text.

  function WrittenTokens(e: Tree, most: nat, k: seq<Token>): seq<Token>
    decreases e, 1
  {
    if Looseness(e) <= most then BareTokens(e, k) else [LParen] + BareTokens(e, [RParen] + k)
  }

  function BareTokens(e: Tree, k: seq<Token>): seq<Token>
    decreases e, 0
  {
    match e
    case Lit(n) => [IntLit(n)] + k
    case Truth(b) => [BoolLit(b)] + k
    case Var(x) => [Ident(x)] + k
    case Bin(l, op, r) => WrittenTokens(l, 2 + Group(op), [OpToken(op)] + WrittenTokens(r, 1 + Group(op), k))
    case Un(op, x) =>
      [UnToken(op)] + (if op == A.Neg && DigitFirst(x) then [LParen] + BareTokens(x, [RParen] + k)
                       else WrittenTokens(x, 0, k))
    case Deref(x) => [Star] + WrittenTokens(x, 0, k)
    case Call(f, args) => [Ident(f)] + ([LParen] + WrittenListTokens(args, [RParen] + k))
    case Cast(x, t) => WrittenTokens(x, 10, [As] + ([TargetToken(t)] + k))
    case Array(items) => [LBracket] + WrittenListTokens(items, [RBracket] + k)
    case Index(b, i) => WrittenTokens(b, 0, [LBracket] + WrittenTokens(i, 10, [RBracket] + k))
    case Fields(b, fs) =>
      if b.Fields? then [LParen] + BareTokens(b, [RParen] + TokenNames(fs, k))
      else WrittenTokens(b, 0, TokenNames(fs, k))
    case AddrOf(x) => [Amp] + ([Ident(x)] + k)
    case Input => [Token.Input] + ([LParen] + ([RParen] + k))
  }

  function WrittenListTokens(es: seq<Tree>, k: seq<Token>): seq<Token>
    decreases es, |es|
  {
    if es == [] then k
    else if |es| == 1 then WrittenTokens(es[0], 10, k)
    else WrittenTokens(es[0], 10, [Comma] + WrittenListTokens(es[1..], k))
  }

  // Lexing.

  /** Reading one more hexadecimal digit. */
  lemma HexDigit(c: char, t: string, n: i32)
    requires IsHex(c)
    ensures Hexadecimal([c] + t, n) == Hexadecimal(t, Wrap32(n * 16 + HexValue(c)))
  {
    assert ([c] + t)[1..] == t;
  }

  lemma MinInHex(k: string)
    requires Stops(k)
    ensures Tokenised("0x80000000" + k) == [IntLit(A.MIN_I32)] + Tokenised(k)
  {
    hide Tokenised, Hexadecimal;
    var u := "0x80000000" + k;
    var k7 := "0" + k; var k6 := "0" + k7; var k5 := "0" + k6; var k4 := "0" + k5;
    var k3 := "0" + k4; var k2 := "0" + k3; var k1 := "0" + k2;
    assert u[2..] == "8" + k1;
    HexDigit('8', k1, 0); HexDigit('0', k2, 8); HexDigit('0', k3, 0x80); HexDigit('0', k4, 0x800);
    HexDigit('0', k5, 0x8000); HexDigit('0', k6, 0x8_0000); HexDigit('0', k7, 0x80_0000); HexDigit('0', k, 0x800_0000);
    NoHexDigit(k, A.MIN_I32);
    assert Wrap32(0x800_0000 * 16) == A.MIN_I32;
    assert Magnitude(u) == Number(A.MIN_I32, k);
    LexScanned(u);
  }

  lemma NoHexDigit(t: string, n: i32)
    requires Stops(t)
    ensures Hexadecimal(t, n) == Number(n, t)
  {
  }

  lemma SpelledText(op: A.BinOp, k: string)
    ensures " " + (Spelled(op) + (" " + k)) == OpText(op) + k
  {
  }

  lemma LexSpelled(op: A.BinOp, k: string)
    ensures Stops(" " + (Spelled(op) + (" " + k)))
    ensures Tokenised(" " + (Spelled(op) + (" " + k))) == [OpToken(op)] + Tokenised(k)
  {
    hide Tokenised, OpText, OpToken, Spelled;
    SpelledText(op, k);
    LexOperator(op, k);
  }

  /** The first character of the text of an expression of looseness 0. */
  lemma {:induction false} BareStarts(e: Tree, k: string)
    requires Writable(e) && Looseness(e) == 0
    ensures Bare(e, k) != ""
    ensures var c := At(Bare(e, k), 0); (IsDigit(c) <==> DigitFirst(e)) && c > ' ' && c != '=' && c != '>'
    decreases e
  {
    hide A.Digits, WordToken, Group;
    match e
    case Lit(n) =>
      if n > 0 {
        FirstDigit(n);
      }
    case Index(b, i) =>
      if Looseness(b) == 0 {
        BareStarts(b, "[" + Written(i, 10, "]" + k));
      }
    case Fields(b, fs) =>
      if Looseness(b) == 0 && !b.Fields? {
        BareStarts(b, TextNames(fs, k));
      }
    case _ =>
  }

  lemma {:induction false} LexWritten(e: Tree, most: nat, k: string, ks: seq<Token>)
    requires Writable(e) && Stops(k) && Tokenised(k) == ks
    ensures Tokenised(Written(e, most, k)) == WrittenTokens(e, most, ks)
    decreases e, 5
  {
    hide Tokenised, Writable, Bare, BareTokens, Looseness, Stops;
    if Looseness(e) <= most {
      LexBare(e, k, ks);
    } else {
      LexGrouped(e, k, ks);
    }
  }

  lemma {:induction false} LexGrouped(e: Tree, k: string, ks: seq<Token>)
    requires Writable(e) && Stops(k) && Tokenised(k) == ks
    ensures Tokenised("(" + Bare(e, ")" + k)) == [LParen] + BareTokens(e, [RParen] + ks)
    decreases e, 4
  {
    hide Tokenised, Writable, Bare, BareTokens, Stops;
    LexBracket(')', k);
    LexBare(e, ")" + k, [RParen] + ks);
    LexBracket('(', Bare(e, ")" + k));
  }

  lemma {:induction false} LexBare(e: Tree, k: string, ks: seq<Token>)
    requires Writable(e) && Stops(k) && Tokenised(k) == ks
    ensures Tokenised(Bare(e, k)) == BareTokens(e, ks)
    decreases e, 3
  {
    hide Tokenised, WordToken, Symbol, DigitFirst, A.I32Text, IsName, Stops, Written, WrittenTokens, Group, Spelled;
    match e
    case Lit(n) =>
      if n == A.MIN_I32 {
        MinInHex(k);
      } else {
        LexNumber(n, k);
      }
    case Truth(b) => LexFixed(if b then "true" else "false", k);
    case Var(x) => LexName(x, k);
    case Bin(l, op, r) => LexBareBin(l, op, r, k, ks);
    case Un(op, x) => LexBareUn(op, x, k, ks);
    case Deref(x) => LexBareDeref(x, k, ks);
    case Call(f, args) =>
      LexBracket(')', k);
      LexWrittenList(args, ")" + k, [RParen] + ks);
      LexBracket('(', WrittenList(args, ")" + k));
      LexName(f, "(" + WrittenList(args, ")" + k));
    case Cast(x, t) => LexBareCast(x, t, k, ks);
    case Array(items) =>
      LexBracket(']', k);
      LexWrittenList(items, "]" + k, [RBracket] + ks);
      LexBracket('[', WrittenList(items, "]" + k));
    case Index(b, i) => LexBareIndex(b, i, k, ks);
    case Fields(b, fs) =>
      LexNames(fs, k, ks);
      LexGrouped(b, TextNames(fs, k), TokenNames(fs, ks));
      LexWritten(b, 0, TextNames(fs, k), TokenNames(fs, ks));
    case AddrOf(x) =>
      LexName(x, k);
      LexAmp(x, k);
    case Input =>
      LexBracket(')', k);
      LexBracket('(', ")" + k);
      LexFixed("input", "(" + (")" + k));
  }

  lemma {:induction false} LexBareBin(l: Tree, op: A.BinOp, r: Tree, k: string, ks: seq<Token>)
    requires Writable(l) && Writable(r) && Stops(k) && Tokenised(k) == ks
    ensures Tokenised(Bare(Bin(l, op, r), k)) == BareTokens(Bin(l, op, r), ks)
    decreases Bin(l, op, r), 0
  {
    hide Tokenised, Writable, Written, WrittenTokens, Group, Spelled, OpToken, Stops;
    var u := Written(r, 1 + Group(op), k);
    LexWritten(r, 1 + Group(op), k, ks);
    LexSpelled(op, u);
    var v := " " + (Spelled(op) + (" " + u));
    LexWritten(l, 2 + Group(op), v, Tokenised(v));
  }

  lemma {:induction false} LexBareUn(op: A.UnOp, x: Tree, k: string, ks: seq<Token>)
    requires Writable(x) && Stops(k) && Tokenised(k) == ks
    ensures Tokenised(Bare(Un(op, x), k)) == BareTokens(Un(op, x), ks)
    decreases Un(op, x), 0
  {
    hide Tokenised, Writable, Bare, BareTokens, DigitFirst, Stops, Looseness;
    BareUn(op, x, k, ks);
    var c := if op == A.Neg then '-' else if op == A.Not then '!' else '~';
    if op == A.Neg && DigitFirst(x) {
      LexGrouped(x, k, ks);
      LexPrefix(c, "(" + Bare(x, ")" + k));
    } else {
      LexWritten(x, 0, k, ks);
      WrittenStarts(x, k);
      LexPrefix(c, Written(x, 0, k));
    }
  }

  lemma BareUn(op: A.UnOp, x: Tree, k: string, ks: seq<Token>)
    ensures Bare(Un(op, x), k) ==
            [if op == A.Neg then '-' else if op == A.Not then '!' else '~']
            + (if op == A.Neg && DigitFirst(x) then "(" + Bare(x, ")" + k) else Written(x, 0, k))
    ensures BareTokens(Un(op, x), ks) ==
            [if op == A.Neg then Minus else if op == A.Not then Bang else Tilde]
            + (if op == A.Neg && DigitFirst(x) then [LParen] + BareTokens(x, [RParen] + ks)
               else WrittenTokens(x, 0, ks))
  {
    hide Written, WrittenTokens, DigitFirst;
  }

  lemma WrittenStarts(x: Tree, k: string)
    requires Writable(x)
    ensures var c := At(Written(x, 0, k), 0);
            c > ' ' && c != '=' && c != '>' && (IsDigit(c) <==> Looseness(x) == 0 && DigitFirst(x))
  {
    hide Bare, DigitFirst, Writable, Looseness;
    if Looseness(x) == 0 {
      BareStarts(x, k);
    }
  }

  lemma {:induction false} LexBareDeref(x: Tree, k: string, ks: seq<Token>)
    requires Writable(x) && Stops(k) && Tokenised(k) == ks
    ensures Tokenised("*" + Written(x, 0, k)) == [Star] + WrittenTokens(x, 0, ks)
    decreases Deref(x), 0
  {
    hide Tokenised, Writable, Written, WrittenTokens, DigitFirst, Stops;
    LexWritten(x, 0, k, ks);
    WrittenStarts(x, k);
    LexPrefix('*', Written(x, 0, k));
  }

  lemma {:induction false} LexBareCast(x: Tree, t: A.CastTarget, k: string, ks: seq<Token>)
    requires Writable(x) && Stops(k) && Tokenised(k) == ks
    ensures Tokenised(Bare(Cast(x, t), k)) == BareTokens(Cast(x, t), ks)
    decreases Cast(x, t), 0
  {
    hide Tokenised, Symbol, Writable, Written, WrittenTokens;
    var w := if t == A.ToInt then "int" else "bool";
    var u := " " + (w + k);
    LexFixed(w, k);
    LexSpace(w + k);
    LexFixed("as", u);
    LexSpace("as" + u);
    LexWritten(x, 10, " " + ("as" + u), Tokenised(" " + ("as" + u)));
  }

  lemma {:induction false} LexBareIndex(b: Tree, i: Tree, k: string, ks: seq<Token>)
    requires Writable(b) && Writable(i) && Stops(k) && Tokenised(k) == ks
    ensures Tokenised(Bare(Index(b, i), k)) == BareTokens(Index(b, i), ks)
    decreases Index(b, i), 0
  {
    hide Tokenised, Writable, Written, WrittenTokens, Stops;
    LexBracket(']', k);
    LexWritten(i, 10, "]" + k, [RBracket] + ks);
    LexBracket('[', Written(i, 10, "]" + k));
    LexWritten(b, 0, "[" + Written(i, 10, "]" + k), [LBracket] + WrittenTokens(i, 10, [RBracket] + ks));
  }

  lemma {:induction false} LexWrittenList(es: seq<Tree>, k: string, ks: seq<Token>)
    requires AllWritable(es) && Stops(k) && Tokenised(k) == ks
    ensures Tokenised(WrittenList(es, k)) == WrittenListTokens(es, ks)
    decreases es, |es|
  {
    hide Tokenised, WordToken, Symbol, Written, WrittenTokens, Writable;
    if |es| == 1 {
      LexWritten(es[0], 10, k, ks);
    } else if |es| > 1 {
      LexWrittenList(es[1..], k, ks);
      var u := WrittenList(es[1..], k);
      LexSpace(u);
      LexBracket(',', " " + u);
      LexWritten(es[0], 10, "," + (" " + u), [Comma] + WrittenListTokens(es[1..], ks));
    }
  }
}
