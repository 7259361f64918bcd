/** The expression printer of `helios fmt`, and what the lexer makes of its output. */
module HeliosFormat {
  import opened Bits
  import A = HeliosAst
  import opened HeliosLexer

  /** Expressions as the parser builds them. `Fields` with one name is the source's `Field`, with more
      its `FieldChain`. */
  datatype Tree =
    | Lit(n: i32)
    | Truth(b: bool)
    | Var(name: string)
    | Bin(left: Tree, op: A.BinOp, right: Tree)
    | Un(uop: A.UnOp, arg: Tree)
    | Deref(arg: Tree)
    | Call(fname: string, args: seq<Tree>)
    | Cast(arg: Tree, target: A.CastTarget)
    | Array(items: seq<Tree>)
    | Index(base: Tree, at: Tree)
    | Fields(base: Tree, names: seq<string>)
    | AddrOf(name: string)
    | Input

  function OpText(op: A.BinOp): string {
    match op
    case Add => " + " case Sub => " - " case Mul => " * " case Div => " / " case Mod => " % "
    case Eq => " == " case Ne => " != " case Lt => " < " case Le => " <= " case Gt => " > " case Ge => " >= "
    case LAnd => " && " case LOr => " || "
    case BAnd => " & " case BOr => " | " case BXor => " ^ " case Shl => " << " case Shr => " >> "
  }

  function OpToken(op: A.BinOp): Token {
    match op
    case Add => Plus case Sub => Minus case Mul => Star case Div => Slash case Mod => Percent
    case Eq => EqEq case Ne => BangEq case Lt => Token.Lt case Le => LtEq case Gt => Token.Gt case Ge => GtEq
    case LAnd => AmpAmp case LOr => PipePipe
    case BAnd => Amp case BOr => Pipe case BXor => Caret case Shl => LtLt case Shr => GtGt
  }

  function UnText(op: A.UnOp): string {
    match op
    case Neg => "-" case Not => "!" case BNot => "~"
  }

  function UnToken(op: A.UnOp): Token {
    match op
    case Neg => Minus case Not => Bang case BNot => Tilde
  }

  function TargetText(t: A.CastTarget): string {
    match t
    case ToInt => "int" case ToBool => "bool"
  }

  function TargetToken(t: A.CastTarget): Token {
    match t
    case ToInt => TInt case ToBool => TBool
  }

  function Ascii(s: seq<u8>): (r: string)
    ensures |r| == |s|
  {
    seq(|s|, i requires 0 <= i < |s| => s[i] as char)
  }

  /** The text of an expression, followed by the text k. */
  function Text(e: Tree, k: string): string
    decreases e, 0
  {
    match e
    case Lit(n) => Ascii(A.I32Text(n)) + k
    case Truth(b) => (if b then "true" else "false") + k
    case Var(x) => x + k
    case Bin(l, op, r) => "(" + Text(l, OpText(op) + Text(r, ")" + k))
    case Un(op, x) => UnText(op) + Text(x, k)
    case Deref(x) => "*" + Text(x, k)
    case Call(f, args) => f + ("(" + TextList(args, ")" + k))
    case Cast(x, t) => Text(x, " " + ("as" + (" " + (TargetText(t) + k))))
    case Array(items) => "[" + TextList(items, "]" + k)
    case Index(b, i) => Text(b, "[" + Text(i, "]" + k))
    case Fields(b, fs) => Text(b, TextNames(fs, k))
    case AddrOf(x) => "&" + (x + k)
    case Input => "input" + ("(" + (")" + k))
  }

  function TextList(es: seq<Tree>, k: string): string
    decreases es, |es|
  {
    if es == [] then k
    else if |es| == 1 then Text(es[0], k)
    else Text(es[0], "," + (" " + TextList(es[1..], k)))
  }

  function TextNames(fs: seq<string>, k: string): string {
    if fs == [] then k else "." + (fs[0] + TextNames(fs[1..], k))
  }

  /** The tokens an expression should read as, followed by the tokens k. */
  function Tokens(e: Tree, k: seq<Token>): seq<Token>
    decreases e, 0
  {
    match e
    case Lit(n) => [IntLit(n)] + k
    case Truth(b) => [BoolLit(b)] + k
    case Var(x) => [Ident(x)] + k
    case Bin(l, op, r) => [LParen] + Tokens(l, [OpToken(op)] + Tokens(r, [RParen] + k))
    case Un(op, x) => [UnToken(op)] + Tokens(x, k)
    case Deref(x) => [Star] + Tokens(x, k)
    case Call(f, args) => [Ident(f)] + ([LParen] + TokenList(args, [RParen] + k))
    case Cast(x, t) => Tokens(x, [As] + ([TargetToken(t)] + k))
    case Array(items) => [LBracket] + TokenList(items, [RBracket] + k)
    case Index(b, i) => Tokens(b, [LBracket] + Tokens(i, [RBracket] + k))
    case Fields(b, fs) => Tokens(b, TokenNames(fs, k))
    case AddrOf(x) => [Amp] + ([Ident(x)] + k)
    case Input => [Token.Input] + ([LParen] + ([RParen] + k))
  }

  function TokenList(es: seq<Tree>, k: seq<Token>): seq<Token>
    decreases es, |es|
  {
    if es == [] then k
    else if |es| == 1 then Tokens(es[0], k)
    else Tokens(es[0], [Comma] + TokenList(es[1..], k))
  }

  function TokenNames(fs: seq<string>, k: seq<Token>): seq<Token> {
    if fs == [] then k else [Dot] + ([Ident(fs[0])] + TokenNames(fs[1..], k))
  }

  /** Whether the printed text starts with a digit. */
  predicate StartsDigit(e: Tree) {
    match e
    case Lit(n) => n >= 0
    case Cast(x, _) => StartsDigit(x)
    case Index(b, _) => StartsDigit(b)
    case Fields(b, _) => StartsDigit(b)
    case _ => false
  }

  /** What the text of i32::MIN reads as: its digits are printed from negative remainders. */
  function MinTokens(k: seq<Token>): seq<Token> {
    [Minus] + ([Dot] + ([Slash] + ([Comma] + ([RParen] + ([Comma] + ([LParen] + ([Minus] + ([Star] + ([Comma]
      + ([LParen] + k))))))))))
  }

  function Negated(ts: seq<Token>): seq<Token> {
    if ts != [] && ts[0].IntLit? then [IntLit(Wrap32(0 - ts[0].n))] + ts[1..] else ts
  }

  /** The tokens the printed expression really reads as: a minus sign in front of a digit becomes part of
      the number. */
  function Lexed(e: Tree, k: seq<Token>): seq<Token>
    decreases e, 0
  {
    match e
    case Lit(n) => if n == A.MIN_I32 then MinTokens(k) else [IntLit(n)] + k
    case Truth(b) => [BoolLit(b)] + k
    case Var(x) => [Ident(x)] + k
    case Bin(l, op, r) => [LParen] + Lexed(l, [OpToken(op)] + Lexed(r, [RParen] + k))
    case Un(op, x) => if op == A.Neg && StartsDigit(x) then Negated(Lexed(x, k)) else [UnToken(op)] + Lexed(x, k)
    case Deref(x) => [Star] + Lexed(x, k)
    case Call(f, args) => [Ident(f)] + ([LParen] + LexedList(args, [RParen] + k))
    case Cast(x, t) => Lexed(x, [As] + ([TargetToken(t)] + k))
    case Array(items) => [LBracket] + LexedList(items, [RBracket] + k)
    case Index(b, i) => Lexed(b, [LBracket] + Lexed(i, [RBracket] + k))
    case Fields(b, fs) => Lexed(b, TokenNames(fs, k))
    case AddrOf(x) => [Amp] + ([Ident(x)] + k)
    case Input => [Token.Input] + ([LParen] + ([RParen] + k))
  }

  function LexedList(es: seq<Tree>, k: seq<Token>): seq<Token>
    decreases es, |es|
  {
    if es == [] then k
    else if |es| == 1 then Lexed(es[0], k)
    else Lexed(es[0], [Comma] + LexedList(es[1..], k))
  }

  // Names.

  predicate IsName(x: string) {
    && x != "" && !IsDigit(x[0]) && WordToken(x) == Ident(x)
    && forall i :: 0 <= i < |x| ==> IsWord(x[i])
  }

  /** Every name is an identifier and every field access names a field: so are all trees the parser builds. */
  predicate Named(e: Tree)
    decreases e, 0
  {
    match e
    case Lit(_) | Truth(_) | Input => true
    case Var(x) => IsName(x)
    case AddrOf(x) => IsName(x)
    case Bin(l, _, r) => Named(l) && Named(r)
    case Un(_, x) => Named(x)
    case Deref(x) => Named(x)
    case Cast(x, _) => Named(x)
    case Call(f, args) => IsName(f) && NamedList(args)
    case Array(items) => NamedList(items)
    case Index(b, i) => Named(b) && Named(i)
    case Fields(b, fs) => Named(b) && fs != [] && (forall i :: 0 <= i < |fs| ==> IsName(fs[i]))
  }

  predicate NamedList(es: seq<Tree>)
    decreases es, |es|
  {
    es == [] || (Named(es[0]) && NamedList(es[1..]))
  }

  /** Every name is an identifier, and no array is empty, which the grammar has no text for. */
  predicate Writable(e: Tree)
    decreases e, 0
  {
    match e
    case Lit(_) | Truth(_) | Input => true
    case Var(x) => IsName(x)
    case AddrOf(x) => IsName(x)
    case Bin(l, _, r) => Writable(l) && Writable(r)
    case Un(_, x) => Writable(x)
    case Deref(x) => Writable(x)
    case Cast(x, _) => Writable(x)
    case Call(f, args) => IsName(f) && AllWritable(args)
    case Array(items) => items != [] && AllWritable(items)
    case Index(b, i) => Writable(b) && Writable(i)
    case Fields(b, fs) => Writable(b) && fs != [] && (forall i :: 0 <= i < |fs| ==> IsName(fs[i]))
  }

  predicate AllWritable(es: seq<Tree>)
    decreases es, |es|
  {
    es == [] || (Writable(es[0]) && AllWritable(es[1..]))
  }

  lemma {:induction false} WritableNamed(e: Tree)
    requires Writable(e)
    ensures Named(e)
    decreases e, 0
  {
    hide IsName;
    match e
    case Bin(l, _, r) =>
      WritableNamed(l);
      WritableNamed(r);
    case Un(_, x) => WritableNamed(x);
    case Deref(x) => WritableNamed(x);
    case Cast(x, _) => WritableNamed(x);
    case Call(_, args) => AllWritableNamed(args);
    case Array(items) => AllWritableNamed(items);
    case Index(b, i) =>
      WritableNamed(b);
      WritableNamed(i);
    case Fields(b, _) => WritableNamed(b);
    case _ =>
  }

  lemma {:induction false} AllWritableNamed(es: seq<Tree>)
    requires AllWritable(es)
    ensures NamedList(es)
    decreases es, |es|
  {
    if es != [] {
      WritableNamed(es[0]);
      AllWritableNamed(es[1..]);
    }
  }
}
