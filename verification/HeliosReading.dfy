/** Lexing printed expressions. */
module HeliosReading {
  import opened Bits
  import opened Wrappers
  import A = HeliosAst
  import opened HeliosLexer
  import opened HeliosFormat

  // One token at a time.

  function Tokenised(t: string): seq<Token> {
    Lex(t)
  }

  predicate Stops(k: string) {
    !IsWord(At(k, 0))
  }

  lemma LexSpace(t: string)
    ensures Tokenised(" " + t) == Tokenised(t)
  {
    hide Scan;
    assert (" " + t)[1..] == t;
    assert SkipSpace(" " + t) == SkipSpace(t);
  }

  predicate StartsToken(u: string) {
    && At(u, 0) > ' ' && At(u, 0) != '"' && At(u, 0) != '\''
    && !(At(u, 0) == '/' && (At(u, 1) == '/' || At(u, 1) == '*'))
  }

  lemma LexScanned(u: string)
    requires StartsToken(u)
    requires var r := Scan(u); r.Some? && r.value.token != Eof && r.value.token != Foreign
    ensures Tokenised(u) == [Scan(u).value.token] + Tokenised(Scan(u).value.rest)
  {
    hide Scan;
    assert SkipSpace(u) == u;
  }

  lemma LexSign(s: string, t: string, token: Token)
    requires s != "" && StartsToken(s + t) && !StartsNumber(s + t) && !IsWord(s[0])
    requires Symbol(s + t) == Some(Sign(token, |s|)) && token != Eof && token != Foreign
    ensures Tokenised(s + t) == [token] + Tokenised(t)
  {
    hide Tokenised;
    hide Symbol, WordToken;
    assert (s + t)[|s|..] == t;
    LexScanned(s + t);
  }

  lemma {:induction false} WordStops(w: string, t: string)
    requires forall i :: 0 <= i < |w| ==> IsWord(w[i])
    requires Stops(t)
    ensures WordLength(w + t) == |w|
  {
    if w == "" {
      assert w + t == t;
    } else {
      assert (w + t)[1..] == w[1..] + t;
      WordStops(w[1..], t);
    }
  }

  lemma LexWordThen(w: string, t: string)
    requires w != "" && !IsDigit(w[0]) && (forall i :: 0 <= i < |w| ==> IsWord(w[i])) && Stops(t)
    requires WordToken(w) != Eof && WordToken(w) != Foreign
    ensures Tokenised(w + t) == [WordToken(w)] + Tokenised(t)
  {
    hide Tokenised;
    hide WordToken, WordLength;
    WordStops(w, t);
    assert (w + t)[..|w|] == w && (w + t)[|w|..] == t;
    LexScanned(w + t);
  }

  lemma LexName(x: string, t: string)
    requires IsName(x) && Stops(t)
    ensures Tokenised(x + t) == [Ident(x)] + Tokenised(t)
  {
    hide Tokenised;
    hide WordToken;
    LexWordThen(x, t);
  }

  // Numbers.

  lemma AsciiCat(a: seq<u8>, b: seq<u8>, t: string)
    ensures Ascii(a + b) + t == Ascii(a) + (Ascii(b) + t)
  {
  }

  lemma TruncTen(n: i32)
    requires n > 0
    ensures TruncDiv(n, 10) == n / 10 && TruncMod(n, 10) == n % 10 && n / 10 < n
  {
  }

  lemma DigitsStep(n: i32)
    requires n > 0
    ensures n / 10 < n && A.Digits(n) == A.Digits(n / 10) + [48 + n % 10]
  {
    hide TruncDiv, TruncMod;
    TruncTen(n);
  }

  lemma NoDigits()
    ensures A.Digits(0) == []
  {
  }

  lemma WrapInside(n: i32)
    ensures Wrap32(n) == n
  {
  }

  /** Reading one more digit. */
  lemma LastDigit(n: i32, t: string)
    requires n > 0
    ensures var u := Ascii([48 + n % 10]) + t; Decimal(u, n / 10) == Decimal(t, n)
  {
    hide A.Digits, Wrap32;
    var d := n % 10;
    var u := Ascii([48 + d]) + t;
    assert u[1..] == t && At(u, 0) == (48 + d) as char;
    assert IsDigit(At(u, 0)) && DigitValue(At(u, 0)) == d;
    assert n / 10 * 10 + d == n;
    WrapInside(n);
  }

  lemma {:induction false} DecimalReads(n: i32, t: string)
    requires n >= 0
    ensures Decimal(Ascii(A.Digits(n)) + t, 0) == Decimal(t, n)
    decreases n
  {
    if n == 0 {
      assert Ascii(A.Digits(0)) + t == t;
    } else {
      hide A.Digits, Wrap32;
      DigitsStep(n);
      AsciiCat(A.Digits(n / 10), [48 + n % 10], t);
      DecimalReads(n / 10, Ascii([48 + n % 10]) + t);
      LastDigit(n, t);
    }
  }

  lemma {:induction false} FirstDigit(n: i32)
    requires n > 0
    ensures A.Digits(n) != [] && 49 <= A.Digits(n)[0] <= 57
    decreases n
  {
    hide A.Digits;
    DigitsStep(n);
    if n >= 10 {
      FirstDigit(n / 10);
    } else {
      NoDigits();
    }
  }

  lemma MagnitudeReads(n: i32, t: string)
    requires n >= 0 && Stops(t)
    ensures var u := Ascii(A.I32Text(n)) + t; IsDigit(At(u, 0)) && Magnitude(u) == Number(n, t)
  {
    hide A.Digits, Wrap32;
    var u := Ascii(A.I32Text(n)) + t;
    assert SkipSuffix(t) == t && Decimal(t, n) == Number(n, t);
    if n == 0 {
      assert At(u, 0) == '0' && At(u, 1) == At(t, 0) && u[1..] == t;
      WrapInside(0);
    } else {
      FirstDigit(n);
      DecimalReads(n, t);
    }
  }

  /** A minus sign in front of a digit is read as part of the number. */
  lemma LexNegated(u: string)
    requires IsDigit(At(u, 0))
    ensures Tokenised(u)[0].IntLit? && Tokenised("-" + u) == Negated(Tokenised(u))
  {
    hide Magnitude, Wrap32;
    assert ("-" + u)[1..] == u;
    LexScanned(u);
    LexScanned("-" + u);
  }

  lemma LexNumber(n: i32, t: string)
    requires n != A.MIN_I32 && Stops(t)
    ensures Tokenised(Ascii(A.I32Text(n)) + t) == [IntLit(n)] + Tokenised(t)
  {
    hide Tokenised;
    hide A.Digits, Magnitude, Wrap32;
    var m: i32 := if n < 0 then 0 - n else n;
    MagnitudeReads(m, t);
    var u := Ascii(A.I32Text(m)) + t;
    LexScanned(u);
    if n < 0 {
      AsciiCat([45], A.Digits(m), t);
      assert Ascii([45]) == "-";
      LexNegated(u);
      WrapInside(n);
    }
  }

  // Symbols.

  function Bracket(c: char): Token {
    if c == '(' then LParen else if c == ')' then RParen else if c == '[' then LBracket
    else if c == ']' then RBracket else Comma
  }

  lemma LexBracket(c: char, k: string)
    requires c in "()[],"
    ensures Stops([c] + k) && Tokenised([c] + k) == [Bracket(c)] + Tokenised(k)
  {
    hide Tokenised;
    LexSign([c], k, Bracket(c));
  }

  lemma LexOperator(op: A.BinOp, k: string)
    ensures Stops(OpText(op) + k) && Tokenised(OpText(op) + k) == [OpToken(op)] + Tokenised(k)
  {
    hide Tokenised;
    var s := OpText(op)[1..|OpText(op)| - 1];
    assert OpText(op) + k == " " + (s + (" " + k));
    LexSpace(s + (" " + k));
    LexSpace(k);
    LexSign(s, " " + k, OpToken(op));
  }

  /** The first character of a printed expression starts a number exactly if `StartsDigit` says so, and joins
      no symbol in front of it. */
  lemma {:induction false} TextStarts(e: Tree, k: string)
    requires Named(e)
    ensures Text(e, k) != ""
    ensures var c := At(Text(e, k), 0); (IsDigit(c) <==> StartsDigit(e)) && c > ' ' && c != '=' && c != '>'
    decreases e
  {
    hide A.Digits, WordToken;
    match e
    case Lit(n) =>
      if n > 0 {
        FirstDigit(n);
      }
    case Cast(x, t) => TextStarts(x, " " + ("as" + (" " + (TargetText(t) + k))));
    case Index(b, i) => TextStarts(b, "[" + Text(i, "]" + k));
    case Fields(b, fs) => TextStarts(b, TextNames(fs, k));
    case _ =>
  }

  /** Lexing a prefix operator. */
  lemma LexPrefix(c: char, u: string)
    requires c in "-!~*&" && At(u, 0) != '=' && At(u, 0) != '>' && (c == '&' ==> At(u, 0) != '&')
    requires c == '-' ==> !IsDigit(At(u, 0))
    ensures Tokenised([c] + u) ==
            [if c == '-' then Minus else if c == '!' then Bang else if c == '~' then Tilde else if c == '*' then Star else Amp]
            + Tokenised(u)
  {
    var token := if c == '-' then Minus else if c == '!' then Bang else if c == '~' then Tilde
                 else if c == '*' then Star else Amp;
    assert At([c] + u, 1) == At(u, 0);
    LexSign([c], u, token);
  }

  // The text of i32::MIN.

  lemma MinText(k: string)
    ensures Ascii(A.I32Text(A.MIN_I32)) + k ==
            "-" + ("." + ("/" + ("," + (")" + ("," + ("(" + ("-" + ("*" + ("," + ("(" + k))))))))))
  {
    MinDigits();
  }

  lemma LastRemainder(n: i32, q: i32, d: u8)
    requires n < 0 && q <= 0 && 0 <= q * 10 - n < 10 && q * 10 - n == 48 - d
    ensures A.Digits(n) == A.Digits(q) + [d]
  {
    assert Abs(n) == -q * 10 + (48 - d) && Abs(n) / 10 == -q && Abs(n) % 10 == 48 - d;
  }

  lemma MinDigits()
    ensures A.Digits(A.MIN_I32) == [46, 47, 44, 41, 44, 40, 45, 42, 44, 40]
  {
    hide A.Digits;
    NoDigits();
    LastRemainder(-2, 0, 46); LastRemainder(-21, -2, 47); LastRemainder(-214, -21, 44);
    LastRemainder(-2147, -214, 41); LastRemainder(-21474, -2147, 44); LastRemainder(-214748, -21474, 40);
    LastRemainder(-2147483, -214748, 45); LastRemainder(-21474836, -2147483, 42);
    LastRemainder(-214748364, -21474836, 44); LastRemainder(-2147483648, -214748364, 40);
  }

  lemma LexMin(k: string)
    ensures Tokenised(Ascii(A.I32Text(A.MIN_I32)) + k) == MinTokens(Tokenised(k))
  {
    hide Tokenised, Symbol, A.Digits, A.I32Text;
    MinText(k);
    var k1 := "(" + k;
    var k2 := "," + k1;
    var k3 := "*" + k2;
    var k4 := "-" + k3;
    var k5 := "(" + k4;
    var k6 := "," + k5;
    var k7 := ")" + k6;
    var k8 := "," + k7;
    var k9 := "/" + k8;
    LexBracket('(', k); LexBracket(',', k1); LexPrefix('*', k2); LexPrefix('-', k3); LexBracket('(', k4);
    LexBracket(',', k5); LexBracket(')', k6); LexBracket(',', k7); LexSlashDot(k8); LexPrefix('-', "." + k9);
  }

  lemma LexSlashDot(k: string)
    requires At(k, 0) == ','
    ensures Tokenised("." + ("/" + k)) == [Dot] + ([Slash] + Tokenised(k))
  {
    hide Tokenised;
    LexSign("/", k, Slash);
    LexSign(".", "/" + k, Dot);
  }

  lemma {:induction false} LexNames(fs: seq<string>, k: string, ks: seq<Token>)
    requires (forall i :: 0 <= i < |fs| ==> IsName(fs[i])) && Stops(k) && Tokenised(k) == ks
    ensures Stops(TextNames(fs, k)) && Tokenised(TextNames(fs, k)) == TokenNames(fs, ks)
  {
    hide Tokenised, WordToken, Symbol;
    if fs != [] {
      var u := TextNames(fs[1..], k);
      LexNames(fs[1..], k, ks);
      LexName(fs[0], u);
      LexDot(fs[0] + u);
    }
  }

  lemma LexDot(u: string)
    requires At(u, 0) != '.'
    ensures Tokenised("." + u) == [Dot] + Tokenised(u)
  {
    hide Tokenised;
    LexSign(".", u, Dot);
  }

  // Whole expressions.

  /** The lexer reads a printed expression as `Lexed` says, whatever follows, as long as that does not extend
      its last word. */
  lemma {:induction false} LexText(e: Tree, k: string, ks: seq<Token>)
    requires Named(e) && Stops(k) && Tokenised(k) == ks
    ensures Tokenised(Text(e, k)) == Lexed(e, ks)
    decreases e, 1
  {
    hide Tokenised, WordToken, Symbol, StartsDigit, A.I32Text, Negated, IsName, Stops;
    match e
    case Lit(n) =>
      if n == A.MIN_I32 {
        LexMin(k);
      } else {
        LexNumber(n, k);
      }
    case Truth(b) => LexFixed(if b then "true" else "false", k);
    case Var(x) => LexName(x, k);
    case Bin(l, op, r) => LexBin(l, op, r, k, ks);
    case Un(op, x) =>
      LexText(x, k, ks);
      LexUn(op, x, k);
    case Deref(x) =>
      LexText(x, k, ks);
      TextStarts(x, k);
      LexPrefix('*', Text(x, k));
    case Call(f, args) =>
      LexBracket(')', k);
      LexTextList(args, ")" + k, [RParen] + ks);
      LexBracket('(', TextList(args, ")" + k));
      LexName(f, "(" + TextList(args, ")" + k));
    case Cast(x, t) => LexCast(x, t, k, ks);
    case Array(items) =>
      LexBracket(']', k);
      LexTextList(items, "]" + k, [RBracket] + ks);
      LexBracket('[', TextList(items, "]" + k));
    case Index(b, i) =>
      LexBracket(']', k);
      LexText(i, "]" + k, [RBracket] + ks);
      LexBracket('[', Text(i, "]" + k));
      LexText(b, "[" + Text(i, "]" + k), [LBracket] + Lexed(i, [RBracket] + ks));
    case Fields(b, fs) =>
      LexNames(fs, k, ks);
      LexText(b, TextNames(fs, k), TokenNames(fs, ks));
    case AddrOf(x) =>
      LexName(x, k);
      LexAmp(x, k);
    case Input =>
      LexBracket(')', k);
      LexBracket('(', ")" + k);
      LexFixed("input", "(" + (")" + k));
  }

  function FixedToken(w: string): Token {
    if w == "true" then BoolLit(true) else if w == "false" then BoolLit(false) else if w == "input" then Token.Input
    else if w == "as" then As else if w == "int" then TInt else TBool
  }

  lemma FixedIsWord(w: string)
    requires w in {"true", "false", "input", "as", "int", "bool"}
    ensures WordToken(w) == FixedToken(w)
    ensures w != "" && !IsDigit(w[0]) && forall i :: 0 <= i < |w| ==> IsWord(w[i])
  {
    hide WordToken;
    IntWord();
    BoolWord();
    TrueWord();
    FalseWord();
    AsWord();
    InputWord();
  }

  lemma IntWord()
    ensures WordToken("int") == TInt
  {
  }

  lemma BoolWord()
    ensures WordToken("bool") == TBool
  {
  }

  lemma TrueWord()
    ensures WordToken("true") == BoolLit(true)
  {
  }

  lemma FalseWord()
    ensures WordToken("false") == BoolLit(false)
  {
  }

  lemma AsWord()
    ensures WordToken("as") == As
  {
  }

  lemma InputWord()
    ensures WordToken("input") == Token.Input
  {
  }

  lemma LexFixed(w: string, k: string)
    requires w in {"true", "false", "input", "as", "int", "bool"} && Stops(k)
    ensures Tokenised(w + k) == [FixedToken(w)] + Tokenised(k)
  {
    hide Tokenised, WordToken;
    FixedIsWord(w);
    LexWordThen(w, k);
  }

  lemma {:induction false} LexBin(l: Tree, op: A.BinOp, r: Tree, k: string, ks: seq<Token>)
    requires Named(l) && Named(r) && Tokenised(k) == ks
    ensures Tokenised(Text(Bin(l, op, r), k)) == Lexed(Bin(l, op, r), ks)
    decreases Bin(l, op, r), 0
  {
    hide Tokenised, WordToken, Symbol, Named;
    var u := OpText(op) + Text(r, ")" + k);
    LexBracket(')', k);
    LexText(r, ")" + k, [RParen] + ks);
    LexOperator(op, Text(r, ")" + k));
    LexText(l, u, Tokenised(u));
    LexBracket('(', Text(l, u));
  }

  lemma LexUn(op: A.UnOp, x: Tree, k: string)
    requires Named(x)
    ensures Tokenised(UnText(op) + Text(x, k)) ==
            if op == A.Neg && StartsDigit(x) then Negated(Tokenised(Text(x, k))) else [UnToken(op)] + Tokenised(Text(x, k))
  {
    hide Tokenised, Text, Named, StartsDigit, Negated;
    TextStarts(x, k);
    if op == A.Neg && StartsDigit(x) {
      LexNegated(Text(x, k));
    } else {
      LexPrefix(UnText(op)[0], Text(x, k));
    }
  }

  lemma {:induction false} LexCast(x: Tree, t: A.CastTarget, k: string, ks: seq<Token>)
    requires Named(x) && Stops(k) && Tokenised(k) == ks
    ensures Tokenised(Text(Cast(x, t), k)) == Lexed(Cast(x, t), ks)
    decreases Cast(x, t), 0
  {
    hide Tokenised, Symbol, Named;
    var u := " " + (TargetText(t) + k);
    LexFixed(TargetText(t), k);
    LexSpace(TargetText(t) + k);
    LexFixed("as", u);
    LexSpace("as" + u);
    LexText(x, " " + ("as" + u), Tokenised(" " + ("as" + u)));
  }

  lemma LexAmp(x: string, k: string)
    requires IsName(x)
    ensures Tokenised("&" + (x + k)) == [Amp] + Tokenised(x + k)
  {
    hide Tokenised, WordToken;
    LexPrefix('&', x + k);
  }

  lemma {:induction false} LexTextList(es: seq<Tree>, k: string, ks: seq<Token>)
    requires NamedList(es) && Stops(k) && Tokenised(k) == ks
    ensures Tokenised(TextList(es, k)) == LexedList(es, ks)
    decreases es, |es|
  {
    hide Tokenised, WordToken, Symbol, Text, Lexed, Named;
    if |es| == 1 {
      LexText(es[0], k, ks);
    } else if |es| > 1 {
      LexTextList(es[1..], k, ks);
      var u := TextList(es[1..], k);
      LexSpace(u);
      LexBracket(',', " " + u);
      LexText(es[0], "," + (" " + u), [Comma] + LexedList(es[1..], ks));
    }
  }
}
