/** The Helios lexer, without string and character literals. */
module HeliosLexer {
  import opened Bits
  import opened Wrappers

  /** `Foreign` stands for a string or character literal, which this model does not read. */
  datatype Token =
    | IntLit(n: i32) | BoolLit(b: bool) | Ident(name: string)
    | Fn | Let | Mut | Return | If | Else | For | While | Loop | In | Break | Continue | Match | Struct | New | Unsafe
    | Step | Using | Print | Input | Asm | Const | Assert | TInt | TStr | TBool | TVoid | TPtr | As | Underscore
    | Plus | Minus | Star | Slash | Percent
    | Amp | Pipe | Caret | Tilde | LtLt | GtGt
    | EqEq | BangEq | Lt | LtEq | Gt | GtEq
    | AmpAmp | PipePipe | Bang
    | Assign | PlusEq | MinusEq | StarEq | SlashEq | PercentEq | AmpEq | PipeEq | CaretEq
    | LBrace | RBrace | LParen | RParen | LBracket | RBracket
    | Semi | Comma | Dot | Arrow | FatArrow | Colon | ColonColon | DotDot | DotDotEq
    | Foreign | Eof

  /** The character at position i; past the end, a zero. */
  function At(t: string, i: nat): char {
    if i < |t| then t[i] else '\0'
  }

  predicate IsDigit(c: char) {
    '0' <= c <= '9'
  }

  predicate IsAlpha(c: char) {
    'a' <= c <= 'z' || 'A' <= c <= 'Z'
  }

  predicate IsWord(c: char) {
    IsDigit(c) || IsAlpha(c) || c == '_'
  }

  predicate IsHex(c: char) {
    IsDigit(c) || 'a' <= c <= 'f' || 'A' <= c <= 'F'
  }

  function DigitValue(c: char): nat
    requires IsDigit(c)
  {
    c as int - '0' as int
  }

  function HexValue(c: char): nat
    requires IsHex(c)
  {
    if c >= 'a' then c as int - 'a' as int + 10
    else if c >= 'A' then c as int - 'A' as int + 10
    else c as int - '0' as int
  }

  // White space and comments. Each function takes the text still to be read and gives what is left.

  function SkipLine(t: string): (r: string)
    ensures |r| <= |t|
  {
    if At(t, 0) != '\n' && At(t, 0) != '\0' then SkipLine(t[1..]) else t
  }

  function SkipBlock(t: string): (r: string)
    ensures |r| <= |t|
  {
    if At(t, 0) == '\0' then t
    else if At(t, 0) == '*' && At(t, 1) == '/' then t[2..]
    else SkipBlock(t[1..])
  }

  function SkipSpace(t: string): (r: string)
    ensures |r| <= |t|
    decreases |t|
  {
    if t != "" && t[0] <= ' ' then SkipSpace(t[1..])
    else if At(t, 0) == '/' && At(t, 1) == '/' then SkipSpace(SkipLine(t[1..]))
    else if At(t, 0) == '/' && At(t, 1) == '*' then SkipSpace(SkipBlock(t[2..]))
    else t
  }

  /** One kind of blank at a time. */
  lemma SpaceRound(t: string)
    ensures t != "" && t[0] <= ' ' ==> SkipSpace(t) == SkipSpace(t[1..])
    ensures At(t, 0) == '/' && At(t, 1) == '/' ==> SkipSpace(t) == SkipSpace(SkipLine(t)) && |SkipLine(t)| < |t|
    ensures At(t, 0) == '/' && At(t, 1) == '*' ==> SkipSpace(t) == SkipSpace(SkipBlock(t[2..]))
    ensures !(t != "" && t[0] <= ' ') && !(At(t, 0) == '/' && (At(t, 1) == '/' || At(t, 1) == '*')) ==>
              SkipSpace(t) == t
  {
    hide SkipBlock;
    if At(t, 0) == '/' && At(t, 1) == '/' {
      assert SkipLine(t) == SkipLine(t[1..]);
    }
  }

  // Numbers and words.

  datatype Number = Number(n: i32, rest: string)

  function Decimal(t: string, n: i32): (r: Number)
    ensures |r.rest| <= |t|
    decreases |t|
  {
    if IsDigit(At(t, 0)) then Decimal(t[1..], Wrap32(n * 10 + DigitValue(t[0]))) else Number(n, t)
  }

  function Hexadecimal(t: string, n: i32): (r: Number)
    ensures |r.rest| <= |t|
    decreases |t|
  {
    if IsHex(At(t, 0)) then Hexadecimal(t[1..], Wrap32(n * 16 + HexValue(t[0]))) else Number(n, t)
  }

  function Binary(t: string, n: i32): (r: Number)
    ensures |r.rest| <= |t|
    decreases |t|
  {
    if At(t, 0) == '0' || At(t, 0) == '1' then Binary(t[1..], Wrap32(n * 2 + DigitValue(t[0]))) else Number(n, t)
  }

  function SkipSuffix(t: string): (r: string)
    ensures |r| <= |t|
  {
    if IsAlpha(At(t, 0)) || At(t, 0) == '_' then SkipSuffix(t[1..]) else t
  }

  /** A number without its sign: hexadecimal, binary, or decimal with a type suffix that is dropped. */
  function Magnitude(t: string): (r: Number)
    ensures |r.rest| <= |t|
    ensures IsDigit(At(t, 0)) ==> |r.rest| < |t|
  {
    if At(t, 0) == '0' && (At(t, 1) == 'x' || At(t, 1) == 'X') then Hexadecimal(t[2..], 0)
    else if At(t, 0) == '0' && (At(t, 1) == 'b' || At(t, 1) == 'B') then Binary(t[2..], 0)
    else
      var d := Decimal(t, 0);
      Number(d.n, SkipSuffix(d.rest))
  }

  predicate StartsNumber(t: string) {
    IsDigit(At(t, 0)) || (At(t, 0) == '-' && IsDigit(At(t, 1)))
  }

  function SignedNumber(t: string): (r: Number)
    requires StartsNumber(t)
    ensures |r.rest| < |t|
  {
    if At(t, 0) == '-' then
      var m := Magnitude(t[1..]);
      Number(Wrap32(0 - m.n), m.rest)
    else Magnitude(t)
  }

  function WordLength(t: string): (n: nat)
    ensures n <= |t|
  {
    if IsWord(At(t, 0)) then 1 + WordLength(t[1..]) else 0
  }

  lemma FrontAndRest(t: string, w: string, rest: string)
    requires t == w + rest
    ensures t[..|w|] == w && t[|w|..] == rest
  {
  }

  lemma WordRound(t: string)
    ensures IsWord(At(t, 0)) ==> t != "" && WordLength(t) == 1 + WordLength(t[1..])
    ensures !IsWord(At(t, 0)) ==> WordLength(t) == 0
  {
  }

  function WordToken(w: string): Token {
    if w == "fn" then Fn else if w == "let" then Let else if w == "mut" then Mut
    else if w == "return" then Return else if w == "if" then If else if w == "else" then Else
    else if w == "for" then For else if w == "while" then While else if w == "loop" then Loop
    else if w == "in" then In else if w == "break" then Break else if w == "continue" then Continue
    else if w == "match" then Match else if w == "struct" then Struct else if w == "new" then New
    else if w == "unsafe" then Unsafe else if w == "step" then Step else if w == "using" then Using
    else if w == "print" then Print else if w == "input" then Input else if w == "asm" then Asm
    else if w == "const" then Const else if w == "assert" then Assert else if w == "int" then TInt
    else if w == "str" then TStr else if w == "bool" then TBool else if w == "void" then TVoid
    else if w == "ptr" then TPtr else if w == "true" then BoolLit(true) else if w == "false" then BoolLit(false)
    else if w == "as" then As else if w == "_" then Underscore
    else Ident(w)
  }

  // Symbols.

  datatype Sign = Sign(token: Token, length: nat)

  /** The symbol a text starts with, the longest one first. */
  function Symbol(t: string): (s: Option<Sign>)
    requires t != ""
    ensures s.Some? ==> 1 <= s.value.length <= |t|
  {
    var c, d := At(t, 0), At(t, 1);
    if c == '+' then Some(if d == '=' then Sign(PlusEq, 2) else Sign(Plus, 1))
    else if c == '-' then Some(if d == '=' then Sign(MinusEq, 2) else if d == '>' then Sign(Arrow, 2) else Sign(Minus, 1))
    else if c == '*' then Some(if d == '=' then Sign(StarEq, 2) else Sign(Star, 1))
    else if c == '/' then Some(if d == '=' then Sign(SlashEq, 2) else Sign(Slash, 1))
    else if c == '%' then Some(if d == '=' then Sign(PercentEq, 2) else Sign(Percent, 1))
    else if c == '&' then Some(if d == '&' then Sign(AmpAmp, 2) else if d == '=' then Sign(AmpEq, 2) else Sign(Amp, 1))
    else if c == '|' then Some(if d == '|' then Sign(PipePipe, 2) else if d == '=' then Sign(PipeEq, 2) else Sign(Pipe, 1))
    else if c == '^' then Some(if d == '=' then Sign(CaretEq, 2) else Sign(Caret, 1))
    else if c == '~' then Some(Sign(Tilde, 1))
    else if c == '!' then Some(if d == '=' then Sign(BangEq, 2) else Sign(Bang, 1))
    else if c == '=' then Some(if d == '=' then Sign(EqEq, 2) else if d == '>' then Sign(FatArrow, 2) else Sign(Assign, 1))
    else if c == '<' then Some(if d == '<' then Sign(LtLt, 2) else if d == '=' then Sign(LtEq, 2) else Sign(Lt, 1))
    else if c == '>' then Some(if d == '>' then Sign(GtGt, 2) else if d == '=' then Sign(GtEq, 2) else Sign(Gt, 1))
    else if c == '.' then
      Some(if d == '.' then if At(t, 2) == '=' then Sign(DotDotEq, 3) else Sign(DotDot, 2) else Sign(Dot, 1))
    else if c == ':' then Some(if d == ':' then Sign(ColonColon, 2) else Sign(Colon, 1))
    else if c == '{' then Some(Sign(LBrace, 1))
    else if c == '}' then Some(Sign(RBrace, 1))
    else if c == '(' then Some(Sign(LParen, 1))
    else if c == ')' then Some(Sign(RParen, 1))
    else if c == '[' then Some(Sign(LBracket, 1))
    else if c == ']' then Some(Sign(RBracket, 1))
    else if c == ';' then Some(Sign(Semi, 1))
    else if c == ',' then Some(Sign(Comma, 1))
    else None
  }

  datatype Read = Read(token: Token, rest: string)

  /** The token at the start of a text, and the text after it; none if the first character starts no token. */
  function Scan(u: string): (r: Option<Read>)
    ensures r.None? ==> u != ""
    ensures r.Some? && r.value.token != Eof && r.value.token != Foreign ==> |r.value.rest| < |u|
  {
    var c := At(u, 0);
    if c == '\0' then Some(Read(Eof, u))
    else if c == '"' || c == '\'' then Some(Read(Foreign, u))
    else if StartsNumber(u) then
      var n := SignedNumber(u);
      Some(Read(IntLit(n.n), n.rest))
    else if IsAlpha(c) || c == '_' then
      var k := WordLength(u);
      Some(Read(WordToken(u[..k]), u[k..]))
    else
      var s := Symbol(u);
      if s.None? then None else Some(Read(s.value.token, u[s.value.length..]))
  }

  /** The next token and the text after it. A character that starts no token is skipped. */
  function Next(t: string): (r: Read)
    ensures r.token != Eof && r.token != Foreign ==> |r.rest| < |t|
    decreases |t|
  {
    var u := SkipSpace(t);
    var r := Scan(u);
    if r.None? then Next(u[1..]) else r.value
  }

  /** All tokens of a text, the last one `Eof`. A literal that this model does not read ends the list. */
  function Lex(t: string): (r: seq<Token>)
    ensures r != []
    decreases |t|
  {
    var r := Next(t);
    if r.token == Eof || r.token == Foreign then [r.token] else [r.token] + Lex(r.rest)
  }

  lemma LexRound(t: string)
    ensures var r := Next(t);
            Lex(t) == if r.token == Eof || r.token == Foreign then [r.token] else [r.token] + Lex(r.rest)
  {
    hide Next;
  }

  class Lexer {
    const src: string
    var pos: nat

    constructor (src: string)
      ensures this.src == src && pos == 0
    {
      this.src := src;
      pos := 0;
    }

    ghost predicate Valid()
      reads this
    {
      pos <= |src|
    }

    /** The text still to be read. */
    ghost function Rest(): string
      requires Valid()
      reads this
    {
      src[pos..]
    }

    function Peek(i: nat): (c: char)
      requires Valid()
      reads this
      ensures c == At(Rest(), i)
    {
      if pos + i < |src| then src[pos + i] else '\0'
    }

    method SkipToLineEnd()
      requires Valid()
      modifies this
      ensures Valid() && Rest() == SkipLine(old(Rest()))
    {
      while Peek(0) != '\n' && Peek(0) != '\0'
        invariant Valid() && SkipLine(Rest()) == SkipLine(old(Rest()))
        decreases |src| - pos
      {
        assert src[pos..][1..] == src[pos + 1..];
        pos := pos + 1;
      }
    }

    method SkipComment()
      requires Valid()
      modifies this
      ensures Valid() && Rest() == SkipBlock(old(Rest()))
    {
      while Peek(0) != '\0'
        invariant Valid() && SkipBlock(Rest()) == SkipBlock(old(Rest()))
        decreases |src| - pos
      {
        if Peek(0) == '*' && Peek(1) == '/' {
          assert src[pos..][2..] == src[pos + 2..];
          pos := pos + 2;
          return;
        }
        assert src[pos..][1..] == src[pos + 1..];
        pos := pos + 1;
      }
    }

    method SkipBlanks()
      requires Valid()
      modifies this
      ensures Valid() && Rest() == SkipSpace(old(Rest()))
    {
      hide SkipSpace, SkipLine, SkipBlock;
      while true
        invariant Valid() && SkipSpace(Rest()) == SkipSpace(old(Rest()))
        decreases |src| - pos
      {
        while pos < |src| && src[pos] <= ' '
          invariant Valid() && SkipSpace(Rest()) == SkipSpace(old(Rest()))
        {
          SpaceRound(Rest());
          assert src[pos..][1..] == src[pos + 1..];
          pos := pos + 1;
        }
        SpaceRound(Rest());
        if Peek(0) == '/' && Peek(1) == '/' {
          SkipToLineEnd();
        } else if Peek(0) == '/' && Peek(1) == '*' {
          assert src[pos..][2..] == src[pos + 2..];
          pos := pos + 2;
          SkipComment();
        } else {
          break;
        }
      }
    }

    method LexHexadecimal() returns (n: i32)
      requires Valid()
      modifies this
      ensures Valid()
      ensures var r := Hexadecimal(old(Rest()), 0); n == r.n && Rest() == r.rest
    {
      hide Wrap32, HexValue;
      n := 0;
      while IsHex(Peek(0))
        invariant Valid() && Hexadecimal(Rest(), n) == Hexadecimal(old(Rest()), 0)
        decreases |src| - pos
      {
        assert src[pos..][1..] == src[pos + 1..];
        n := Wrap32(n * 16 + HexValue(src[pos]));
        pos := pos + 1;
      }
    }

    method LexBinary() returns (n: i32)
      requires Valid()
      modifies this
      ensures Valid()
      ensures var r := Binary(old(Rest()), 0); n == r.n && Rest() == r.rest
    {
      hide Wrap32;
      n := 0;
      while Peek(0) == '0' || Peek(0) == '1'
        invariant Valid() && Binary(Rest(), n) == Binary(old(Rest()), 0)
        decreases |src| - pos
      {
        assert src[pos..][1..] == src[pos + 1..];
        n := Wrap32(n * 2 + DigitValue(src[pos]));
        pos := pos + 1;
      }
    }

    method LexDecimal() returns (n: i32)
      requires Valid()
      modifies this
      ensures Valid()
      ensures var r := Decimal(old(Rest()), 0); n == r.n && Rest() == r.rest
    {
      hide Wrap32;
      n := 0;
      while IsDigit(Peek(0))
        invariant Valid() && Decimal(Rest(), n) == Decimal(old(Rest()), 0)
        decreases |src| - pos
      {
        assert src[pos..][1..] == src[pos + 1..];
        n := Wrap32(n * 10 + DigitValue(src[pos]));
        pos := pos + 1;
      }
    }

    method SkipSuffixLetters()
      requires Valid()
      modifies this
      ensures Valid() && Rest() == SkipSuffix(old(Rest()))
    {
      while IsAlpha(Peek(0)) || Peek(0) == '_'
        invariant Valid() && SkipSuffix(Rest()) == SkipSuffix(old(Rest()))
        decreases |src| - pos
      {
        assert src[pos..][1..] == src[pos + 1..];
        pos := pos + 1;
      }
    }

    method LexMagnitude() returns (n: i32)
      requires Valid()
      modifies this
      ensures Valid()
      ensures var r := Magnitude(old(Rest())); n == r.n && Rest() == r.rest
    {
      hide Hexadecimal, Binary, Decimal, SkipSuffix;
      ghost var start := Rest();
      if Peek(0) == '0' && (Peek(1) == 'x' || Peek(1) == 'X') {
        pos := pos + 2;
        assert Rest() == start[2..];
        n := LexHexadecimal();
      } else if Peek(0) == '0' && (Peek(1) == 'b' || Peek(1) == 'B') {
        pos := pos + 2;
        assert Rest() == start[2..];
        n := LexBinary();
      } else {
        n := LexDecimal();
        SkipSuffixLetters();
      }
    }

    method LexNumber() returns (n: i32)
      requires Valid() && StartsNumber(Rest())
      modifies this
      ensures Valid()
      ensures var r := SignedNumber(old(Rest())); n == r.n && Rest() == r.rest
    {
      hide Wrap32, Magnitude;
      var neg := Peek(0) == '-';
      if neg {
        assert src[pos..][1..] == src[pos + 1..];
        pos := pos + 1;
      }
      n := LexMagnitude();
      if neg {
        n := Wrap32(0 - n);
      }
    }

    method LexWord() returns (w: string)
      requires Valid()
      modifies this
      ensures Valid()
      ensures var k := WordLength(old(Rest())); w == old(Rest())[..k] && Rest() == old(Rest())[k..]
    {
      hide WordLength;
      ghost var start := Rest();
      w := "";
      while IsWord(Peek(0))
        invariant Valid() && start == w + Rest()
        invariant WordLength(start) == |w| + WordLength(Rest())
        decreases |src| - pos
      {
        WordRound(Rest());
        assert src[pos..][1..] == src[pos + 1..] && src[pos..] == [src[pos]] + src[pos + 1..];
        w := w + [src[pos]];
        pos := pos + 1;
      }
      WordRound(Rest());
      FrontAndRest(start, w, Rest());
    }

    method ScanToken() returns (token: Option<Token>)
      requires Valid()
      modifies this
      ensures Valid()
      ensures var r := Scan(old(Rest()));
              if r.Some? then token == Some(r.value.token) && Rest() == r.value.rest
              else token.None? && Rest() == old(Rest())
    {
      hide Symbol, SignedNumber, WordToken, WordLength;
      var c := Peek(0);
      if c == '\0' {
        return Some(Eof);
      }
      if c == '"' || c == '\'' {
        return Some(Foreign);
      }
      if IsDigit(c) || (c == '-' && IsDigit(Peek(1))) {
        var n := LexNumber();
        return Some(IntLit(n));
      }
      if IsAlpha(c) || c == '_' {
        var w := LexWord();
        return Some(WordToken(w));
      }
      var s := Symbol(src[pos..]);
      if s.None? {
        return None;
      }
      assert src[pos..][s.value.length..] == src[pos + s.value.length..];
      pos := pos + s.value.length;
      token := Some(s.value.token);
    }

    method NextToken() returns (token: Token)
      requires Valid()
      modifies this
      ensures Valid()
      ensures var r := Next(old(Rest())); token == r.token && Rest() == r.rest
      decreases |src| - pos
    {
      hide Scan, SkipSpace;
      SkipBlanks();
      var t := ScanToken();
      if t.None? {
        assert src[pos..][1..] == src[pos + 1..];
        pos := pos + 1;
        token := NextToken();
      } else {
        token := t.value;
      }
    }

    method Tokenise() returns (tokens: seq<Token>)
      requires Valid()
      modifies this
      ensures tokens == Lex(old(Rest()))
    {
      hide Next, Lex;
      tokens := [];
      while true
        invariant Valid() && tokens + Lex(Rest()) == Lex(old(Rest()))
        decreases |src| - pos
      {
        LexRound(Rest());
        var t := NextToken();
        if t == Eof || t == Foreign {
          tokens := tokens + [t];
          return;
        }
        assert tokens + ([t] + Lex(Rest())) == (tokens + [t]) + Lex(Rest());
        tokens := tokens + [t];
      }
    }
  }
}
