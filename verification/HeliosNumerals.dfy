/** What the lexer reads: numbers in three bases by the value of their digits, and blanks and comments that leave the
    tokens as they are. */
module HeliosNumerals {
  import opened Bits
  import opened Wrappers
  import opened HeliosLexer
  import opened HeliosReading
  import V = HeliosValues

  const LOWER := "0123456789abcdef"
  const UPPER := "0123456789ABCDEF"

  predicate IsDigitOf(c: char, v: nat)
    requires v < 16
  {
    c == LOWER[v] || c == UPPER[v]
  }

  /** The word writes these digits, each below the base; letters may have either case. */
  predicate Writes(w: string, digits: seq<nat>, base: nat) {
    base <= 16 && |w| == |digits| && forall i :: 0 <= i < |w| ==> digits[i] < base && IsDigitOf(w[i], digits[i])
  }

  /** The value of digits, the most significant one first. */
  function InBase(digits: seq<nat>, base: nat): int {
    if digits == [] then 0 else InBase(digits[..|digits| - 1], base) * base + digits[|digits| - 1]
  }

  /** Digits behind a number that has been read. */
  function Continued(n: int, digits: seq<nat>, base: nat): int
    decreases |digits|
  {
    if digits == [] then n else Continued(n * base + digits[0], digits[1..], base)
  }

  lemma {:induction false} ContinuedSnoc(n: int, digits: seq<nat>, d: nat, base: nat)
    ensures Continued(n, digits + [d], base) == Continued(n, digits, base) * base + d
    decreases |digits|
  {
    if digits == [] {
      assert [d][1..] == [] && digits + [d] == [d];
    } else {
      assert (digits + [d])[1..] == digits[1..] + [d];
      ContinuedSnoc(n * base + digits[0], digits[1..], d, base);
    }
  }

  lemma {:induction false} ContinuedIsValue(digits: seq<nat>, base: nat)
    ensures Continued(0, digits, base) == InBase(digits, base)
  {
    if digits != [] {
      var k := |digits| - 1;
      ContinuedIsValue(digits[..k], base);
      ContinuedSnoc(0, digits[..k], digits[k], base);
      assert digits == digits[..k] + [digits[k]];
    }
  }

  lemma CongruentStep(n: int, m: int, base: int, d: int)
    requires V.Congruent(n, m)
    ensures V.Congruent(Wrap32(n * base + d), m * base + d)
  {
    var q := (n - m) / 0x1_0000_0000;
    assert n == m + q * 0x1_0000_0000;
    assert n * base + d == (m * base + d) + (q * base) * 0x1_0000_0000 by {
      assert (q * 0x1_0000_0000) * base == (q * base) * 0x1_0000_0000;
    }
    Multiple(m * base + d, q * base);
  }

  lemma Multiple(x: int, k: int)
    ensures V.Congruent(Wrap32(x + k * 0x1_0000_0000), x)
  {
  }

  lemma HexDigitValue(c: char, v: nat)
    requires v < 16 && IsDigitOf(c, v)
    ensures IsHex(c) && HexValue(c) == v
    ensures v < 10 ==> IsDigit(c) && DigitValue(c) == v
  {
  }

  lemma WritesRest(w: string, digits: seq<nat>, base: nat)
    requires Writes(w, digits, base) && w != ""
    ensures digits != [] && digits[0] < base && IsDigitOf(w[0], digits[0]) && Writes(w[1..], digits[1..], base)
  {
  }

  lemma {:induction false} HexReads(w: string, digits: seq<nat>, t: string, n: i32, m: int)
    requires Writes(w, digits, 16) && !IsHex(At(t, 0)) && V.Congruent(n, m)
    ensures var r := Hexadecimal(w + t, n); r.rest == t && V.Congruent(r.n, Continued(m, digits, 16))
    decreases |w|
  {
    hide Wrap32, HexValue, Writes, V.Congruent;
    if w == "" {
      assert digits == [] by { WritesNone(w, digits, 16); }
      assert w + t == t;
    } else {
      WritesRest(w, digits, 16);
      HexDigitValue(w[0], digits[0]);
      CongruentStep(n, m, 16, digits[0]);
      assert (w + t)[1..] == w[1..] + t;
      HexReads(w[1..], digits[1..], t, Wrap32(n * 16 + digits[0]), m * 16 + digits[0]);
    }
  }

  lemma WritesNone(w: string, digits: seq<nat>, base: nat)
    requires Writes(w, digits, base)
    ensures |w| == |digits|
  {
  }

  lemma {:induction false} BinaryReads(w: string, digits: seq<nat>, t: string, n: i32, m: int)
    requires Writes(w, digits, 2) && At(t, 0) != '0' && At(t, 0) != '1' && V.Congruent(n, m)
    ensures var r := Binary(w + t, n); r.rest == t && V.Congruent(r.n, Continued(m, digits, 2))
    decreases |w|
  {
    hide Wrap32, Writes, V.Congruent;
    if w == "" {
      assert digits == [] by { WritesNone(w, digits, 2); }
      assert w + t == t;
    } else {
      WritesRest(w, digits, 2);
      HexDigitValue(w[0], digits[0]);
      CongruentStep(n, m, 2, digits[0]);
      assert (w + t)[1..] == w[1..] + t;
      BinaryReads(w[1..], digits[1..], t, Wrap32(n * 2 + digits[0]), m * 2 + digits[0]);
    }
  }

  lemma {:induction false} DecimalReads(w: string, digits: seq<nat>, t: string, n: i32, m: int)
    requires Writes(w, digits, 10) && !IsDigit(At(t, 0)) && V.Congruent(n, m)
    ensures var r := Decimal(w + t, n); r.rest == t && V.Congruent(r.n, Continued(m, digits, 10))
    decreases |w|
  {
    hide Wrap32, Writes, V.Congruent;
    if w == "" {
      assert digits == [] by { WritesNone(w, digits, 10); }
      assert w + t == t;
    } else {
      WritesRest(w, digits, 10);
      HexDigitValue(w[0], digits[0]);
      CongruentStep(n, m, 10, digits[0]);
      assert (w + t)[1..] == w[1..] + t;
      DecimalReads(w[1..], digits[1..], t, Wrap32(n * 10 + digits[0]), m * 10 + digits[0]);
    }
  }

  /** The letters and underscores of a type suffix. */
  predicate IsSuffix(s: string) {
    forall i :: 0 <= i < |s| ==> IsAlpha(s[i]) || s[i] == '_'
  }

  lemma {:induction false} SuffixSkipped(s: string, t: string)
    requires IsSuffix(s) && !IsAlpha(At(t, 0)) && At(t, 0) != '_'
    ensures SkipSuffix(s + t) == t
  {
    if s == "" {
      assert s + t == t;
    } else {
      assert (s + t)[1..] == s[1..] + t;
      SuffixSkipped(s[1..], t);
    }
  }

  /** The tokens of a text that starts with a number of this value. */
  predicate ReadsNumber(text: string, value: int, rest: string) {
    var ts := Tokenised(text);
    ts != [] && ts[0].IntLit? && V.Congruent(ts[0].n, value) && ts[1..] == Tokenised(rest)
  }

  lemma NumberReads(text: string, value: int, rest: string)
    requires IsDigit(At(text, 0)) && Magnitude(text).rest == rest && V.Congruent(Magnitude(text).n, value)
    ensures ReadsNumber(text, value, rest)
  {
    hide Magnitude, V.Congruent, Tokenised;
    LexScanned(text);
  }

  /** `0x` and hexadecimal digits in either case: the value modulo 2^32. */
  lemma HexNumber(x: char, w: string, digits: seq<nat>, t: string)
    requires x in "xX" && Writes(w, digits, 16) && !IsHex(At(t, 0))
    ensures ReadsNumber("0" + ([x] + (w + t)), InBase(digits, 16), t)
  {
    hide Hexadecimal, Writes, ReadsNumber, V.Congruent;
    var text := "0" + ([x] + (w + t));
    assert text[2..] == w + t;
    assert V.Congruent(0, 0) by { ZeroCongruent(); }
    HexReads(w, digits, t, 0, 0);
    ContinuedIsValue(digits, 16);
    NumberReads(text, InBase(digits, 16), t);
  }

  lemma ZeroCongruent()
    ensures V.Congruent(0, 0)
  {
  }

  /** `0b` and binary digits. */
  lemma BinaryNumber(b: char, w: string, digits: seq<nat>, t: string)
    requires b in "bB" && Writes(w, digits, 2) && At(t, 0) != '0' && At(t, 0) != '1'
    ensures ReadsNumber("0" + ([b] + (w + t)), InBase(digits, 2), t)
  {
    hide Binary, Writes, ReadsNumber, V.Congruent;
    var text := "0" + ([b] + (w + t));
    assert text[2..] == w + t;
    assert V.Congruent(0, 0) by { ZeroCongruent(); }
    BinaryReads(w, digits, t, 0, 0);
    ContinuedIsValue(digits, 2);
    NumberReads(text, InBase(digits, 2), t);
  }

  /** Decimal digits; a suffix of letters and underscores is dropped. */
  lemma DecimalNumber(w: string, digits: seq<nat>, suffix: string, t: string)
    requires Writes(w, digits, 10) && w != "" && IsSuffix(suffix)
    requires w == "0" && suffix != "" ==> suffix[0] !in "xXbB"
    requires !IsAlpha(At(t, 0)) && At(t, 0) != '_' && (suffix == "" ==> !IsDigit(At(t, 0)))
    ensures ReadsNumber(w + (suffix + t), InBase(digits, 10), t)
  {
    hide Decimal, SkipSuffix, ReadsNumber, V.Congruent, Writes;
    var text, u := w + (suffix + t), suffix + t;
    assert V.Congruent(0, 0) by { ZeroCongruent(); }
    assert !IsDigit(At(u, 0)) by { SuffixStarts(suffix, t); }
    DecimalReads(w, digits, u, 0, 0);
    ContinuedIsValue(digits, 10);
    SuffixSkipped(suffix, t);
    WritesRest(w, digits, 10);
    HexDigitValue(w[0], digits[0]);
    NoPrefix(w, digits, suffix, t);
    NumberReads(text, InBase(digits, 10), t);
  }

  lemma SuffixStarts(suffix: string, t: string)
    requires IsSuffix(suffix) && (suffix == "" ==> !IsDigit(At(t, 0)))
    ensures !IsDigit(At(suffix + t, 0))
  {
  }

  lemma NoPrefix(w: string, digits: seq<nat>, suffix: string, t: string)
    requires Writes(w, digits, 10) && w != "" && IsSuffix(suffix)
    requires w == "0" && suffix != "" ==> suffix[0] !in "xXbB"
    requires !IsAlpha(At(t, 0))
    ensures var text := w + (suffix + t); At(text, 0) == '0' ==> At(text, 1) !in "xXbB"
  {
    var text := w + (suffix + t);
    if |w| > 1 {
      HexDigitValue(w[1], digits[1]);
    } else if At(text, 0) == '0' {
      assert w == "0";
    }
  }

  // Blanks and comments.

  /** Characters up to the space are skipped. */
  lemma BlankSkipped(c: char, t: string)
    requires c <= ' '
    ensures Tokenised([c] + t) == Tokenised(t)
  {
    hide Scan;
    assert ([c] + t)[1..] == t;
    assert SkipSpace([c] + t) == SkipSpace(t);
  }

  lemma {:induction false} LineSkipped(line: string, t: string)
    requires (forall i :: 0 <= i < |line| ==> line[i] != '\n' && line[i] != '\0') && At(t, 0) == '\n'
    ensures SkipLine(line + t) == t
  {
    if line == "" {
      assert line + t == t;
    } else {
      assert (line + t)[1..] == line[1..] + t;
      LineSkipped(line[1..], t);
    }
  }

  /** A comment up to the end of its line is skipped. */
  lemma LineComment(line: string, t: string)
    requires forall i :: 0 <= i < |line| ==> line[i] != '\n' && line[i] != '\0'
    ensures Tokenised("//" + (line + ("\n" + t))) == Tokenised(t)
  {
    hide Scan, SkipLine, SkipSpace, SkipBlock;
    var end := "\n" + t;
    var text := "//" + (line + end);
    assert text == ("//" + line) + end;
    LineSkipped("//" + line, end);
    SpaceRound(text);
    SpaceRound(end);
    assert end[1..] == t;
  }

  /** The first end of a comment is where the comment ends. */
  predicate NoEnd(c: string) {
    && (forall i :: 0 <= i < |c| ==> c[i] != '\0')
    && forall i :: 0 <= i < |c| - 1 ==> !(c[i] == '*' && c[i + 1] == '/')
  }

  lemma NoEndRest(c: string)
    requires NoEnd(c) && c != ""
    ensures NoEnd(c[1..])
  {
  }

  lemma {:induction false} BlockSkipped(c: string, t: string)
    requires NoEnd(c)
    ensures SkipBlock(c + ("*/" + t)) == t
  {
    var u := c + ("*/" + t);
    if c == "" {
      assert u == "*/" + t && u[2..] == t;
    } else {
      assert u[1..] == c[1..] + ("*/" + t);
      assert At(u, 0) == c[0] && (At(u, 0) == '*' ==> At(u, 1) != '/');
      assert NoEnd(c[1..]) by {
        NoEndRest(c);
      }
      BlockSkipped(c[1..], t);
    }
  }

  /** A comment between `/*` and the first `*/` behind it is skipped; comments do not nest. */
  lemma BlockComment(c: string, t: string)
    requires NoEnd(c)
    ensures Tokenised("/*" + (c + ("*/" + t))) == Tokenised(t)
  {
    hide Scan, SkipLine, SkipSpace, SkipBlock, NoEnd;
    var text := "/*" + (c + ("*/" + t));
    assert text[2..] == c + ("*/" + t);
    BlockSkipped(c, t);
    SpaceRound(text);
  }

  // Words and symbols.

  predicate IsKeyword(w: string) {
    || w == "fn" || w == "let" || w == "mut" || w == "return" || w == "if" || w == "else" || w == "for"
    || w == "while" || w == "loop" || w == "in" || w == "break" || w == "continue" || w == "match" || w == "struct"
    || w == "new" || w == "unsafe" || w == "step" || w == "using" || w == "print" || w == "input" || w == "asm"
    || w == "const" || w == "assert" || w == "int" || w == "str" || w == "bool" || w == "void" || w == "ptr"
    || w == "true" || w == "false" || w == "as" || w == "_"
  }

  /** Every word that is no keyword is a name. */
  lemma WordsAreNames(w: string)
    ensures !IsKeyword(w) ==> WordToken(w) == Ident(w)
  {
  }

  /** The keywords. */
  lemma KeywordsRead()
    ensures WordToken("fn") == Fn && WordToken("let") == Let
    ensures WordToken("mut") == Mut && WordToken("return") == Return
    ensures WordToken("if") == If && WordToken("else") == Else
    ensures WordToken("for") == For && WordToken("while") == While
    ensures WordToken("loop") == Loop && WordToken("in") == In
    ensures WordToken("break") == Break && WordToken("continue") == Continue
    ensures WordToken("match") == Match && WordToken("struct") == Struct
    ensures WordToken("new") == New && WordToken("unsafe") == Unsafe
    ensures WordToken("step") == Step && WordToken("using") == Using
    ensures WordToken("print") == Print && WordToken("input") == Token.Input
    ensures WordToken("asm") == Asm && WordToken("const") == Const
    ensures WordToken("assert") == Assert && WordToken("int") == TInt
    ensures WordToken("str") == TStr && WordToken("bool") == TBool
    ensures WordToken("void") == TVoid && WordToken("ptr") == TPtr
    ensures WordToken("true") == BoolLit(true) && WordToken("false") == BoolLit(false)
    ensures WordToken("as") == As && WordToken("_") == Underscore
  {
    hide WordToken;
    DeclarationWords(); BranchWords(); LoopWords(); KindWords(); UnsafeWords();
    StepWords(); PrintWords(); ConstWords(); AssertWords();
    TypeWords(); VoidWords(); TruthWords(); CastWords();
  }

  lemma DeclarationWords()
    ensures WordToken("fn") == Fn && WordToken("let") == Let
    ensures WordToken("mut") == Mut && WordToken("return") == Return
  {
  }

  lemma BranchWords()
    ensures WordToken("if") == If && WordToken("else") == Else
    ensures WordToken("for") == For && WordToken("while") == While
  {
  }

  lemma LoopWords()
    ensures WordToken("loop") == Loop && WordToken("in") == In
    ensures WordToken("break") == Break && WordToken("continue") == Continue
  {
  }

  lemma KindWords()
    ensures WordToken("match") == Match && WordToken("struct") == Struct
  {
  }

  lemma UnsafeWords()
    ensures WordToken("new") == New && WordToken("unsafe") == Unsafe
  {
  }

  lemma StepWords()
    ensures WordToken("step") == Step && WordToken("using") == Using
  {
  }

  lemma PrintWords()
    ensures WordToken("print") == Print && WordToken("input") == Token.Input
  {
  }

  lemma ConstWords()
    ensures WordToken("asm") == Asm && WordToken("const") == Const
  {
  }

  lemma AssertWords()
    ensures WordToken("assert") == Assert && WordToken("int") == TInt
  {
  }

  lemma TypeWords()
    ensures WordToken("str") == TStr && WordToken("bool") == TBool
  {
  }

  lemma VoidWords()
    ensures WordToken("void") == TVoid && WordToken("ptr") == TPtr
  {
  }

  lemma TruthWords()
    ensures WordToken("true") == BoolLit(true) && WordToken("false") == BoolLit(false)
  {
  }

  lemma CastWords()
    ensures WordToken("as") == As && WordToken("_") == Underscore
  {
  }

  const SYMBOLS: seq<(string, Token)> :=
    [("+=", PlusEq), ("-=", MinusEq), ("*=", StarEq), ("/=", SlashEq), ("%=", PercentEq), ("&=", AmpEq), ("|=", PipeEq),
     ("^=", CaretEq), ("->", Arrow), ("=>", FatArrow), ("::", ColonColon), ("..=", DotDotEq)]

  /** Symbols of two and three characters are read as a whole. */
  lemma LongSymbols(i: nat, t: string)
    requires i < |SYMBOLS|
    ensures Symbol(SYMBOLS[i].0 + t) == Some(Sign(SYMBOLS[i].1, |SYMBOLS[i].0|))
  {
  }
}
