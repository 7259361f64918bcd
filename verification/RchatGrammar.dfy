/** JSON strings as section 7 of RFC 8259 defines them: which texts stand for which characters, written from the
    writer's side, and that the reader accepts exactly those. */
module RchatGrammar {
  import opened Wrappers
  import opened RchatJson

  const LOWER := "0123456789abcdef"
  const UPPER := "0123456789ABCDEF"

  /** The letters of the two-character escapes, and the characters they stand for. */
  const LETTERS := "\"\\/bfnrt"
  const MEANT: seq<scalar> := [0x22, 0x5C, 0x2F, 0x08, 0x0C, 0x0A, 0x0D, 0x09]

  predicate IsDigitOf(c: scalar, v: nat)
    requires v < 16
  {
    c == LOWER[v] as int || c == UPPER[v] as int
  }

  /** A UTF-16 unit as an escape: backslash, u and four hexadecimal digits, each in either case. */
  predicate IsUnit(piece: seq<scalar>, unit: nat)
    requires unit < 0x1_0000
  {
    && |piece| == 6 && piece[0] == '\\' as int && piece[1] == 'u' as int
    && IsDigitOf(piece[2], unit / 0x1000) && IsDigitOf(piece[3], unit / 0x100 % 0x10)
    && IsDigitOf(piece[4], unit / 0x10 % 0x10) && IsDigitOf(piece[5], unit % 0x10)
  }

  predicate IsPlain(piece: seq<scalar>, c: scalar) {
    piece == [c] && c >= 0x20 && c != '"' as int && c != '\\' as int
  }

  predicate IsShort(piece: seq<scalar>, c: scalar) {
    |piece| == 2 && piece[0] == '\\' as int
    && exists k :: 0 <= k < |LETTERS| && piece[1] == LETTERS[k] as int && c == MEANT[k]
  }

  /** Above U+FFFF, two units: the ten high bits of the distance to 0x10000, then the ten low ones. */
  predicate IsPair(piece: seq<scalar>, c: scalar) {
    && c >= 0x1_0000 && |piece| == 12
    && IsUnit(piece[..6], 0xD800 + (c - 0x1_0000) / 0x400) && IsUnit(piece[6..], 0xDC00 + (c - 0x1_0000) % 0x400)
  }

  /** The ways to write one character. */
  predicate Spells(piece: seq<scalar>, c: scalar) {
    IsPlain(piece, c) || IsShort(piece, c) || (c < 0x1_0000 && IsUnit(piece, c)) || IsPair(piece, c)
  }

  /** The text between the quotes stands for t: it is made of ways to write the characters of t. */
  predicate SpellsText(s: seq<scalar>, t: seq<scalar>)
    decreases |t|
  {
    if t == [] then s == []
    else exists n :: 0 < n <= |s| && SpellsFirst(s, n, t)
  }

  predicate SpellsFirst(s: seq<scalar>, n: nat, t: seq<scalar>)
    requires n <= |s| && t != []
    decreases |t|, 0
  {
    Spells(s[..n], t[0]) && SpellsText(s[n..], t[1..])
  }

  // Digits and units.

  lemma DigitReads(c: scalar, v: nat)
    requires v < 16
    ensures Hex(c) == Some(v) <==> IsDigitOf(c, v)
  {
  }

  lemma UnitParts(u: nat)
    requires u < 0x1_0000
    ensures u / 0x1000 < 16
    ensures ((u / 0x1000 * 16 + u / 0x100 % 0x10) * 16 + u / 0x10 % 0x10) * 16 + u % 0x10 == u
  {
  }

  /** Four digits are read as the unit they write. */
  lemma UnitReads(text: seq<scalar>, i: nat, u: nat)
    requires u < 0x1_0000 && i + 6 <= |text|
    ensures text[i] == BACKSLASH && text[i + 1] == 0x75 && CodeUnit(text, i + 2) == Some(u)
            <==> IsUnit(text[i..i + 6], u)
  {
    hide Hex, IsDigitOf;
    UnitParts(u);
    var a, b, c, d := text[i + 2], text[i + 3], text[i + 4], text[i + 5];
    DigitReads(a, u / 0x1000);
    DigitReads(b, u / 0x100 % 0x10);
    DigitReads(c, u / 0x10 % 0x10);
    DigitReads(d, u % 0x10);
    if CodeUnit(text, i + 2) == Some(u) {
      SameDigits(Hex(a).value, Hex(b).value, Hex(c).value, Hex(d).value, u);
    }
  }

  lemma SameDigits(a: nat, b: nat, c: nat, d: nat, u: nat)
    requires a < 16 && b < 16 && c < 16 && d < 16 && ((a * 16 + b) * 16 + c) * 16 + d == u
    ensures a == u / 0x1000 && b == u / 0x100 % 0x10 && c == u / 0x10 % 0x10 && d == u % 0x10
  {
  }

  lemma ShortReads(letter: scalar, c: scalar)
    ensures Simple(letter) == Some(c) <==>
            exists k :: 0 <= k < |LETTERS| && letter == LETTERS[k] as int && c == MEANT[k]
  {
    assert LETTERS[0] == '"' && LETTERS[1] == '\\' && LETTERS[2] == '/' && LETTERS[3] == 'b' && LETTERS[4] == 'f'
           && LETTERS[5] == 'n' && LETTERS[6] == 'r' && LETTERS[7] == 't';
    assert MEANT[0] == 0x22 && MEANT[1] == 0x5C && MEANT[2] == 0x2F && MEANT[3] == 0x08 && MEANT[4] == 0x0C
           && MEANT[5] == 0x0A && MEANT[6] == 0x0D && MEANT[7] == 0x09;
  }

  // Reading what is written.

  lemma PlainReads(text: seq<scalar>, i: nat, c: scalar, acc: seq<scalar>)
    requires i < |text| && IsPlain(text[i..i + 1], c)
    ensures Unescape(text, i, acc) == Unescape(text, i + 1, acc + [c])
  {
    assert text[i] == text[i..i + 1][0];
  }

  lemma ShortFormReads(text: seq<scalar>, i: nat, c: scalar, acc: seq<scalar>)
    requires i + 2 <= |text| && IsShort(text[i..i + 2], c)
    ensures Unescape(text, i, acc) == Unescape(text, i + 2, acc + [c])
  {
    hide Unicode, Simple;
    var p := text[i..i + 2];
    assert text[i] == p[0] && text[i + 1] == p[1];
    ShortReads(p[1], c);
    NoLetterU(p[1]);
  }

  lemma NoLetterU(letter: scalar)
    ensures Simple(letter).Some? ==> letter != 0x75
  {
  }

  lemma UnitFormReads(text: seq<scalar>, i: nat, c: scalar, acc: seq<scalar>)
    requires i + 6 <= |text| && c < 0x1_0000 && IsUnit(text[i..i + 6], c)
    ensures Unescape(text, i, acc) == Unescape(text, i + 6, acc + [c])
  {
    hide CodeUnit, IsUnit;
    UnitReads(text, i, c);
  }

  lemma PairFormReads(text: seq<scalar>, i: nat, c: scalar, acc: seq<scalar>)
    requires i + 12 <= |text| && IsPair(text[i..i + 12], c)
    ensures Unescape(text, i, acc) == Unescape(text, i + 12, acc + [c])
  {
    hide CodeUnit, IsUnit;
    var p := text[i..i + 12];
    assert p[..6] == text[i..i + 6] && p[6..] == text[i + 6..i + 12];
    var d := c - 0x1_0000;
    UnitReads(text, i, 0xD800 + d / 0x400);
    UnitReads(text, i + 6, 0xDC00 + d % 0x400);
    assert d / 0x400 * 0x400 + d % 0x400 == d;
  }

  /** A character in any spelling is read as the character. */
  lemma OneReads(text: seq<scalar>, i: nat, n: nat, c: scalar, acc: seq<scalar>)
    requires i + n <= |text| && Spells(text[i..i + n], c)
    ensures n > 0 && Unescape(text, i, acc) == Unescape(text, i + n, acc + [c])
  {
    hide Unescape, IsUnit;
    var p := text[i..i + n];
    if IsPlain(p, c) {
      PlainReads(text, i, c, acc);
    } else if IsShort(p, c) {
      ShortFormReads(text, i, c, acc);
    } else if c < 0x1_0000 && IsUnit(p, c) {
      assert n == 6 by { UnitLength(p, c); }
      UnitFormReads(text, i, c, acc);
    } else {
      PairFormReads(text, i, c, acc);
    }
  }

  lemma UnitLength(p: seq<scalar>, u: nat)
    requires u < 0x1_0000 && IsUnit(p, u)
    ensures |p| == 6
  {
  }

  lemma {:induction false} TextReads(text: seq<scalar>, i: nat, e: nat, t: seq<scalar>, acc: seq<scalar>)
    requires i <= e < |text| && text[e] == QUOTE && SpellsText(text[i..e], t)
    ensures Unescape(text, i, acc) == Some(Quoted(acc + t, e))
    decreases |t|
  {
    hide Spells;
    if t == [] {
      assert text[i..e] == [] && acc + t == acc;
    } else {
      var s := text[i..e];
      var n :| 0 < n <= |s| && SpellsFirst(s, n, t);
      assert s[..n] == text[i..i + n] && s[n..] == text[i + n..e];
      OneReads(text, i, n, t[0], acc);
      TextReads(text, i + n, e, t[1..], acc + [t[0]]);
      assert acc + [t[0]] + t[1..] == acc + t;
    }
  }

  // What is read has been written.

  /** An escape of four digits that is read is a unit or a pair. */
  lemma UnicodeSpelled(text: seq<scalar>, i: nat)
    requires i + 2 <= |text| && text[i] == BACKSLASH && text[i + 1] == 0x75 && Unicode(text, i + 2).Some?
    ensures var u := Unicode(text, i + 2).value; u.next <= |text| && i < u.next && Spells(text[i..u.next], u.c)
  {
    hide CodeUnit, IsUnit;
    var u := Unicode(text, i + 2).value;
    var high := CodeUnit(text, i + 2).value;
    UnitReads(text, i, high);
    if u.next == i + 12 {
      var low := CodeUnit(text, i + 8).value;
      UnitReads(text, i + 6, low);
      var p := text[i..i + 12];
      assert p[..6] == text[i..i + 6] && p[6..] == text[i + 6..i + 12];
      PairParts(high - 0xD800, low - 0xDC00);
    }
  }

  lemma PairParts(a: nat, b: nat)
    requires a < 0x400 && b < 0x400
    ensures (a * 0x400 + b) / 0x400 == a && (a * 0x400 + b) % 0x400 == b
  {
  }

  lemma OneSpelled(text: seq<scalar>, i: nat, acc: seq<scalar>) returns (n: nat, c: scalar)
    requires i < |text| && text[i] != QUOTE && Unescape(text, i, acc).Some?
    ensures 0 < n && i + n <= |text| && Spells(text[i..i + n], c)
    ensures Unescape(text, i, acc) == Unescape(text, i + n, acc + [c])
  {
    hide Spells, Unicode, Simple;
    if text[i] != BACKSLASH {
      n, c := 1, text[i];
      PlainSpells(text, i);
    } else if text[i + 1] == 0x75 {
      UnicodeSpelled(text, i);
      var u := Unicode(text, i + 2).value;
      n, c := u.next - i, u.c;
    } else {
      n, c := 2, Simple(text[i + 1]).value;
      ShortSpells(text, i);
    }
  }

  lemma PlainSpells(text: seq<scalar>, i: nat)
    requires i < |text| && text[i] != QUOTE && text[i] != BACKSLASH && text[i] > 0x1F
    ensures Spells(text[i..i + 1], text[i])
  {
    assert text[i..i + 1] == [text[i]];
  }

  lemma ShortSpells(text: seq<scalar>, i: nat)
    requires i + 1 < |text| && text[i] == BACKSLASH && Simple(text[i + 1]).Some?
    ensures Spells(text[i..i + 2], Simple(text[i + 1]).value)
  {
    hide Simple;
    ShortReads(text[i + 1], Simple(text[i + 1]).value);
  }

  lemma {:induction false} TextSpelled(text: seq<scalar>, i: nat, acc: seq<scalar>)
    requires Unescape(text, i, acc).Some?
    ensures var q := Unescape(text, i, acc).value;
            acc <= q.text && text[q.end] == QUOTE && SpellsText(text[i..q.end], q.text[|acc|..])
    decreases |text| - i
  {
    hide Spells;
    if text[i] == QUOTE {
      assert acc[|acc|..] == [] && text[i..i] == [];
    } else {
      hide Unescape;
      var n, c := OneSpelled(text, i, acc);
      TextSpelled(text, i + n, acc + [c]);
      var q := Unescape(text, i, acc).value;
      var s, t := text[i..q.end], q.text[|acc|..];
      assert s[..n] == text[i..i + n] && s[n..] == text[i + n..q.end];
      assert q.text[|acc|] == (acc + [c])[|acc|] && t[0] == c && t[1..] == q.text[|acc + [c]|..];
      assert SpellsFirst(s, n, t);
    }
  }

  /** The reader gives a text exactly if the characters up to the next closing quote are a spelling of it. */
  lemma StringReads(text: seq<scalar>, i: nat, t: seq<scalar>, e: nat)
    ensures Unescape(text, i, []) == Some(Quoted(t, e)) <==>
            i <= e < |text| && text[e] == QUOTE && SpellsText(text[i..e], t)
  {
    hide Unescape, SpellsText;
    if Unescape(text, i, []) == Some(Quoted(t, e)) {
      TextSpelled(text, i, []);
      assert t[0..] == t;
    }
    if i <= e < |text| && text[e] == QUOTE && SpellsText(text[i..e], t) {
      TextReads(text, i, e, t, []);
      assert [] + t == t;
    }
  }

  predicate IsSecond(piece: seq<scalar>, u: nat) {
    0xDC00 <= u < 0xE000 && IsUnit(piece, u)
  }

  ghost predicate HasSecond(piece: seq<scalar>) {
    exists u :: IsSecond(piece, u)
  }

  /** A second unit on its own, and a first one that no second one follows, are refused. */
  lemma LoneSurrogates(text: seq<scalar>, i: nat, u: nat, acc: seq<scalar>)
    requires i + 6 <= |text| && 0xD800 <= u < 0xE000 && IsUnit(text[i..i + 6], u)
    ensures u >= 0xDC00 ==> Unescape(text, i, acc).None?
    ensures u < 0xDC00 && !(i + 12 <= |text| && HasSecond(text[i + 6..i + 12])) ==>
              Unescape(text, i, acc).None?
  {
    hide CodeUnit, IsUnit;
    UnitReads(text, i, u);
    if u < 0xDC00 && i + 12 <= |text| && CodeUnit(text, i + 8).Some? {
      var v := CodeUnit(text, i + 8).value;
      UnitReads(text, i + 6, v);
      assert IsSecond(text[i + 6..i + 12], v) <==> 0xDC00 <= v < 0xE000 && IsUnit(text[i + 6..i + 12], v);
    }
    assert i + 12 > |text| ==> CodeUnit(text, i + 8).None? by {
      ShortUnit(text, i + 8);
    }
  }

  lemma ShortUnit(text: seq<scalar>, i: nat)
    ensures i + 4 > |text| ==> CodeUnit(text, i).None?
  {
  }

  /** What the sender writes for a text is a spelling of it. */
  lemma EscapeSpells(t: seq<scalar>)
    ensures SpellsText(Escape(t), t)
  {
    hide Unescape, SpellsText, Escape;
    var text := Escape(t) + [QUOTE];
    Whole(text);
    EscapeDecodes(text, 0, t, []);
    assert [] + t == t;
    StringReads(text, 0, t, |Escape(t)|);
    assert text[0..|Escape(t)|] == Escape(t);
  }

  // Objects whose values are strings.

  /** A member: its key and value, how they are spelled, and the white space before, within and behind it. */
  datatype Member = Member(key: seq<scalar>, value: seq<scalar>, keyText: seq<scalar>, valueText: seq<scalar>,
                           before: seq<scalar>, beforeColon: seq<scalar>, afterColon: seq<scalar>, behind: seq<scalar>)

  /** White space: space, tab, line feed, form feed, carriage return. */
  predicate IsBlank(s: seq<scalar>) {
    forall i :: 0 <= i < |s| ==> s[i] in {0x20, 0x09, 0x0A, 0x0C, 0x0D}
  }

  predicate ValidMember(m: Member) {
    && SpellsText(m.keyText, m.key) && SpellsText(m.valueText, m.value)
    && IsBlank(m.before) && IsBlank(m.beforeColon) && IsBlank(m.afterColon) && IsBlank(m.behind)
  }

  function InQuotes(s: seq<scalar>): seq<scalar> {
    ['"' as int] + (s + ['"' as int])
  }

  function MemberText(m: Member): seq<scalar> {
    m.before + (InQuotes(m.keyText) + (m.beforeColon + ([':' as int]
    + (m.afterColon + (InQuotes(m.valueText) + m.behind)))))
  }

  function MembersText(ms: seq<Member>): seq<scalar> {
    if ms == [] then ['}' as int]
    else MemberText(ms[0]) + (if |ms| == 1 then ['}' as int] else [',' as int] + MembersText(ms[1..]))
  }

  function ObjectText(ms: seq<Member>): seq<scalar> {
    ['{' as int] + MembersText(ms)
  }

  /** The values of the members with a key. */
  function ValuesOf(ms: seq<Member>, key: seq<scalar>): seq<seq<scalar>> {
    if ms == [] then []
    else (if ms[0].key == key then [ms[0].value] else []) + ValuesOf(ms[1..], key)
  }

  lemma SkipGap(text: seq<scalar>, i: nat, gap: seq<scalar>)
    requires Stands(text, i, gap) && IsBlank(gap) && i + |gap| < |text| && !Space(text[i + |gap|])
    ensures SkipSpace(text, i) == i + |gap|
    decreases |gap|
  {
    hide Stands;
    if gap != [] {
      StandsAt(text, i, gap, 0);
      assert gap == [gap[0]] + gap[1..];
      StandsApart(text, i, [gap[0]], gap[1..]);
      SkipGap(text, i + 1, gap[1..]);
    }
  }

  lemma NoQuoteInGap(text: seq<scalar>, field: seq<scalar>, i: nat, gap: seq<scalar>, found: Option<seq<scalar>>)
    requires Stands(text, i, gap) && forall k :: 0 <= k < |gap| ==> gap[k] != QUOTE
    ensures FieldFrom(text, field, i, found) == FieldFrom(text, field, i + |gap|, found)
  {
    hide FieldFrom;
    forall k | i <= k < i + |gap|
      ensures text[k] != QUOTE
    {
      assert text[k] == text[i..i + |gap|][k - i];
    }
    NoQuotes(text, field, i, i + |gap|, found);
  }

  lemma QuotedReads(text: seq<scalar>, i: nat, s: seq<scalar>, t: seq<scalar>)
    requires Stands(text, i, InQuotes(s)) && SpellsText(s, t)
    ensures i + 1 + |s| < |text| && text[i] == QUOTE && Unescape(text, i + 1, []) == Some(Quoted(t, i + 1 + |s|))
  {
    hide Stands, Unescape, SpellsText;
    StandsAt(text, i, InQuotes(s), 0);
    StandsAt(text, i, InQuotes(s), 1 + |s|);
    StandsApart(text, i, [QUOTE], s + [QUOTE]);
    StandsApart(text, i + 1, s, [QUOTE]);
    SliceStands(text, i + 1, s);
    StringReads(text, i + 1, t, i + 1 + |s|);
  }

  lemma SliceStands(text: seq<scalar>, i: nat, s: seq<scalar>)
    requires Stands(text, i, s)
    ensures i + |s| <= |text| && text[i..i + |s|] == s
  {
  }

  /** One step of the search, at a string. */
  lemma FieldStep(text: seq<scalar>, field: seq<scalar>, i: nat, found: Option<seq<scalar>>, key: seq<scalar>, e: nat,
                  j: nat)
    requires i < |text| && text[i] == QUOTE && Unescape(text, i + 1, []) == Some(Quoted(key, e))
    requires i < e && SkipSpace(text, e + 1) == j
    ensures j >= |text| || text[j] != COLON || key != field ==>
              FieldFrom(text, field, i, found) == FieldFrom(text, field, j, found)
    ensures j < |text| && text[j] == COLON && key == field ==>
              var v := SkipSpace(text, j + 1);
              FieldFrom(text, field, i, found) ==
              if v >= |text| || text[v] != QUOTE || found.Some? || Unescape(text, v + 1, []).None? then None
              else FieldFrom(text, field, Unescape(text, v + 1, []).value.end + 1,
                             Some(Unescape(text, v + 1, []).value.text))
  {
    hide Unescape, SkipSpace;
  }

  /** Where the parts of a member begin. */
  lemma MemberParts(text: seq<scalar>, at: nat, m: Member)
    requires Stands(text, at, MemberText(m))
    ensures var k := at + |m.before|;
            var c := k + 2 + |m.keyText| + |m.beforeColon|;
            var v := c + 1 + |m.afterColon|;
            && Stands(text, at, m.before) && Stands(text, k, InQuotes(m.keyText))
            && Stands(text, k + 2 + |m.keyText|, m.beforeColon) && Stands(text, c, [COLON])
            && Stands(text, c + 1, m.afterColon) && Stands(text, v, InQuotes(m.valueText))
            && Stands(text, v + 2 + |m.valueText|, m.behind)
            && |MemberText(m)| == v + 2 + |m.valueText| + |m.behind| - at
  {
    hide Stands;
    var k := at + |m.before|;
    var c := k + 2 + |m.keyText| + |m.beforeColon|;
    var v := c + 1 + |m.afterColon|;
    var tail := [COLON] + (m.afterColon + (InQuotes(m.valueText) + m.behind));
    StandsApart(text, at, m.before, InQuotes(m.keyText) + (m.beforeColon + tail));
    StandsApart(text, k, InQuotes(m.keyText), m.beforeColon + tail);
    StandsApart(text, k + 2 + |m.keyText|, m.beforeColon, tail);
    ValueParts(text, c, m);
  }

  lemma ValueParts(text: seq<scalar>, c: nat, m: Member)
    requires Stands(text, c, [COLON] + (m.afterColon + (InQuotes(m.valueText) + m.behind)))
    ensures var v := c + 1 + |m.afterColon|;
            && Stands(text, c, [COLON]) && Stands(text, c + 1, m.afterColon)
            && Stands(text, v, InQuotes(m.valueText)) && Stands(text, v + 2 + |m.valueText|, m.behind)
  {
    hide Stands;
    var v := c + 1 + |m.afterColon|;
    StandsApart(text, c, [COLON], m.afterColon + (InQuotes(m.valueText) + m.behind));
    StandsApart(text, c + 1, m.afterColon, InQuotes(m.valueText) + m.behind);
    StandsApart(text, v, InQuotes(m.valueText), m.behind);
  }

  /** A member takes the search past itself; with the right key, its value is found, and a second one is refused. */
  lemma MemberReads(text: seq<scalar>, field: seq<scalar>, at: nat, m: Member, found: Option<seq<scalar>>)
    requires ValidMember(m) && Stands(text, at, MemberText(m))
    requires var next := at + |MemberText(m)|; next < |text| && text[next] in {',' as int, '}' as int}
    ensures var next := at + |MemberText(m)|;
            FieldFrom(text, field, at, found) ==
            if m.key != field then FieldFrom(text, field, next, found)
            else if found.Some? then None else FieldFrom(text, field, next, Some(m.value))
  {
    hide Stands, Unescape, SpellsText, FieldFrom, SkipSpace, MemberText, InQuotes;
    var k := at + |m.before|;
    var c := k + 2 + |m.keyText| + |m.beforeColon|;
    var v := c + 1 + |m.afterColon|;
    var next := at + |MemberText(m)|;
    MemberParts(text, at, m);
    NoQuoteInGap(text, field, at, m.before, found);
    QuotedReads(text, k, m.keyText, m.key);
    StandsAt(text, c, [COLON], 0);
    SkipGap(text, k + 2 + |m.keyText|, m.beforeColon);
    QuotedReads(text, v, m.valueText, m.value);
    FieldStep(text, field, k, found, m.key, k + 1 + |m.keyText|, c);
    if m.key == field {
      SkipGap(text, c + 1, m.afterColon);
      NoQuoteInGap(text, field, v + 2 + |m.valueText|, m.behind, Some(m.value));
    } else {
      NoQuoteInGap(text, field, c, [COLON], found);
      NoQuoteInGap(text, field, c + 1, m.afterColon, found);
      SkipGap(text, v + 2 + |m.valueText|, m.behind);
      FieldStep(text, field, v, found, m.value, v + 1 + |m.valueText|, next);
    }
  }

  /** The outcome of a search that has found something or not, when these values are still to come. */
  function Outcome(found: Option<seq<scalar>>, values: seq<seq<scalar>>): Option<seq<scalar>> {
    if values == [] then found else if found.None? && |values| == 1 then Some(values[0]) else None
  }

  lemma {:induction false} MembersRead(text: seq<scalar>, field: seq<scalar>, at: nat, ms: seq<Member>,
                                       found: Option<seq<scalar>>)
    requires (forall i :: 0 <= i < |ms| ==> ValidMember(ms[i]))
    requires Stands(text, at, MembersText(ms)) && at + |MembersText(ms)| == |text|
    ensures FieldFrom(text, field, at, found) == Outcome(found, ValuesOf(ms, field))
    decreases |ms|
  {
    hide Stands, FieldFrom, MemberText, ValidMember;
    if ms == [] {
      LastBrace(text, field, at, found);
    } else {
      var m, rest := ms[0], MembersText(ms[1..]);
      var tail := if |ms| == 1 then ['}' as int] else [',' as int] + rest;
      var next := at + |MemberText(m)|;
      StandsApart(text, at, MemberText(m), tail);
      StandsAt(text, next, tail, 0);
      MemberReads(text, field, at, m, found);
      var now := if m.key == field then Some(m.value) else found;
      if |ms| == 1 {
        LastBrace(text, field, next, now);
        assert ms[1..] == [];
      } else {
        StandsApart(text, next, [',' as int], rest);
        NoQuoteInGap(text, field, next, [',' as int], now);
        MembersRead(text, field, next + 1, ms[1..], now);
      }
    }
  }

  lemma LastBrace(text: seq<scalar>, field: seq<scalar>, at: nat, found: Option<seq<scalar>>)
    requires Stands(text, at, ['}' as int]) && at + 1 == |text|
    ensures FieldFrom(text, field, at, found) == found
  {
    NoQuoteInGap(text, field, at, ['}' as int], found);
  }

  /** In an object of strings, whatever their spelling and the white space, the search finds the value of the only
      member with the key; it finds nothing if there is none, or more than one. */
  lemma ObjectField(ms: seq<Member>, field: seq<scalar>)
    requires forall i :: 0 <= i < |ms| ==> ValidMember(ms[i])
    ensures var values := ValuesOf(ms, field);
            FieldFrom(ObjectText(ms), field, 0, None) == if |values| == 1 then Some(values[0]) else None
  {
    hide Stands, FieldFrom, MembersText, ValidMember;
    var text := ObjectText(ms);
    Whole(text);
    StandsApart(text, 0, ['{' as int], MembersText(ms));
    NoQuoteInGap(text, field, 0, ['{' as int], None);
    MembersRead(text, field, 1, ms, None);
  }

  // The payload.

  /** Decimal digits as a number. */
  function InBaseTen(digits: seq<scalar>): int {
    if digits == [] then 0
    else InBaseTen(digits[..|digits| - 1]) * 10 + (digits[|digits| - 1] - '0' as int)
  }

  lemma {:induction false} DecimalIsValue(n: nat)
    ensures InBaseTen(Decimal(n)) == n && (n > 0 ==> Decimal(n)[0] != '0' as int)
  {
    if n < 10 {
      assert Decimal(n)[..0] == [];
    } else {
      DecimalIsValue(n / 10);
      assert Decimal(n)[..|Decimal(n)| - 1] == Decimal(n / 10);
    }
  }

  /** The payload of a message is `{"sent_at":`, the time, `,"text":"`, the escaped text, and `"}`. */
  lemma PayloadText(sentAt: nat, text: seq<scalar>)
    ensures Payload(sentAt, text) ==
            Codes("{\"sent_at\":") + Decimal(sentAt) + Codes(",\"text\":\"") + Escape(text) + Codes("\"}")
  {
    hide Decimal, Escape, Codes;
    PayloadFront();
    PayloadMiddle();
    PayloadBack();
    Regroup(Codes("sent_at"), Decimal(sentAt), Codes("text"), Escape(text));
  }

  lemma Regroup(a: seq<scalar>, b: seq<scalar>, c: seq<scalar>, d: seq<scalar>)
    ensures [0x7B] + (([QUOTE] + a + [QUOTE])
            + (([COLON] + b + [0x2C]) + (([QUOTE] + c + [QUOTE, COLON]) + (([QUOTE] + d + [QUOTE]) + [0x7D]))))
            == ([0x7B] + ([QUOTE] + a + [QUOTE]) + [COLON]) + b
               + ([0x2C] + ([QUOTE] + c + [QUOTE, COLON]) + [QUOTE]) + d + ([QUOTE] + [0x7D])
  {
  }

  lemma PayloadFront()
    ensures Codes("{\"sent_at\":") == [0x7B] + ([QUOTE] + Codes("sent_at") + [QUOTE]) + [COLON]
  {
  }

  lemma PayloadMiddle()
    ensures Codes(",\"text\":\"") == [0x2C] + ([QUOTE] + Codes("text") + [QUOTE, COLON]) + [QUOTE]
  {
  }

  lemma PayloadBack()
    ensures Codes("\"}") == [QUOTE] + [0x7D]
  {
  }
}
