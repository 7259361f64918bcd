/** The JSON of message payloads: escaping text, and finding a string field again. Positions count characters. */
module RchatJson {
  import opened Wrappers

  /** Unicode scalar values. */
  type scalar = x: int | 0 <= x < 0xD800 || 0xE000 <= x < 0x11_0000 witness 0

  const QUOTE: scalar := 0x22
  const BACKSLASH: scalar := 0x5C
  const COLON: scalar := 0x3A

  function Codes(s: string): (r: seq<scalar>)
    ensures |r| == |s|
  {
    seq(|s|, i requires 0 <= i < |s| => s[i] as int)
  }

  // Escaping.

  function HexDigit(v: nat): scalar
    requires v < 16
  {
    if v < 10 then 0x30 + v else 0x61 + (v - 10)
  }

  function EscapeOne(c: scalar): seq<scalar> {
    if c == QUOTE then [BACKSLASH, QUOTE]
    else if c == BACKSLASH then [BACKSLASH, BACKSLASH]
    else if c == 0x08 then [BACKSLASH, 0x62]
    else if c == 0x0C then [BACKSLASH, 0x66]
    else if c == 0x0A then [BACKSLASH, 0x6E]
    else if c == 0x0D then [BACKSLASH, 0x72]
    else if c == 0x09 then [BACKSLASH, 0x74]
    else if c <= 0x1F then [BACKSLASH, 0x75, 0x30, 0x30, HexDigit(c / 16), HexDigit(c % 16)]
    else [c]
  }

  function Escape(text: seq<scalar>): seq<scalar> {
    if text == [] then [] else EscapeOne(text[0]) + Escape(text[1..])
  }

  lemma {:induction false} EscapeSnoc(text: seq<scalar>, c: scalar)
    ensures Escape(text + [c]) == Escape(text) + EscapeOne(c)
  {
    hide EscapeOne;
    if text == [] {
      assert text + [c] == [c] && [c][1..] == [];
      assert Escape([c]) == EscapeOne(c) + [];
    } else {
      EscapeSnoc(text[1..], c);
      assert (text + [c])[1..] == text[1..] + [c];
      assert Escape(text + [c]) == EscapeOne(text[0]) + Escape(text[1..] + [c]);
    }
  }

  method JsonEscape(input: seq<scalar>) returns (output: seq<scalar>)
    ensures output == Escape(input)
  {
    output := [];
    for i := 0 to |input|
      invariant output == Escape(input[..i])
    {
      EscapeSnoc(input[..i], input[i]);
      assert input[..i + 1] == input[..i] + [input[i]];
      output := output + EscapeOne(input[i]);
    }
    assert input[..|input|] == input;
  }

  // Reading a string.

  function Hex(c: scalar): (r: Option<nat>)
    ensures r.Some? ==> r.value < 16
  {
    if 0x30 <= c <= 0x39 then Some(c - 0x30)
    else if 0x61 <= c <= 0x66 then Some(c - 0x61 + 10)
    else if 0x41 <= c <= 0x46 then Some(c - 0x41 + 10)
    else None
  }

  /** Four hexadecimal digits. */
  function CodeUnit(text: seq<scalar>, i: nat): (r: Option<nat>)
    ensures r.Some? ==> i + 4 <= |text| && r.value < 0x1_0000
  {
    hide Hex;
    if i + 4 > |text| then None else
    var a, b, c, d := Hex(text[i]), Hex(text[i + 1]), Hex(text[i + 2]), Hex(text[i + 3]);
    if a.None? || b.None? || c.None? || d.None? then None
    else Some(((a.value * 16 + b.value) * 16 + c.value) * 16 + d.value)
  }

  method JsonCodeUnit(text: seq<scalar>, start: nat) returns (r: Option<nat>)
    ensures r == CodeUnit(text, start)
  {
    if start + 4 > |text| {
      return None;
    }
    var value := 0;
    for k := 0 to 4
      invariant forall j :: start <= j < start + k ==> Hex(text[j]).Some?
      invariant k == 0 ==> value == 0
      invariant k == 1 ==> value == Hex(text[start]).value
      invariant k == 2 ==> value == Hex(text[start]).value * 16 + Hex(text[start + 1]).value
      invariant k == 3 ==> value == (Hex(text[start]).value * 16 + Hex(text[start + 1]).value) * 16 + Hex(text[start + 2]).value
      invariant k == 4 ==> Some(value) == CodeUnit(text, start)
    {
      var h := Hex(text[start + k]);
      if h.None? {
        return None;
      }
      value := value * 16 + h.value;
    }
    return Some(value);
  }

  /** The character a one-letter escape stands for. */
  function Simple(c: scalar): Option<scalar> {
    if c == QUOTE || c == BACKSLASH || c == 0x2F then Some(c)
    else if c == 0x62 then Some(0x08)
    else if c == 0x66 then Some(0x0C)
    else if c == 0x6E then Some(0x0A)
    else if c == 0x72 then Some(0x0D)
    else if c == 0x74 then Some(0x09)
    else None
  }

  datatype Unit = Unit(c: scalar, next: nat)

  /** The character of a \u escape whose digits start at i; surrogates must come in pairs. */
  function Unicode(text: seq<scalar>, i: nat): (r: Option<Unit>)
    ensures r.Some? ==> i < r.value.next <= |text|
  {
    var high := CodeUnit(text, i);
    if high.None? then None
    else if 0xD800 <= high.value <= 0xDBFF then
      if i + 6 > |text| || text[i + 4] != BACKSLASH || text[i + 5] != 0x75 then None else
      var low := CodeUnit(text, i + 6);
      if low.None? || !(0xDC00 <= low.value <= 0xDFFF) then None
      else Some(Unit(0x1_0000 + (high.value - 0xD800) * 0x400 + (low.value - 0xDC00), i + 10))
    else if 0xDC00 <= high.value <= 0xDFFF then None
    else Some(Unit(high.value, i + 4))
  }

  datatype Quoted = Quoted(text: seq<scalar>, end: nat)

  /** The string whose characters start at i, and the position of its closing quote. */
  function Unescape(text: seq<scalar>, i: nat, acc: seq<scalar>): (r: Option<Quoted>)
    ensures r.Some? ==> i <= r.value.end < |text|
    decreases |text| - i
  {
    if i >= |text| then None
    else if text[i] == QUOTE then Some(Quoted(acc, i))
    else if text[i] == BACKSLASH then
      if i + 1 >= |text| then None
      else if text[i + 1] == 0x75 then
        var u := Unicode(text, i + 2);
        if u.None? then None else Unescape(text, u.value.next, acc + [u.value.c])
      else
        var c := Simple(text[i + 1]);
        if c.None? then None else Unescape(text, i + 2, acc + [c.value])
    else if text[i] <= 0x1F then None
    else Unescape(text, i + 1, acc + [text[i]])
  }

  method DecodeJsonString(text: seq<scalar>, start: nat) returns (r: Option<Quoted>)
    ensures r == Unescape(text, start, [])
  {
    var index, output: seq<scalar> := start, [];
    while index < |text|
      invariant Unescape(text, index, output) == Unescape(text, start, [])
      decreases |text| - index
    {
      if text[index] == QUOTE {
        return Some(Quoted(output, index));
      }
      if text[index] == BACKSLASH {
        index := index + 1;
        if index >= |text| {
          return None;
        }
        if text[index] == 0x75 {
          var u := DecodeUnicode(text, index + 1);
          if u.None? {
            return None;
          }
          output := output + [u.value.c];
          index := u.value.next;
        } else {
          var c := Simple(text[index]);
          if c.None? {
            return None;
          }
          output := output + [c.value];
          index := index + 1;
        }
      } else {
        if text[index] <= 0x1F {
          return None;
        }
        output := output + [text[index]];
        index := index + 1;
      }
    }
    return None;
  }

  method DecodeUnicode(text: seq<scalar>, start: nat) returns (r: Option<Unit>)
    ensures r == Unicode(text, start)
  {
    hide CodeUnit;
    var index := start;
    var high := JsonCodeUnit(text, index);
    if high.None? {
      return None;
    }
    index := index + 4;
    if 0xD800 <= high.value <= 0xDBFF {
      if index + 2 > |text| || text[index] != BACKSLASH || text[index + 1] != 0x75 {
        return None;
      }
      index := index + 2;
      var low := JsonCodeUnit(text, index);
      if low.None? || !(0xDC00 <= low.value <= 0xDFFF) {
        return None;
      }
      index := index + 4;
      return Some(Unit(0x1_0000 + (high.value - 0xD800) * 0x400 + (low.value - 0xDC00), index));
    }
    if 0xDC00 <= high.value <= 0xDFFF {
      return None;
    }
    return Some(Unit(high.value, index));
  }

  // Finding a field.

  predicate Space(c: scalar) {
    c == 0x20 || c == 0x09 || c == 0x0A || c == 0x0C || c == 0x0D
  }

  function SkipSpace(text: seq<scalar>, i: nat): (j: nat)
    ensures i <= j && (i <= |text| ==> j <= |text|)
    decreases |text| - i
  {
    if i < |text| && Space(text[i]) then SkipSpace(text, i + 1) else i
  }

  /** The search from position i on, with what was found before. */
  function FieldFrom(text: seq<scalar>, field: seq<scalar>, i: nat, found: Option<seq<scalar>>): Option<seq<scalar>>
    decreases |text| - i
  {
    if i >= |text| then found
    else if text[i] != QUOTE then FieldFrom(text, field, i + 1, found)
    else
      var key := Unescape(text, i + 1, []);
      if key.None? then None else
      var j := SkipSpace(text, key.value.end + 1);
      if j >= |text| || text[j] != COLON || key.value.text != field then FieldFrom(text, field, j, found) else
      var v := SkipSpace(text, j + 1);
      if v >= |text| || text[v] != QUOTE || found.Some? then None else
      var value := Unescape(text, v + 1, []);
      if value.None? then None else FieldFrom(text, field, value.value.end + 1, Some(value.value.text))
  }

  method SkipWhitespace(text: seq<scalar>, i: nat) returns (j: nat)
    ensures j == SkipSpace(text, i)
  {
    j := i;
    while j < |text| && Space(text[j])
      invariant SkipSpace(text, j) == SkipSpace(text, i)
    {
      j := j + 1;
    }
  }

  method JsonUnescapedField(text: seq<scalar>, field: seq<scalar>) returns (found: Option<seq<scalar>>)
    ensures found == FieldFrom(text, field, 0, None)
  {
    hide Unescape, SkipSpace;
    var index := 0;
    found := None;
    while index < |text|
      invariant FieldFrom(text, field, index, found) == FieldFrom(text, field, 0, None)
      decreases |text| - index
    {
      if text[index] != QUOTE {
        index := index + 1;
        continue;
      }
      var key := DecodeJsonString(text, index + 1);
      if key.None? {
        return None;
      }
      index := SkipWhitespace(text, key.value.end + 1);
      if index >= |text| || text[index] != COLON || key.value.text != field {
        continue;
      }
      index := SkipWhitespace(text, index + 1);
      if index >= |text| || text[index] != QUOTE || found.Some? {
        return None;
      }
      var value := DecodeJsonString(text, index + 1);
      if value.None? {
        return None;
      }
      found := Some(value.value.text);
      index := value.value.end + 1;
    }
  }

  // The round trip.

  predicate Stands(text: seq<scalar>, at: nat, piece: seq<scalar>) {
    at + |piece| <= |text| && text[at..at + |piece|] == piece
  }

  lemma StandsApart(text: seq<scalar>, at: nat, a: seq<scalar>, b: seq<scalar>)
    requires Stands(text, at, a + b)
    ensures Stands(text, at, a) && Stands(text, at + |a|, b)
  {
    var p := text[at..at + |a + b|];
    assert p[..|a|] == a && p[|a|..] == b;
    assert text[at..at + |a|] == p[..|a|] && text[at + |a|..at + |a| + |b|] == p[|a|..];
  }

  lemma StandsAt(text: seq<scalar>, at: nat, piece: seq<scalar>, k: nat)
    requires Stands(text, at, piece) && k < |piece|
    ensures at + k < |text| && text[at + k] == piece[k]
  {
    assert text[at + k] == text[at..at + |piece|][k];
  }

  lemma HexIsDigit(v: nat)
    requires v < 16
    ensures Hex(HexDigit(v)) == Some(v)
  {
  }

  /** An escaped character reads as the character. */
  lemma OneDecodes(text: seq<scalar>, at: nat, c: scalar, acc: seq<scalar>)
    requires Stands(text, at, EscapeOne(c))
    ensures Unescape(text, at, acc) == Unescape(text, at + |EscapeOne(c)|, acc + [c])
  {
    hide HexDigit, Hex, Stands;
    var e := EscapeOne(c);
    StandsAt(text, at, e, 0);
    if |e| > 1 {
      StandsAt(text, at, e, 1);
    }
    if |e| == 6 {
      StandsAt(text, at, e, 2);
      StandsAt(text, at, e, 3);
      StandsAt(text, at, e, 4);
      StandsAt(text, at, e, 5);
      HexIsDigit(c / 16);
      HexIsDigit(c % 16);
      HexIsDigit(0);
      ZeroDigit();
      assert CodeUnit(text, at + 2) == Some(c);
    }
  }

  lemma ZeroDigit()
    ensures HexDigit(0) == 0x30
  {
  }

  /** An escaped text with a quote behind it reads as the text, whatever characters it has. */
  lemma {:induction false} EscapeDecodes(text: seq<scalar>, at: nat, t: seq<scalar>, acc: seq<scalar>)
    requires Stands(text, at, Escape(t) + [QUOTE])
    ensures Unescape(text, at, acc) == Some(Quoted(acc + t, at + |Escape(t)|))
    decreases |t|
  {
    hide EscapeOne, Stands;
    if t == [] {
      assert Escape(t) + [QUOTE] == [QUOTE] && acc + t == acc;
      StandsAt(text, at, [QUOTE], 0);
    } else {
      var e := EscapeOne(t[0]);
      assert Escape(t) + [QUOTE] == e + (Escape(t[1..]) + [QUOTE]);
      StandsApart(text, at, e, Escape(t[1..]) + [QUOTE]);
      OneDecodes(text, at, t[0], acc);
      EscapeDecodes(text, at + |e|, t[1..], acc + [t[0]]);
      assert acc + [t[0]] + t[1..] == acc + t;
    }
  }

  /** Nothing is found where there is no quote. */
  lemma {:induction false} NoQuotes(text: seq<scalar>, field: seq<scalar>, i: nat, j: nat, found: Option<seq<scalar>>)
    requires i <= j <= |text| && forall k :: i <= k < j ==> text[k] != QUOTE
    ensures FieldFrom(text, field, i, found) == FieldFrom(text, field, j, found)
    decreases j - i
  {
    if i < j {
      NoQuotes(text, field, i + 1, j, found);
    }
  }

  function Decimal(n: nat): (r: seq<scalar>)
    ensures r != [] && forall i :: 0 <= i < |r| ==> 0x30 <= r[i] <= 0x39
  {
    if n < 10 then [0x30 + n] else Decimal(n / 10) + [0x30 + n % 10]
  }

  /** The payload of a message. */
  function Payload(sentAt: nat, text: seq<scalar>): seq<scalar> {
    [0x7B] + (([QUOTE] + Codes("sent_at") + [QUOTE])
    + (([COLON] + Decimal(sentAt) + [0x2C])
    + (([QUOTE] + Codes("text") + [QUOTE, COLON])
    + (([QUOTE] + Escape(text) + [QUOTE]) + [0x7D]))))
  }

  /** Plain names are their own escape. */
  lemma {:induction false} EscapePlain(t: seq<scalar>)
    requires forall i :: 0 <= i < |t| ==> t[i] > 0x1F && t[i] != QUOTE && t[i] != BACKSLASH
    ensures Escape(t) == t
  {
    if t != [] {
      EscapePlain(t[1..]);
    }
  }

  /** A quoted text reads as the text. */
  lemma QuotedDecodes(text: seq<scalar>, at: nat, t: seq<scalar>, rest: seq<scalar>)
    requires Stands(text, at, [QUOTE] + Escape(t) + [QUOTE] + rest)
    ensures at < |text| && text[at] == QUOTE
    ensures Unescape(text, at + 1, []) == Some(Quoted(t, at + 1 + |Escape(t)|))
  {
    hide Stands, Unescape, Escape;
    StandsAt(text, at, [QUOTE] + Escape(t) + [QUOTE] + rest, 0);
    assert [QUOTE] + Escape(t) + [QUOTE] + rest == [QUOTE] + ((Escape(t) + [QUOTE]) + rest);
    StandsApart(text, at, [QUOTE], (Escape(t) + [QUOTE]) + rest);
    StandsApart(text, at + 1, Escape(t) + [QUOTE], rest);
    EscapeDecodes(text, at + 1, t, []);
    assert [] + t == t;
  }

  lemma NamesArePlain()
    ensures Escape(Codes("sent_at")) == Codes("sent_at") && Escape(Codes("text")) == Codes("text")
    ensures |Codes("sent_at")| == 7 && |Codes("text")| == 4 && Codes("sent_at") != Codes("text")
  {
    var a, b := Codes("sent_at"), Codes("text");
    assert forall i :: 0 <= i < |a| ==> a[i] == "sent_at"[i] as int;
    assert forall i :: 0 <= i < |b| ==> b[i] == "text"[i] as int;
    EscapePlain(a);
    EscapePlain(b);
  }

  lemma NoSpace(text: seq<scalar>, i: nat)
    requires i < |text| && !Space(text[i])
    ensures SkipSpace(text, i) == i
  {
  }

  /** Where the parts of a payload begin. */
  lemma PayloadParts(sentAt: nat, text: seq<scalar>)
    ensures var p := Payload(sentAt, text);
            var c := 10 + |Decimal(sentAt)| + 1;
            && Stands(p, 0, [0x7B]) && Stands(p, 1, [QUOTE] + Codes("sent_at") + [QUOTE])
            && Stands(p, 10, [COLON] + Decimal(sentAt) + [0x2C])
            && Stands(p, c + 1, [QUOTE] + Codes("text") + [QUOTE, COLON])
            && Stands(p, c + 8, [QUOTE] + Escape(text) + [QUOTE])
            && Stands(p, c + 10 + |Escape(text)|, [0x7D]) && |p| == c + 11 + |Escape(text)|
  {
    hide Stands, Decimal, Escape, Codes;
    var a := [QUOTE] + Codes("sent_at") + [QUOTE];
    var b := [COLON] + Decimal(sentAt) + [0x2C];
    var d := [QUOTE] + Codes("text") + [QUOTE, COLON];
    var e := [QUOTE] + Escape(text) + [QUOTE];
    Whole(Payload(sentAt, text));
    StandsApart(Payload(sentAt, text), 0, [0x7B], a + (b + (d + (e + [0x7D]))));
    StandsApart(Payload(sentAt, text), 1, a, b + (d + (e + [0x7D])));
    StandsApart(Payload(sentAt, text), 10, b, d + (e + [0x7D]));
    StandsApart(Payload(sentAt, text), 10 + |b|, d, e + [0x7D]);
    StandsApart(Payload(sentAt, text), 10 + |b| + |d|, e, [0x7D]);
  }

  lemma Whole(p: seq<scalar>)
    ensures Stands(p, 0, p)
  {
    assert p[0..|p|] == p;
  }

  /** The text field of a sender's payload is exactly the text that was sent. */
  lemma PayloadRoundTrip(sentAt: nat, text: seq<scalar>)
    ensures FieldFrom(Payload(sentAt, text), Codes("text"), 0, None) == Some(text)
  {
    hide Stands, Decimal, Escape, Codes, Unescape, Payload, SkipSpace;
    var p, d := Payload(sentAt, text), Decimal(sentAt);
    var c := 11 + |d|;
    PayloadParts(sentAt, text);
    NamesArePlain();
    StandsAt(p, 0, [0x7B], 0);
    NameDecodes(p, 1, Codes("sent_at"));
    StandsAt(p, 10, [COLON] + d + [0x2C], 0);
    NoSpace(p, 10);
    MiddlePlain(p, d);
    NoQuotes(p, Codes("text"), 10, c + 1, None);
    StandsAt(p, c + 10 + |Escape(text)|, [0x7D], 0);
    FieldDecodes(p, c + 1, text);
  }

  lemma NameDecodes(p: seq<scalar>, at: nat, name: seq<scalar>)
    requires Stands(p, at, [QUOTE] + name + [QUOTE]) && Escape(name) == name
    ensures at < |p| && p[at] == QUOTE && Unescape(p, at + 1, []) == Some(Quoted(name, at + 1 + |name|))
  {
    hide Stands, Unescape, Escape;
    assert [QUOTE] + Escape(name) + [QUOTE] + [] == [QUOTE] + name + [QUOTE];
    QuotedDecodes(p, at, name, []);
  }

  lemma MiddlePlain(p: seq<scalar>, d: seq<scalar>)
    requires Stands(p, 10, [COLON] + d + [0x2C]) && forall i :: 0 <= i < |d| ==> 0x30 <= d[i] <= 0x39
    ensures 12 + |d| <= |p| && forall k :: 10 <= k < 12 + |d| ==> p[k] != QUOTE
  {
    var m := [COLON] + d + [0x2C];
    assert forall i :: 0 <= i < |m| ==> m[i] != QUOTE;
    forall k | 10 <= k < 12 + |d|
      ensures p[k] != QUOTE
    {
      assert p[k] == p[10..10 + |m|][k - 10];
    }
  }

  /** The text field, from its name on. */
  lemma FieldDecodes(p: seq<scalar>, at: nat, text: seq<scalar>)
    requires Stands(p, at, [QUOTE] + Codes("text") + [QUOTE, COLON]) && Stands(p, at + 7, [QUOTE] + Escape(text) + [QUOTE])
    requires at + 9 + |Escape(text)| + 1 == |p| && p[at + 9 + |Escape(text)|] != QUOTE
    ensures FieldFrom(p, Codes("text"), at, None) == Some(text)
  {
    hide Stands, Escape, Codes, Unescape, SkipSpace;
    NamesArePlain();
    var name := Codes("text");
    assert [QUOTE] + name + [QUOTE, COLON] == ([QUOTE] + name + [QUOTE]) + [COLON];
    StandsApart(p, at, [QUOTE] + name + [QUOTE], [COLON]);
    NameDecodes(p, at, name);
    StandsAt(p, at + 6, [COLON], 0);
    NoSpace(p, at + 6);
    assert [QUOTE] + Escape(text) + [QUOTE] + [] == [QUOTE] + Escape(text) + [QUOTE];
    QuotedDecodes(p, at + 7, text, []);
    NoSpace(p, at + 7);
    NoQuotes(p, name, at + 9 + |Escape(text)|, |p|, Some(text));
  }
}
