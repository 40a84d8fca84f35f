/** The wire encoding of app/src/api/ApiJson.h: strings, integers and integer arrays, read
    back by a decoder written from RFC 8259. */
module Json {
  import opened Options

  type Byte = b: int | 0 <= b < 256
  type Text = seq<Byte>

  /** What a decoder read and what is left after it. */
  datatype Parsed<T> = Parsed(value: T, rest: Text)

  const QUOTE: Byte := 34
  const BACKSLASH: Byte := 92

  // ------------------------------------------------- the decoder, section 7

  function HexValue(b: Byte): Option<nat> {
    if 48 <= b <= 57 then Some(b - 48)
    else if 97 <= b <= 102 then Some(b - 87)
    else if 65 <= b <= 70 then Some(b - 55)
    else None
  }

  /** The four hexadecimal digits after a backslash and a u. */
  function Unit(s: Text): Option<nat> {
    if |s| < 4 || HexValue(s[0]).None? || HexValue(s[1]).None? || HexValue(s[2]).None? || HexValue(s[3]).None? then None
    else Some(HexValue(s[0]).value * 4096 + HexValue(s[1]).value * 256 +
              HexValue(s[2]).value * 16 + HexValue(s[3]).value)
  }

  /** The UTF-8 bytes of a code point. */
  function Utf8(c: nat): Text
    requires c < 0x110000
  {
    if c < 0x80 then [c]
    else if c < 0x800 then [0xC0 + c / 64, 0x80 + c % 64]
    else if c < 0x10000 then [0xE0 + c / 4096, 0x80 + c / 64 % 64, 0x80 + c % 64]
    else [0xF0 + c / 262144, 0x80 + c / 4096 % 64, 0x80 + c / 64 % 64, 0x80 + c % 64]
  }

  /** The two-character escapes. */
  function Simple(b: Byte): Option<Byte> {
    if b == QUOTE || b == BACKSLASH || b == 47 then Some(b)
    else if b == 98 then Some(8)
    else if b == 102 then Some(12)
    else if b == 110 then Some(10)
    else if b == 114 then Some(13)
    else if b == 116 then Some(9)
    else None
  }

  /** One character of a string, escaped or not; a pair of surrogates is one character and a
      lone one is refused. */
  function Character(s: Text): (r: Option<Parsed<Text>>)
    ensures r.Some? ==> |r.value.rest| < |s|
  {
    if s == [] || s[0] < 0x20 || s[0] == QUOTE then None
    else if s[0] != BACKSLASH then Some(Parsed([s[0]], s[1..]))
    else if |s| < 2 then None
    else if Simple(s[1]).Some? then Some(Parsed([Simple(s[1]).value], s[2..]))
    else if s[1] != 117 || Unit(s[2..]).None? then None
    else
      var u := Unit(s[2..]).value;
      if 0xD800 <= u < 0xDC00 then
        if |s| >= 8 && s[6] == BACKSLASH && s[7] == 117 && Unit(s[8..]).Some? && 0xDC00 <= Unit(s[8..]).value < 0xE000
        then Some(Parsed(Utf8(0x10000 + (u - 0xD800) * 1024 + (Unit(s[8..]).value - 0xDC00)), s[12..]))
        else None
      else if 0xDC00 <= u < 0xE000 || u >= 0x10000 then None
      else Some(Parsed(Utf8(u), s[6..]))
  }

  /** The characters up to and including the closing quotation mark. */
  function Characters(s: Text): Option<Parsed<Text>>
    decreases |s|
  {
    if s == [] then None
    else if s[0] == QUOTE then Some(Parsed([], s[1..]))
    else
      var c := Character(s);
      if c.None? then None
      else
        var more := Characters(c.value.rest);
        if more.None? then None else Some(Parsed(c.value.value + more.value.value, more.value.rest))
  }

  function DecodeString(s: Text): Option<Parsed<Text>> {
    if s == [] || s[0] != QUOTE then None else Characters(s[1..])
  }

  // ----------------------------------------------------------------- the writer

  function Hex(n: nat): Byte
    requires n < 16
  {
    if n < 10 then 48 + n else 87 + n
  }

  /** What the writer appends for one byte. */
  function Escaped(b: Byte): Text {
    if b == QUOTE then [BACKSLASH, QUOTE]
    else if b == BACKSLASH then [BACKSLASH, BACKSLASH]
    else if b == 8 then [BACKSLASH, 98]
    else if b == 12 then [BACKSLASH, 102]
    else if b == 10 then [BACKSLASH, 110]
    else if b == 13 then [BACKSLASH, 114]
    else if b == 9 then [BACKSLASH, 116]
    else if b < 0x20 then [BACKSLASH, 117, 48, 48, Hex(b / 16), Hex(b % 16)]
    else [b]
  }

  function EscapedAll(text: Text): Text {
    if text == [] then [] else Escaped(text[0]) + EscapedAll(text[1..])
  }

  function Quoted(text: Text): Text {
    [QUOTE] + EscapedAll(text) + [QUOTE]
  }

  lemma {:induction false} EscapedAllSnoc(text: Text, b: Byte)
    ensures EscapedAll(text + [b]) == EscapedAll(text) + Escaped(b)
  {
    if text == [] {
      assert [b][1..] == [];
    } else {
      assert (text + [b])[1..] == text[1..] + [b];
      EscapedAllSnoc(text[1..], b);
    }
  }

  method AppendEscaped(before: Text, b: Byte) returns (out: Text)
    ensures out == before + Escaped(b)
  {
    out := before;
    if b == QUOTE { out := out + [BACKSLASH, QUOTE]; }
    else if b == BACKSLASH { out := out + [BACKSLASH, BACKSLASH]; }
    else if b == 8 { out := out + [BACKSLASH, 98]; }
    else if b == 12 { out := out + [BACKSLASH, 102]; }
    else if b == 10 { out := out + [BACKSLASH, 110]; }
    else if b == 13 { out := out + [BACKSLASH, 114]; }
    else if b == 9 { out := out + [BACKSLASH, 116]; }
    else if b < 0x20 { out := out + [BACKSLASH, 117, 48, 48] + [Hex(b / 16)] + [Hex(b % 16)]; }
    else { out := out + [b]; }
  }

  /** `stringValue`. */
  method StringValue(text: Text) returns (out: Text)
    ensures out == Quoted(text)
  {
    out := [QUOTE];
    for i := 0 to |text|
      invariant out == [QUOTE] + EscapedAll(text[..i])
    {
      var b := text[i];
      assert text[..i + 1] == text[..i] + [b];
      EscapedAllSnoc(text[..i], b);
      Associates([QUOTE], EscapedAll(text[..i]), Escaped(b));
      out := AppendEscaped(out, b);
    }
    assert text[..|text|] == text;
    out := out + [QUOTE];
  }

  // ----------------------------------------------------------------- round trip

  lemma HexRoundTrip(n: nat)
    requires n < 16
    ensures HexValue(Hex(n)) == Some(n)
  {
  }

  lemma {:induction false} EscapedReads(b: Byte, rest: Text)
    ensures Escaped(b) != [] && Escaped(b)[0] != QUOTE && Character(Escaped(b) + rest) == Some(Parsed([b], rest))
  {
    if |Escaped(b)| == 1 {
      PlainReads(b, rest);
    } else if |Escaped(b)| == 2 {
      ShortReads(b, Escaped(b)[1], rest);
    } else {
      UnicodeReads(b, rest);
    }
  }

  /** Bytes that need no escape are written as they are, seven have a two-character escape,
      and the other control bytes take six characters. */
  lemma EscapedLength(b: Byte)
    ensures |Escaped(b)| == 1 <==> b >= 0x20 && b != 34 && b != 92
    ensures |Escaped(b)| == 2 <==> b in {34, 92, 8, 12, 10, 13, 9}
    ensures |Escaped(b)| in {1, 2, 6}
  {
  }

  lemma {:induction false} PlainReads(b: Byte, rest: Text)
    requires b >= 0x20 && b != QUOTE && b != BACKSLASH
    ensures Character([b] + rest) == Some(Parsed([b], rest))
  {
    assert ([b] + rest)[1..] == rest;
  }

  lemma {:induction false} ShortReads(b: Byte, c: Byte, rest: Text)
    requires Simple(c) == Some(b)
    ensures Character([BACKSLASH, c] + rest) == Some(Parsed([b], rest))
  {
    assert ([BACKSLASH, c] + rest)[2..] == rest;
  }

  lemma {:induction false} UnicodeReads(b: Byte, rest: Text)
    requires b < 0x20
    ensures Character([BACKSLASH, 117, 48, 48, Hex(b / 16), Hex(b % 16)] + rest) == Some(Parsed([b], rest))
  {
    var digits := [48, 48, Hex(b / 16), Hex(b % 16)];
    var s := [BACKSLASH, 117, 48, 48, Hex(b / 16), Hex(b % 16)] + rest;
    assert s[2..] == digits + rest && s[6..] == rest;
    UnitReads(b, rest);
  }

  lemma {:induction false} UnitReads(b: Byte, rest: Text)
    requires b < 0x20
    ensures Unit([48, 48, Hex(b / 16), Hex(b % 16)] + rest) == Some(b)
  {
    HexRoundTrip(b / 16);
    HexRoundTrip(b % 16);
  }

  lemma {:induction false} NextCharacter(b: Byte, tail: Text, more: Text, rest: Text)
    requires Characters(tail) == Some(Parsed(more, rest))
    ensures Characters(Escaped(b) + tail) == Some(Parsed([b] + more, rest))
  {
    EscapedReads(b, tail);
    assert (Escaped(b) + tail)[0] == Escaped(b)[0];
  }

  lemma {:induction false} EscapedAllSplits(text: Text, rest: Text)
    requires text != []
    ensures EscapedAll(text) + rest == Escaped(text[0]) + (EscapedAll(text[1..]) + rest)
    ensures [text[0]] + text[1..] == text
  {
    Associates(Escaped(text[0]), EscapedAll(text[1..]), rest);
  }

  lemma {:induction false} ClosingQuote(rest: Text)
    ensures Characters([] + ([QUOTE] + rest)) == Some(Parsed([], rest))
  {
    assert [] + ([QUOTE] + rest) == [QUOTE] + rest && ([QUOTE] + rest)[1..] == rest;
  }

  lemma {:induction false} EscapedAllReads(text: Text, rest: Text)
    ensures Characters(EscapedAll(text) + ([QUOTE] + rest)) == Some(Parsed(text, rest))
  {
    if text == [] {
      ClosingQuote(rest);
    } else {
      EscapedAllReads(text[1..], rest);
      NextCharacter(text[0], EscapedAll(text[1..]) + ([QUOTE] + rest), text[1..], rest);
      EscapedAllSplits(text, [QUOTE] + rest);
    }
  }

  /** Every byte string survives the wire, and the literal ends where the decoder stops,
      whatever follows it. */
  lemma {:induction false} StringRoundTrip(text: Text, rest: Text)
    ensures DecodeString(Quoted(text) + rest) == Some(Parsed(text, rest))
  {
    var s := Quoted(text) + rest;
    assert s[1..] == EscapedAll(text) + ([QUOTE] + rest);
    EscapedAllReads(text, rest);
  }

  /** No literal is a prefix of another's. */
  lemma {:induction false} SelfDelimiting(a: Text, b: Text)
    requires Quoted(a) <= Quoted(b)
    ensures a == b
  {
    var rest := Quoted(b)[|Quoted(a)|..];
    assert Quoted(b) == Quoted(a) + rest && Quoted(b) + [] == Quoted(b);
    StringRoundTrip(a, rest);
    StringRoundTrip(b, []);
  }

  lemma {:induction false} EscapedAllClean(text: Text)
    ensures forall b :: b in EscapedAll(text) ==> b >= 0x20
  {
    if text != [] {
      EscapedAllClean(text[1..]);
    }
  }

  /** No raw control byte reaches the wire. */
  lemma NoControlByte(text: Text)
    ensures forall b :: b in Quoted(text) ==> b >= 0x20
  {
    EscapedAllClean(text);
  }

  // ------------------------------------------------------------ integers, section 6

  predicate Digit(b: Byte) { 48 <= b <= 57 }

  /** `number` of an integral: shortest decimal digits, a minus sign when negative. */
  function Decimal(n: nat): (s: Text)
    ensures s != [] && (forall b :: b in s ==> Digit(b)) && (s[0] == 48 ==> n == 0)
  {
    if n < 10 then [48 + n] else Decimal(n / 10) + [48 + n % 10]
  }

  function Number(n: int): Text {
    if n < 0 then [45] + Decimal(-n) else Decimal(n)
  }

  /** The value of the leading digits, `acc` being that of the ones before. */
  function Digits(s: Text, acc: nat): Parsed<nat>
    decreases |s|
  {
    if s == [] || !Digit(s[0]) then Parsed(acc, s) else Digits(s[1..], acc * 10 + (s[0] - 48))
  }

  /** An integer of the grammar: no leading zero, no empty digit string. */
  function DecodeNatural(s: Text): Option<Parsed<nat>> {
    if s == [] || !Digit(s[0]) then None
    else if s[0] == 48 then (if |s| > 1 && Digit(s[1]) then None else Some(Parsed(0, s[1..])))
    else Some(Digits(s, 0))
  }

  function DecodeInteger(s: Text): (r: Option<Parsed<int>>)
    ensures r.Some? ==> |r.value.rest| < |s|
  {
    DigitsShorten(s, 0);
    if s != [] && s[0] == 45 then
      DigitsShorten(s[1..], 0);
      var r := DecodeNatural(s[1..]);
      if r.None? then None else (var v: int := 0 - r.value.value; Some(Parsed(v, r.value.rest)))
    else
      var r := DecodeNatural(s);
      if r.None? then None else (var v: int := r.value.value; Some(Parsed(v, r.value.rest)))
  }

  lemma {:induction false} DigitsShorten(s: Text, acc: nat)
    ensures |Digits(s, acc).rest| <= |s|
    ensures s != [] && Digit(s[0]) ==> |Digits(s, acc).rest| < |s|
    decreases |s|
  {
    if s != [] && Digit(s[0]) {
      DigitsShorten(s[1..], acc * 10 + (s[0] - 48));
    }
  }

  /** Reading digits of n after ones worth `acc`. */
  lemma {:induction false} DigitsOfDecimal(n: nat, rest: Text)
    requires rest == [] || !Digit(rest[0])
    ensures Digits(Decimal(n) + rest, 0) == Parsed(n, rest)
  {
    DigitsThrough(n, rest);
  }

  lemma {:induction false} DigitsThrough(n: nat, rest: Text)
    ensures Digits(Decimal(n) + rest, 0) == Digits(rest, n)
    decreases n
  {
    if n < 10 {
      assert (Decimal(n) + rest)[1..] == rest;
    } else {
      var tail := [48 + n % 10] + rest;
      assert Decimal(n) + rest == Decimal(n / 10) + tail;
      DigitsThrough(n / 10, tail);
      assert tail[1..] == rest && n / 10 * 10 + n % 10 == n;
    }
  }

  lemma {:induction false} NaturalRoundTrip(n: nat, rest: Text)
    requires rest == [] || !Digit(rest[0])
    ensures DecodeNatural(Decimal(n) + rest) == Some(Parsed(n, rest))
  {
    var s := Decimal(n) + rest;
    assert s[0] == Decimal(n)[0];
    DigitsOfDecimal(n, rest);
    if s[0] == 48 {
      assert n == 0 && s[1..] == rest;
      assert |s| > 1 ==> s[1] == rest[0];
    }
  }

  /** Any integer reads back exactly, up to whatever delimiter follows. */
  lemma {:induction false} IntegerRoundTrip(n: int, rest: Text)
    requires rest == [] || !Digit(rest[0])
    ensures DecodeInteger(Number(n) + rest) == Some(Parsed(n, rest))
  {
    var s := Number(n) + rest;
    if n < 0 {
      assert s[1..] == Decimal(-n) + rest;
      NaturalRoundTrip(-n, rest);
    } else {
      var digits := Decimal(n);
      assert s[0] == digits[0] && digits[0] in digits;
      NaturalRoundTrip(n, rest);
    }
  }

  // --------------------------------------------------------------------- arrays

  function EmittedCount(size: nat, limit: nat): nat {
    if size < limit then size else limit
  }

  function Joined(values: seq<int>): Text {
    if values == [] then []
    else if |values| == 1 then Number(values[0])
    else Number(values[0]) + [44] + Joined(values[1..])
  }

  function Bracketed(values: seq<int>): Text {
    [91] + Joined(values) + [93]
  }

  /** Elements after the opening bracket or a comma, up to the closing bracket. */
  function DecodeElements(s: Text): Option<Parsed<seq<int>>>
    decreases |s|
  {
    var first := DecodeInteger(s);
    if first.None? || first.value.rest == [] then None
    else if first.value.rest[0] == 93 then Some(Parsed([first.value.value], first.value.rest[1..]))
    else if first.value.rest[0] != 44 then None
    else
      var more := DecodeElements(first.value.rest[1..]);
      if more.None? then None else Some(Parsed([first.value.value] + more.value.value, more.value.rest))
  }

  function DecodeArray(s: Text): Option<Parsed<seq<int>>> {
    if |s| < 2 || s[0] != 91 then None
    else if s[1] == 93 then Some(Parsed([], s[2..]))
    else DecodeElements(s[1..])
  }

  /** What is written before element number i. */
  function Comma(i: nat): Text {
    if i == 0 then [] else [44]
  }

  lemma {:induction false} JoinedSnoc(values: seq<int>, v: int)
    ensures Joined(values + [v]) == Joined(values) + (Comma(|values|) + Number(v))
  {
    var longer := values + [v];
    if |values| > 1 {
      assert longer[1..] == values[1..] + [v];
      JoinedSnoc(values[1..], v);
      Associates(Number(values[0]) + [44], Joined(values[1..]), Comma(|values|) + Number(v));
    } else if |values| == 1 {
      assert longer[1..] == [v];
      Associates(Number(values[0]), [44], Number(v));
    }
  }

  lemma Associates(a: Text, b: Text, c: Text)
    ensures a + b + c == a + (b + c)
  {
  }

  /** `array`. */
  method Array(values: seq<int>, limit: nat) returns (out: Text)
    ensures out == Bracketed(values[..EmittedCount(|values|, limit)])
  {
    var count := EmittedCount(|values|, limit);
    out := [91];
    for i := 0 to count
      invariant out == [91] + Joined(values[..i])
    {
      assert values[..i + 1] == values[..i] + [values[i]];
      JoinedSnoc(values[..i], values[i]);
      if i != 0 {
        out := out + [44];
      }
      out := out + Number(values[i]);
    }
    out := out + [93];
  }

  lemma {:induction false} LastElement(v: int, rest: Text)
    ensures DecodeElements(Number(v) + ([93] + rest)) == Some(Parsed([v], rest))
  {
    IntegerRoundTrip(v, [93] + rest);
    assert ([93] + rest)[1..] == rest;
  }

  lemma {:induction false} NextElement(v: int, tail: Text, more: seq<int>, rest: Text)
    requires DecodeElements(tail) == Some(Parsed(more, rest))
    ensures DecodeElements(Number(v) + ([44] + tail)) == Some(Parsed([v] + more, rest))
  {
    IntegerRoundTrip(v, [44] + tail);
    assert ([44] + tail)[1..] == tail;
  }

  lemma {:induction false} JoinedSplits(values: seq<int>, rest: Text)
    requires |values| > 1
    ensures Joined(values) + rest == Number(values[0]) + ([44] + (Joined(values[1..]) + rest))
  {
    Associates(Number(values[0]) + [44], Joined(values[1..]), rest);
    Associates(Number(values[0]), [44], Joined(values[1..]) + rest);
  }

  lemma {:induction false} ElementsRoundTrip(values: seq<int>, rest: Text)
    requires values != []
    ensures DecodeElements(Joined(values) + ([93] + rest)) == Some(Parsed(values, rest))
  {
    if |values| == 1 {
      LastElement(values[0], rest);
      assert [values[0]] == values;
    } else {
      ElementsRoundTrip(values[1..], rest);
      NextElement(values[0], Joined(values[1..]) + ([93] + rest), values[1..], rest);
      JoinedSplits(values, [93] + rest);
      assert [values[0]] + values[1..] == values;
    }
  }

  lemma NumberStart(n: int)
    ensures Number(n) != [] && Number(n)[0] != 93
  {
    var digits := Decimal(if n < 0 then -n else n);
    assert digits[0] in digits;
  }

  /** An integer array decodes to exactly the elements emitted. */
  lemma {:induction false} ArrayRoundTrip(values: seq<int>, limit: nat, rest: Text)
    ensures var kept := values[..EmittedCount(|values|, limit)];
            DecodeArray(Bracketed(kept) + rest) == Some(Parsed(kept, rest)) &&
            (|values| <= limit ==> kept == values) && (|values| >= limit ==> |kept| == limit && kept <= values)
  {
    BracketedReads(values[..EmittedCount(|values|, limit)], rest);
  }

  lemma {:induction false} BracketedReads(kept: seq<int>, rest: Text)
    ensures DecodeArray(Bracketed(kept) + rest) == Some(Parsed(kept, rest))
  {
    var s := Bracketed(kept) + rest;
    if kept == [] {
      assert s == [91, 93] + rest && s[2..] == rest;
    } else {
      assert s[1..] == Joined(kept) + ([93] + rest);
      NumberStart(kept[0]);
      assert s[1] == Joined(kept)[0] == Number(kept[0])[0];
      ElementsRoundTrip(kept, rest);
    }
  }
}
