/** The Host header recogniser of app/src/api/ApiPolicy.cpp. */
module HostPolicy {
  import opened Options

  const INT_MIN: int := -0x8000_0000
  const INT_MAX: int := 0x7FFF_FFFF

  // ---------------------------------------------------------------------- ports

  predicate IsDigit(c: char) { '0' <= c <= '9' }

  predicate AllDigits(s: string) {
    forall i :: 0 <= i < |s| ==> IsDigit(s[i])
  }

  /** The value of a decimal digit string, leading zeros included. */
  function Value(s: string): nat
    requires AllDigits(s)
  {
    if s == "" then 0 else Value(s[..|s| - 1]) * 10 + (s[|s| - 1] - '0') as nat
  }

  /** How many digits the text starts with. */
  function DigitRun(s: string): (n: nat)
    ensures n <= |s| && AllDigits(s[..n]) && (n < |s| ==> !IsDigit(s[n]))
  {
    if s == "" || !IsDigit(s[0]) then 0
    else
      var n := DigitRun(s[1..]);
      assert s[..n + 1] == [s[0]] + s[1..][..n];
      n + 1
  }

  datatype Parse = Fails | Reads(count: nat, value: int)

  /** `std::from_chars` for an `int`: an optional minus sign, then the longest run of digits;
      it fails without a digit and when the value does not fit. */
  function FromChars(s: string): Parse {
    var start := if s != "" && s[0] == '-' then 1 else 0;
    var n := DigitRun(s[start..]);
    if n == 0 then Fails
    else
      var magnitude := Value(s[start..][..n]);
      var v := if start == 1 then 0 - magnitude else magnitude;
      if INT_MIN <= v <= INT_MAX then Reads(start + n, v) else Fails
  }

  predicate PortEquals(token: string, expected: int) {
    var r := FromChars(token);
    r.Reads? && r.count == |token| && r.value == expected
  }

  /** Digits with an optional minus sign. */
  predicate IsNumeral(s: string) {
    (s != "" && AllDigits(s)) || (|s| > 1 && s[0] == '-' && AllDigits(s[1..]))
  }

  function NumeralValue(s: string): int
    requires IsNumeral(s)
  {
    if s[0] == '-' then 0 - Value(s[1..]) else Value(s)
  }

  lemma {:induction false} WholeRun(s: string)
    ensures DigitRun(s) == |s| <==> AllDigits(s)
  {
    assert s[..|s|] == s;
    if DigitRun(s) < |s| {
      assert !IsDigit(s[DigitRun(s)]);
    }
  }

  /** The whole token is a numeral for exactly this `int`. */
  lemma {:induction false} PortEqualsMeans(token: string, expected: int)
    requires INT_MIN <= expected <= INT_MAX
    ensures PortEquals(token, expected) <==> IsNumeral(token) && NumeralValue(token) == expected
  {
    var signed := token != "" && token[0] == '-';
    var digits := if signed then token[1..] else token;
    assert token[0..] == token;
    WholeRun(digits);
    assert digits[..|digits|] == digits;
    assert signed ==> !IsDigit(token[0]);
  }

  // ---------------------------------------------------------------------- names

  function LowerAscii(c: char): char {
    if 'A' <= c <= 'Z' then (c - 'A' + 'a') as char else c
  }

  /** The same character, or the two cases of one of the 26 letters. */
  predicate SameLetter(a: char, b: char) {
    a == b || ('A' <= a <= 'Z' && b as int == a as int + 32) || ('A' <= b <= 'Z' && a as int == b as int + 32)
  }

  /** Letter by letter the same, case apart. */
  predicate SameText(a: string, b: string) {
    |a| == |b| && forall i :: 0 <= i < |a| ==> SameLetter(a[i], b[i])
  }

  lemma LowerAsciiMeans(a: char, b: char)
    ensures LowerAscii(a) == LowerAscii(b) <==> SameLetter(a, b)
  {
  }

  method EqualsIgnoringCase(a: string, b: string) returns (same: bool)
    ensures same <==> SameText(a, b)
  {
    if |a| != |b| {
      return false;
    }
    for i := 0 to |a|
      invariant forall k :: 0 <= k < i ==> SameLetter(a[k], b[k])
    {
      LowerAsciiMeans(a[i], b[i]);
      if LowerAscii(a[i]) != LowerAscii(b[i]) {
        return false;
      }
    }
    return true;
  }

  const ALLOWED: seq<string> := ["127.0.0.1", "localhost", "[::1]"]

  predicate MatchesOne(name: string, names: seq<string>) {
    exists k :: 0 <= k < |names| && SameText(name, names[k])
  }

  /** The three names of this machine; only `localhost` has letters to vary. */
  predicate AllowedName(name: string) {
    name == "127.0.0.1" || SameText(name, "localhost") || name == "[::1]"
  }

  method MatchesAny(name: string, names: seq<string>) returns (ok: bool)
    ensures ok <==> MatchesOne(name, names)
  {
    for i := 0 to |names|
      invariant forall k :: 0 <= k < i ==> !SameText(name, names[k])
    {
      var same := EqualsIgnoringCase(name, names[i]);
      if same {
        return true;
      }
    }
    return false;
  }

  predicate HasLetter(s: string) {
    exists i :: 0 <= i < |s| && ('A' <= s[i] <= 'Z' || 'a' <= s[i] <= 'z')
  }

  /** A text without letters matches itself alone. */
  lemma {:induction false} OnlyItself(name: string, other: string)
    requires !HasLetter(other)
    ensures SameText(name, other) <==> name == other
  {
    if SameText(name, other) {
      forall i | 0 <= i < |other| ensures name[i] == other[i] {
        assert SameLetter(name[i], other[i]);
      }
    }
  }

  lemma {:induction false} AllowedExactly(name: string)
    ensures MatchesOne(name, ALLOWED) <==> AllowedName(name)
  {
    OnlyItself(name, ALLOWED[0]);
    OnlyItself(name, ALLOWED[2]);
    assert SameText(name, ALLOWED[1]) == SameText(name, "localhost");
  }

  predicate Plain(name: string) {
    name != "" && forall i :: 0 <= i < |name| ==> name[i] != ':' && name[i] != '['
  }

  /** The bracketed name is itself; the others hold no colon and no bracket. */
  lemma {:induction false} NameShape(name: string)
    requires AllowedName(name)
    ensures name == "[::1]" || Plain(name)
  {
    if SameText(name, "localhost") {
      forall i | 0 <= i < |name| ensures name[i] != ':' && name[i] != '[' {
        assert SameLetter(name[i], "localhost"[i]);
      }
    }
  }

  // ------------------------------------------------------------- find and rfind

  /** The first place where a closing bracket is followed by a colon. */
  function FindClose(s: string): (r: Option<nat>)
    ensures r.Some? ==> r.value + 1 < |s| && s[r.value] == ']' && s[r.value + 1] == ':'
    ensures forall i :: 0 <= i && i + 1 < |s| && (r.None? || i < r.value) ==> !(s[i] == ']' && s[i + 1] == ':')
  {
    if |s| < 2 then None
    else if s[0] == ']' && s[1] == ':' then Some(0)
    else
      var r := FindClose(s[1..]);
      assert forall i :: 1 <= i && i + 1 < |s| ==> s[1..][i - 1] == s[i] && s[1..][i] == s[i + 1];
      if r.None? then None else Some(r.value + 1)
  }

  /** The last colon. */
  function FindLastColon(s: string): (r: Option<nat>)
    ensures r.Some? ==> r.value < |s| && s[r.value] == ':'
    ensures forall i :: 0 <= i < |s| && (r.None? || r.value < i) ==> s[i] != ':'
  {
    if s == "" then None
    else if s[|s| - 1] == ':' then Some(|s| - 1)
    else FindLastColon(s[..|s| - 1])
  }

  /** The name and the port token of a Host header. */
  function Split(host: string): Option<(string, string)> {
    if host != "" && host[0] == '[' then
      var close := FindClose(host);
      if close.None? then None else Some((host[..close.value + 1], host[close.value + 2..]))
    else
      var colon := FindLastColon(host);
      if colon.None? then None else Some((host[..colon.value], host[colon.value + 1..]))
  }

  lemma {:induction false} SplitJoins(host: string)
    ensures Split(host).Some? ==> host == Split(host).value.0 + ":" + Split(host).value.1
  {
  }

  lemma {:induction false} NumeralHasNoColon(token: string)
    requires IsNumeral(token)
    ensures forall i :: 0 <= i < |token| ==> token[i] != ':'
  {
    if token[0] == '-' {
      forall i | 1 <= i < |token| ensures token[i] != ':' {
        assert token[1..][i - 1] == token[i];
      }
    }
  }

  lemma {:induction false} SplitPlain(name: string, token: string)
    requires Plain(name) && (forall i :: 0 <= i < |token| ==> token[i] != ':')
    ensures Split(name + ":" + token) == Some((name, token))
  {
    var host := name + ":" + token;
    assert host[0] == name[0] && host[|name|] == ':';
    var colon := FindLastColon(host);
    assert forall i {:trigger host[i]} :: |name| < i < |host| ==> host[i] == token[i - |name| - 1];
    assert colon == Some(|name|);
    assert host[..|name|] == name && host[|name| + 1..] == token;
  }

  lemma {:induction false} SplitBracketed(token: string)
    ensures Split("[::1]" + ":" + token) == Some(("[::1]", token))
  {
    var host := "[::1]" + ":" + token;
    assert host[0] == '[' && host[1] == ':' && host[2] == ':' && host[3] == '1' && host[4] == ']' && host[5] == ':';
    var close := FindClose(host);
    assert close.Some? && close.value <= 4;
    assert host[close.value] == ']';
    assert host[..5] == "[::1]" && host[6..] == token;
  }

  /** An allowed name and a numeral are split where they were joined. */
  lemma {:induction false} SplitOfJoin(name: string, token: string)
    requires AllowedName(name) && IsNumeral(token)
    ensures Split(name + ":" + token) == Some((name, token))
  {
    NameShape(name);
    NumeralHasNoColon(token);
    if Plain(name) { SplitPlain(name, token); } else { SplitBracketed(token); }
  }

  // ---------------------------------------------------------------- hostIsAllowed

  /** An allowed name, a colon and the token. */
  predicate MadeOf(host: string, name: string, token: string) {
    host == name + ":" + token && AllowedName(name)
  }

  predicate Denotes(token: string, port: int) {
    IsNumeral(token) && NumeralValue(token) == port
  }

  /** A plain digit string of the port's value. */
  predicate Spells(digits: string, port: int) {
    digits != "" && AllDigits(digits) && Value(digits) == port
  }

  /** An allowed name in any case, a colon, and a numeral of exactly this port. */
  ghost predicate Acceptable(host: string, port: int) {
    exists name: string, token: string :: MadeOf(host, name, token) && Denotes(token, port)
  }

  method HostIsAllowed(host: string, port: int) returns (ok: bool)
    requires INT_MIN <= port <= INT_MAX
    ensures ok <==> Acceptable(host, port)
  {
    AcceptableIsSplit(host, port);
    var split := Split(host);
    if split.None? {
      return false;
    }
    var (name, token) := split.value;
    if !PortEquals(token, port) {
      return false;
    }
    AllowedExactly(name);
    ok := MatchesAny(name, ALLOWED);
  }

  lemma {:induction false} AcceptableIsSplit(host: string, port: int)
    requires INT_MIN <= port <= INT_MAX
    ensures Acceptable(host, port) <==>
            Split(host).Some? && AllowedName(Split(host).value.0) && PortEquals(Split(host).value.1, port)
  {
    if Split(host).Some? {
      var (name, token) := Split(host).value;
      SplitJoins(host);
      PortEqualsMeans(token, port);
      assert AllowedName(name) ==> MadeOf(host, name, token);
      assert PortEquals(token, port) ==> Denotes(token, port);
    }
    if Acceptable(host, port) {
      var name: string, token: string :| MadeOf(host, name, token) && Denotes(token, port);
      SplitOfJoin(name, token);
    }
  }

  /** The decimal digits `std::to_string` prints. */
  function Printed(n: nat): (s: string)
    ensures s != "" && AllDigits(s)
  {
    if n < 10 then [('0' as int + n) as char] else Printed(n / 10) + [('0' as int + n % 10) as char]
  }

  lemma {:induction false} PrintedValue(n: nat)
    ensures Value(Printed(n)) == n
  {
    var s := Printed(n);
    if n < 10 {
      assert s[..0] == "";
    } else {
      PrintedValue(n / 10);
      assert s[..|s| - 1] == Printed(n / 10);
    }
  }

  /** An allowed name, a colon and a digit string of the port's value. */
  ghost predicate Plainly(host: string, port: int) {
    exists name: string, digits: string :: MadeOf(host, name, digits) && Spells(digits, port)
  }

  /** For a real port no sign is accepted: the token is a digit string of that value. */
  lemma {:induction false} PositivePort(host: string, port: int)
    requires 1 <= port <= INT_MAX
    ensures Acceptable(host, port) <==> Plainly(host, port)
  {
    if Acceptable(host, port) {
      var name: string, token: string :| MadeOf(host, name, token) && Denotes(token, port);
      assert token[0] != '-';
    }
    if Plainly(host, port) {
      var name: string, digits: string :| MadeOf(host, name, digits) && Spells(digits, port);
      assert IsDigit(digits[0]);
      assert NumeralValue(digits) == port;
    }
  }

  lemma {:induction false} ListedIsAllowed(k: nat)
    requires k < |ALLOWED|
    ensures AllowedName(ALLOWED[k])
  {
    AllowedExactly(ALLOWED[k]);
  }

  /** Each allowed name with the printed port is accepted. */
  lemma {:induction false} PrintedPortAccepted(k: nat, port: int)
    requires k < |ALLOWED| && 1 <= port <= INT_MAX
    ensures Acceptable(ALLOWED[k] + ":" + Printed(port), port)
  {
    PrintedValue(port);
    ListedIsAllowed(k);
    assert MadeOf(ALLOWED[k] + ":" + Printed(port), ALLOWED[k], Printed(port)) && Spells(Printed(port), port);
    PositivePort(ALLOWED[k] + ":" + Printed(port), port);
  }
}
