/** How tools/cpp_scopes.py classifies the text before an opening brace: the three
    regular-expression searches, written as left-to-right scans over ASCII text. */
module CppHeaders {
  import opened Sequences
  import opened Options
  import opened CppScopes
  import opened Decorate

  const ANONYMOUS: string := "<anonymous>"

  predicate IsSpace(c: char) {
    c == ' ' || '\t' <= c <= '\r'
  }

  predicate IsIdentifierStart(c: char) {
    'a' <= c <= 'z' || 'A' <= c <= 'Z' || c == '_'
  }

  predicate IsWordChar(c: char) {
    IsIdentifierStart(c) || '0' <= c <= '9'
  }

  function SkipSpace(s: string): (r: string)
    ensures |r| <= |s|
  {
    if s != "" && IsSpace(s[0]) then SkipSpace(s[1..]) else s
  }

  function DropTrailingSpace(s: string): string {
    if s != "" && IsSpace(s[|s| - 1]) then DropTrailingSpace(s[..|s| - 1]) else s
  }

  /** `header.strip()`. */
  function Strip(s: string): string {
    DropTrailingSpace(SkipSpace(s))
  }

  /** The leading run of word characters. */
  function Word(s: string): (w: string)
    ensures |w| <= |s| && w == s[..|w|]
    ensures s != "" && IsWordChar(s[0]) ==> w != ""
  {
    if s == "" || !IsWordChar(s[0]) then "" else [s[0]] + Word(s[1..])
  }

  /** The whole text is identifiers separated by `::`, with optional space around. */
  function ChainOf(s: string): Option<seq<string>>
    decreases |s|
  {
    if s == "" || !IsIdentifierStart(s[0]) then None
    else
      var w := Word(s);
      var rest := SkipSpace(s[|w|..]);
      if rest == "" then Some([w])
      else if |rest| >= 2 && rest[..2] == "::" then
        var more := ChainOf(SkipSpace(rest[2..]));
        if more.None? then None else Some([w] + more.value)
      else None
  }

  /** `keyword` stands at p with no word character before it. */
  predicate KeywordAt(s: string, p: nat, keyword: string) {
    p + |keyword| <= |s| && s[p..p + |keyword|] == keyword && (p == 0 || !IsWordChar(s[p - 1]))
  }

  /** ... and is followed by at least one space. */
  predicate SpacedKeywordAt(s: string, p: nat, keyword: string) {
    KeywordAt(s, p, keyword) && p + |keyword| < |s| && IsSpace(s[p + |keyword|])
  }

  /** `namespace a::b` up to the end of the text, leftmost. */
  function NamespaceFrom(s: string, p: nat): Option<seq<string>>
    decreases |s| - p
  {
    if p >= |s| then None
    else
      var here := if SpacedKeywordAt(s, p, "namespace") then ChainOf(SkipSpace(s[p + 9..])) else None;
      if here.Some? then here else NamespaceFrom(s, p + 1)
  }

  /** `namespace` with nothing but space after it. */
  predicate AnonymousFrom(s: string, p: nat)
    decreases |s| - p
  {
    p < |s| && ((KeywordAt(s, p, "namespace") && SkipSpace(s[p + 9..]) == "") || AnonymousFrom(s, p + 1))
  }

  /** The identifier after the first `class` or `struct`. */
  function ClassFrom(s: string, p: nat): Option<string>
    decreases |s| - p
  {
    if p >= |s| then None
    else
      var n := if SpacedKeywordAt(s, p, "class") then 5 else if SpacedKeywordAt(s, p, "struct") then 6 else 0;
      var rest := SkipSpace(if n > 0 && p + n <= |s| then s[p + n..] else "");
      if rest != "" && IsIdentifierStart(rest[0]) then Some(Word(rest)) else ClassFrom(s, p + 1)
  }

  predicate TemplateFrom(s: string, p: nat)
    decreases |s| - p
  {
    p < |s| &&
    ((KeywordAt(s, p, "template") && SkipSpace(s[p + 8..]) != "" && SkipSpace(s[p + 8..])[0] == '<') ||
     TemplateFrom(s, p + 1))
  }

  /** `_classify`. */
  function Classify(header: string): Entry {
    var stripped := Strip(header);
    var namespaces := NamespaceFrom(stripped, 0);
    if namespaces.Some? then Entry(namespaces.value, false)
    else if AnonymousFrom(stripped, 0) then Entry([ANONYMOUS], false)
    else
      var class_ := ClassFrom(stripped, 0);
      if class_.Some? then Entry([class_.value], TemplateFrom(stripped, 0)) else Entry([], false)
  }

  // ---------------------------------------------------------- namespace a::b::c

  predicate Name(s: string) {
    s != "" && IsIdentifierStart(s[0]) && forall i :: 0 <= i < |s| ==> IsWordChar(s[i])
  }

  predicate AllNames(parts: seq<string>) {
    forall k :: 0 <= k < |parts| ==> Name(parts[k])
  }

  lemma {:induction false} WordOf(w: string, rest: string)
    requires forall i :: 0 <= i < |w| ==> IsWordChar(w[i])
    requires rest == "" || !IsWordChar(rest[0])
    ensures Word(w + rest) == w
  {
    if w == "" {
      assert w + rest == rest;
    } else {
      assert (w + rest)[1..] == w[1..] + rest;
      WordOf(w[1..], rest);
      assert [w[0]] + w[1..] == w;
    }
  }

  lemma {:induction false} JoinShape(parts: seq<string>)
    requires parts != [] && AllNames(parts)
    ensures var s := Join("::", parts);
            s != "" && IsIdentifierStart(s[0]) && IsWordChar(s[|s| - 1])
  {
    if |parts| > 1 {
      JoinShape(parts[1..]);
      var tail := Join("::", parts[1..]);
      var s := Join("::", parts);
      assert s == parts[0] + "::" + tail;
      assert s[|s| - 1] == tail[|tail| - 1] && s[0] == parts[0][0];
    }
  }

  lemma {:induction false} ChainOfOne(p: string)
    requires Name(p)
    ensures ChainOf(p) == Some([p])
  {
    assert p == p + "";
    WordOf(p, "");
    assert p[|p|..] == "";
  }

  lemma {:induction false} ChainOfMore(p: string, tail: string, more: seq<string>)
    requires Name(p) && tail != "" && IsIdentifierStart(tail[0]) && ChainOf(tail) == Some(more)
    ensures ChainOf(p + "::" + tail) == Some([p] + more)
  {
    var rest := "::" + tail;
    var s := p + rest;
    assert s == p + "::" + tail;
    assert Word(s) == p by { WordOf(p, rest); }
    assert s[|p|..] == rest && rest[..2] == "::" && rest[2..] == tail;
    ChainOfUnfold(s, p, rest, tail, more);
  }

  lemma {:induction false} ChainOfUnfold(s: string, w: string, rest: string, tail: string, more: seq<string>)
    requires s != "" && IsIdentifierStart(s[0]) && Word(s) == w && s[|w|..] == rest
    requires |rest| >= 2 && rest[..2] == "::" && rest[2..] == tail && SkipSpace(tail) == tail
    requires ChainOf(tail) == Some(more)
    ensures ChainOf(s) == Some([w] + more)
  {
    assert rest[0] == rest[..2][0];
  }

  /** Names joined by `::` are read back as those names. */
  lemma {:induction false} ChainOfJoin(parts: seq<string>)
    requires parts != [] && AllNames(parts)
    ensures ChainOf(Join("::", parts)) == Some(parts)
  {
    if |parts| == 1 {
      ChainOfOne(parts[0]);
      assert parts == [parts[0]];
    } else {
      var tail := Join("::", parts[1..]);
      assert tail != "" && IsIdentifierStart(tail[0]) by { JoinShape(parts[1..]); }
      assert ChainOf(tail) == Some(parts[1..]) by { ChainOfJoin(parts[1..]); }
      assert ChainOf(parts[0] + "::" + tail) == Some([parts[0]] + parts[1..]) by {
        ChainOfMore(parts[0], tail, parts[1..]);
      }
      assert parts == [parts[0]] + parts[1..];
    }
  }

  predicate Spaces(s: string) {
    forall i :: 0 <= i < |s| ==> IsSpace(s[i])
  }

  lemma {:induction false} SkipSpaces(before: string, s: string)
    requires Spaces(before) && s != "" && !IsSpace(s[0])
    ensures SkipSpace(before + s) == s
  {
    if before == "" {
      assert before + s == s;
    } else {
      assert (before + s)[1..] == before[1..] + s;
      SkipSpaces(before[1..], s);
    }
  }

  lemma {:induction false} DropSpaces(s: string, after: string)
    requires Spaces(after) && s != "" && !IsSpace(s[|s| - 1])
    ensures DropTrailingSpace(s + after) == s
  {
    if after == "" {
      assert s + after == s;
    } else {
      var n := |after| - 1;
      assert (s + after)[..|s + after| - 1] == s + after[..n];
      DropSpaces(s, after[..n]);
    }
  }

  /** The header `namespace a::b::c`, with any space around, opens the scopes a, b, c. */
  lemma {:induction false} ClassifyNamespace(before: string, parts: seq<string>, after: string)
    requires Spaces(before) && Spaces(after) && parts != [] && AllNames(parts)
    ensures Classify(before + "namespace " + Join("::", parts) + after) == Entry(parts, false)
  {
    var joined := Join("::", parts);
    var s := "namespace " + joined;
    JoinShape(parts);
    assert before + "namespace " + joined + after == before + (s + after);
    SkipSpaces(before, s + after);
    assert s[|s| - 1] == joined[|joined| - 1];
    DropSpaces(s, after);
    assert s[0..9] == "namespace" && s[9] == ' ' && s[10..] == joined && s[9..] == " " + joined;
    SkipSpaces(" ", joined);
    ChainOfJoin(parts);
    assert NamespaceFrom(s, 0) == Some(parts);
  }

  /** One `namespace a::b::c` gives every line inside the same chain as three nested
      namespaces. */
  lemma {:induction false} CompactNamespaceChain(stack: seq<Entry>, parts: seq<string>, rest: seq<Entry>)
    requires parts != [] && AllNames(parts)
    ensures Chain(stack + [Classify("namespace " + Join("::", parts))] + rest) ==
            Chain(stack + OneByOne(parts) + rest)
  {
    var compact := Classify("namespace " + Join("::", parts));
    assert "namespace " + Join("::", parts) == "" + "namespace " + Join("::", parts) + "";
    ClassifyNamespace("", parts, "");
    NamesOneByOne(parts);
    NamesConcat(stack + [compact], rest);
    NamesConcat(stack, [compact]);
    NamesConcat(stack + OneByOne(parts), rest);
    NamesConcat(stack, OneByOne(parts));
    assert [compact][1..] == [];
    assert Names([compact]) == compact.names;
  }

  /** The entries of nested single-name namespaces. */
  function OneByOne(parts: seq<string>): seq<Entry> {
    if parts == [] then [] else [Classify("namespace " + parts[0])] + OneByOne(parts[1..])
  }

  lemma {:induction false} NamesOneByOne(parts: seq<string>)
    requires AllNames(parts)
    ensures Names(OneByOne(parts)) == parts
  {
    if parts != [] {
      var p := parts[0];
      assert Join("::", [p]) == p;
      assert "namespace " + p == "" + "namespace " + Join("::", [p]) + "";
      ClassifyNamespace("", [p], "");
      NamesOneByOne(parts[1..]);
      assert OneByOne(parts)[1..] == OneByOne(parts[1..]);
      assert parts == [p] + parts[1..];
    }
  }

  // -------------------------------------------------------- class n and struct n

  predicate ClassKeyword(keyword: string) {
    keyword == "class" || keyword == "struct"
  }

  /** `class n` or `struct n` stands at p, as words. */
  predicate Heads(s: string, p: nat, keyword: string, name: string) {
    var q := p + |keyword| + 1;
    ClassKeyword(keyword) && Name(name) && KeywordAt(s, p, keyword) && q + |name| <= |s| &&
    s[q - 1] == ' ' && s[q..q + |name|] == name && (q + |name| == |s| || !IsWordChar(s[q + |name|]))
  }

  /** No other class keyword comes first. */
  predicate FirstClassAt(s: string, p: nat) {
    forall q :: 0 <= q < p ==> !SpacedKeywordAt(s, q, "class") && !SpacedKeywordAt(s, q, "struct")
  }

  predicate NoKeyword(s: string, keyword: string) {
    forall q :: 0 <= q <= |s| ==> !KeywordAt(s, q, keyword)
  }

  /** No place opens a namespace: the keyword runs on into a longer word wherever it stands. */
  predicate OpensNoNamespace(s: string) {
    forall q :: 0 <= q < |s| && KeywordAt(s, q, "namespace") ==> q + 9 < |s| && IsWordChar(s[q + 9])
  }

  /** `template` with a bracket after it. */
  predicate TemplateAt(s: string, q: nat) {
    KeywordAt(s, q, "template") && SkipSpace(s[q + 8..]) != "" && SkipSpace(s[q + 8..])[0] == '<'
  }

  lemma {:induction false} NoNamespace(s: string, p: nat)
    requires OpensNoNamespace(s)
    ensures NamespaceFrom(s, p) == None && !AnonymousFrom(s, p)
    decreases |s| - p
  {
    if p < |s| {
      NoNamespace(s, p + 1);
      if KeywordAt(s, p, "namespace") {
        assert s[p + 9..][0] == s[p + 9];
      }
    }
  }

  lemma {:induction false} TemplateExactly(s: string, p: nat)
    ensures TemplateFrom(s, p) <==> exists q :: p <= q <= |s| && TemplateAt(s, q)
    decreases |s| - p
  {
    if p < |s| {
      TemplateExactly(s, p + 1);
      assert TemplateFrom(s, p) <==> TemplateAt(s, p) || TemplateFrom(s, p + 1);
    }
  }

  lemma {:induction false} FindsClass(s: string, p: nat, keyword: string, name: string)
    requires Heads(s, p, keyword, name)
    ensures ClassFrom(s, p) == Some(name)
  {
    var q := p + |keyword| + 1;
    var rest := s[q..];
    assert rest == name + s[q + |name|..];
    assert s[q - 1..] == " " + rest;
    SkipSpaces(" ", rest);
    WordOf(name, s[q + |name|..]);
    KeywordChars(s, p, keyword);
    if keyword == "struct" {
      OtherKeyword(s, p, "class");
    }
  }

  /** The characters of a keyword are those of the text. */
  lemma KeywordChars(s: string, p: nat, keyword: string)
    requires KeywordAt(s, p, keyword)
    ensures forall i :: p <= i < p + |keyword| ==> s[i] == keyword[i - p]
  {
    forall i | p <= i < p + |keyword| ensures s[i] == keyword[i - p] {
      assert s[i] == s[p..p + |keyword|][i - p];
    }
  }

  /** A keyword with another first letter does not stand there. */
  lemma OtherKeyword(s: string, p: nat, keyword: string)
    requires p < |s| && keyword != "" && keyword[0] != s[p]
    ensures !KeywordAt(s, p, keyword)
  {
    assert p + |keyword| <= |s| ==> s[p..p + |keyword|][0] == s[p];
  }

  lemma {:induction false} FindsFirst(s: string, p: nat, keyword: string, name: string, from: nat)
    requires Heads(s, p, keyword, name) && FirstClassAt(s, p) && from <= p
    ensures ClassFrom(s, from) == Some(name)
    decreases p - from
  {
    if from == p {
      FindsClass(s, p, keyword, name);
    } else {
      FindsFirst(s, p, keyword, name, from + 1);
    }
  }

  /** A header that opens no namespace opens the scope its first `class` or `struct` names; it is
      a template exactly when `template <` stands anywhere in it. */
  lemma {:induction false} ClassifyFirstClass(header: string, p: nat, keyword: string, name: string)
    requires var s := Strip(header);
             OpensNoNamespace(s) && Heads(s, p, keyword, name) && FirstClassAt(s, p)
    ensures var s := Strip(header);
            Classify(header) == Entry([name], exists q :: 0 <= q <= |s| && TemplateAt(s, q))
  {
    var s := Strip(header);
    NoNamespace(s, 0);
    FindsFirst(s, p, keyword, name, 0);
    TemplateExactly(s, 0);
  }

  /** Any other header, a function's or a block's say, opens a scope without a name. */
  lemma {:induction false} ClassifyOther(header: string)
    requires var s := Strip(header);
             OpensNoNamespace(s) && FirstClassAt(s, |s|)
    ensures Classify(header) == Entry([], false)
  {
    NoNamespace(Strip(header), 0);
    FindsNone(Strip(header), 0);
  }

  lemma {:induction false} FindsNone(s: string, p: nat)
    requires FirstClassAt(s, |s|)
    ensures ClassFrom(s, p) == None
    decreases |s| - p
  {
    if p < |s| { FindsNone(s, p + 1); }
  }

  /** `lead`, the keyword and the name, which ends the text. */
  predicate Leads(s: string, lead: string, keyword: string, name: string) {
    s == lead + (keyword + " " + name) && ClassKeyword(keyword) && Name(name) &&
    (lead == "" || !IsWordChar(lead[|lead| - 1]))
  }

  lemma {:induction false} LeadsHeads(s: string, lead: string, keyword: string, name: string)
    requires Leads(s, lead, keyword, name)
    ensures Heads(s, |lead|, keyword, name) && s[|lead| + |keyword| + 1..] == name
  {
    var p := |lead|;
    PartsPlaced(s, lead, keyword, name);
    assert p > 0 ==> s[p - 1] == lead[p - 1];
  }

  lemma PartsPlaced(s: string, lead: string, keyword: string, name: string)
    requires s == lead + (keyword + " " + name)
    ensures var p := |lead|; var q := p + |keyword| + 1;
            |s| == q + |name| && s[p..p + |keyword|] == keyword && s[q - 1] == ' ' &&
            s[q..] == name && s[q..q + |name|] == name
  {
  }

  predicate Letters(s: string) {
    s != "" && forall i :: 0 <= i < |s| ==> IsIdentifierStart(s[i])
  }

  /** A word found behind the lead is the class keyword or stands where the name starts. */
  lemma {:induction false} WordPlace(s: string, lead: string, keyword: string, name: string, q: nat, word: string)
    requires Leads(s, lead, keyword, name) && Letters(word) && KeywordAt(s, q, word) && q >= |lead|
    ensures q == |lead| || q == |lead| + |keyword| + 1
  {
    LeadsHeads(s, lead, keyword, name);
    KeywordChars(s, q, word);
    WordsAt(s, |lead|, keyword, name);
  }

  /** The class keyword and the name are words. */
  lemma {:induction false} WordsAt(s: string, p: nat, keyword: string, name: string)
    requires Heads(s, p, keyword, name)
    ensures forall i :: p <= i < p + |keyword| ==> IsWordChar(s[i])
    ensures var n := p + |keyword| + 1; forall i :: n <= i < n + |name| ==> IsWordChar(s[i])
  {
    KeywordChars(s, p, keyword);
    assert Letters(keyword);
    var n := p + |keyword| + 1;
    forall i | n <= i < n + |name| ensures IsWordChar(s[i]) {
      assert s[i] == s[n..n + |name|][i - n];
    }
  }

  /** A word standing in the lead ends in it. */
  lemma {:induction false} WordInLead(s: string, lead: string, q: nat, word: string)
    requires lead <= s && (lead == "" || !IsWordChar(lead[|lead| - 1]))
    requires Letters(word) && KeywordAt(s, q, word) && q < |lead|
    ensures KeywordAt(lead, q, word)
  {
    KeywordChars(s, q, word);
    assert s[|lead| - 1] == lead[|lead| - 1];
    assert q + |word| <= |lead|;
    assert lead[q..q + |word|] == s[q..q + |word|];
  }

  lemma {:induction false} LeadOpensNoNamespace(s: string, lead: string, keyword: string, name: string)
    requires Leads(s, lead, keyword, name) && name != "namespace" && NoKeyword(lead, "namespace")
    ensures OpensNoNamespace(s)
  {
    forall q | 0 <= q < |s| && KeywordAt(s, q, "namespace") ensures q + 9 < |s| && IsWordChar(s[q + 9]) {
      WordAtName(s, lead, keyword, name, q, "namespace");
      AtName(s, q, name, "namespace");
    }
  }

  /** A word the lead does not hold and that is not the class keyword starts the name. */
  lemma {:induction false} WordAtName(s: string, lead: string, keyword: string, name: string, q: nat, word: string)
    requires Leads(s, lead, keyword, name) && Letters(word) && word[0] != keyword[0]
    requires NoKeyword(lead, word) && KeywordAt(s, q, word)
    ensures q <= |s| && s[q..] == name
  {
    assert q >= |lead| by {
      if q < |lead| { WordInLead(s, lead, q, word); }
    }
    WordPlace(s, lead, keyword, name, q, word);
    LeadsHeads(s, lead, keyword, name);
    KeywordChars(s, |lead|, keyword);
    KeywordChars(s, q, word);
  }

  /** A word at the name's start is the name or runs on inside it. */
  lemma {:induction false} AtName(s: string, n: nat, name: string, word: string)
    requires n <= |s| && s[n..] == name && Name(name) && KeywordAt(s, n, word) && name != word
    ensures n + |word| < |s| && IsWordChar(s[n + |word|])
  {
    assert s[n..][..|word|] == s[n..n + |word|];
    assert word == name[..|word|] && name[..|name|] == name;
    assert |word| < |name| ==> s[n + |word|] == name[|word|];
  }

  /** The lead, the keyword and the name are what stripping leaves of them. */
  lemma {:induction false} StripLed(before: string, s: string, after: string)
    requires Spaces(before) && Spaces(after) && s != "" && !IsSpace(s[0]) && !IsSpace(s[|s| - 1])
    ensures Strip(before + s + after) == s
  {
    assert before + s + after == before + (s + after);
    SkipSpaces(before, s + after);
    DropSpaces(s, after);
  }

  /** The header `class n` or `struct n`, with any space around, opens the scope n, which is no
      template. */
  lemma {:induction false} ClassifyClass(before: string, keyword: string, name: string, after: string)
    requires Spaces(before) && Spaces(after) && ClassKeyword(keyword) && Name(name) && name != "namespace"
    ensures Classify(before + (keyword + " " + name) + after) == Entry([name], false)
  {
    var s := keyword + " " + name;
    assert s == "" + s && s[|s| - 1] == name[|name| - 1] && s[0] == keyword[0];
    StripLed(before, s, after);
    assert Leads(s, "", keyword, name);
    LeadsHeads(s, "", keyword, name);
    LeadOpensNoNamespace(s, "", keyword, name);
    ClassifyFirstClass(before + s + after, 0, keyword, name);
    forall q | 0 <= q <= |s| ensures !TemplateAt(s, q) {
      NoTemplate(s, keyword, name, q);
    }
  }

  lemma {:induction false} NoTemplate(s: string, keyword: string, name: string, q: nat)
    requires Leads(s, "", keyword, name)
    ensures !TemplateAt(s, q)
  {
    if KeywordAt(s, q, "template") {
      WordAtName(s, "", keyword, name, q, "template");
      if name != "template" {
        AtName(s, q, name, "template");
        assert s[q + 8..][0] == s[q + 8];
      } else {
        assert s[q + 8..] == "";
      }
    }
  }

  // ------------------------------------------------- templates and anonymous scopes

  /** A template head over arguments that hold no class keyword and no `namespace`. */
  predicate PlainHead(arguments: string) {
    NoKeyword(arguments, "class") && NoKeyword(arguments, "struct") && NoKeyword(arguments, "namespace")
  }

  function TemplateHead(arguments: string): string {
    "template <" + arguments + "> "
  }

  /** The header `template <..> class n` opens the scope n, which is a template. */
  lemma {:induction false} ClassifyTemplate(before: string, arguments: string, keyword: string, name: string,
                                            after: string)
    requires Spaces(before) && Spaces(after) && ClassKeyword(keyword) && Name(name) && name != "namespace"
    requires PlainHead(arguments)
    ensures Classify(before + (TemplateHead(arguments) + (keyword + " " + name)) + after) == Entry([name], true)
  {
    var lead := TemplateHead(arguments);
    var s := lead + (keyword + " " + name);
    assert s[|s| - 1] == name[|name| - 1] && s[0] == lead[0] == 't' && lead[|lead| - 1] == ' ';
    StripLed(before, s, after);
    TemplateHeads(s, arguments, keyword, name);
    ClassifyFirstClass(before + s + after, |lead|, keyword, name);
    TemplateFirst(arguments, s);
  }

  lemma {:induction false} TemplateHeads(s: string, arguments: string, keyword: string, name: string)
    requires var lead := TemplateHead(arguments); Leads(s, lead, keyword, name)
    requires PlainHead(arguments) && name != "namespace"
    ensures var p := |TemplateHead(arguments)|;
            OpensNoNamespace(s) && Heads(s, p, keyword, name) && FirstClassAt(s, p)
  {
    var lead := TemplateHead(arguments);
    LeadsHeads(s, lead, keyword, name);
    HeadIsPlain(arguments, "namespace");
    HeadIsPlain(arguments, "class");
    HeadIsPlain(arguments, "struct");
    LeadOpensNoNamespace(s, lead, keyword, name);
    FirstInLed(s, lead, keyword, name);
  }

  lemma {:induction false} FirstInLed(s: string, lead: string, keyword: string, name: string)
    requires Leads(s, lead, keyword, name) && NoKeyword(lead, "class") && NoKeyword(lead, "struct")
    ensures FirstClassAt(s, |lead|)
  {
    forall q | 0 <= q < |lead| ensures !KeywordAt(s, q, "class") && !KeywordAt(s, q, "struct") {
      if KeywordAt(s, q, "class") {
        WordInLead(s, lead, q, "class");
      }
      if KeywordAt(s, q, "struct") {
        WordInLead(s, lead, q, "struct");
      }
    }
  }

  lemma {:induction false} TemplateFirst(arguments: string, s: string)
    requires TemplateHead(arguments) <= s
    ensures TemplateAt(s, 0)
  {
    var lead := TemplateHead(arguments);
    assert s[..10] == lead[..10] == "template <";
    assert s[0..8] == s[..10][..8] == "template";
    assert s[8] == s[..10][8] && s[9] == s[..10][9];
    assert s[8..] == " " + s[9..];
    SkipSpaces(" ", s[9..]);
  }

  /** The brackets around the arguments keep a word from reaching over them. */
  lemma {:induction false} HeadIsPlain(arguments: string, word: string)
    requires NoKeyword(arguments, word) && Letters(word) && word[0] in "cns"
    ensures NoKeyword(TemplateHead(arguments), word)
  {
    forall q | 0 <= q <= |TemplateHead(arguments)| ensures !KeywordAt(TemplateHead(arguments), q, word) {
      if KeywordAt(TemplateHead(arguments), q, word) {
        WordInArguments(arguments, q, word);
      }
    }
  }

  lemma {:induction false} WordInArguments(arguments: string, q: nat, word: string)
    requires Letters(word) && word[0] in "cns" && KeywordAt(TemplateHead(arguments), q, word)
    ensures q >= 10 && KeywordAt(arguments, q - 10, word)
  {
    var lead := TemplateHead(arguments);
    KeywordChars(lead, q, word);
    HeadPlace(arguments, q);
    assert lead[10 + |arguments|] == '>';
    assert q + |word| <= 10 + |arguments|;
    assert lead[q..q + |word|] == arguments[q - 10..q - 10 + |word|];
    assert q > 10 ==> lead[q - 1] == arguments[q - 11];
  }

  lemma {:induction false} HeadPlace(arguments: string, q: nat)
    requires q < |TemplateHead(arguments)| && TemplateHead(arguments)[q] in "cns"
    ensures 10 <= q < 10 + |arguments|
  {
    var lead := TemplateHead(arguments);
    assert lead == "template <" + (arguments + "> ");
    assert forall i :: 0 <= i < 10 ==> lead[i] == "template <"[i];
  }

  /** `namespace` alone, with any space around, opens the anonymous scope. */
  lemma {:induction false} ClassifyAnonymous(before: string, after: string)
    requires Spaces(before) && Spaces(after)
    ensures Classify(before + "namespace" + after) == Entry(["<anonymous>"], false)
  {
    StripLed(before, "namespace", after);
    var s := "namespace";
    NothingBehind(0);
    assert s[0..9] == s && s[9..] == "";
  }

  lemma {:induction false} NothingBehind(p: nat)
    ensures NamespaceFrom("namespace", p) == None
    decreases 9 - p
  {
    if p < 9 {
      NothingBehind(p + 1);
    }
  }

  /** A template parameter introduced by `class` is taken for the class itself. */
  lemma {:induction false} ParameterIsTaken(name: string)
    requires Name(name) && name != "namespace"
    ensures Classify("template <class T> " + ("class" + " " + name)) == Entry(["T"], true)
  {
    var lead := "template <class T> ";
    var s := lead + ("class" + " " + name);
    assert s[|s| - 1] == name[|name| - 1] && s[0] == lead[0];
    assert "" + s + "" == s;
    StripLed("", s, "");
    assert s[..19] == lead;
    ParameterHeads(s);
    TemplateFirst("class T", s);
    ParameterNamespace();
    LeadOpensNoNamespace(s, lead, "class", name);
    ClassifyFirstClass(s, 10, "class", "T");
  }

  lemma {:induction false} ParameterHeads(s: string)
    requires |s| >= 19 && s[..19] == "template <class T> "
    ensures Heads(s, 10, "class", "T") && FirstClassAt(s, 10) && TemplateHead("class T") <= s
  {
    var lead := s[..19];
    assert s[10..15] == lead[10..15] == "class";
    assert s[16..17] == lead[16..17] == "T";
    assert s[9] == lead[9] && s[15] == lead[15] && s[17] == lead[17];
    forall q | 0 <= q < 10 ensures !KeywordAt(s, q, "class") && !KeywordAt(s, q, "struct") {
      assert s[q] == lead[q];
      OtherKeyword(s, q, "class");
      OtherKeyword(s, q, "struct");
    }
    assert TemplateHead("class T") == lead;
  }

  lemma {:induction false} ParameterNamespace()
    ensures NoKeyword("template <class T> ", "namespace")
  {
    var lead := "template <class T> ";
    forall q | 0 <= q < |lead| ensures !KeywordAt(lead, q, "namespace") {
      OtherKeyword(lead, q, "namespace");
    }
  }

  // --------------------------------------------------- classes opened by their headers

  /** The entries that nested class headers open. */
  function Opened(names: seq<string>): seq<Entry> {
    if names == [] then [] else [Classify("class " + names[0])] + Opened(names[1..])
  }

  predicate ClassNames(names: seq<string>) {
    forall k :: 0 <= k < |names| ==> Name(names[k]) && names[k] != "namespace"
  }

  lemma {:induction false} OpenedClasses(names: seq<string>)
    requires ClassNames(names)
    ensures Opened(names) == Classes(names)
  {
    if names != [] {
      var header := "class" + " " + names[0];
      assert "class " + names[0] == header == "" + header + "";
      ClassifyClass("", "class", names[0], "");
      OpenedClasses(names[1..]);
    }
  }

  /** A function defined out of line resolves to the same candidate as one declared inside the
      classes that those headers open. */
  lemma {:induction false} OutOfLineIsInOpened(stack: seq<Entry>, classes: seq<string>, name: string)
    requires classes != [] && ClassNames(classes) && Name(name)
    ensures var inClass := Candidate(name, Chain(stack + Opened(classes)), name == classes[|classes| - 1]);
            inClass.enclosing != [] && inClass.isConstructor == (name == inClass.enclosing[0]) &&
            ResolveQualified(Join("::", classes + [name]), Chain(stack)) == Resolved(inClass)
  {
    OpenedClasses(classes);
    forall k | 0 <= k < |classes + [name]| ensures NoColon((classes + [name])[k]) {
      assert k < |classes| ==> (classes + [name])[k] == classes[k] && Name(classes[k]);
    }
    OutOfLineIsInClass(stack, classes, name);
  }
}
