/** Decorated-name fragments (tools/msvc_decorate.py), the liveness test on a linker map
    (tools/map_symbols.py) and qualified-name resolution (tools/orphan_shapes.py). */
module Decorate {
  import opened Sequences
  import opened Options
  import opened CppScopes

  /** A function to look for: `name` declared in the scopes `enclosing`, innermost first. */
  datatype Candidate = Candidate(name: string, enclosing: seq<string>, isConstructor: bool)

  predicate Identifier(s: string) {
    s != "" && forall i :: 0 <= i < |s| ==> s[i] != '@' && s[i] != '?'
  }

  predicate Identifiers(parts: seq<string>) {
    forall k :: 0 <= k < |parts| ==> Identifier(parts[k])
  }

  predicate Unqualified(parts: seq<string>) {
    forall k :: 0 <= k < |parts| ==> NoColon(parts[k])
  }

  predicate NoColon(s: string) {
    forall i :: 0 <= i < |s| ==> s[i] != ':'
  }

  /** `separator.join(parts)`. */
  function Join(separator: string, parts: seq<string>): string {
    if parts == [] then "" else if |parts| == 1 then parts[0]
    else parts[0] + separator + Join(separator, parts[1..])
  }

  /** A constructor must name its class. */
  predicate Decorable(c: Candidate) {
    c.isConstructor ==> c.enclosing != []
  }

  predicate WellNamed(c: Candidate) {
    Decorable(c) && Identifier(c.name) && Identifiers(c.enclosing)
  }

  /** `decorated_fragment`. The empty-scope constructor, which the tool refuses with an
      error, has no fragment. */
  function Fragment(c: Candidate): string
    requires Decorable(c)
  {
    if c.isConstructor then "??0" + Join("@", c.enclosing) + "@@"
    else "?" + Join("@", [c.name] + c.enclosing) + "@@"
  }

  /** `is_fragment_live`. */
  predicate IsFragmentLive(fragment: string, names: set<string>) {
    exists name :: name in names && fragment <= name
  }

  /** The same function up to overloads: constructors carry no name of their own. */
  predicate SameSymbol(c: Candidate, d: Candidate) {
    c.isConstructor == d.isConstructor && c.enclosing == d.enclosing && (c.isConstructor || c.name == d.name)
  }

  // ------------------------------------------------------ reading a decorated name

  /** What a decorated name says before its encoding. */
  datatype Symbol = Symbol(isConstructor: bool, parts: seq<string>)

  /** The symbol a candidate stands for. */
  function SymbolOf(c: Candidate): Symbol {
    Symbol(c.isConstructor, if c.isConstructor then c.enclosing else [c.name] + c.enclosing)
  }

  /** The characters up to the first at-sign. */
  function Part(s: string): (p: string)
    ensures |p| <= |s| && p == s[..|p|] && (|p| == |s| || s[|p|] == '@')
  {
    if s == "" || s[0] == '@' then "" else [s[0]] + Part(s[1..])
  }

  /** Nonempty at-separated parts up to a double at-sign, whatever follows it. */
  function Parts(s: string): Option<seq<string>>
    decreases |s|
  {
    var p := Part(s);
    var rest := s[|p|..];
    if p == "" || |rest| < 2 then None
    else if rest[1] == '@' then Some([p])
    else
      var more := Parts(rest[1..]);
      if more.None? then None else Some([p] + more.value)
  }

  /** The documented grammar: `?` and a name or `??0`, the at-separated parts, `@@` and any
      encoding. Other special names are not read. */
  function Read(name: string): Option<Symbol> {
    var parts :=
      if "??0" <= name then Parts(name[3..])
      else if "?" <= name && !("??" <= name) then Parts(name[1..])
      else None;
    if parts.None? then None else Some(Symbol("??0" <= name, parts.value))
  }

  lemma {:induction false} PartOfJoin(p: string, rest: string)
    requires forall i :: 0 <= i < |p| ==> p[i] != '@'
    requires rest != "" && rest[0] == '@'
    ensures Part(p + rest) == p
  {
    if p == "" {
      assert p + rest == rest;
    } else {
      assert (p + rest)[1..] == p[1..] + rest;
      PartOfJoin(p[1..], rest);
    }
  }

  /** Joined identifiers closed by a double at-sign read back, whatever follows. */
  lemma {:induction false} PartsOfJoin(parts: seq<string>, encoding: string)
    requires parts != [] && Identifiers(parts)
    ensures Parts(Join("@", parts) + "@@" + encoding) == Some(parts)
  {
    var p := parts[0];
    if |parts| == 1 {
      assert Join("@", parts) + "@@" + encoding == p + ("@@" + encoding);
      LastPart(p, encoding);
      assert parts == [p];
    } else {
      var tail := Join("@", parts[1..]) + "@@" + encoding;
      assert Join("@", parts) + "@@" + encoding == p + ("@" + tail);
      JoinStarts(parts[1..]);
      assert tail[0] == parts[1][0];
      PartsOfJoin(parts[1..], encoding);
      NextPart(p, tail);
      assert parts == [p] + parts[1..];
    }
  }

  lemma {:induction false} LastPart(p: string, encoding: string)
    requires Identifier(p)
    ensures Parts(p + ("@@" + encoding)) == Some([p])
  {
    var rest := "@@" + encoding;
    PartOfJoin(p, rest);
    assert (p + rest)[|p|..] == rest;
  }

  lemma {:induction false} NextPart(p: string, tail: string)
    requires Identifier(p) && tail != "" && tail[0] != '@' && Parts(tail).Some?
    ensures Parts(p + ("@" + tail)) == Some([p] + Parts(tail).value)
  {
    var rest := "@" + tail;
    PartOfJoin(p, rest);
    assert (p + rest)[|p|..] == rest && rest[1..] == tail && rest[1] == tail[0];
  }

  lemma {:induction false} JoinStarts(parts: seq<string>)
    requires parts != [] && parts[0] != ""
    ensures Join("@", parts) != "" && Join("@", parts)[0] == parts[0][0]
  {
  }

  /** Text that reads as some parts starts with those parts joined and closed. */
  lemma {:induction false} JoinOfParts(s: string)
    requires Parts(s).Some?
    ensures var parts := Parts(s).value;
            parts != [] && Join("@", parts) + "@@" <= s
    decreases |s|
  {
    var p := Part(s);
    var rest := s[|p|..];
    assert s == p + rest && rest[0] == '@';
    if rest[1] == '@' {
      assert rest == "@@" + rest[2..];
      PrefixUnder(p, "@@", rest);
    } else {
      assert rest == "@" + rest[1..];
      JoinOfParts(rest[1..]);
      var more := Parts(rest[1..]).value;
      JoinClosed(p, more);
      PrefixUnder("@", Join("@", more) + "@@", rest[1..]);
      PrefixUnder(p, "@" + (Join("@", more) + "@@"), rest);
    }
  }

  lemma PrefixUnder(lead: string, a: string, b: string)
    requires a <= b
    ensures lead + a <= lead + b
  {
    assert b == a + b[|a|..];
    assert lead + b == (lead + a) + b[|a|..];
  }

  lemma {:induction false} JoinClosed(p: string, more: seq<string>)
    requires more != []
    ensures Join("@", [p] + more) + "@@" == p + ("@" + (Join("@", more) + "@@"))
  {
    assert ([p] + more)[1..] == more;
    assert Join("@", [p] + more) == p + "@" + Join("@", more);
  }

  // ------------------------------------------------------------- what a prefix means

  /** A fragment is a prefix of a name exactly when the name reads as the candidate's symbol. */
  lemma {:induction false} PrefixExactlyWhenRead(c: Candidate, name: string)
    requires WellNamed(c)
    ensures Fragment(c) <= name <==> Read(name) == Some(SymbolOf(c))
  {
    if Fragment(c) <= name {
      assert name == Fragment(c) + name[|Fragment(c)|..];
      FragmentReads(c, name[|Fragment(c)|..]);
    }
    if Read(name) == Some(SymbolOf(c)) {
      StartsAsRead(c, name);
    }
  }

  lemma {:induction false} StartsAsRead(c: Candidate, name: string)
    requires WellNamed(c) && Read(name) == Some(SymbolOf(c))
    ensures Fragment(c) <= name
  {
    StartsUnder(if c.isConstructor then "??0" else "?", SymbolOf(c).parts, name);
    Framed(c);
  }

  lemma {:induction false} StartsUnder(lead: string, parts: seq<string>, name: string)
    requires lead <= name && Parts(name[|lead|..]) == Some(parts)
    ensures lead + (Join("@", parts) + "@@") <= name
  {
    JoinOfParts(name[|lead|..]);
    PrefixUnder(lead, Join("@", parts) + "@@", name[|lead|..]);
    assert name == lead + name[|lead|..];
  }

  lemma {:induction false} Framed(c: Candidate)
    requires WellNamed(c)
    ensures Fragment(c) == (if c.isConstructor then "??0" else "?") + (Join("@", SymbolOf(c).parts) + "@@")
  {
    var joined := Join("@", SymbolOf(c).parts);
    if c.isConstructor {
      assert "??0" + joined + "@@" == "??0" + (joined + "@@");
    } else {
      assert "?" + joined + "@@" == "?" + (joined + "@@");
    }
  }

  /** A fragment followed by any encoding reads as the candidate's symbol. */
  lemma {:induction false} FragmentReads(c: Candidate, encoding: string)
    requires WellNamed(c)
    ensures Read(Fragment(c) + encoding) == Some(SymbolOf(c))
  {
    var parts := SymbolOf(c).parts;
    var body := Join("@", parts) + "@@";
    var lead := if c.isConstructor then "??0" else "?";
    Framed(c);
    assert lead + body + encoding == lead + (body + encoding);
    PartsOfJoin(parts, encoding);
    JoinStarts(parts);
    assert (body + encoding)[0] == parts[0][0];
    ReadsUnder(c.isConstructor, body + encoding, parts);
  }

  lemma {:induction false} ReadsUnder(isConstructor: bool, body: string, parts: seq<string>)
    requires Parts(body) == Some(parts) && body != "" && body[0] != '?'
    ensures Read((if isConstructor then "??0" else "?") + body) == Some(Symbol(isConstructor, parts))
  {
    var lead := if isConstructor then "??0" else "?";
    assert (lead + body)[|lead|..] == body;
    assert !isConstructor ==> (lead + body)[1] == body[0];
  }

  /** One fragment is a prefix of another one followed by any signature encoding exactly
      when they name the same symbol. */
  lemma {:induction false} PrefixIsSameSymbol(c: Candidate, d: Candidate, encoding: string)
    requires WellNamed(c) && WellNamed(d)
    ensures Fragment(c) <= Fragment(d) + encoding <==> SameSymbol(c, d)
  {
    FragmentReads(d, encoding);
    PrefixExactlyWhenRead(c, Fragment(d) + encoding);
    if SymbolOf(c).parts == SymbolOf(d).parts && c.isConstructor == d.isConstructor && !c.isConstructor {
      assert SymbolOf(c).parts[0] == SymbolOf(d).parts[0];
      assert SymbolOf(c).parts[1..] == c.enclosing && SymbolOf(d).parts[1..] == d.enclosing;
    }
  }

  /** Whatever names a map lists, a candidate is reported live exactly when one of them reads
      as its symbol, in some overload. */
  lemma {:induction false} LiveExactlyWhenLinked(c: Candidate, names: set<string>)
    requires WellNamed(c)
    ensures IsFragmentLive(Fragment(c), names) <==>
            exists name :: name in names && Read(name) == Some(SymbolOf(c))
  {
    forall name | name in names
      ensures Fragment(c) <= name <==> Read(name) == Some(SymbolOf(c))
    {
      PrefixExactlyWhenRead(c, name);
    }
  }

  // ------------------------------------------------------------ qualified names

  /** `s.split("::")`. */
  function Split(s: string): (parts: seq<string>)
    ensures parts != []
    decreases |s|
  {
    if |s| >= 2 && s[0] == ':' && s[1] == ':' then [""] + Split(s[2..])
    else if s == "" then [""]
    else
      var rest := Split(s[1..]);
      [[s[0]] + rest[0]] + rest[1..]
  }

  lemma {:induction false} SplitWord(p: string, rest: string)
    requires NoColon(p)
    requires rest == "" || (|rest| >= 2 && rest[0] == ':' && rest[1] == ':')
    ensures Split(p + rest) == if rest == "" then [p] else [p] + Split(rest[2..])
  {
    if p == "" {
      assert p + rest == rest;
    } else {
      assert (p + rest)[1..] == p[1..] + rest;
      SplitWord(p[1..], rest);
      assert [p[0]] + p[1..] == p;
    }
  }

  lemma {:induction false} SplitJoin(parts: seq<string>)
    requires parts != [] && Unqualified(parts)
    ensures Split(Join("::", parts)) == parts
  {
    var p := parts[0];
    if |parts| == 1 {
      assert p == p + "";
      SplitWord(p, "");
    } else {
      var rest := "::" + Join("::", parts[1..]);
      assert Join("::", parts) == p + rest;
      SplitWord(p, rest);
      assert rest[2..] == Join("::", parts[1..]);
      SplitJoin(parts[1..]);
      assert parts == [p] + parts[1..];
    }
  }

  datatype Resolution = Destructor | Resolved(candidate: Candidate)

  /** `resolve_qualified`. */
  function ResolveQualified(name: string, enclosing: seq<string>): Resolution {
    var parts := Split(name);
    var bare, qualifiers := parts[|parts| - 1], parts[..|parts| - 1];
    if bare != "" && bare[0] == '~' then Destructor
    else
      var isConstructor := qualifiers != [] && bare == qualifiers[|qualifiers| - 1];
      Resolved(Candidate(bare, Reversed(qualifiers) + enclosing, isConstructor))
  }

  /** Entries opened by nested classes, outermost first. */
  function Classes(names: seq<string>): seq<Entry> {
    if names == [] then [] else [Entry([names[0]], false)] + Classes(names[1..])
  }

  lemma {:induction false} NamesConcat(a: seq<Entry>, b: seq<Entry>)
    ensures Names(a + b) == Names(a) + Names(b)
  {
    if a == [] {
      assert a + b == b;
    } else {
      assert (a + b)[1..] == a[1..] + b;
      NamesConcat(a[1..], b);
    }
  }

  lemma {:induction false} NamesOfClasses(names: seq<string>)
    ensures Names(Classes(names)) == names
  {
    if names != [] {
      assert Classes(names)[1..] == Classes(names[1..]);
      NamesOfClasses(names[1..]);
    }
  }

  /** Entries nested in a stack contribute their names, innermost first, in front. */
  lemma {:induction false} ChainOfNested(stack: seq<Entry>, names: seq<string>)
    ensures Chain(stack + Classes(names)) == Reversed(names) + Chain(stack)
    ensures Chain(stack + [Entry(names, false)]) == Reversed(names) + Chain(stack)
  {
    NamesConcat(stack, Classes(names));
    NamesOfClasses(names);
    NamesConcat(stack, [Entry(names, false)]);
    assert Names([Entry(names, false)]) == names by {
      assert [Entry(names, false)][1..] == [];
    }
    ReversedConcat(Names(stack), names);
  }

  /** An out-of-line definition inside any namespaces resolves to the scopes, constructor
      flag and fragment of the same function declared inside the nested classes. */
  lemma {:induction false} OutOfLineIsInClass(stack: seq<Entry>, classes: seq<string>, name: string)
    requires classes != [] && Unqualified(classes + [name]) && name != "" && name[0] != '~'
    ensures var inClass := Candidate(name, Chain(stack + Classes(classes)), name == classes[|classes| - 1]);
            inClass.enclosing != [] && inClass.isConstructor == (name == inClass.enclosing[0]) &&
            ResolveQualified(Join("::", classes + [name]), Chain(stack)) == Resolved(inClass)
  {
    var parts := classes + [name];
    SplitJoin(parts);
    assert parts[..|parts| - 1] == classes;
    ChainOfNested(stack, classes);
    ReversedFirst(classes);
  }

  lemma {:induction false} ReversedFirst(s: seq<string>)
    requires s != []
    ensures Reversed(s) != [] && Reversed(s)[0] == s[|s| - 1]
  {
    if |s| > 1 {
      ReversedFirst(s[1..]);
    } else {
      assert s[1..] == [];
    }
  }
}
