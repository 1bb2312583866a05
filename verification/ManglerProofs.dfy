/** A mangled name can be read back: it determines, and is determined by, what it says. */
module ManglerProofs {
  import opened Options
  import opened Mangler

  // ----- writing from the meaning -----

  predicate NoLeadDigit(text: string) {
    text == "" || !IsDigit(text[0])
  }

  predicate WellFormed(n: Node) {
    match n
    case Name(parts, params) =>
      parts != [] && (forall p <- parts :: NoLeadDigit(p)) && (forall p <- params :: WellFormed(p))
    case _ => true
  }

  predicate WellFormedSymbol(s: Symbol) {
    && s.parts != [] && (forall p <- s.parts :: NoLeadDigit(p))
    && (forall t <- s.tags :: NoLeadDigit(t)) && (forall a <- s.args :: WellFormed(a))
  }

  function WritePart(part: string): string {
    Decimal(|part|) + part
  }

  function WriteParts(parts: seq<string>): string {
    if parts == [] then "" else WritePart(parts[0]) + WriteParts(parts[1..])
  }

  function WriteTags(tags: seq<string>): string {
    if tags == [] then "" else "B" + WritePart(tags[0]) + WriteTags(tags[1..])
  }

  function WriteNode(n: Node): string
    decreases n, 1
  {
    match n
    case Code(code) => BuiltinCode(code)
    case Integer(i) => "Li" + SignedDecimal(i) + "E"
    case Name(parts, params) =>
      var tail := if params == [] then "" else "I" + WriteNodes(params) + "E";
      if |parts| == 1 then WritePart(parts[0]) + tail else "N" + WriteParts(parts) + tail + "E"
  }

  function WriteNodes(ns: seq<Node>): string
    decreases ns, 0
  {
    if ns == [] then "" else WriteNode(ns[0]) + WriteNodes(ns[1..])
  }

  function WriteSymbol(s: Symbol): string {
    "_Z"
    + (if |s.parts| == 1 then WritePart(s.parts[0]) + WriteTags(s.tags)
       else "N" + WriteParts(s.parts) + WriteTags(s.tags) + "E")
      + WriteNodes(s.args)
  }

  // ----- strings -----

  lemma Regroup(a: string, b: string, c: string)
    ensures (a + b) + c == a + (b + c)
  {
  }

  lemma FirstAndRest(c: char, t: string)
    ensures [c] + t != "" && ([c] + t)[0] == c && ([c] + t)[1..] == t
  {
  }

  // ----- numbers -----

  predicate AllDigits(s: string) {
    forall i :: 0 <= i < |s| ==> IsDigit(s[i])
  }

  lemma {:induction false} DecimalIsCanonical(n: nat)
    ensures var s := Decimal(n);
      s != "" && AllDigits(s) && DigitsValue(s) == n && (s[0] == '0' <==> n == 0) && (n == 0 ==> s == "0")
  {
    var s := Decimal(n);
    if n < 10 {
      assert s[..0] == "" && DigitsValue("") == 0;
    } else {
      DecimalIsCanonical(n / 10);
      assert s[..|s| - 1] == Decimal(n / 10);
    }
  }

  lemma {:induction false} DigitsEnd(digits: string, rest: string)
    requires AllDigits(digits) && NoLeadDigit(rest)
    ensures DigitCount(digits + rest) == |digits|
  {
    if digits == "" {
      assert digits + rest == rest;
    } else {
      assert (digits + rest)[1..] == digits[1..] + rest;
      DigitsEnd(digits[1..], rest);
    }
  }

  lemma ParseNatBack(n: nat, rest: string)
    requires n == 0 || NoLeadDigit(rest)
    ensures ParseNat(Decimal(n) + rest) == Got(n, rest)
  {
    DecimalIsCanonical(n);
    var s := Decimal(n) + rest;
    if n == 0 {
      assert s[1..] == rest;
    } else {
      DigitsEnd(Decimal(n), rest);
      assert s[..|Decimal(n)|] == Decimal(n) && s[|Decimal(n)|..] == rest;
    }
  }

  lemma ParseDigitsBack(digits: string, value: nat, negative: bool, rest: string)
    requires digits != "" && IsDigit(digits[0]) && ParseNat(digits + ("E" + rest)) == Got(value, "E" + rest)
    ensures ParseInteger((if negative then "-" + digits else digits) + "E" + rest)
      == Got(if negative then -(value as int) else value, rest)
  {
    var s := (if negative then "-" + digits else digits) + "E" + rest;
    if negative {
      assert s[1..] == digits + ("E" + rest);
    } else {
      assert s == digits + ("E" + rest) && s[0] == digits[0];
    }
    assert ("E" + rest)[1..] == rest;
  }

  lemma ParseIntegerBack(n: int, rest: string)
    ensures ParseInteger(SignedDecimal(n) + "E" + rest) == Got(n, rest)
  {
    var size := if n < 0 then -n else n;
    DecimalIsCanonical(size);
    ParseNatBack(size, "E" + rest);
    ParseDigitsBack(Decimal(size), size, n < 0, rest);
  }

  // ----- names -----

  lemma ParsePartBack(part: string, rest: string)
    requires NoLeadDigit(part)
    ensures ParsePart(WritePart(part) + rest) == Got(part, rest)
    ensures WritePart(part) != "" && IsDigit((WritePart(part) + rest)[0])
  {
    DecimalIsCanonical(|part|);
    assert WritePart(part) + rest == Decimal(|part|) + (part + rest);
    ParseNatBack(|part|, part + rest);
    assert (part + rest)[..|part|] == part && (part + rest)[|part|..] == rest;
  }

  lemma PartStart(part: string, tail: string)
    ensures WritePart(part) + tail != "" && IsDigit((WritePart(part) + tail)[0])
  {
    DecimalIsCanonical(|part|);
  }

  lemma ParseAnotherPart(s: string, part: string, tail: string, parts: seq<string>, rest: string)
    requires s != "" && IsDigit(s[0]) && ParsePart(s) == Got(part, tail) && ParseParts(tail) == Got(parts, rest)
    ensures ParseParts(s) == Got([part] + parts, rest)
  {
  }

  lemma {:induction false} ParsePartsBack(parts: seq<string>, rest: string)
    requires forall p <- parts :: NoLeadDigit(p)
    requires NoLeadDigit(rest)
    ensures ParseParts(WriteParts(parts) + rest) == Got(parts, rest)
    decreases |parts|
  {
    if parts == [] {
      assert "" + rest == rest;
    } else {
      var tail := WriteParts(parts[1..]) + rest;
      ParsePartBack(parts[0], tail);
      ParsePartsBack(parts[1..], rest);
      PartStart(parts[0], tail);
      ParseAnotherPart(WritePart(parts[0]) + tail, parts[0], tail, parts[1..], rest);
      Regroup(WritePart(parts[0]), WriteParts(parts[1..]), rest);
      assert [parts[0]] + parts[1..] == parts;
      hide WritePart, ParsePart, NoLeadDigit, ParseParts;
    }
  }

  lemma ParseOneTag(t: string, tag: string, tail: string, tags: seq<string>, rest: string)
    requires ParsePart(t) == Got(tag, tail) && ParseTags(tail) == Got(tags, rest)
    ensures ParseTags("B" + t) == Got([tag] + tags, rest)
  {
    FirstAndRest('B', t);
  }

  lemma {:induction false} ParseTagsBack(tags: seq<string>, rest: string)
    requires forall t <- tags :: NoLeadDigit(t)
    requires rest == "" || rest[0] != 'B'
    ensures ParseTags(WriteTags(tags) + rest) == Got(tags, rest)
    decreases |tags|
  {
    if tags == [] {
      assert "" + rest == rest;
    } else {
      var tail := WriteTags(tags[1..]) + rest;
      ParsePartBack(tags[0], tail);
      ParseTagsBack(tags[1..], rest);
      ParseOneTag(WritePart(tags[0]) + tail, tags[0], tail, tags[1..], rest);
      Regroup("B" + WritePart(tags[0]), WriteTags(tags[1..]), rest);
      Regroup("B", WritePart(tags[0]), tail);
      assert [tags[0]] + tags[1..] == tags;
      hide WritePart, ParsePart, NoLeadDigit, ParseTags;
    }
  }

  // ----- arguments -----

  /** What can follow an argument: the next one, the closing `E`, or the end. */
  predicate Follows(rest: string) {
    rest == "" || (rest[0] != 'I' && rest[0] != 'B')
  }

  /** No argument can be taken for a template parameter list, a tag or a closing `E`. */
  lemma NodeStart(n: Node, rest: string)
    requires WellFormed(n)
    ensures var s := WriteNode(n) + rest;
      s != "" && s[0] != 'E' && Follows(s)
  {
    if n.Name? && |n.parts| == 1 {
      DecimalIsCanonical(|n.parts[0]|);
      assert IsDigit((WriteNode(n) + rest)[0]);
    }
  }

  lemma NodesStart(ns: seq<Node>, rest: string)
    requires (forall n <- ns :: WellFormed(n)) && (rest == "" || rest[0] == 'E')
    ensures Follows(WriteNodes(ns) + rest)
  {
    if ns != [] {
      NodeStart(ns[0], WriteNodes(ns[1..]) + rest);
      assert WriteNodes(ns) + rest == WriteNode(ns[0]) + (WriteNodes(ns[1..]) + rest);
    }
  }

  lemma ParseBuiltinBack(code: Builtin, rest: string)
    ensures ParseNode(BuiltinCode(code) + rest) == Got(Code(code), rest)
  {
    var s := BuiltinCode(code) + rest;
    assert s[|BuiltinCode(code)|..] == rest;
  }

  lemma {:induction false} ParseParamsBack(params: seq<Node>, rest: string)
    requires (forall p <- params :: WellFormed(p)) && Follows(rest)
    ensures ParseParams((if params == [] then "" else "I" + WriteNodes(params) + "E") + rest) == Got(params, rest)
    decreases params, 1
  {
    if params == [] {
      assert "" + rest == rest;
    } else {
      ParseNodesBack(params, "E" + rest);
      Regroup("I" + WriteNodes(params), "E", rest);
      Regroup("I", WriteNodes(params), "E" + rest);
      FirstAndRest('I', WriteNodes(params) + ("E" + rest));
      FirstAndRest('E', rest);
    }
  }

  lemma SingleParses(s: string, part: string, t: string, params: seq<Node>, rest: string)
    requires s != "" && IsDigit(s[0]) && ParsePart(s) == Got(part, t) && ParseParams(t) == Got(params, rest)
    ensures ParseNode(s) == Got(Name([part], params), rest)
  {
  }

  lemma ParseSingleBack(part: string, tail: string, params: seq<Node>, rest: string)
    requires NoLeadDigit(part) && ParseParams(tail + rest) == Got(params, rest)
    ensures ParseNode((WritePart(part) + tail) + rest) == Got(Name([part], params), rest)
  {
    Regroup(WritePart(part), tail, rest);
    ParsePartBack(part, tail + rest);
    SingleParses(WritePart(part) + (tail + rest), part, tail + rest, params, rest);
  }

  lemma NestedParses(t: string, u: string, rest: string, parts: seq<string>, params: seq<Node>)
    requires ParseParts(t) == Got(parts, u) && ParseParams(u) == Got(params, "E" + rest)
    ensures ParseNode("N" + t) == Got(Name(parts, params), rest)
  {
    FirstAndRest('N', t);
    FirstAndRest('E', rest);
  }

  lemma ParseNestedBack(written: string, parts: seq<string>, tail: string, params: seq<Node>, rest: string)
    requires ParseParts(written + (tail + ("E" + rest))) == Got(parts, tail + ("E" + rest))
    requires ParseParams(tail + ("E" + rest)) == Got(params, "E" + rest)
    ensures ParseNode(("N" + written + tail + "E") + rest) == Got(Name(parts, params), rest)
  {
    NestedParses(written + (tail + ("E" + rest)), tail + ("E" + rest), rest, parts, params);
    Regroup("N" + written + tail, "E", rest);
    Regroup("N" + written, tail, "E" + rest);
    Regroup("N", written, tail + ("E" + rest));
  }

  lemma ParseLiteralBack(i: int, rest: string)
    ensures ParseNode("Li" + SignedDecimal(i) + "E" + rest) == Got(Integer(i), rest)
  {
    var t := SignedDecimal(i) + "E" + rest;
    ParseIntegerBack(i, rest);
    FirstAndRest('L', "i" + t);
    FirstAndRest('i', t);
    Regroup("Li", SignedDecimal(i), "E");
    Regroup("Li", SignedDecimal(i) + "E", rest);
    assert "Li" == "L" + "i";
    Regroup("L", "i", t);
  }

  lemma {:induction false} ParseNodeBack(n: Node, rest: string)
    requires WellFormed(n) && Follows(rest)
    ensures ParseNode(WriteNode(n) + rest) == Got(n, rest)
    decreases n, 2
  {
    match n
    case Code(code) => ParseBuiltinBack(code, rest);
    case Integer(i) =>
      ParseLiteralBack(i, rest);
    case Name(parts, params) =>
      var tail := if params == [] then "" else "I" + WriteNodes(params) + "E";
      if |parts| == 1 {
        ParseParamsBack(params, rest);
        ParseSingleBack(parts[0], tail, params, rest);
        assert [parts[0]] == parts;
      } else {
        ParsePartsBack(parts, tail + ("E" + rest));
        ParseParamsBack(params, "E" + rest);
        ParseNestedBack(WriteParts(parts), parts, tail, params, rest);
      }
  }

  lemma {:induction false} ParseNodesBack(ns: seq<Node>, rest: string)
    requires forall n <- ns :: WellFormed(n)
    requires rest == "" || rest[0] == 'E'
    ensures ParseNodes(WriteNodes(ns) + rest) == Got(ns, rest)
    decreases ns, 0
  {
    if ns == [] {
      assert "" + rest == rest;
    } else {
      var tail := WriteNodes(ns[1..]) + rest;
      assert WriteNodes(ns) + rest == WriteNode(ns[0]) + tail;
      NodeStart(ns[0], tail);
      NodesStart(ns[1..], rest);
      ParseNodeBack(ns[0], tail);
      ParseNodesBack(ns[1..], rest);
      assert [ns[0]] + ns[1..] == ns;
    }
  }

  lemma DemangleStart(t: string)
    requires t != ""
    ensures var s := "_Z" + t;
      |s| >= 3 && s[0] == '_' && s[1] == 'Z' && s[2] == t[0] && s[2..] == t && s[3..] == t[1..]
  {
  }

  lemma DemangleSingle(part: string, tags: seq<string>, args: seq<Node>, writtenTags: string, writtenArgs: string)
    requires NoLeadDigit(part)
    requires ParseTags(writtenTags + writtenArgs) == Got(tags, writtenArgs)
    requires ParseNodes(writtenArgs) == Got(args, "")
    ensures Demangle("_Z" + (WritePart(part) + writtenTags) + writtenArgs) == Some(Symbol([part], tags, args))
  {
    Regroup("_Z", WritePart(part) + writtenTags, writtenArgs);
    Regroup(WritePart(part), writtenTags, writtenArgs);
    ParsePartBack(part, writtenTags + writtenArgs);
    DemangleStart(WritePart(part) + (writtenTags + writtenArgs));
  }

  lemma NestedDemangles(t: string, u: string, w: string, parts: seq<string>, tags: seq<string>, args: seq<Node>)
    requires ParseParts(t) == Got(parts, u) && ParseTags(u) == Got(tags, "E" + w) && ParseNodes(w) == Got(args, "")
    ensures Demangle("_Z" + ("N" + t)) == Some(Symbol(parts, tags, args))
  {
    FirstAndRest('N', t);
    FirstAndRest('E', w);
    DemangleStart("N" + t);
  }

  lemma DemangleNested(parts: seq<string>, tags: seq<string>, args: seq<Node>, writtenParts: string,
      writtenTags: string, writtenArgs: string)
    requires ParseParts(writtenParts + (writtenTags + ("E" + writtenArgs))) ==
      Got(parts, writtenTags + ("E" + writtenArgs))
    requires ParseTags(writtenTags + ("E" + writtenArgs)) == Got(tags, "E" + writtenArgs)
    requires ParseNodes(writtenArgs) == Got(args, "")
    ensures Demangle("_Z" + ("N" + writtenParts + writtenTags + "E") + writtenArgs) == Some(Symbol(parts, tags, args))
  {
    NestedDemangles(writtenParts + (writtenTags + ("E" + writtenArgs)), writtenTags + ("E" + writtenArgs),
      writtenArgs, parts, tags, args);
    Regroup("_Z", "N" + writtenParts + writtenTags + "E", writtenArgs);
    Regroup("N" + writtenParts + writtenTags, "E", writtenArgs);
    Regroup("N" + writtenParts, writtenTags, "E" + writtenArgs);
    Regroup("N", writtenParts, writtenTags + ("E" + writtenArgs));
  }

  lemma DemangleBack(s: Symbol)
    requires WellFormedSymbol(s)
    ensures Demangle(WriteSymbol(s)) == Some(s)
  {
    var args, tags := WriteNodes(s.args), WriteTags(s.tags);
    ParseNodesBack(s.args, "");
    assert args + "" == args;
    NodesStart(s.args, "");
    if |s.parts| == 1 {
      ParseTagsBack(s.tags, args);
      DemangleSingle(s.parts[0], s.tags, s.args, tags, args);
      assert [s.parts[0]] == s.parts;
    } else {
      ParsePartsBack(s.parts, tags + ("E" + args));
      ParseTagsBack(s.tags, "E" + args);
      DemangleNested(s.parts, s.tags, s.args, WriteParts(s.parts), tags, args);
    }
  }

  // ----- mangling writes the meaning -----

  lemma CleanHasNoLeadDigit(text: string)
    ensures NoLeadDigit(Clean(text))
  {
  }

  lemma {:induction false} PartsWritten(names: seq<string>)
    ensures MangleParts(names) == WriteParts(CleanAll(names))
    ensures MangleAbiTags(names) == WriteTags(CleanAll(names))
    ensures forall p <- CleanAll(names) :: NoLeadDigit(p)
    decreases |names|
  {
    if names != [] {
      PartsWritten(names[1..]);
      assert CleanAll(names)[1..] == CleanAll(names[1..]);
    }
  }

  lemma TemplateWritten(ident: string, params: string)
    ensures var parts := CleanAll(SplitDots(ident));
      && parts != [] && (forall p <- parts :: NoLeadDigit(p))
      && MangleIdentifier(ident, params, []) ==
           if |parts| == 1 then WritePart(parts[0]) + params else "N" + WriteParts(parts) + params + "E"
  {
    PartsWritten(SplitDots(ident));
    assert params + "" == params;
  }

  lemma {:induction false} ArgWritten(a: Arg)
    ensures MangleTypeOrValue(a) == WriteNode(Meaning(a)) && WellFormed(Meaning(a))
    decreases a, 1
  {
    match a
    case TemplatedType(identifier, parameters) =>
      TemplateWritten(identifier, if parameters != [] then "I" + MangleArgs(parameters) + "E" else "");
      ArgsWritten(parameters);
    case StringValue(text) => TemplateWritten(text, "");
    case OtherValue(text) =>
    case IntegerValue(n) =>
    case BuiltinType(code) =>
  }

  lemma {:induction false} ArgsWritten(args: seq<Arg>)
    ensures MangleArgs(args) == WriteNodes(Meanings(args)) && |Meanings(args)| == |args| &&
      forall n <- Meanings(args) :: WellFormed(n)
    decreases args, 0
  {
    if args != [] {
      ArgWritten(args[0]);
      ArgsWritten(args[1..]);
    }
  }

  lemma IdentifierWritten(ident: string, tags: seq<string>)
    ensures var parts := CleanAll(SplitDots(ident));
      MangleIdentifier(ident, "", tags) ==
        if |parts| == 1 then WritePart(parts[0]) + WriteTags(CleanAll(tags))
        else "N" + WriteParts(parts) + WriteTags(CleanAll(tags)) + "E"
  {
    PartsWritten(SplitDots(ident));
    PartsWritten(tags);
    assert "" + MangleAbiTags(tags) == MangleAbiTags(tags);
  }

  lemma MangleWritesMeaning(ident: string, args: seq<Arg>, tags: seq<string>, uid: Option<string>)
    ensures var s := MeaningOf(ident, args, tags, uid);
      Mangle(ident, args, tags, uid) == WriteSymbol(s) && WellFormedSymbol(s)
  {
    IdentifierWritten(ident, TagsWithUid(tags, uid));
    PartsWritten(SplitDots(ident));
    PartsWritten(TagsWithUid(tags, uid));
    ArgsWritten(args);
  }

  /** The reader recovers the parts of the identifier, the ABI tags and the whole argument list. */
  lemma DemangleRecoversMeaning(ident: string, args: seq<Arg>, tags: seq<string>, uid: Option<string>)
    ensures Demangle(Mangle(ident, args, tags, uid)) == Some(MeaningOf(ident, args, tags, uid))
  {
    MangleWritesMeaning(ident, args, tags, uid);
    DemangleBack(MeaningOf(ident, args, tags, uid));
  }

  /** Two inputs share a symbol exactly when they mean the same: no argument is confused with the start of
      the next, and only escaping, the leading-digit fix and the kind of a plain name are forgotten. */
  lemma SameSymbolExactly(
    ident: string, args: seq<Arg>, tags: seq<string>, uid: Option<string>,
    ident': string, args': seq<Arg>, tags': seq<string>, uid': Option<string>)
    ensures Mangle(ident, args, tags, uid) == Mangle(ident', args', tags', uid')
      <==> MeaningOf(ident, args, tags, uid) == MeaningOf(ident', args', tags', uid')
  {
    MangleWritesMeaning(ident, args, tags, uid);
    MangleWritesMeaning(ident', args', tags', uid');
    DemangleRecoversMeaning(ident, args, tags, uid);
    DemangleRecoversMeaning(ident', args', tags', uid');
  }
}
