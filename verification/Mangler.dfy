/** Mangling of identifiers and argument types, after section 5.1 (External Names, also known as Mangling)
    of the Itanium C++ ABI. */
module Mangler {
  import opened Options

  // ----- escaping -----

  predicate IsDigit(c: char) { '0' <= c <= '9' }

  /** The characters the escaping pattern leaves alone. It ignores case, and four letters outside ASCII
      fold into its range: U+0130, U+0131, U+017F and U+212A. */
  predicate IsValidChar(c: char) {
    'a' <= c <= 'z' || 'A' <= c <= 'Z' || IsDigit(c) || c == '_' || IsFoldedLetter(c)
  }

  predicate IsFoldedLetter(c: char) {
    c as int in {0x130, 0x131, 0x17F, 0x212A}
  }

  function HexDigit(d: nat): char
    requires d < 16
  {
    if d < 10 then '0' + d as char else 'a' + (d - 10) as char
  }

  function EscapeByte(b: nat): string
    requires b < 256
  {
    ['_', HexDigit(b / 16), HexDigit(b % 16)]
  }

  /** The UTF-8 bytes of a character, each written as an underscore and two hexadecimal digits. */
  function EscapeUtf8(n: nat): string
    requires n < 0x110000
  {
    if n < 0x80 then EscapeByte(n)
    else if n < 0x800 then EscapeByte(0xC0 + n / 64) + EscapeByte(0x80 + n % 64)
    else if n < 0x10000 then
      EscapeByte(0xE0 + n / 4096) + EscapeByte(0x80 + n / 64 % 64) + EscapeByte(0x80 + n % 64)
    else
      EscapeByte(0xF0 + n / 262144) + EscapeByte(0x80 + n / 4096 % 64) + EscapeByte(0x80 + n / 64 % 64) +
        EscapeByte(0x80 + n % 64)
  }

  function EscapeChar(c: char): string {
    if IsValidChar(c) then [c] else EscapeUtf8(c as nat)
  }

  function EscapeString(text: string): string {
    if text == "" then "" else EscapeChar(text[0]) + EscapeString(text[1..])
  }

  function FixLeadDigit(text: string): string {
    if text != "" && IsDigit(text[0]) then "_" + text else text
  }

  /** What is written after the length prefix of a name. */
  function Clean(text: string): string {
    FixLeadDigit(EscapeString(text))
  }

  // ----- mangling -----

  function Decimal(n: nat): string {
    if n < 10 then ['0' + n as char] else Decimal(n / 10) + ['0' + (n % 10) as char]
  }

  function SignedDecimal(n: int): string {
    if n < 0 then "-" + Decimal(-n) else Decimal(n)
  }

  function LenEncoded(text: string): string {
    Decimal(|FixLeadDigit(text)|) + FixLeadDigit(text)
  }

  function Join(strings: seq<string>): string {
    if strings == [] then "" else strings[0] + Join(strings[1..])
  }

  function SplitDots(text: string): (parts: seq<string>)
    ensures parts != []
  {
    if text == "" then [""]
    else
      var rest := SplitDots(text[1..]);
      if text[0] == '.' then [""] + rest else [[text[0]] + rest[0]] + rest[1..]
  }

  datatype Builtin =
    | Void | Boolean | UInt8 | Int8 | UInt16 | Int16 | UInt32 | Int32 | UInt64 | Int64 | Float16 | Float32 | Float64

  function BuiltinCode(b: Builtin): string {
    match b
    case Void => "v" case Boolean => "b" case UInt8 => "h" case Int8 => "a" case UInt16 => "t" case Int16 => "s"
    case UInt32 => "j" case Int32 => "i" case UInt64 => "y" case Int64 => "x"
    case Float16 => "Dh" case Float32 => "f" case Float64 => "d"
  }

  /** A type or value to mangle: a type with a code of its own, a type with mangling arguments, an integer,
      a string taken as an identifier, or anything else by its text. */
  datatype Arg =
    | BuiltinType(code: Builtin)
    | TemplatedType(identifier: string, parameters: seq<Arg>)
    | IntegerValue(n: int)
    | StringValue(text: string)
    | OtherValue(text: string)

  function MangleParts(names: seq<string>): string {
    if names == [] then "" else LenEncoded(EscapeString(names[0])) + MangleParts(names[1..])
  }

  function MangleAbiTags(tags: seq<string>): string {
    if tags == [] then "" else "B" + LenEncoded(EscapeString(tags[0])) + MangleAbiTags(tags[1..])
  }

  function MangleIdentifier(ident: string, templateParams: string, tags: seq<string>): string {
    var names := SplitDots(ident);
    var extras := templateParams + MangleAbiTags(tags);
    if |names| > 1 then "N" + MangleParts(names) + extras + "E" else LenEncoded(EscapeString(names[0])) + extras
  }

  function MangleTypeOrValue(a: Arg): string
    decreases a, 1
  {
    match a
    case BuiltinType(code) => BuiltinCode(code)
    case TemplatedType(identifier, parameters) =>
      MangleIdentifier(identifier, if parameters != [] then "I" + MangleArgs(parameters) + "E" else "", [])
    case IntegerValue(n) => "Li" + SignedDecimal(n) + "E"
    case StringValue(text) => MangleIdentifier(text, "", [])
    case OtherValue(text) => LenEncoded(EscapeString(text))
  }

  function MangleArgs(args: seq<Arg>): string
    decreases args, 0
  {
    if args == [] then "" else MangleTypeOrValue(args[0]) + MangleArgs(args[1..])
  }

  function TagsWithUid(tags: seq<string>, uid: Option<string>): seq<string> {
    if uid.None? then tags else ["v" + uid.value] + tags
  }

  function Mangle(ident: string, args: seq<Arg>, tags: seq<string>, uid: Option<string>): string {
    "_Z" + MangleIdentifier(ident, "", TagsWithUid(tags, uid)) + MangleArgs(args)
  }

  // ----- what a symbol says -----

  /** An argument up to what mangling forgets: the spelling of names before escaping, and which kind of
      value a plain name came from. */
  datatype Node = Code(code: Builtin) | Integer(n: int) | Name(parts: seq<string>, params: seq<Node>)

  datatype Symbol = Symbol(parts: seq<string>, tags: seq<string>, args: seq<Node>)

  function CleanAll(names: seq<string>): seq<string> {
    seq(|names|, i requires 0 <= i < |names| => Clean(names[i]))
  }

  function Meaning(a: Arg): Node
    decreases a, 1
  {
    match a
    case BuiltinType(code) => Code(code)
    case TemplatedType(identifier, parameters) => Name(CleanAll(SplitDots(identifier)), Meanings(parameters))
    case IntegerValue(n) => Integer(n)
    case StringValue(text) => Name(CleanAll(SplitDots(text)), [])
    case OtherValue(text) => Name([Clean(text)], [])
  }

  function Meanings(args: seq<Arg>): seq<Node>
    decreases args, 0
  {
    if args == [] then [] else [Meaning(args[0])] + Meanings(args[1..])
  }

  function MeaningOf(ident: string, args: seq<Arg>, tags: seq<string>, uid: Option<string>): Symbol {
    Symbol(CleanAll(SplitDots(ident)), CleanAll(TagsWithUid(tags, uid)), Meanings(args))
  }

  // ----- reading a symbol back -----

  datatype Parsed<+T> = Fail | Got(value: T, rest: string)

  function DigitCount(s: string): (n: nat)
    ensures n <= |s|
  {
    if s == "" || !IsDigit(s[0]) then 0 else 1 + DigitCount(s[1..])
  }

  function DigitsValue(s: string): nat
    requires forall i :: 0 <= i < |s| ==> IsDigit(s[i])
  {
    if s == "" then 0 else assert IsDigit(s[|s| - 1]); 10 * DigitsValue(s[..|s| - 1]) + (s[|s| - 1] as int - '0' as int)
  }

  lemma DigitsAreDigits(s: string)
    ensures forall i :: 0 <= i < DigitCount(s) ==> IsDigit(s[i])
  {
    if s != "" && IsDigit(s[0]) {
      DigitsAreDigits(s[1..]);
    }
  }

  /** A number is a lone zero or all the digits there are. */
  function ParseNat(s: string): (p: Parsed<nat>)
    ensures p.Got? ==> |p.rest| < |s|
  {
    if s == "" || !IsDigit(s[0]) then Fail
    else if s[0] == '0' then Got(0, s[1..])
    else
      DigitsAreDigits(s);
      Got(DigitsValue(s[..DigitCount(s)]), s[DigitCount(s)..])
  }

  function ParsePart(s: string): (p: Parsed<string>)
    ensures p.Got? ==> |p.rest| < |s|
  {
    var len := ParseNat(s);
    if len.Fail? || |len.rest| < len.value then Fail else Got(len.rest[..len.value], len.rest[len.value..])
  }

  function ParseParts(s: string): (p: Parsed<seq<string>>)
    ensures p.Got? ==> |p.rest| <= |s|
    decreases |s|
  {
    if s == "" || !IsDigit(s[0]) then Got([], s)
    else
      var first := ParsePart(s);
      if first.Fail? then Fail
      else
        var others := ParseParts(first.rest);
        if others.Fail? then Fail else Got([first.value] + others.value, others.rest)
  }

  function ParseTags(s: string): (p: Parsed<seq<string>>)
    ensures p.Got? ==> |p.rest| <= |s|
    decreases |s|
  {
    if s == "" || s[0] != 'B' then Got([], s)
    else
      var first := ParsePart(s[1..]);
      if first.Fail? then Fail
      else
        var others := ParseTags(first.rest);
        if others.Fail? then Fail else Got([first.value] + others.value, others.rest)
  }

  function ParseInteger(s: string): (p: Parsed<int>)
    ensures p.Got? ==> |p.rest| <= |s|
  {
    var negative := s != "" && s[0] == '-';
    var digits := ParseNat(if negative then s[1..] else s);
    if digits.Fail? || digits.rest == "" || digits.rest[0] != 'E' then Fail
    else Got(if negative then -(digits.value as int) else digits.value, digits.rest[1..])
  }

  function ParseBuiltin(s: string): (p: Parsed<Node>)
    ensures p.Got? ==> |p.rest| < |s|
  {
    if s == "" then Fail
    else match s[0]
      case 'v' => Got(Code(Void), s[1..]) case 'b' => Got(Code(Boolean), s[1..])
      case 'h' => Got(Code(UInt8), s[1..]) case 'a' => Got(Code(Int8), s[1..])
      case 't' => Got(Code(UInt16), s[1..]) case 's' => Got(Code(Int16), s[1..])
      case 'j' => Got(Code(UInt32), s[1..]) case 'i' => Got(Code(Int32), s[1..])
      case 'y' => Got(Code(UInt64), s[1..]) case 'x' => Got(Code(Int64), s[1..])
      case 'f' => Got(Code(Float32), s[1..]) case 'd' => Got(Code(Float64), s[1..])
      case 'D' => if |s| > 1 && s[1] == 'h' then Got(Code(Float16), s[2..]) else Fail
      case _ => Fail
  }

  /** The optional template parameters after a name. */
  function ParseParams(s: string): (p: Parsed<seq<Node>>)
    ensures p.Got? ==> |p.rest| <= |s|
    decreases |s|, 1
  {
    if s == "" || s[0] != 'I' then Got([], s)
    else
      var params := ParseNodes(s[1..]);
      if params.Fail? || params.rest == "" then Fail else Got(params.value, params.rest[1..])
  }

  /** The rest of a nested name, up to its closing `E`. */
  function ParseNested(s: string): (p: Parsed<Node>)
    ensures p.Got? ==> |p.rest| < |s|
    decreases |s|, 3
  {
    var parts := ParseParts(s);
    if parts.Fail? then Fail
    else
      var params := ParseParams(parts.rest);
      if params.Fail? || params.rest == "" || params.rest[0] != 'E' then Fail
      else Got(Name(parts.value, params.value), params.rest[1..])
  }

  function ParseSingle(s: string): (p: Parsed<Node>)
    ensures p.Got? ==> |p.rest| < |s|
    decreases |s|, 3
  {
    var part := ParsePart(s);
    if part.Fail? then Fail
    else
      var params := ParseParams(part.rest);
      if params.Fail? then Fail else Got(Name([part.value], params.value), params.rest)
  }

  function ParseLiteral(s: string): (p: Parsed<Node>)
    ensures p.Got? ==> |p.rest| < |s|
  {
    if s == "" || s[0] != 'i' then Fail
    else
      var n := ParseInteger(s[1..]);
      if n.Fail? then Fail else Got(Integer(n.value), n.rest)
  }

  function ParseNode(s: string): (p: Parsed<Node>)
    ensures p.Got? ==> |p.rest| < |s|
    decreases |s|, 4
  {
    if s == "" then Fail
    else if s[0] == 'L' then ParseLiteral(s[1..])
    else if s[0] == 'N' then ParseNested(s[1..])
    else if IsDigit(s[0]) then ParseSingle(s)
    else ParseBuiltin(s)
  }

  /** All arguments up to an `E` or the end. */
  function ParseNodes(s: string): (p: Parsed<seq<Node>>)
    ensures p.Got? ==> |p.rest| <= |s| && (p.rest == "" || p.rest[0] == 'E')
    decreases |s|, 5
  {
    if s == "" || s[0] == 'E' then Got([], s)
    else
      var first := ParseNode(s);
      if first.Fail? then Fail
      else
        var others := ParseNodes(first.rest);
        if others.Fail? then Fail else Got([first.value] + others.value, others.rest)
  }

  function ParseTagsAndArgs(nested: bool, parts: Parsed<seq<string>>): Option<Symbol> {
    if parts.Fail? then None
    else
      var tags := ParseTags(parts.rest);
      if tags.Fail? || (nested && (tags.rest == "" || tags.rest[0] != 'E')) then None
      else
        var args := ParseNodes(if nested then tags.rest[1..] else tags.rest);
        if args.Fail? || args.rest != "" then None else Some(Symbol(parts.value, tags.value, args.value))
  }

  function ParseOnePart(s: string): Parsed<seq<string>> {
    var part := ParsePart(s);
    if part.Fail? then Fail else Got([part.value], part.rest)
  }

  /** Recover what a mangled name says. */
  function Demangle(s: string): Option<Symbol> {
    if |s| < 3 || s[0] != '_' || s[1] != 'Z' then None
    else if s[2] == 'N' then ParseTagsAndArgs(true, ParseParts(s[3..]))
    else ParseTagsAndArgs(false, ParseOnePart(s[2..]))
  }
}
