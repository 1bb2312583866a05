/** Parsing the core dimensions of a generalized ufunc from the tokens of its signature. */
module SignatureParser {
  import opened GUFuncSchedule

  datatype Token = Open | Close | Comma | Name(symbol: Symbol) | End | Other(text: string)

  type Groups = seq<seq<Symbol>>

  /** `OutOfTokens` is a stream that stops before its end token. */
  datatype Parse = Parsed(groups: Groups) | BadToken(token: Token) | OutOfTokens

  datatype GroupParse = Group(symbols: seq<Symbol>, rest: seq<Token>) | BadInGroup(token: Token) | OutInGroup

  /** What follows an opening parenthesis: names and commas in any arrangement, up to the closing one. */
  function ReadGroup(tokens: seq<Token>): (r: GroupParse)
    ensures r.Group? ==> |r.rest| < |tokens|
    decreases |tokens|
  {
    if tokens == [] then OutInGroup
    else match tokens[0]
      case Close => Group([], tokens[1..])
      case Comma => ReadGroup(tokens[1..])
      case Name(symbol) =>
        var others := ReadGroup(tokens[1..]);
        if others.Group? then Group([symbol] + others.symbols, others.rest) else others
      case _ => BadInGroup(tokens[0])
  }

  function AddGroup(group: seq<Symbol>, parse: Parse): Parse {
    if parse.Parsed? then Parsed([group] + parse.groups) else parse
  }

  function AddGroups(groups: Groups, parse: Parse): Parse {
    if parse.Parsed? then Parsed(groups + parse.groups) else parse
  }

  function ReadGroups(tokens: seq<Token>): Parse
    decreases |tokens|
  {
    if tokens == [] then OutOfTokens
    else match tokens[0]
      case End => Parsed([])
      case Open =>
        var group := ReadGroup(tokens[1..]);
        if group.BadInGroup? then BadToken(group.token)
        else if group.OutInGroup? || group.rest == [] then OutOfTokens
        else AddGroup(group.symbols, if group.rest[0] == End then Parsed([]) else ReadGroups(group.rest[1..]))
      case _ => BadToken(tokens[0])
  }

  /** The loop inside the parentheses; `next` is where the token after them is. */
  method ParseGroup(tokens: seq<Token>, start: nat) returns (r: GroupParse, next: nat)
    requires start <= |tokens|
    ensures r == ReadGroup(tokens[start..])
    ensures r.Group? ==> start < next <= |tokens| && r.rest == tokens[next..]
  {
    var symbols: seq<Symbol> := [];
    next := start;
    while next < |tokens|
      invariant start <= next <= |tokens|
      invariant ReadGroup(tokens[start..]) == AddSymbols(symbols, ReadGroup(tokens[next..]))
      decreases |tokens| - next
    {
      var tok := tokens[next];
      assert tokens[next..][1..] == tokens[next + 1..];
      next := next + 1;
      match tok
      case Close => return Group(symbols, tokens[next..]), next;
      case Name(symbol) => symbols := symbols + [symbol];
      case Comma =>
      case _ => return BadInGroup(tok), next;
    }
    return OutInGroup, next;
  }

  lemma AfterGroup(tokens: seq<Token>, pos: nat, group: GroupParse, next: nat)
    requires pos < next < |tokens| && tokens[pos] == Open
    requires group == ReadGroup(tokens[pos + 1..]) && group.Group? && group.rest == tokens[next..]
    ensures ReadGroups(tokens[pos..])
      == AddGroup(group.symbols, if tokens[next] == End then Parsed([]) else ReadGroups(tokens[next + 1..]))
  {
    assert tokens[pos..][1..] == tokens[pos + 1..];
    assert tokens[next..][1..] == tokens[next + 1..];
  }

  lemma GroupsAdd(groups: Groups, group: seq<Symbol>, parse: Parse)
    ensures AddGroups(groups, AddGroup(group, parse)) == AddGroups(groups + [group], parse)
  {
    if parse.Parsed? {
      assert groups + ([group] + parse.groups) == groups + [group] + parse.groups;
    }
  }

  method ParseGroups(tokens: seq<Token>) returns (r: Parse)
    ensures r == ReadGroups(tokens)
  {
    hide ReadGroup, AddGroup;
    var groups: Groups := [];
    var pos := 0;
    while pos < |tokens|
      invariant 0 <= pos <= |tokens|
      invariant ReadGroups(tokens) == AddGroups(groups, ReadGroups(tokens[pos..]))
      decreases |tokens| - pos
    {
      var tok := tokens[pos];
      assert tokens[pos..][1..] == tokens[pos + 1..];
      if tok == Open {
        var group, next := ParseGroup(tokens, pos + 1);
        if group.BadInGroup? {
          return BadToken(group.token);
        }
        if group.OutInGroup? || next == |tokens| {
          return OutOfTokens;
        }
        AfterGroup(tokens, pos, group, next);
        GroupsAdd(groups, group.symbols, if tokens[next] == End then Parsed([]) else ReadGroups(tokens[next + 1..]));
        groups := groups + [group.symbols];
        tok := tokens[next];
        pos := next + 1;
        if tok == Comma {
          continue;
        } else if tok == End {
          return Parsed(groups);
        }
      } else if tok == End {
        return Parsed(groups);
      } else {
        return BadToken(tok);
      }
    }
    return OutOfTokens;
  }

  function AddSymbols(symbols: seq<Symbol>, group: GroupParse): GroupParse {
    if group.Group? then Group(symbols + group.symbols, group.rest) else group
  }

  // ----- the language -----

  /** A signature as it may be written: nothing more; a last group; or a group, one token of any kind but
      the end, and more. */
  datatype Written = Nothing | Last(items: seq<Token>) | Then(items: seq<Token>, between: Token, more: Written)

  predicate Items(items: seq<Token>) {
    forall i :: 0 <= i < |items| ==> items[i].Name? || items[i].Comma?
  }

  predicate Legal(w: Written) {
    match w
    case Nothing => true
    case Last(items) => Items(items)
    case Then(items, between, more) => Items(items) && between != End && Legal(more)
  }

  function Write(w: Written): seq<Token> {
    match w
    case Nothing => [End]
    case Last(items) => [Open] + items + [Close] + [End]
    case Then(items, between, more) => [Open] + items + [Close] + [between] + Write(more)
  }

  function NamesIn(items: seq<Token>): seq<Symbol> {
    if items == [] then []
    else if items[0].Name? then [items[0].symbol] + NamesIn(items[1..])
    else NamesIn(items[1..])
  }

  function GroupsIn(w: Written): Groups {
    match w
    case Nothing => []
    case Last(items) => [NamesIn(items)]
    case Then(items, _, more) => [NamesIn(items)] + GroupsIn(more)
  }

  lemma {:induction false} ReadGroupBack(items: seq<Token>, rest: seq<Token>)
    requires Items(items)
    ensures ReadGroup(items + [Close] + rest) == Group(NamesIn(items), rest)
    decreases |items|
  {
    var tokens := items + [Close] + rest;
    if items != [] {
      assert tokens[1..] == items[1..] + [Close] + rest;
      ReadGroupBack(items[1..], rest);
    } else {
      assert tokens == [Close] + rest;
    }
  }

  /** Everything legal is read back, whatever the end token is followed by. */
  lemma {:induction false} ReadBack(w: Written, rest: seq<Token>)
    requires Legal(w)
    ensures ReadGroups(Write(w) + rest) == Parsed(GroupsIn(w))
    decreases w
  {
    var tokens := Write(w) + rest;
    match w
    case Nothing =>
    case Last(items) =>
      assert tokens[1..] == items + [Close] + ([End] + rest);
      ReadGroupBack(items, [End] + rest);
    case Then(items, between, more) =>
      var after := [between] + (Write(more) + rest);
      assert tokens[1..] == items + [Close] + after;
      ReadGroupBack(items, after);
      assert after[1..] == Write(more) + rest;
      ReadBack(more, rest);
  }

  lemma {:induction false} GroupWritten(tokens: seq<Token>) returns (items: seq<Token>)
    requires ReadGroup(tokens).Group?
    ensures Items(items) && tokens == items + [Close] + ReadGroup(tokens).rest
    decreases |tokens|
  {
    if tokens[0] == Close {
      items := [];
    } else {
      items := GroupWritten(tokens[1..]);
      items := [tokens[0]] + items;
      assert tokens == [tokens[0]] + tokens[1..];
    }
  }

  /** And only that is accepted: every stream that parses begins with a legal signature. */
  lemma {:induction false} OnlyLegalParses(tokens: seq<Token>) returns (w: Written, rest: seq<Token>)
    requires ReadGroups(tokens).Parsed?
    ensures Legal(w) && tokens == Write(w) + rest && ReadGroups(tokens) == Parsed(GroupsIn(w))
    decreases |tokens|
  {
    if tokens[0] == End {
      w, rest := Nothing, tokens[1..];
    } else {
      var group := ReadGroup(tokens[1..]);
      var items := GroupWritten(tokens[1..]);
      if group.rest[0] == End {
        w, rest := Last(items), group.rest[1..];
        LastWritten(tokens, items, group.rest);
      } else {
        var more: Written;
        more, rest := OnlyLegalParses(group.rest[1..]);
        w := Then(items, group.rest[0], more);
        ThenWritten(tokens, items, group.rest, more, rest);
      }
      ReadBack(w, rest);
    }
  }

  lemma LastWritten(tokens: seq<Token>, items: seq<Token>, after: seq<Token>)
    requires tokens != [] && tokens[0] == Open && tokens[1..] == items + [Close] + after && after != [] &&
      after[0] == End
    ensures tokens == Write(Last(items)) + after[1..]
  {
    assert after == [End] + after[1..];
    assert tokens == [Open] + tokens[1..];
  }

  lemma ThenWritten(tokens: seq<Token>, items: seq<Token>, after: seq<Token>, more: Written, rest: seq<Token>)
    requires tokens != [] && tokens[0] == Open && tokens[1..] == items + [Close] + after
    requires after != [] && after[1..] == Write(more) + rest
    ensures tokens == Write(Then(items, after[0], more)) + rest
  {
    assert after == [after[0]] + after[1..];
    assert tokens == [Open] + tokens[1..];
  }

  /** A complete group and the one token after it. */
  datatype Piece = Piece(items: seq<Token>, between: Token)

  predicate LegalPieces(pieces: seq<Piece>) {
    forall i :: 0 <= i < |pieces| ==> Items(pieces[i].items) && pieces[i].between != End
  }

  function WritePieces(pieces: seq<Piece>): seq<Token> {
    if pieces == [] then []
    else [Open] + pieces[0].items + [Close] + [pieces[0].between] + WritePieces(pieces[1..])
  }

  function PieceNames(pieces: seq<Piece>): Groups {
    if pieces == [] then [] else [NamesIn(pieces[0].items)] + PieceNames(pieces[1..])
  }

  /** What follows complete groups is parsed as if it stood alone. */
  lemma {:induction false} PiecesThenTail(pieces: seq<Piece>, tail: seq<Token>)
    requires LegalPieces(pieces)
    ensures ReadGroups(WritePieces(pieces) + tail) == AddGroups(PieceNames(pieces), ReadGroups(tail))
    decreases |pieces|
  {
    if pieces == [] {
      assert [] + tail == tail;
      if ReadGroups(tail).Parsed? {
        assert [] + ReadGroups(tail).groups == ReadGroups(tail).groups;
      }
    } else {
      var rest := WritePieces(pieces[1..]) + tail;
      PiecesThenTail(pieces[1..], tail);
      OnePiece(pieces[0], rest);
      AddsFirst(NamesIn(pieces[0].items), PieceNames(pieces[1..]), ReadGroups(tail));
      assert WritePieces(pieces) + tail == [Open] + pieces[0].items + [Close] + [pieces[0].between] + rest;
    }
  }

  lemma OnePiece(piece: Piece, rest: seq<Token>)
    requires Items(piece.items) && piece.between != End
    ensures ReadGroups([Open] + piece.items + [Close] + [piece.between] + rest)
      == AddGroup(NamesIn(piece.items), ReadGroups(rest))
  {
    var tokens := [Open] + piece.items + [Close] + [piece.between] + rest;
    var after := [piece.between] + rest;
    assert tokens[1..] == piece.items + [Close] + after;
    ReadGroupBack(piece.items, after);
    assert after[1..] == rest;
  }

  lemma AddsFirst(group: seq<Symbol>, groups: Groups, parse: Parse)
    ensures AddGroup(group, AddGroups(groups, parse)) == AddGroups([group] + groups, parse)
  {
    if parse.Parsed? {
      assert [group] + (groups + parse.groups) == [group] + groups + parse.groups;
    }
  }

  /** A comma after any groups is legal exactly when what follows it is a legal signature of its own. So
      before a last token and the end token it is legal only if that token is the end itself, where
      without the comma every last token is. */
  lemma TrailingComma(pieces: seq<Piece>, items: seq<Token>, tail: seq<Token>, t: Token)
    requires LegalPieces(pieces) && Items(items)
    ensures ReadGroups(WritePieces(pieces + [Piece(items, Comma)]) + tail).Parsed? <==> ReadGroups(tail).Parsed?
    ensures ReadGroups(WritePieces(pieces + [Piece(items, Comma)]) + [t, End]).Parsed? <==> t == End
    ensures ReadGroups(WritePieces(pieces) + Write(Last(items))).Parsed?
    ensures t != End ==> ReadGroups(WritePieces(pieces + [Piece(items, t)]) + [End]).Parsed?
  {
    PiecesThenTail(pieces + [Piece(items, Comma)], tail);
    PiecesThenTail(pieces + [Piece(items, Comma)], [t, End]);
    LastTwo(t);
    PiecesThenTail(pieces, Write(Last(items)));
    ReadBack(Last(items), []);
    assert Write(Last(items)) + [] == Write(Last(items));
    if t != End {
      PiecesThenTail(pieces + [Piece(items, t)], [End]);
    }
    hide ReadGroups, WritePieces;
  }

  lemma LastTwo(t: Token)
    ensures ReadGroups([t, End]).Parsed? <==> t == End
    ensures ReadGroups([End]) == Parsed([])
  {
    assert [t, End][1..] == [End];
  }

  /** One group, a comma, a newline token, the end: refused. */
  lemma NewlineAfterComma(symbol: Symbol, newline: string)
    ensures ReadGroups([Open, Name(symbol), Close, Comma, End]) == Parsed([[symbol]])
    ensures ReadGroups([Open, Name(symbol), Close, Other(newline), End]) == Parsed([[symbol]])
    ensures !ReadGroups([Open, Name(symbol), Close, Comma, Other(newline), End]).Parsed?
  {
    var items := [Name(symbol)];
    TrailingComma([], items, [End], Other(newline));
    assert [] + [Piece(items, Comma)] == [Piece(items, Comma)];
    assert WritePieces([Piece(items, Comma)]) + [Other(newline), End]
        == [Open, Name(symbol), Close, Comma, Other(newline), End];
    OnePiece(Piece(items, Comma), [End]);
    OnePiece(Piece(items, Other(newline)), [End]);
    assert [Open] + items + [Close] + [Comma] + [End] == [Open, Name(symbol), Close, Comma, End];
    assert [Open] + items + [Close] + [Other(newline)] + [End] == [Open, Name(symbol), Close, Other(newline), End];
    assert NamesIn(items) == [symbol];
    LastTwo(End);
    hide ReadGroups, ReadGroup, WritePieces, NamesIn;
  }

  // ----- inputs and outputs -----

  datatype Signature = Signature(engine: Engine) | Malformed(why: Parse) | UndefinedOutputs(symbols: set<Symbol>)

  /** `ins` and `outs` are the tokens before and after the arrow. */
  method ParseSignature(ins: seq<Token>, outs: seq<Token>) returns (r: Signature)
    ensures r.Malformed? <==> !ReadGroups(ins).Parsed? || !ReadGroups(outs).Parsed?
    ensures r.Signature? <==>
      && ReadGroups(ins).Parsed? && ReadGroups(outs).Parsed?
      && OutputsDefined(Engine(ReadGroups(ins).groups, ReadGroups(outs).groups))
    ensures r.Signature? ==> r.engine == Engine(ReadGroups(ins).groups, ReadGroups(outs).groups)
    ensures r.UndefinedOutputs? ==> forall s :: s in r.symbols <==>
      Mentioned(s, ReadGroups(outs).groups) && !Mentioned(s, ReadGroups(ins).groups)
  {
    var inputs := ParseGroups(ins);
    if !inputs.Parsed? {
      return Malformed(inputs);
    }
    var outputs := ParseGroups(outs);
    if !outputs.Parsed? {
      return Malformed(outputs);
    }
    var isym := SymbolsOf(inputs.groups);
    var osym := SymbolsOf(outputs.groups);
    var diff := osym - isym;
    DefinedBySets(inputs.groups, outputs.groups, isym, osym);
    if diff != {} {
      return UndefinedOutputs(diff);
    }
    return Signature(Engine(inputs.groups, outputs.groups));
  }

  method SymbolsOf(groups: Groups) returns (symbols: set<Symbol>)
    ensures forall s :: s in symbols <==> Mentioned(s, groups)
  {
    symbols := {};
    for i := 0 to |groups|
      invariant forall s :: s in symbols <==> exists k :: 0 <= k < i && s in groups[k]
    {
      symbols := symbols + set s | s in groups[i];
    }
  }

  lemma DefinedBySets(inputs: Groups, outputs: Groups, isym: set<Symbol>, osym: set<Symbol>)
    requires forall s :: s in isym <==> Mentioned(s, inputs)
    requires forall s :: s in osym <==> Mentioned(s, outputs)
    ensures osym - isym == {} <==> OutputsDefined(Engine(inputs, outputs))
  {
    if osym - isym == {} {
      forall i, k | 0 <= i < |outputs| && 0 <= k < |outputs[i]| ensures Mentioned(outputs[i][k], inputs) {
        assert outputs[i][k] in outputs[i];
        assert outputs[i][k] in osym;
        assert outputs[i][k] !in osym - isym;
      }
    }
    if OutputsDefined(Engine(inputs, outputs)) {
      forall s | s in osym ensures s in isym {
        var i :| 0 <= i < |outputs| && s in outputs[i];
        var k :| 0 <= k < |outputs[i]| && outputs[i][k] == s;
        assert Mentioned(outputs[i][k], inputs);
      }
    }
  }
}
