/** Which names share their written form with another name. */
module ManglerCollisions {
  import opened Options
  import opened Mangler
  import opened ManglerProofs
  import opened ManglerEscaping

  // ----- one name -----

  predicate NoDot(text: string) {
    forall i :: 0 <= i < |text| ==> text[i] != '.'
  }

  /** Names that are split at their dots before they are escaped hold none; tags and texts may. */
  predicate Admits(dotted: bool, text: string) {
    dotted || NoDot(text)
  }

  ghost predicate Collides(s: string, dotted: bool) {
    exists t :: t != s && Admits(dotted, t) && Clean(t) == Clean(s)
  }

  /** From position `i` the name spells the escape of a character that would be escaped. */
  predicate SpellsAt(s: string, i: nat, c: char, dotted: bool) {
    i <= |s| && !IsValidChar(c) && Admits(dotted, [c]) && EscapeUtf8(c as nat) <= s[i..]
  }

  ghost predicate SpellsAnEscape(s: string, dotted: bool) {
    exists i, c :: 0 <= i <= |s| && SpellsAt(s, i, c, dotted)
  }

  predicate LooksFixed(s: string) {
    |s| >= 2 && s[0] == '_' && IsDigit(s[1])
  }

  /** Written as it stands, not what the leading-digit fix produces, and without the spelling of an escape. */
  ghost predicate Alone(s: string, dotted: bool) {
    AllValid(s) && NoLeadDigit(s) && !LooksFixed(s) && !SpellsAnEscape(s, dotted)
  }

  lemma {:induction false} EscapeConcat(a: string, b: string)
    ensures EscapeString(a + b) == EscapeString(a) + EscapeString(b)
    decreases |a|
  {
    if a == "" {
      assert a + b == b;
    } else {
      assert (a + b)[1..] == a[1..] + b;
      EscapeConcat(a[1..], b);
      Regroup(EscapeChar(a[0]), EscapeString(a[1..]), EscapeString(b));
    }
  }

  lemma EscapeOne(c: char)
    ensures EscapeString([c]) == EscapeChar(c)
  {
    assert [c][1..] == "";
  }

  lemma ValidConcat(a: string, b: string)
    ensures AllValid(a + b) <==> AllValid(a) && AllValid(b)
  {
    assert forall i :: 0 <= i < |a| ==> (a + b)[i] == a[i];
    assert forall i :: 0 <= i < |b| ==> (a + b)[|a| + i] == b[i];
  }

  lemma ByteIsValid(b: nat)
    requires b < 256
    ensures AllValid(EscapeByte(b))
  {
  }

  lemma Utf8IsValid(n: nat)
    requires n < 0x110000
    ensures AllValid(EscapeUtf8(n))
  {
    LeadThenTrail(n, "");
    assert EscapeUtf8(n) + "" == EscapeUtf8(n) && Trail(n) + "" == Trail(n);
    ByteIsValid(Lead(n));
    TrailIsValid(n);
    ValidConcat(EscapeByte(Lead(n)), Trail(n));
  }

  lemma TrailIsValid(n: nat)
    requires n < 0x110000
    ensures AllValid(Trail(n))
  {
    var a, b, c := 0x80 + n / 4096 % 64, 0x80 + n / 64 % 64, 0x80 + n % 64;
    ByteIsValid(a);
    ByteIsValid(b);
    ByteIsValid(c);
    ValidConcat(EscapeByte(b), EscapeByte(c));
    ValidConcat(EscapeByte(a), EscapeByte(b));
    ValidConcat(EscapeByte(a) + EscapeByte(b), EscapeByte(c));
    hide AllValid, EscapeByte;
    assert n < 0x80 ==> AllValid(Trail(n)) by { assert AllValid(""); }
  }

  lemma {:induction false} EscapedIsValid(s: string)
    ensures AllValid(EscapeString(s))
  {
    if s != "" {
      EscapedIsValid(s[1..]);
      if !IsValidChar(s[0]) {
        Utf8IsValid(s[0] as nat);
      }
      ValidConcat(EscapeChar(s[0]), EscapeString(s[1..]));
    }
  }

  /** Cleaning twice is cleaning once. */
  lemma CleanIsClean(s: string)
    ensures AllValid(Clean(s)) && NoLeadDigit(Clean(s)) && Clean(Clean(s)) == Clean(s) && NoDot(Clean(s))
  {
    EscapedIsValid(s);
    CleanHasNoLeadDigit(s);
    ValidConcat("_", EscapeString(s));
    CleanExactly(Clean(s));
  }

  lemma UnfixedTwin(s: string)
    requires AllValid(s) && LooksFixed(s)
    ensures s[1..] != s && NoDot(s[1..]) && Clean(s[1..]) == Clean(s)
  {
    EscapeGrows(s[1..]);
    CleanExactly(s);
    assert s == "_" + s[1..];
  }

  lemma EscapeAround(a: string, c: char, b: string)
    ensures EscapeString(a + [c] + b) == EscapeString(a) + EscapeChar(c) + EscapeString(b)
  {
    EscapeConcat(a + [c], b);
    EscapeConcat(a, [c]);
    EscapeOne(c);
    hide EscapeString, EscapeChar;
  }

  lemma CutOut(s: string, i: nat, spelt: string)
    requires i <= |s| && spelt <= s[i..]
    ensures i + |spelt| <= |s| && s == s[..i] + spelt + s[i + |spelt|..]
  {
    assert s[i..] == spelt + s[i + |spelt|..];
  }

  lemma UnescapedTwin(s: string, i: nat, c: char, dotted: bool)
    requires AllValid(s) && NoLeadDigit(s) && SpellsAt(s, i, c, dotted)
    ensures Collides(s, dotted)
  {
    var spelt := EscapeUtf8(c as nat);
    CutOut(s, i, spelt);
    var a, b := s[..i], s[i + |spelt|..];
    var t := a + [c] + b;
    EscapeAround(a, c, b);
    EscapeGrows(a);
    EscapeGrows(b);
    CleanExactly(s);
    TwinIsOther(s, a, c, b, dotted);
    hide EscapeString, AllValid, IsValidChar, EscapeUtf8, Admits;
    assert EscapeString(t) == s;
    assert Clean(t) == s;
  }

  lemma TwinIsOther(s: string, a: string, c: char, b: string, dotted: bool)
    requires AllValid(s) && AllValid(a) && AllValid(b) && !IsValidChar(c) && Admits(dotted, [c])
    ensures a + [c] + b != s && Admits(dotted, a + [c] + b)
  {
    var t := a + [c] + b;
    assert t[|a|] == c;
    assert [c][0] == c;
    assert forall i :: 0 <= i < |t| && i != |a| ==> t[i] in a || t[i] in b;
  }

  lemma TwinSpells(s: string, t: string, i: nat, dotted: bool)
    requires i < |t| && !IsValidChar(t[i]) && Admits(dotted, t) && Clean(t) == s
    ensures SpellsAnEscape(s, dotted)
  {
    var a, c, b := t[..i], t[i], t[i + 1..];
    assert t == a + [c] + b;
    EscapeAround(a, c, b);
    assert Admits(dotted, [c]);
    WrittenSomewhere(s, EscapeString(a), EscapeUtf8(c as nat), EscapeString(b), c, dotted);
    hide EscapeString, EscapeUtf8;
  }

  lemma WrittenSomewhere(s: string, p: string, e: string, q: string, c: char, dotted: bool)
    requires s == p + e + q || s == "_" + (p + e + q)
    requires e == EscapeUtf8(c as nat) && !IsValidChar(c) && Admits(dotted, [c])
    ensures SpellsAnEscape(s, dotted)
  {
    hide EscapeUtf8, IsValidChar, Admits;
    var at := if s == p + e + q then |p| else |p| + 1;
    if s == p + e + q {
      assert s[|p|..] == e + q;
    } else {
      assert s[|p| + 1..] == e + q;
    }
    assert SpellsAt(s, at, c, dotted);
  }

  /** A name shares its written form with another if and only if it is not written as it stands, looks
      like the fix of a leading digit, or spells the escape of some character. */
  lemma CollidesExactly(s: string, dotted: bool)
    requires Admits(dotted, s)
    ensures Collides(s, dotted) <==> !Alone(s, dotted)
  {
    CleanExactly(s);
    if !AllValid(s) || !NoLeadDigit(s) {
      CleanIsClean(s);
      assert Clean(s) != s && Admits(dotted, Clean(s)) && Clean(Clean(s)) == Clean(s);
    } else if LooksFixed(s) {
      UnfixedTwin(s);
    } else if SpellsAnEscape(s, dotted) {
      var i, c :| 0 <= i <= |s| && SpellsAt(s, i, c, dotted);
      UnescapedTwin(s, i, c, dotted);
    } else if Collides(s, dotted) {
      AloneHasNoTwin(s, dotted);
    }
  }

  lemma AloneHasNoTwin(s: string, dotted: bool)
    requires Alone(s, dotted)
    ensures !Collides(s, dotted)
  {
    CleanExactly(s);
    forall t | Admits(dotted, t) && Clean(t) == Clean(s) ensures t == s {
      if AllValid(t) {
        EscapeGrows(t);
      } else {
        var i :| 0 <= i < |t| && !IsValidChar(t[i]);
        TwinSpells(s, t, i, dotted);
      }
    }
  }

  predicate IsLowerHex(c: char) {
    IsDigit(c) || 'a' <= c <= 'f'
  }

  /** A name of valid characters is alone if it starts with no digit, nor an underscore and a digit, and no
      underscore stands before two hexadecimal digits. */
  lemma NoHexAfterUnderscore(s: string, dotted: bool)
    requires AllValid(s) && NoLeadDigit(s) && !LooksFixed(s)
    requires forall i :: 0 <= i < |s| - 2 && s[i] == '_' ==> !(IsLowerHex(s[i + 1]) && IsLowerHex(s[i + 2]))
    ensures Alone(s, dotted)
  {
    forall i, c | 0 <= i <= |s| ensures !SpellsAt(s, i, c, dotted) {
      if SpellsAt(s, i, c, dotted) {
        EscapeStart(c as nat, s[i..]);
      }
    }
  }

  lemma EscapeStart(n: nat, s: string)
    requires n < 0x110000 && EscapeUtf8(n) <= s
    ensures |s| >= 3 && s[0] == '_' && IsLowerHex(s[1]) && IsLowerHex(s[2])
  {
    LeadThenTrail(n, "");
    assert EscapeUtf8(n) + "" == EscapeUtf8(n);
    assert EscapeByte(Lead(n)) <= s;
    HexIsLower(Lead(n) / 16);
    HexIsLower(Lead(n) % 16);
  }

  lemma HexIsLower(d: nat)
    requires d < 16
    ensures IsLowerHex(HexDigit(d))
  {
  }

  lemma MyKernelIsAlone()
    ensures Alone("my_kernel", false)
  {
    NoHexAfterUnderscore("my_kernel", false);
  }

  // ----- dotted identifiers -----

  lemma {:induction false} PartsHaveNoDots(text: string)
    ensures forall p <- SplitDots(text) :: NoDot(p)
  {
    if text != "" {
      var parts, rest := SplitDots(text), SplitDots(text[1..]);
      PartsHaveNoDots(text[1..]);
      assert NoDot(rest[0]);
      forall i | 0 <= i < |parts| ensures NoDot(parts[i]) {
        assert text[0] == '.' && i > 0 ==> parts[i] == rest[i - 1];
        assert text[0] != '.' && i > 0 ==> parts[i] == rest[i];
      }
    }
  }

  lemma {:induction false} SplitConcat(part: string, rest: string)
    requires NoDot(part)
    ensures SplitDots(part + "." + rest) == [part] + SplitDots(rest)
    decreases |part|
  {
    var text := part + "." + rest;
    if part == "" {
      assert text[1..] == rest;
    } else {
      assert text[1..] == part[1..] + "." + rest;
      SplitConcat(part[1..], rest);
      assert [part[0]] + part[1..] == part;
      assert ([part[1..]] + SplitDots(rest))[1..] == SplitDots(rest);
    }
  }

  lemma {:induction false} JoinThenSplit(parts: seq<string>)
    requires parts != [] && forall p <- parts :: NoDot(p)
    ensures SplitDots(JoinDots(parts)) == parts
    decreases |parts|
  {
    if |parts| == 1 {
      NoDots(parts[0]);
    } else {
      JoinThenSplit(parts[1..]);
      SplitConcat(parts[0], JoinDots(parts[1..]));
    }
  }

  ghost predicate SharesSymbol(ident: string, args: seq<Arg>, tags: seq<string>, uid: Option<string>) {
    exists other :: other != ident && Mangle(other, args, tags, uid) == Mangle(ident, args, tags, uid)
  }

  /** An identifier shares its symbol with another, for the same arguments and tags, if and only if one of
      its dotted parts is not alone. */
  lemma IdentifierCollidesExactly(ident: string, args: seq<Arg>, tags: seq<string>, uid: Option<string>)
    ensures SharesSymbol(ident, args, tags, uid)
      <==> exists i :: 0 <= i < |SplitDots(ident)| && !Alone(SplitDots(ident)[i], false)
  {
    PartsHaveNoDots(ident);
    if SharesSymbol(ident, args, tags, uid) {
      var other :| other != ident && Mangle(other, args, tags, uid) == Mangle(ident, args, tags, uid);
      SameSymbolExactly(other, args, tags, uid, ident, args, tags, uid);
      SomePartCollides(ident, other);
    }
    if i :| 0 <= i < |SplitDots(ident)| && !Alone(SplitDots(ident)[i], false) {
      var other := OtherIdentifier(ident, i);
      SameSymbolExactly(other, args, tags, uid, ident, args, tags, uid);
    }
  }

  lemma SomePartCollides(ident: string, other: string)
    requires other != ident && CleanAll(SplitDots(other)) == CleanAll(SplitDots(ident))
    ensures exists i :: 0 <= i < |SplitDots(ident)| && !Alone(SplitDots(ident)[i], false)
  {
    var parts, others := SplitDots(ident), SplitDots(other);
    SplitThenJoin(ident);
    SplitThenJoin(other);
    PartsHaveNoDots(ident);
    PartsHaveNoDots(other);
    assert parts != others;
    var i :| 0 <= i < |parts| && parts[i] != others[i];
    assert CleanAll(others)[i] == CleanAll(parts)[i];
    CollidesExactly(parts[i], false);
    assert others[i] != parts[i] && Admits(false, others[i]) && Clean(others[i]) == Clean(parts[i]);
  }

  lemma OtherIdentifier(ident: string, i: nat) returns (other: string)
    requires i < |SplitDots(ident)| && !Alone(SplitDots(ident)[i], false)
    ensures other != ident && CleanAll(SplitDots(other)) == CleanAll(SplitDots(ident))
  {
    var parts := SplitDots(ident);
    PartsHaveNoDots(ident);
    CollidesExactly(parts[i], false);
    var t :| t != parts[i] && Admits(false, t) && Clean(t) == Clean(parts[i]);
    var others := parts[i := t];
    other := JoinDots(others);
    JoinThenSplit(others);
    assert others[i] != parts[i];
    assert CleanAll(others) == CleanAll(parts);
  }
}
