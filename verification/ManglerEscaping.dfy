/** What escaping keeps and what it loses. */
module ManglerEscaping {
  import opened Options
  import opened Mangler
  import opened ManglerProofs

  // ----- names that need no escaping -----

  predicate AllValid(text: string) {
    forall i :: 0 <= i < |text| ==> IsValidChar(text[i])
  }

  lemma {:induction false} EscapeGrows(text: string)
    ensures |EscapeString(text)| >= |text|
    ensures EscapeString(text) == text <==> AllValid(text)
    ensures |EscapeString(text)| == |text| ==> AllValid(text)
  {
    if text != "" {
      EscapeGrows(text[1..]);
      assert text == [text[0]] + text[1..];
      assert AllValid(text) <==> IsValidChar(text[0]) && AllValid(text[1..]);
    }
  }

  /** A name is written as it stands exactly when it has only valid characters and no leading digit. */
  lemma CleanExactly(text: string)
    ensures Clean(text) == text <==> AllValid(text) && NoLeadDigit(text)
  {
    EscapeGrows(text);
  }

  function JoinDots(parts: seq<string>): string {
    if parts == [] then ""
    else if |parts| == 1 then parts[0]
    else parts[0] + "." + JoinDots(parts[1..])
  }

  lemma {:induction false} SplitThenJoin(text: string)
    ensures JoinDots(SplitDots(text)) == text
  {
    if text != "" {
      var rest := SplitDots(text[1..]);
      SplitThenJoin(text[1..]);
      if text[0] == '.' {
        assert ([""] + rest)[1..] == rest;
        assert "" + "." + text[1..] == text;
      } else {
        var parts := [[text[0]] + rest[0]] + rest[1..];
        assert parts[1..] == rest[1..];
        if |rest| > 1 {
          assert ([text[0]] + rest[0]) + "." + JoinDots(rest[1..]) == [text[0]] + (rest[0] + "." + JoinDots(rest[1..]));
        }
      }
    }
  }

  /** An identifier whose parts need no escaping comes back from its symbol as it was. */
  lemma DemangleRecoversIdentifier(ident: string, args: seq<Arg>, tags: seq<string>, uid: Option<string>)
    requires forall p <- SplitDots(ident) :: AllValid(p) && NoLeadDigit(p)
    ensures var s := Demangle(Mangle(ident, args, tags, uid));
      s.Some? && JoinDots(s.value.parts) == ident
  {
    DemangleRecoversMeaning(ident, args, tags, uid);
    forall p <- SplitDots(ident) ensures Clean(p) == p { CleanExactly(p); }
    assert CleanAll(SplitDots(ident)) == SplitDots(ident);
    SplitThenJoin(ident);
  }

  // ----- ASCII -----

  predicate IsAscii(text: string) {
    forall i :: 0 <= i < |text| ==> text[i] < 128 as char
  }

  lemma AsciiConcat(a: string, b: string)
    ensures IsAscii(a + b) <==> IsAscii(a) && IsAscii(b)
  {
    assert forall i :: 0 <= i < |a| ==> (a + b)[i] == a[i];
    assert forall i :: 0 <= i < |b| ==> (a + b)[|a| + i] == b[i];
  }

  lemma AsciiChar(c: char)
    ensures IsAscii(EscapeChar(c)) <==> !IsFoldedLetter(c)
  {
    if IsValidChar(c) {
      assert EscapeChar(c)[0] == c;
    } else {
      AsciiUtf8(c as nat);
    }
  }

  lemma AsciiByte(b: nat)
    requires b < 256
    ensures IsAscii(EscapeByte(b))
  {
  }

  lemma AsciiUtf8(n: nat)
    requires n < 0x110000
    ensures IsAscii(EscapeUtf8(n))
  {
    hide IsAscii, EscapeByte;
    if n < 0x80 {
      AsciiByte(n);
    } else if n < 0x800 {
      var a, b := 0xC0 + n / 64, 0x80 + n % 64;
      AsciiByte(a);
      AsciiByte(b);
      AsciiConcat(EscapeByte(a), EscapeByte(b));
    } else if n < 0x10000 {
      var a, b, c := 0xE0 + n / 4096, 0x80 + n / 64 % 64, 0x80 + n % 64;
      AsciiByte(a);
      AsciiByte(b);
      AsciiByte(c);
      AsciiConcat(EscapeByte(a), EscapeByte(b));
      AsciiConcat(EscapeByte(a) + EscapeByte(b), EscapeByte(c));
    } else {
      var a, b, c, d := 0xF0 + n / 262144, 0x80 + n / 4096 % 64, 0x80 + n / 64 % 64, 0x80 + n % 64;
      AsciiByte(a);
      AsciiByte(b);
      AsciiByte(c);
      AsciiByte(d);
      AsciiConcat(EscapeByte(a), EscapeByte(b));
      AsciiConcat(EscapeByte(a) + EscapeByte(b), EscapeByte(c));
      AsciiConcat(EscapeByte(a) + EscapeByte(b) + EscapeByte(c), EscapeByte(d));
    }
  }

  predicate NoFoldedLetter(text: string) {
    forall i :: 0 <= i < |text| ==> !IsFoldedLetter(text[i])
  }

  /** The escaped text is ASCII exactly when the text has none of the four letters that case folding lets
      through. */
  lemma {:induction false} EscapedIsAsciiExactly(text: string)
    ensures IsAscii(EscapeString(text)) <==> NoFoldedLetter(text)
  {
    if text != "" {
      EscapedIsAsciiExactly(text[1..]);
      AsciiConcat(EscapeChar(text[0]), EscapeString(text[1..]));
      AsciiChar(text[0]);
      assert NoFoldedLetter(text) <==> !IsFoldedLetter(text[0]) && NoFoldedLetter(text[1..]);
    }
  }

  /** For instance the dotless i. */
  lemma DotlessLeaks()
    ensures !IsAscii(EscapeString("\U{131}"))
  {
    EscapedIsAsciiExactly("\U{131}");
  }

  // ----- collisions, and where there are none -----

  /** Two names that escaping or the leading-digit fix makes one: they share every symbol. */
  lemma UnderscoresCollide(args: seq<Arg>, tags: seq<string>, uid: Option<string>)
    ensures Mangle("<", args, tags, uid) == Mangle("_3c", args, tags, uid)
    ensures Mangle("1a", args, tags, uid) == Mangle("_1a", args, tags, uid)
  {
    assert EscapeUtf8(0x3C) == "_3c";
    EscapeGrows("_3c");
    EscapeGrows("1a");
    EscapeGrows("_1a");
    assert Clean("<") == Clean("_3c") && Clean("1a") == Clean("_1a");
    NoDots("<");
    NoDots("_3c");
    NoDots("1a");
    NoDots("_1a");
    assert CleanAll(["<"]) == CleanAll(["_3c"]) && CleanAll(["1a"]) == CleanAll(["_1a"]);
    SameSymbolExactly("<", args, tags, uid, "_3c", args, tags, uid);
    SameSymbolExactly("1a", args, tags, uid, "_1a", args, tags, uid);
  }

  lemma {:induction false} NoDots(text: string)
    requires forall i :: 0 <= i < |text| ==> text[i] != '.'
    ensures SplitDots(text) == [text]
  {
    if text != "" {
      NoDots(text[1..]);
      assert [text[0]] + text[1..] == text;
    }
  }

  lemma SameByte(a: nat, b: nat, x: string, y: string)
    requires a < 256 && b < 256 && EscapeByte(a) + x == EscapeByte(b) + y
    ensures a == b && x == y
  {
    var s, t := EscapeByte(a) + x, EscapeByte(b) + y;
    assert HexDigit(a / 16) == s[1] == t[1] == HexDigit(b / 16);
    assert HexDigit(a % 16) == s[2] == t[2] == HexDigit(b % 16);
    assert a / 16 == b / 16 && a % 16 == b % 16;
    assert s[3..] == x && t[3..] == y;
  }

  /** The lead byte, and what follows it. */
  function Lead(n: nat): nat
    requires n < 0x110000
    ensures Lead(n) < 256
  {
    if n < 0x80 then n
    else if n < 0x800 then 0xC0 + n / 64
    else if n < 0x10000 then 0xE0 + n / 4096
    else 0xF0 + n / 262144
  }

  function Trail(n: nat): string
    requires n < 0x110000
  {
    if n < 0x80 then ""
    else if n < 0x800 then EscapeByte(0x80 + n % 64)
    else if n < 0x10000 then EscapeByte(0x80 + n / 64 % 64) + EscapeByte(0x80 + n % 64)
    else EscapeByte(0x80 + n / 4096 % 64) + EscapeByte(0x80 + n / 64 % 64) + EscapeByte(0x80 + n % 64)
  }

  lemma LeadThenTrail(n: nat, x: string)
    requires n < 0x110000
    ensures EscapeUtf8(n) + x == EscapeByte(Lead(n)) + (Trail(n) + x)
  {
    if n < 0x80 {
      assert "" + x == x;
    } else if n < 0x800 {
      Regroup(EscapeByte(Lead(n)), Trail(n), x);
    } else if n < 0x10000 {
      Regroup(EscapeByte(Lead(n)), EscapeByte(0x80 + n / 64 % 64), EscapeByte(0x80 + n % 64));
      Regroup(EscapeByte(Lead(n)), Trail(n), x);
    } else {
      var a, b, c := EscapeByte(0x80 + n / 4096 % 64), EscapeByte(0x80 + n / 64 % 64), EscapeByte(0x80 + n % 64);
      Regroup(EscapeByte(Lead(n)), a, b);
      Regroup(EscapeByte(Lead(n)), a + b, c);
      Regroup(EscapeByte(Lead(n)), Trail(n), x);
    }
  }

  lemma SameTrail1(n: nat, m: nat, x: string, y: string)
    requires EscapeByte(0x80 + n % 64) + x == EscapeByte(0x80 + m % 64) + y
    ensures n % 64 == m % 64 && x == y
  {
    SameByte(0x80 + n % 64, 0x80 + m % 64, x, y);
  }

  lemma SameTrail2(n: nat, m: nat, x: string, y: string)
    requires 0x800 <= n < 0x10000 && 0x800 <= m < 0x10000 && Trail(n) + x == Trail(m) + y
    ensures n % 64 == m % 64 && n / 64 % 64 == m / 64 % 64 && x == y
  {
    var b, c := EscapeByte(0x80 + n / 64 % 64), EscapeByte(0x80 + n % 64);
    var b', c' := EscapeByte(0x80 + m / 64 % 64), EscapeByte(0x80 + m % 64);
    Regroup(b, c, x);
    Regroup(b', c', y);
    SameTrail1(n / 64, m / 64, c + x, c' + y);
    SameTrail1(n, m, x, y);
  }

  lemma SameLead(n: nat, m: nat)
    requires n < 0x110000 && m < 0x110000 && Lead(n) == Lead(m)
    ensures n < 0x80 <==> m < 0x80
    ensures n < 0x800 <==> m < 0x800
    ensures n < 0x10000 <==> m < 0x10000
  {
  }

  lemma SameUtf8(n: nat, m: nat, x: string, y: string)
    requires n < 0x110000 && m < 0x110000 && EscapeUtf8(n) + x == EscapeUtf8(m) + y
    ensures n == m && x == y
  {
    LeadThenTrail(n, x);
    LeadThenTrail(m, y);
    SameByte(Lead(n), Lead(m), Trail(n) + x, Trail(m) + y);
    SameLead(n, m);
    SameTrails(n, m, x, y);
  }

  lemma SameTrails(n: nat, m: nat, x: string, y: string)
    requires n < 0x110000 && m < 0x110000 && Lead(n) == Lead(m) && Trail(n) + x == Trail(m) + y
    requires (n < 0x80 <==> m < 0x80) && (n < 0x800 <==> m < 0x800) && (n < 0x10000 <==> m < 0x10000)
    ensures n == m && x == y
  {
    if n < 0x80 {
      assert "" + x == x && "" + y == y;
    } else if n < 0x800 {
      SameTrail1(n, m, x, y);
    } else if n < 0x10000 {
      SameTrail2(n, m, x, y);
      assert n / 4096 == n / 64 / 64 && m / 4096 == m / 64 / 64;
    } else {
      SameTrail3(n, m, x, y);
      assert n / 4096 == n / 64 / 64 && m / 4096 == m / 64 / 64;
      assert n / 262144 == n / 4096 / 64 && m / 262144 == m / 4096 / 64;
    }
  }

  lemma SameTrail3(n: nat, m: nat, x: string, y: string)
    requires 0x10000 <= n < 0x110000 && 0x10000 <= m < 0x110000 && Trail(n) + x == Trail(m) + y
    ensures n % 64 == m % 64 && n / 64 % 64 == m / 64 % 64 && n / 4096 % 64 == m / 4096 % 64 && x == y
  {
    var a, b, c := EscapeByte(0x80 + n / 4096 % 64), EscapeByte(0x80 + n / 64 % 64), EscapeByte(0x80 + n % 64);
    var a', b', c' := EscapeByte(0x80 + m / 4096 % 64), EscapeByte(0x80 + m / 64 % 64), EscapeByte(0x80 + m % 64);
    Regroup(a + b, c, x);
    Regroup(a, b, c + x);
    Regroup(a' + b', c', y);
    Regroup(a', b', c' + y);
    SameTrail1(n / 4096, m / 4096, b + (c + x), b' + (c' + y));
    SameTrail1(n / 64, m / 64, c + x, c' + y);
    SameTrail1(n, m, x, y);
  }

  predicate NoUnderscore(text: string) {
    forall i :: 0 <= i < |text| ==> text[i] != '_'
  }

  lemma EscapeCharStart(c: char)
    requires c != '_'
    ensures EscapeChar(c) != "" && (EscapeChar(c)[0] == '_' <==> !IsValidChar(c))
  {
  }

  /** Without underscores escaping loses nothing, whatever the characters. */
  lemma {:induction false} EscapeInjective(s: string, t: string)
    requires NoUnderscore(s) && NoUnderscore(t) && EscapeString(s) == EscapeString(t)
    ensures s == t
  {
    if s == "" || t == "" {
      if s != "" { EscapeCharStart(s[0]); }
      if t != "" { EscapeCharStart(t[0]); }
    } else {
      var x, y := EscapeString(s[1..]), EscapeString(t[1..]);
      EscapeCharStart(s[0]);
      EscapeCharStart(t[0]);
      assert (EscapeChar(s[0]) + x)[0] == (EscapeChar(t[0]) + y)[0];
      if IsValidChar(s[0]) {
        FirstAndRest(s[0], x);
        FirstAndRest(t[0], y);
      } else {
        SameUtf8(s[0] as nat, t[0] as nat, x, y);
      }
      EscapeInjective(s[1..], t[1..]);
      assert s == [s[0]] + s[1..] && t == [t[0]] + t[1..];
    }
  }

  /** Names without underscores and without a leading digit never share a written form. */
  lemma CleanInjective(s: string, t: string)
    requires NoUnderscore(s) && NoUnderscore(t) && NoLeadDigit(s) && NoLeadDigit(t)
    ensures Clean(s) == Clean(t) <==> s == t
  {
    if s != "" { EscapeCharStart(s[0]); }
    if t != "" { EscapeCharStart(t[0]); }
    if Clean(s) == Clean(t) {
      EscapeInjective(s, t);
    }
  }
}
