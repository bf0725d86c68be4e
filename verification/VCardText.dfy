/**
 White space, escaping and line framing of vCard text (sections 3.2 and 3.4 of RFC 6350), and how they
 undo each other.
 */
module VCardText {

  // -------------------------------------------------------------------------------------------
  // Trimming
  // -------------------------------------------------------------------------------------------

  predicate IsSpace(c: char) {
    || '\t' <= c <= '\r' || c == ' ' || c == '\U{85}' || c == '\U{A0}' || c == '\U{1680}'
    || '\U{2000}' <= c <= '\U{200A}' || c == '\U{2028}' || c == '\U{2029}'
    || c == '\U{202F}' || c == '\U{205F}' || c == '\U{3000}'
  }

  function TrimLeft(s: string): string {
    if s != [] && IsSpace(s[0]) then TrimLeft(s[1..]) else s
  }

  function TrimRight(s: string): string {
    if s != [] && IsSpace(s[|s| - 1]) then TrimRight(s[..|s| - 1]) else s
  }

  function Trim(s: string): string { TrimRight(TrimLeft(s)) }

  /** No white space at either end. */
  predicate Trimmed(s: string) {
    s != [] ==> !IsSpace(s[0]) && !IsSpace(s[|s| - 1])
  }

  lemma {:induction false} TrimLeftTrims(s: string)
    ensures TrimLeft(s) != [] ==> !IsSpace(TrimLeft(s)[0])
  {
    if s != [] && IsSpace(s[0]) {
      TrimLeftTrims(s[1..]);
    }
  }

  lemma {:induction false} TrimRightTrims(s: string)
    ensures TrimRight(s) <= s && (TrimRight(s) != [] ==> !IsSpace(TrimRight(s)[|TrimRight(s)| - 1]))
  {
    if s != [] && IsSpace(s[|s| - 1]) {
      TrimRightTrims(s[..|s| - 1]);
    }
  }

  lemma TrimTrims(s: string)
    ensures Trimmed(Trim(s))
  {
    TrimLeftTrims(s);
    TrimRightTrims(TrimLeft(s));
  }

  /** Trimming takes away white space at the ends and nothing else. */
  lemma TrimExact(s: string) returns (i: nat, j: nat)
    ensures i <= j <= |s| && Trim(s) == s[i..j]
    ensures forall k :: 0 <= k < i || j <= k < |s| ==> IsSpace(s[k])
  {
    i := TrimLeftExact(s);
    j := TrimRightExact(s[i..]);
    j := i + j;
    assert forall k :: j <= k < |s| ==> s[k] == s[i..][k - i];
  }

  lemma {:induction false} TrimLeftExact(s: string) returns (i: nat)
    ensures i <= |s| && TrimLeft(s) == s[i..] && forall k :: 0 <= k < i ==> IsSpace(s[k])
  {
    i := 0;
    if s != [] && IsSpace(s[0]) {
      i := TrimLeftExact(s[1..]);
      i := i + 1;
      assert forall k :: 1 <= k < i ==> s[k] == s[1..][k - 1];
    }
  }

  lemma {:induction false} TrimRightExact(s: string) returns (j: nat)
    ensures j <= |s| && TrimRight(s) == s[..j] && forall k :: j <= k < |s| ==> IsSpace(s[k])
  {
    j := |s|;
    if s != [] && IsSpace(s[|s| - 1]) {
      j := TrimRightExact(s[..|s| - 1]);
      assert forall k :: j <= k < |s| - 1 ==> s[k] == s[..|s| - 1][k];
    }
  }

  lemma TrimmedStays(s: string)
    requires Trimmed(s)
    ensures Trim(s) == s
  {
  }

  /** A string that does not start with white space is not blank. */
  lemma NotBlank(s: string)
    requires s != [] && !IsSpace(s[0])
    ensures Trim(s) != ""
  {
    assert TrimLeft(s) == s;
    KeepsFirst(s);
  }

  lemma {:induction false} KeepsFirst(s: string)
    requires s != [] && !IsSpace(s[0])
    ensures TrimRight(s) != []
  {
    if IsSpace(s[|s| - 1]) {
      KeepsFirst(s[..|s| - 1]);
    }
  }

  // -------------------------------------------------------------------------------------------
  // Escaping
  // -------------------------------------------------------------------------------------------

  function EscapeChar(c: char): string {
    if c == '\\' then "\\\\" else if c == '\n' then "\\n"
    else if c == ';' then "\\;" else if c == ',' then "\\," else [c]
  }

  function Escape(s: string): string {
    if s == [] then [] else EscapeChar(s[0]) + Escape(s[1..])
  }

  /** The character a backslash and `c` stand for, if any. */
  function Escaped(c: char): (r: seq<char>) {
    if c == 'n' || c == 'N' then "\n" else if c == ',' || c == ';' || c == '\\' then [c] else []
  }

  /** Left to right, without overlap; a backslash before anything else stays. */
  function Unescape(s: string): string {
    if s == [] then []
    else if s[0] == '\\' && |s| >= 2 && Escaped(s[1]) != [] then Escaped(s[1]) + Unescape(s[2..])
    else [s[0]] + Unescape(s[1..])
  }

  /** Unescaping undoes escaping, whatever the value holds. */
  lemma {:induction false} EscapeInverse(s: string)
    ensures Unescape(Escape(s)) == s
  {
    if s != [] {
      EscapeInverse(s[1..]);
      var e, rest := EscapeChar(s[0]), Escape(s[1..]);
      assert e + rest == Escape(s);
      if |e| == 2 {
        assert (e + rest)[2..] == rest;
      } else {
        assert (e + rest)[1..] == rest;
      }
      assert s == [s[0]] + s[1..];
    }
  }

  /** A piece of escaped text: a character that is no backslash, or a backslash with what follows it. */
  datatype Piece = Raw(c: char) | Code(c: char)

  predicate Spelling(ps: seq<Piece>) {
    forall i :: 0 <= i < |ps| ==> ps[i].Raw? ==> ps[i].c != '\\'
  }

  function Spell(ps: seq<Piece>): string {
    if ps == [] then [] else (if ps[0].Raw? then [ps[0].c] else ['\\', ps[0].c]) + Spell(ps[1..])
  }

  /** A small or capital n stands for a newline; comma, semicolon and backslash for themselves; others stay. */
  function Meant(p: Piece): string {
    if p.Raw? then [p.c]
    else if p.c in ['n', 'N'] then "\n"
    else if p.c in [',', ';', '\\'] then [p.c]
    else ['\\', p.c]
  }

  function AllMeant(ps: seq<Piece>): string {
    if ps == [] then [] else Meant(ps[0]) + AllMeant(ps[1..])
  }

  /** Unescaping reads text piece by piece. */
  lemma {:induction false} UnescapePieces(ps: seq<Piece>)
    requires Spelling(ps)
    ensures Unescape(Spell(ps)) == AllMeant(ps)
  {
    if ps != [] {
      UnescapePieces(ps[1..]);
      UnescapeOne(ps[0], Spell(ps[1..]));
    }
  }

  lemma UnescapeOne(p: Piece, rest: string)
    requires p.Raw? ==> p.c != '\\'
    ensures Unescape((if p.Raw? then [p.c] else ['\\', p.c]) + rest) == Meant(p) + Unescape(rest)
  {
    if p.Raw? {
      assert ([p.c] + rest)[1..] == rest;
    } else {
      var s := ['\\', p.c] + rest;
      assert s[2..] == rest;
      if Escaped(p.c) == [] {
        assert s[1..] == [p.c] + rest && s[1..][1..] == rest;
        assert Unescape(s[1..]) == [p.c] + Unescape(rest);
      }
    }
  }

  /** Any text is such pieces, but for a backslash at its very end. */
  lemma {:induction false} Pieces(s: string) returns (ps: seq<Piece>, lone: bool)
    ensures Spelling(ps) && s == Spell(ps) + if lone then "\\" else ""
  {
    if s == [] {
      ps, lone := [], false;
    } else if s == "\\" {
      ps, lone := [], true;
    } else {
      var p, n := if s[0] == '\\' then Code(s[1]) else Raw(s[0]), if s[0] == '\\' then 2 else 1;
      var tail;
      tail, lone := Pieces(s[n..]);
      ps := [p] + tail;
      assert s == s[..n] + s[n..];
      assert ps[1..] == tail;
    }
  }

  /** An escaped value stays on its line. */
  lemma {:induction false} EscapeOneLine(s: string)
    ensures '\n' !in Escape(s)
  {
    if s != [] {
      EscapeOneLine(s[1..]);
    }
  }

  lemma {:induction false} EscapeEnd(s: string)
    requires s != []
    ensures Escape(s) != [] && (s[|s| - 1] != '\r' ==> Escape(s)[|Escape(s)| - 1] != '\r')
  {
    var e, rest := EscapeChar(s[0]), Escape(s[1..]);
    assert Escape(s) == e + rest;
    if |s| > 1 {
      hide Escape, EscapeChar;
      EscapeEnd(s[1..]);
      assert s[1..][|s| - 2] == s[|s| - 1];
      assert (e + rest)[|e + rest| - 1] == rest[|rest| - 1];
    } else {
      assert rest == [];
    }
  }

  // -------------------------------------------------------------------------------------------
  // Lines
  // -------------------------------------------------------------------------------------------

  /** Lines, each ended by a newline. */
  function Joined(lines: seq<string>): string {
    if lines == [] then [] else lines[0] + "\n" + Joined(lines[1..])
  }

  function SplitLines(s: string): (r: seq<string>)
    ensures r != []
  {
    if s == [] then [""]
    else if s[0] == '\n' then [""] + SplitLines(s[1..])
    else
      var r := SplitLines(s[1..]);
      [[s[0]] + r[0]] + r[1..]
  }

  /** Every carriage return before a newline dropped. */
  function DropReturns(s: string): string {
    if s == [] then []
    else if |s| >= 2 && s[0] == '\r' && s[1] == '\n' then "\n" + DropReturns(s[2..])
    else [s[0]] + DropReturns(s[1..])
  }

  lemma DropPair(s: string)
    ensures DropReturns("\r\n" + s) == "\n" + DropReturns(s)
  {
    assert ("\r\n" + s)[2..] == s;
  }

  lemma DropNone(c: char, s: string)
    requires c == '\r' && s != [] ==> s[0] != '\n'
    ensures DropReturns([c] + s) == [c] + DropReturns(s)
  {
    assert ([c] + s)[1..] == s;
  }

  /** A line that framing cannot break: no newline in it and no carriage return at its end. */
  predicate Framed(line: string) {
    '\n' !in line && (line != [] ==> line[|line| - 1] != '\r')
  }

  lemma {:induction false} SplitOne(line: string, rest: string)
    requires '\n' !in line
    ensures SplitLines(line + "\n" + rest) == [line] + SplitLines(rest)
  {
    if line == [] {
      assert line + "\n" + rest == "\n" + rest;
      assert ("\n" + rest)[1..] == rest;
    } else {
      SplitOne(line[1..], rest);
      assert (line + "\n" + rest)[1..] == line[1..] + "\n" + rest;
      assert line == [line[0]] + line[1..];
    }
  }

  lemma {:induction false} SplitJoined(lines: seq<string>)
    requires forall l :: l in lines ==> Framed(l)
    ensures SplitLines(Joined(lines)) == lines + [""]
  {
    if lines != [] {
      SplitJoined(lines[1..]);
      assert lines[0] in lines;
      SplitOne(lines[0], Joined(lines[1..]));
      assert lines == [lines[0]] + lines[1..];
    }
  }

  /** No carriage return stands before a newline. */
  predicate NoPairs(s: string) {
    forall i :: 0 <= i < |s| - 1 ==> !(s[i] == '\r' && s[i + 1] == '\n')
  }

  lemma {:induction false} NothingDropped(s: string)
    requires NoPairs(s)
    ensures DropReturns(s) == s
  {
    if s != [] {
      NothingDropped(s[1..]);
      assert s == [s[0]] + s[1..];
    }
  }

  lemma {:induction false} JoinedNoPairs(lines: seq<string>)
    requires forall l :: l in lines ==> Framed(l)
    ensures NoPairs(Joined(lines))
  {
    if lines != [] {
      JoinedNoPairs(lines[1..]);
      var line, rest := lines[0], Joined(lines[1..]);
      assert line in lines;
      LineNoPairs(line, rest);
    }
  }

  lemma LineNoPairs(line: string, rest: string)
    requires Framed(line) && NoPairs(rest)
    ensures NoPairs(line + "\n" + rest)
  {
    var s := line + "\n" + rest;
    forall i | 0 <= i < |s| - 1 ensures !(s[i] == '\r' && s[i + 1] == '\n') {
      if i > |line| {
        assert s[i] == rest[i - |line| - 1] && s[i + 1] == rest[i - |line|];
      } else if i == |line| {
        assert s[i] == '\n';
      } else if i + 1 < |line| {
        assert s[i + 1] == line[i + 1];
      } else {
        assert s[i] == line[i];
      }
    }
  }

  lemma {:induction false} JoinedAppend(a: seq<string>, b: seq<string>)
    ensures Joined(a + b) == Joined(a) + Joined(b)
  {
    if a == [] {
      assert a + b == b;
    } else {
      JoinedAppend(a[1..], b);
      assert (a + b)[1..] == a[1..] + b;
      Associates(a[0] + "\n", Joined(a[1..]), Joined(b));
    }
  }

  lemma Associates(a: string, b: string, c: string)
    ensures a + (b + c) == (a + b) + c
  {
  }
}
