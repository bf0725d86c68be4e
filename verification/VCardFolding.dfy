/**
 Line folding and line endings (section 3.2 of RFC 6350): an export reads back the same however its lines
 were folded and whether they end in LF or CRLF, except for a fold that follows a carriage return.
 */
module VCardFolding {
  import opened Options
  import opened VCardText
  import opened VCard
  import opened VCardParser
  import opened VCardRoundTrip

  // -------------------------------------------------------------------------------------------
  // Foldings
  // -------------------------------------------------------------------------------------------

  /** A line in pieces, each but the first led by the white space that marks a fold. */
  datatype Folding = Folding(first: string, rest: seq<(char, string)>)

  function Text(f: Folding): string
    decreases |f.rest|
  {
    if f.rest == [] then f.first
    else Text(Folding(f.first, f.rest[..|f.rest| - 1])) + f.rest[|f.rest| - 1].1
  }

  function RawLine(piece: (char, string)): string { [piece.0] + piece.1 }

  function Raws(f: Folding): seq<string> {
    [f.first] + seq(|f.rest|, i requires 0 <= i < |f.rest| => RawLine(f.rest[i]))
  }

  /** A folding that does not begin empty and never breaks after a carriage return. */
  predicate Clean(f: Folding) {
    && f.first != "" && Framed(f.first)
    && forall i :: 0 <= i < |f.rest| ==> f.rest[i].0 in {' ', '\t'} && Framed(RawLine(f.rest[i]))
  }

  lemma UnfoldLast(r: Rules, u: Unfolding, raws: seq<string>, raw: string)
    ensures UnfoldFrom(r, u, raws + [raw]) == UnfoldOne(r, UnfoldFrom(r, u, raws), raw)
  {
    hide UnfoldOne;
    assert (raws + [raw])[..|raws|] == raws;
  }

  /** The beginning of a printed line begins a logical line that expects no soft line break. */
  lemma StartsLine(r: Rules, u: Unfolding, p: Property, k: nat)
    requires RulesOk(r) && Writable(p) && !u.more && 0 < k <= |LineOf(p)|
    ensures UnfoldOne(r, u, LineOf(p)[..k]) == Unfolding(u.lines + [TrimReturns(LineOf(p)[..k])], false)
    ensures TrimReturns(LineOf(p)[..k]) == LineOf(p)[..k] <==> LineOf(p)[k - 1] != '\r'
  {
    var line := LineOf(p)[..k];
    assert line[0] == p.name[0];
    NotBlank(line);
    ReturnsGone(line);
    NotQuoted(r, p, TrimReturns(line));
  }

  lemma {:induction false} ReturnsGone(s: string)
    ensures TrimReturns(s) <= s && !EndsWith(TrimReturns(s), '\r')
  {
    if EndsWith(s, '\r') {
      ReturnsGone(s[..|s| - 1]);
    }
  }

  lemma NotQuoted(r: Rules, p: Property, line: string)
    requires RulesOk(r) && Writable(p) && line <= LineOf(p)
    ensures !QuotedPrintable(r, line)
  {
    PlainHas(p.name, ':');
    if |line| <= |p.name| {
      assert line == p.name[..|line|];
      assert ':' !in line;
      CutNowhere(line, ':');
    } else {
      var rest := line[|p.name| + 1..];
      assert line == p.name + [':'] + rest;
      CutHere(p.name, rest, ':');
      PlainHas(p.name, '=');
      assert "ENCODING=QUOTED-PRINTABLE"[8] == '=';
      NoEquals(p.name, "ENCODING=QUOTED-PRINTABLE", '=');
    }
  }

  lemma StaysWhole(line: string)
    ensures Framed(line) ==> TrimReturns(line) == line
  {
  }

  /** A clean folding of a printed line unfolds to that line. */
  lemma {:induction false} PiecesBack(r: Rules, u: Unfolding, p: Property, f: Folding)
    requires RulesOk(r) && Writable(p) && !u.more && Clean(f) && Text(f) <= LineOf(p)
    ensures UnfoldFrom(r, u, Raws(f)) == Unfolding(u.lines + [Text(f)], false)
    decreases |f.rest|
  {
    hide RulesOk, Writable, LineOf, UnfoldOne, UnfoldFrom, TrimReturns;
    if f.rest == [] {
      NothingFrom(r, u);
      StaysWhole(f.first);
      assert Raws(f) == [] + [f.first];
      UnfoldLast(r, u, [], f.first);
      assert f.first == LineOf(p)[..|f.first|];
      StartsLine(r, u, p, |f.first|);
    } else {
      var g, last := Folding(f.first, f.rest[..|f.rest| - 1]), f.rest[|f.rest| - 1];
      assert f.rest[..|f.rest| - 1] + [last] == f.rest;
      assert Text(f) == Text(g) + last.1;
      PiecesBack(r, u, p, g);
      assert Raws(f) == Raws(g) + [RawLine(last)];
      UnfoldLast(r, u, Raws(g), RawLine(last));
      FoldJoins(r, u.lines, Text(g), last);
    }
  }

  lemma FoldJoins(r: Rules, lines: seq<string>, text: string, piece: (char, string))
    requires piece.0 in {' ', '\t'}
    ensures UnfoldOne(r, Unfolding(lines + [text], false), RawLine(piece)) ==
            Unfolding(lines + [text + piece.1], false)
  {
    assert RawLine(piece)[1..] == piece.1;
    assert (lines + [text])[|lines| := text + piece.1] == lines + [text + piece.1];
  }

  // -------------------------------------------------------------------------------------------
  // Soft line breaks
  // -------------------------------------------------------------------------------------------

  function Concat(pieces: seq<string>): string {
    if pieces == [] then "" else Concat(pieces[..|pieces| - 1]) + pieces[|pieces| - 1]
  }

  /** The raw lines of a quoted-printable line in pieces: an equals sign ends each but the last. */
  function Soft(pieces: seq<string>): seq<string>
    requires pieces != []
  {
    seq(|pieces|, i requires 0 <= i < |pieces| => if i == |pieces| - 1 then pieces[i] else pieces[i] + "=")
  }

  /** Pieces of a line whose head says it is quoted-printable; no raw line but the first looks folded. */
  ghost predicate SoftlyBroken(r: Rules, pieces: seq<string>) {
    && |pieces| > 1 && Trim(pieces[0] + "=") != "" && QuotedPrintable(r, pieces[0] + "=")
    && forall raw :: raw in Soft(pieces) ==> !Folded(raw)
  }

  lemma {:induction false} SoftPrefix(r: Rules, u: Unfolding, pieces: seq<string>, n: nat)
    requires !u.more && SoftlyBroken(r, pieces) && 0 < n < |pieces|
    ensures UnfoldFrom(r, u, Soft(pieces)[..n]) == Unfolding(u.lines + [Concat(pieces[..n]) + "="], true)
  {
    hide UnfoldOne, QuotedPrintable, Trim, UnfoldFrom, Concat;
    var raws := Soft(pieces);
    assert raws[n - 1] in raws && raws[n - 1] == pieces[n - 1] + "=";
    assert raws[..n] == raws[..n - 1] + [raws[n - 1]];
    UnfoldLast(r, u, raws[..n - 1], raws[n - 1]);
    ConcatMore(pieces, n - 1);
    if n > 1 {
      SoftPrefix(r, u, pieces, n - 1);
      SoftStep(r, u.lines, Concat(pieces[..n - 1]), raws[n - 1]);
      assert Concat(pieces[..n - 1]) + (pieces[n - 1] + "=") == Concat(pieces[..n]) + "=";
    } else {
      SoftFirst(r, u, pieces[0]);
      assert raws[..0] == [] && pieces[..0] == [];
      NothingFrom(r, u);
      assert Concat(pieces[..1]) == pieces[0];
    }
  }

  lemma ConcatMore(pieces: seq<string>, n: nat)
    requires n < |pieces|
    ensures Concat(pieces[..n + 1]) == Concat(pieces[..n]) + pieces[n]
  {
    assert pieces[..n + 1][..n] == pieces[..n];
  }

  lemma NothingFrom(r: Rules, u: Unfolding)
    ensures UnfoldFrom(r, u, []) == u && Concat([]) == ""
  {
  }

  lemma SoftFirst(r: Rules, u: Unfolding, piece: string)
    requires !u.more && !Folded(piece + "=") && Trim(piece + "=") != "" && QuotedPrintable(r, piece + "=")
    ensures UnfoldOne(r, u, piece + "=") == Unfolding(u.lines + [piece + "="], true)
  {
    hide QuotedPrintable, Trim;
    assert EndsWith(piece + "=", '=');
  }

  lemma SoftStep(r: Rules, lines: seq<string>, text: string, raw: string)
    requires !Folded(raw)
    ensures UnfoldOne(r, Unfolding(lines + [text + "="], true), raw) ==
            Unfolding(lines + [text + raw], EndsWith(text + raw, '='))
  {
    assert (text + "=")[..|text|] == text;
    assert (lines + [text + "="])[|lines| := text + raw] == lines + [text + raw];
  }

  /** A quoted-printable line broken softly at any places unfolds to its pieces joined. */
  lemma SoftBack(r: Rules, u: Unfolding, pieces: seq<string>)
    requires !u.more && SoftlyBroken(r, pieces)
    ensures UnfoldFrom(r, u, Soft(pieces)) == Unfolding(u.lines + [Concat(pieces)], EndsWith(Concat(pieces), '='))
  {
    hide QuotedPrintable, Trim, UnfoldOne;
    var n, raws := |pieces| - 1, Soft(pieces);
    SoftPrefix(r, u, pieces, n);
    assert raws[n] in raws && raws == raws[..n] + [raws[n]];
    UnfoldLast(r, u, raws[..n], raws[n]);
    SoftStep(r, u.lines, Concat(pieces[..n]), raws[n]);
  }

  // -------------------------------------------------------------------------------------------
  // Folded exports
  // -------------------------------------------------------------------------------------------

  function AllRaws(fs: seq<Folding>): seq<string> {
    if fs == [] then [] else AllRaws(fs[..|fs| - 1]) + Raws(fs[|fs| - 1])
  }

  /** A line as the printer writes it. */
  ghost predicate Printed(line: string) {
    exists p :: Writable(p) && line == LineOf(p)
  }

  /** The foldings are clean and fold the lines, one by one. */
  predicate Folds(fs: seq<Folding>, lines: seq<string>) {
    |fs| == |lines| && forall i :: 0 <= i < |fs| ==> Clean(fs[i]) && Text(fs[i]) == lines[i]
  }

  lemma {:induction false} FoldsBack(r: Rules, fs: seq<Folding>, lines: seq<string>)
    requires RulesOk(r) && Folds(fs, lines) && forall l :: l in lines ==> Printed(l)
    ensures Unfold(r, AllRaws(fs)) == Unfolding(lines, false)
    decreases |fs|
  {
    hide RulesOk, Clean, Writable, LineOf, Text, Raws, UnfoldFrom, UnfoldOne;
    if fs != [] {
      var front, line := fs[..|fs| - 1], lines[|lines| - 1];
      FoldsBack(r, front, lines[..|lines| - 1]);
      UnfoldSplit(r, AllRaws(front), Raws(fs[|fs| - 1]));
      assert Printed(line);
      var p :| Writable(p) && line == LineOf(p);
      PiecesBack(r, Unfold(r, AllRaws(front)), p, fs[|fs| - 1]);
      assert lines == lines[..|lines| - 1] + [line];
    }
  }

  lemma {:induction false} RawsFramed(fs: seq<Folding>)
    requires forall f :: f in fs ==> Clean(f)
    ensures forall raw :: raw in AllRaws(fs) ==> Framed(raw)
  {
    hide Framed, RawLine;
    if fs != [] {
      RawsFramed(fs[..|fs| - 1]);
      assert fs[|fs| - 1] in fs;
    }
  }

  /** Printed lines read back as they were, wherever and how often they are folded. */
  lemma FoldedLinesBack(r: Rules, fs: seq<Folding>, lines: seq<string>)
    requires RulesOk(r) && Folds(fs, lines) && forall l :: l in lines ==> Printed(l)
    ensures ContentLines(r, Joined(AllRaws(fs))) == lines
  {
    hide RulesOk, Clean, Printed, Text, Raws, Framed, UnfoldOne;
    RawsFramed(fs);
    var raws := AllRaws(fs);
    JoinedNoPairs(raws);
    NothingDropped(Joined(raws));
    SplitJoined(raws);
    FoldsBack(r, fs, lines);
    assert (raws + [""])[..|raws|] == raws;
    BlankRaw(r, Unfold(r, raws));
  }

  lemma BlankRaw(r: Rules, u: Unfolding)
    requires !u.more
    ensures UnfoldOne(r, u, "") == u
  {
    assert Trim("") == "";
  }

  lemma CardPrinted(c: Contact)
    ensures forall l :: l in CardLines(c) ==> Printed(l)
  {
    hide Properties, LineOf, Writable;
    FixedLines();
    FixedWritable();
    AllPrintable(c);
    var ps := Properties(c);
    forall l | l in LinesOf(ps) ensures Printed(l) {
      var i :| 0 <= i < |LinesOf(ps)| && LinesOf(ps)[i] == l;
      assert ps[i] in ps;
      assert Writable(ps[i]) && l == LineOf(ps[i]);
    }
    assert Printed(LineOf(BEGIN_CARD)) && Printed(LineOf(VERSION_4)) && Printed(LineOf(END_CARD));
  }

  lemma {:induction false} AllPrinted(cs: seq<Contact>)
    ensures forall l :: l in AllLines(cs) ==> Printed(l)
  {
    hide CardLines, Printed;
    if cs != [] {
      AllPrinted(cs[..|cs| - 1]);
      CardPrinted(cs[|cs| - 1]);
    }
  }

  /** An export reads back as the contacts' cards, wherever and how often its lines are folded. */
  lemma FoldedExport(r: Rules, cs: seq<Contact>, fs: seq<Folding>)
    requires RulesOk(r) && Folds(fs, AllLines(cs))
    ensures Parse(r, Joined(AllRaws(fs))) == (CardsOf(cs), [])
  {
    hide RulesOk, ContentLines, Joined, AllLines, CardsOf, Printed, Folds, AllRaws;
    AllPrinted(cs);
    FoldedLinesBack(r, fs, AllLines(cs));
    AllBack(r, cs);
  }

  // -------------------------------------------------------------------------------------------
  // Carriage returns
  // -------------------------------------------------------------------------------------------

  /** A raw line without the carriage return that ends it. */
  function Chomp(line: string): string {
    if EndsWith(line, '\r') then line[..|line| - 1] else line
  }

  function Chomped(lines: seq<string>): seq<string> {
    seq(|lines|, i requires 0 <= i < |lines| => Chomp(lines[i]))
  }

  lemma {:induction false} DropOneLine(line: string, rest: string)
    requires '\n' !in line
    ensures DropReturns(line + "\n" + rest) == Chomp(line) + "\n" + DropReturns(rest)
  {
    hide DropReturns;
    var s := line + "\n" + rest;
    if line == [] {
      DropNone('\n', rest);
      assert s == ['\n'] + rest;
    } else if |line| == 1 && line[0] == '\r' {
      DropPair(rest);
      assert s == "\r\n" + rest;
    } else {
      var c, tail := line[0], line[1..];
      DropOneLine(tail, rest);
      assert s == [c] + (tail + "\n" + rest);
      DropNone(c, tail + "\n" + rest);
      assert Chomp(line) == [c] + Chomp(tail);
    }
  }

  /** Any lines come apart as they were, but for one carriage return at the end of each. */
  lemma {:induction false} RawLines(lines: seq<string>)
    requires forall l :: l in lines ==> '\n' !in l
    ensures SplitLines(DropReturns(Joined(lines))) == Chomped(lines) + [""]
  {
    if lines != [] {
      hide Chomp;
      var line, rest := lines[0], Joined(lines[1..]);
      assert line in lines;
      RawLines(lines[1..]);
      DropOneLine(line, rest);
      assert '\n' !in Chomp(line) by { ChompKeeps(line); }
      SplitOne(Chomp(line), DropReturns(rest));
      assert Chomped(lines) == [Chomp(line)] + Chomped(lines[1..]);
    }
  }

  lemma ChompKeeps(line: string)
    ensures Chomp(line) <= line
  {
  }

  function Returned(lines: seq<string>): seq<string> {
    seq(|lines|, i requires 0 <= i < |lines| => lines[i] + "\r")
  }

  /** Lines that end in CRLF read as the same lines ended in LF. */
  lemma ReturnsRead(r: Rules, lines: seq<string>)
    requires forall l :: l in lines ==> Framed(l)
    ensures ContentLines(r, Joined(Returned(lines))) == ContentLines(r, Joined(lines))
  {
    hide Joined, Unfold;
    forall l | l in Returned(lines) ensures '\n' !in l {
      var i :| 0 <= i < |lines| && l == lines[i] + "\r";
      assert lines[i] in lines;
    }
    RawLines(Returned(lines));
    RawLines(lines);
    forall i | 0 <= i < |lines| ensures Chomped(Returned(lines))[i] == Chomped(lines)[i] {
      assert lines[i] in lines;
    }
    assert Chomped(Returned(lines)) == Chomped(lines);
  }

  // -------------------------------------------------------------------------------------------
  // One break, exactly
  // -------------------------------------------------------------------------------------------

  lemma {:induction false} SolidFrom(r: Rules, u: Unfolding, lines: seq<string>)
    requires !u.more && forall l :: l in lines ==> Solid(r, l)
    ensures UnfoldFrom(r, u, lines) == Unfolding(u.lines + lines, false)
  {
    if lines == [] {
      assert u.lines + lines == u.lines;
    } else {
      hide QuotedPrintable, Trim;
      var front, last := lines[..|lines| - 1], lines[|lines| - 1];
      SolidFrom(r, u, front);
      assert last in lines;
      FramedStays(last);
      assert u.lines + lines == (u.lines + front) + [last];
    }
  }

  lemma FramedStays(line: string)
    requires Framed(line)
    ensures TrimReturns(line) == line && Chomp(line) == line
  {
  }

  /** The two raw lines of a printed line broken before its `k`-th character. */
  function Broken(line: string, k: nat, mark: char): seq<string>
    requires k <= |line|
  {
    [line[..k], [mark] + line[k..]]
  }

  /** What the two parts of a broken line leave: one line, or none when the break is at its start. */
  lemma BrokenUnfolds(r: Rules, u: Unfolding, p: Property, k: nat, mark: char)
    requires RulesOk(r) && Writable(p) && !u.more && k <= |LineOf(p)| && mark in {' ', '\t'}
    ensures var raws := Broken(LineOf(p), k, mark);
            var v := UnfoldOne(r, UnfoldOne(r, u, Chomp(raws[0])), raws[1]);
            && !v.more
            && (k == 0 ==> |v.lines| == |u.lines|)
            && (k > 0 ==> exists line :: && v.lines == u.lines + [line]
                                         && (line == LineOf(p) <==> LineOf(p)[k - 1] != '\r'))
  {
    hide RulesOk, Writable, LineOf, QuotedPrintable, Trim;
    var text := LineOf(p);
    var first, second := text[..k], [mark] + text[k..];
    assert second[1..] == text[k..];
    if k == 0 {
      BlankRaw(r, u);
    } else {
      StartsName(p);
      var n := if text[k - 1] == '\r' then k - 1 else k;
      assert Chomp(first) == text[..n];
      StartsLine(r, u, p, n);
      ReturnsGone(text[..n]);
      var line := TrimReturns(text[..n]) + text[k..];
      assert UnfoldOne(r, Unfolding(u.lines + [TrimReturns(text[..n])], false), second).lines == u.lines + [line];
      if n == k {
        assert line == text;
      } else {
        assert |line| < |text|;
      }
    }
  }

  lemma StartsName(p: Property)
    requires Writable(p)
    ensures |LineOf(p)| > 1 && LineOf(p)[0] != '\r'
  {
    assert LineOf(p)[0] == p.name[0];
  }

  /** A break is harmless in and only in a place after the first character that no carriage return precedes. */
  lemma BreakExactly(r: Rules, before: seq<string>, p: Property, after: seq<string>, k: nat, mark: char)
    requires RulesOk(r) && Writable(p) && k <= |LineOf(p)| && mark in {' ', '\t'}
    requires forall l :: l in before + after ==> Solid(r, l)
    ensures ContentLines(r, Joined(before + Broken(LineOf(p), k, mark) + after)) == before + [LineOf(p)] + after
            <==> k > 0 && LineOf(p)[k - 1] != '\r'
  {
    hide RulesOk, Writable, LineOf, UnfoldOne, UnfoldFrom, Joined, Solid, DropReturns, SplitLines;
    var raws := Broken(LineOf(p), k, mark);
    BrokenRaws(r, before, p, after, k, mark);
    assert forall l :: l in before ==> l in before + after;
    UnfoldSolid(r, before);
    var u := Unfolding(before, false);
    var v := UnfoldOne(r, UnfoldOne(r, u, Chomp(raws[0])), raws[1]);
    BrokenUnfolds(r, u, p, k, mark);
    UnfoldParts(r, before, Chomp(raws[0]), raws[1], after);
    assert forall l :: l in after ==> l in before + after;
    SolidFrom(r, v, after);
    BlankRaw(r, UnfoldFrom(r, v, after));
    assert ContentLines(r, Joined(before + raws + after)) == v.lines + after;
    if k > 0 {
      var line :| v.lines == before + [line] && (line == LineOf(p) <==> LineOf(p)[k - 1] != '\r');
      assert (before + [line] + after)[|before|] == line;
      assert (before + [LineOf(p)] + after)[|before|] == LineOf(p);
    }
  }

  lemma BrokenRaws(r: Rules, before: seq<string>, p: Property, after: seq<string>, k: nat, mark: char)
    requires RulesOk(r) && Writable(p) && k <= |LineOf(p)| && mark in {' ', '\t'}
    requires forall l :: l in before + after ==> Solid(r, l)
    ensures var raws := Broken(LineOf(p), k, mark);
            SplitLines(DropReturns(Joined(before + raws + after))) ==
            before + [Chomp(raws[0]), raws[1]] + after + [""]
  {
    hide RulesOk, Writable, LineOf, Joined, DropReturns, SplitLines, QuotedPrintable, Trim;
    LineSolid(r, p);
    var raws := Broken(LineOf(p), k, mark);
    var lines := before + raws + after;
    FramedStays(raws[1]);
    forall l | l in before + after ensures Chomp(l) == l && '\n' !in l {
      FramedStays(l);
    }
    forall l | l in lines ensures '\n' !in l {
      if l !in raws {
        assert l in before + after;
      }
    }
    RawLines(lines);
    forall i | 0 <= i < |lines|
      ensures Chomped(lines)[i] == (before + [Chomp(raws[0]), raws[1]] + after)[i]
    {
      if i < |before| {
        assert lines[i] in before + after;
      } else if i >= |before| + 2 {
        assert lines[i] == after[i - |before| - 2];
        assert lines[i] in before + after;
      }
    }
    assert Chomped(lines) == before + [Chomp(raws[0]), raws[1]] + after;
  }

  lemma UnfoldParts(r: Rules, before: seq<string>, first: string, second: string, after: seq<string>)
    ensures Unfold(r, before + [first, second] + after + [""]) ==
            UnfoldOne(r, UnfoldFrom(r, UnfoldOne(r, UnfoldOne(r, Unfold(r, before), first), second), after), "")
  {
    hide UnfoldOne;
    var raws := before + [first, second] + after;
    assert (raws + [""])[..|raws|] == raws;
    UnfoldSplit(r, before + [first, second], after);
    assert (before + [first, second])[..|before| + 1] == before + [first];
    assert (before + [first])[..|before|] == before;
  }
}
