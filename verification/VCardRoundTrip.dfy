/** Parsing what was printed: line framing, heads and values come back, then cards, then whole files. */
module VCardRoundTrip {
  import opened Options
  import opened VCardText
  import opened VCard
  import opened VCardParser

  /** Property names are runs of capital letters and hyphens. */
  predicate Plain(name: string) {
    name != "" && forall i :: 0 <= i < |name| ==> 'A' <= name[i] <= 'Z' || name[i] == '-'
  }

  /** Upper case leaves capital letters and hyphens alone. */
  ghost predicate RulesOk(r: Rules) {
    forall name :: Plain(name) ==> r.upper(name) == name
  }

  // -------------------------------------------------------------------------------------------
  // One line
  // -------------------------------------------------------------------------------------------

  lemma {:induction false} CutHere(name: string, rest: string, c: char)
    requires c !in name
    ensures Cut(name + [c] + rest, c) == Some((name, rest))
  {
    if name == [] {
      assert name + [c] + rest == [c] + rest;
    } else {
      CutHere(name[1..], rest, c);
      assert (name + [c] + rest)[1..] == name[1..] + [c] + rest;
      assert name == [name[0]] + name[1..];
    }
  }

  lemma {:induction false} CutNowhere(name: string, c: char)
    requires c !in name
    ensures Cut(name, c) == None
  {
    if name != [] {
      CutNowhere(name[1..], c);
    }
  }

  lemma PlainHas(name: string, c: char)
    requires Plain(name) && !('A' <= c <= 'Z') && c != '-'
    ensures c !in name
  {
  }

  lemma PlainTrimmed(name: string)
    requires Plain(name)
    ensures Trim(name) == name
  {
    TrimmedStays(name);
  }

  /** A plain head is its own name and has no parameters. */
  lemma PlainHead(r: Rules, name: string)
    requires RulesOk(r) && Plain(name)
    ensures ParseHead(r, name) == Some((name, map[]))
  {
    PlainHas(name, ';');
    PlainHas(name, '.');
    CutNowhere(name, ';');
    CutNowhere(name, '.');
    PlainTrimmed(name);
  }

  /** A written value reads back as it was. */
  lemma ValueBack(r: Rules, value: string)
    requires Trimmed(value)
    ensures DecodeValue(r, Escape(value), map[]) == value
  {
    EscapeInverse(value);
    TrimmedStays(value);
  }

  predicate Writable(p: Property) {
    Plain(p.name) && p.value != "" && Trimmed(p.value)
  }

  lemma LineCut(p: Property)
    requires Plain(p.name)
    ensures Cut(LineOf(p), ':') == Some((p.name, Escape(p.value)))
  {
    PlainHas(p.name, ':');
    CutHere(p.name, Escape(p.value), ':');
  }

  /** A printed line reads back as its property, whatever its value holds. */
  lemma LineBack(r: Rules, s: Scan, n: nat, p: Property)
    requires RulesOk(r) && Writable(p)
    ensures Scanned(r, s, n, LineOf(p)) ==
              if p.name == "BEGIN" then
                (if r.fold(p.value) != r.fold("VCARD") then s
                 else Finish(Poisoned(s, Unterminated)).(current := Some([]), poison := None, index := s.index + 1))
              else if p.name == "END" then (if r.fold(p.value) == r.fold("VCARD") then Finish(s) else s)
              else if s.current.None? || s.poison.Some? then s
              else if !Supported(r, p.name) then s.(poison := Some(Unsupported(p.name, n + 1)))
              else s.(current := Some(s.current.value + [Line(p.name, map[], p.value)]))
  {
    hide Cut, ParseHead, DecodeValue, Supported, Finish, Poisoned, Trimmed, Plain, LineOf;
    WritableParts(p);
    LineCut(p);
    PlainHead(r, p.name);
    ValueBack(r, p.value);
  }

  lemma WritableParts(p: Property)
    requires Writable(p)
    ensures Plain(p.name) && Trimmed(p.value) && p.value != ""
  {
  }

  // -------------------------------------------------------------------------------------------
  // Framing
  // -------------------------------------------------------------------------------------------

  /** A raw line that unfolding takes over unchanged and that does not swallow the next one. */
  ghost predicate Solid(r: Rules, line: string) {
    && Framed(line) && !Folded(line) && Trim(line) != "" && !QuotedPrintable(r, line)
  }

  lemma NoEquals(s: string, sub: string, c: char)
    requires c !in s && c in sub
    ensures !Contains(s, sub)
  {
  }

  lemma LineSolid(r: Rules, p: Property)
    requires RulesOk(r) && Writable(p)
    ensures Solid(r, LineOf(p))
  {
    var line := LineOf(p);
    EscapeOneLine(p.value);
    EscapeEnd(p.value);
    PlainHas(p.name, '\n');
    assert line[0] == p.name[0];
    NotBlank(line);
    LineCut(p);
    PlainHas(p.name, '=');
    assert "ENCODING=QUOTED-PRINTABLE"[8] == '=';
    NoEquals(p.name, "ENCODING=QUOTED-PRINTABLE", '=');
    assert line[|line| - 1] == Escape(p.value)[|Escape(p.value)| - 1];
  }

  /** Unfolding further raw lines from a state. */
  function UnfoldFrom(r: Rules, u: Unfolding, raws: seq<string>): Unfolding {
    if raws == [] then u else UnfoldOne(r, UnfoldFrom(r, u, raws[..|raws| - 1]), raws[|raws| - 1])
  }

  lemma {:induction false} UnfoldSplit(r: Rules, a: seq<string>, b: seq<string>)
    ensures Unfold(r, a + b) == UnfoldFrom(r, Unfold(r, a), b)
    decreases |b|
  {
    hide UnfoldOne;
    if b == [] {
      assert a + b == a;
    } else {
      UnfoldSplit(r, a, b[..|b| - 1]);
      assert (a + b)[..|a + b| - 1] == a + b[..|b| - 1];
    }
  }

  lemma {:induction false} UnfoldSolid(r: Rules, lines: seq<string>)
    requires forall l :: l in lines ==> Solid(r, l)
    ensures Unfold(r, lines) == Unfolding(lines, false)
  {
    if lines != [] {
      var front, last := lines[..|lines| - 1], lines[|lines| - 1];
      UnfoldSolid(r, front);
      assert last in lines;
      assert lines == front + [last];
    }
  }

  /** Text made of solid lines comes apart into exactly those lines. */
  lemma LinesBack(r: Rules, lines: seq<string>)
    requires forall l :: l in lines ==> Solid(r, l)
    ensures ContentLines(r, Joined(lines)) == lines
  {
    hide QuotedPrintable;
    JoinedNoPairs(lines);
    NothingDropped(Joined(lines));
    SplitJoined(lines);
    UnfoldSolid(r, lines);
    var raws := lines + [""];
    assert raws[..|raws| - 1] == lines && raws[|raws| - 1] == "";
    assert Trim("") == "";
  }

  // -------------------------------------------------------------------------------------------
  // Cards
  // -------------------------------------------------------------------------------------------

  const BEGIN_CARD: Property := Property("BEGIN", "VCARD")
  const VERSION_4: Property := Property("VERSION", "4.0")
  const END_CARD: Property := Property("END", "VCARD")

  function LineFor(p: Property): Line { Line(p.name, map[], p.value) }

  function LinesFor(ps: seq<Property>): seq<Line> {
    seq(|ps|, i requires 0 <= i < |ps| => LineFor(ps[i]))
  }

  /** What a contact's card reads back as: its version and its properties, in order. */
  function CardOf(c: Contact): seq<Line> {
    LinesFor([VERSION_4] + Properties(c))
  }

  function CardsOf(cs: seq<Contact>): seq<seq<Line>> {
    seq(|cs|, i requires 0 <= i < |cs| => CardOf(cs[i]))
  }

  lemma FixedLines()
    ensures LineOf(BEGIN_CARD) == "BEGIN:VCARD" && LineOf(VERSION_4) == "VERSION:4.0" && LineOf(END_CARD) == "END:VCARD"
  {
    hide Escape;
    SameText("VCARD");
    SameText("4.0");
  }

  lemma FixedWritable()
    ensures Writable(BEGIN_CARD) && Writable(VERSION_4) && Writable(END_CARD)
  {
  }

  lemma {:induction false} SameText(s: string)
    requires forall i :: 0 <= i < |s| ==> s[i] !in {'\\', '\n', ';', ','}
    ensures Escape(s) == s
  {
    if s != [] {
      SameText(s[1..]);
      assert s == [s[0]] + s[1..];
    }
  }

  /** A property the printer may write. */
  predicate Printable(p: Property) {
    Writable(p) && p.name in STANDARD
  }

  lemma WrittenPrintable(name: string, value: string)
    requires Plain(name) && name in STANDARD
    ensures forall p :: p in Written(name, value) ==> Printable(p)
  {
    TrimTrims(value);
  }

  lemma NamesPlain(fact: Fact, displayName: string)
    requires NameFor(fact, displayName).Some?
    ensures Plain(NameFor(fact, displayName).value) && NameFor(fact, displayName).value in STANDARD
  {
  }

  lemma {:induction false} FactsPrintable(facts: seq<Fact>, displayName: string)
    ensures forall p :: p in FactProperties(facts, displayName) ==> Printable(p)
  {
    hide Printable, Written, Plain;
    if facts != [] {
      FactsPrintable(facts[..|facts| - 1], displayName);
      var last := facts[|facts| - 1];
      if NameFor(last, displayName).Some? {
        NamesPlain(last, displayName);
        WrittenPrintable(NameFor(last, displayName).value, last.value);
      }
    }
  }

  lemma AllPrintable(c: Contact)
    ensures forall p :: p in Properties(c) ==> Printable(p)
  {
    hide Printable, Written, FactProperties;
    FactsPrintable(c.facts, c.displayName);
    assert Plain("FN");
    WrittenPrintable("FN", FirstNonEmpty(c.displayName, c.id));
  }

  /** Scanning further lines from a state. */
  function ScanFrom(r: Rules, s: Scan, n: nat, lines: seq<string>): Scan {
    if lines == [] then s else Scanned(r, ScanFrom(r, s, n, lines[..|lines| - 1]), n + |lines| - 1, lines[|lines| - 1])
  }

  lemma {:induction false} ScanSplit(r: Rules, a: seq<string>, b: seq<string>)
    ensures ScanAll(r, a + b) == ScanFrom(r, ScanAll(r, a), |a|, b)
    decreases |b|
  {
    hide Scanned;
    if b == [] {
      assert a + b == a;
    } else {
      ScanSplit(r, a, b[..|b| - 1]);
      assert (a + b)[..|a + b| - 1] == a + b[..|b| - 1];
    }
  }

  lemma {:induction false} ScanFromSplit(r: Rules, s: Scan, n: nat, a: seq<string>, b: seq<string>)
    ensures ScanFrom(r, s, n, a + b) == ScanFrom(r, ScanFrom(r, s, n, a), n + |a|, b)
    decreases |b|
  {
    hide Scanned;
    if b == [] {
      assert a + b == a;
    } else {
      ScanFromSplit(r, s, n, a, b[..|b| - 1]);
      assert (a + b)[..|a + b| - 1] == a + b[..|b| - 1];
    }
  }

  lemma ScanOne(r: Rules, s: Scan, n: nat, line: string)
    ensures ScanFrom(r, s, n, [line]) == Scanned(r, s, n, line)
  {
    hide Scanned;
    assert [line][..0] == [];
  }

  /** Inside a card, every property is added in order. */
  lemma {:induction false} PropertiesBack(r: Rules, s: Scan, n: nat, ps: seq<Property>)
    requires RulesOk(r) && s.current.Some? && s.poison.None? && forall p :: p in ps ==> Printable(p)
    ensures ScanFrom(r, s, n, LinesOf(ps)) == s.(current := Some(s.current.value + LinesFor(ps)))
  {
    hide Scanned, Writable, RulesOk, LineOf;
    if ps == [] {
      assert s.current.value + [] == s.current.value;
    } else {
      var front, p := ps[..|ps| - 1], ps[|ps| - 1];
      PropertiesBack(r, s, n, front);
      assert LinesOf(ps)[..|ps| - 1] == LinesOf(front);
      assert Printable(p);
      LineBack(r, ScanFrom(r, s, n, LinesOf(front)), n + |ps| - 1, p);
      assert LinesFor(ps) == LinesFor(front) + [LineFor(p)];
      assert s.current.value + LinesFor(ps) == (s.current.value + LinesFor(front)) + [LineFor(p)];
    }
  }

  /** Between cards, a whole printed card adds exactly that card. */
  lemma CardBack(r: Rules, s: Scan, n: nat, c: Contact)
    requires RulesOk(r) && s.current.None? && s.poison.None?
    ensures ScanFrom(r, s, n, CardLines(c)) == s.(index := s.index + 1, cards := s.cards + [CardOf(c)])
  {
    hide Scanned, RulesOk, LinesOf, Properties, LineOf, Writable, ScanFrom;
    FixedLines();
    FixedWritable();
    AllPrintable(c);
    var ps := Properties(c);
    var head := LinesOf(ps);
    ScanFromSplit(r, s, n, ["BEGIN:VCARD", "VERSION:4.0"] + head, ["END:VCARD"]);
    ScanFromSplit(r, s, n, ["BEGIN:VCARD", "VERSION:4.0"], head);
    ScanFromSplit(r, s, n, ["BEGIN:VCARD"], ["VERSION:4.0"]);
    assert ["BEGIN:VCARD"] + ["VERSION:4.0"] == ["BEGIN:VCARD", "VERSION:4.0"];
    ScanOne(r, s, n, "BEGIN:VCARD");
    LineBack(r, s, n, BEGIN_CARD);
    var s1 := s.(current := Some([]), index := s.index + 1);
    ScanOne(r, s1, n + 1, "VERSION:4.0");
    LineBack(r, s1, n + 1, VERSION_4);
    assert [] + [LineFor(VERSION_4)] == [LineFor(VERSION_4)];
    var s2 := s1.(current := Some([LineFor(VERSION_4)]));
    PropertiesBack(r, s2, n + 2, ps);
    var s3 := s2.(current := Some([LineFor(VERSION_4)] + LinesFor(ps)));
    assert ScanFrom(r, s, n, ["BEGIN:VCARD"]) == s1;
    assert ScanFrom(r, s1, n + 1, ["VERSION:4.0"]) == s2;
    assert ScanFrom(r, s2, n + 2, head) == s3;
    ScanOne(r, s3, n + 2 + |head|, "END:VCARD");
    LineBack(r, s3, n + 2 + |head|, END_CARD);
    assert [LineFor(VERSION_4)] + LinesFor(ps) == CardOf(c);
  }

  lemma {:induction false} AllBack(r: Rules, cs: seq<Contact>)
    requires RulesOk(r)
    ensures ScanAll(r, AllLines(cs)) == Scan(None, None, |cs|, CardsOf(cs), [])
  {
    hide Scanned, RulesOk, CardLines, CardOf, ScanFrom;
    if cs != [] {
      var front, c := cs[..|cs| - 1], cs[|cs| - 1];
      AllBack(r, front);
      ScanSplit(r, AllLines(front), CardLines(c));
      CardBack(r, ScanAll(r, AllLines(front)), |AllLines(front)|, c);
      assert CardsOf(cs) == CardsOf(front) + [CardOf(c)];
    }
  }

  lemma CardSolid(r: Rules, c: Contact)
    requires RulesOk(r)
    ensures forall l :: l in CardLines(c) ==> Solid(r, l)
  {
    hide RulesOk, Properties, LineOf, Writable, Solid;
    FixedLines();
    FixedWritable();
    LineSolid(r, BEGIN_CARD);
    LineSolid(r, VERSION_4);
    LineSolid(r, END_CARD);
    AllPrintable(c);
    var ps := Properties(c);
    forall l | l in LinesOf(ps) ensures Solid(r, l) {
      var i :| 0 <= i < |LinesOf(ps)| && LinesOf(ps)[i] == l;
      assert ps[i] in ps;
      LineSolid(r, ps[i]);
    }
  }

  lemma {:induction false} AllSolid(r: Rules, cs: seq<Contact>)
    requires RulesOk(r)
    ensures forall l :: l in AllLines(cs) ==> Solid(r, l)
  {
    hide RulesOk, CardLines, Solid;
    if cs != [] {
      AllSolid(r, cs[..|cs| - 1]);
      CardSolid(r, cs[|cs| - 1]);
    }
  }

  /** Parsing what was printed gives one card per contact, in order, as written, and rejects nothing. */
  lemma RoundTrip(r: Rules, cs: seq<Contact>)
    requires RulesOk(r)
    ensures Parse(r, Joined(AllLines(cs))) == (CardsOf(cs), [])
  {
    hide RulesOk, ContentLines, Joined, AllLines, CardsOf, Solid;
    AllSolid(r, cs);
    LinesBack(r, AllLines(cs));
    AllBack(r, cs);
  }
}
