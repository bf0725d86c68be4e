/**
 Record boundaries for arbitrary text. Every BEGIN:VCARD line yields exactly one card or rejection, and
 records do not affect one another: a damaged record, also one without its END, is rejected by itself.
 `TextIndependentExactly` says when that carries over from logical lines to text.
 */
module VCardRecords {
  import opened Options
  import opened VCardText
  import opened VCard
  import opened VCardParser
  import opened VCardRoundTrip

  // -------------------------------------------------------------------------------------------
  // One outcome per record
  // -------------------------------------------------------------------------------------------

  /** A line that begins a record. */
  predicate Begins(r: Rules, line: string) {
    && Cut(line, ':').Some?
    && var (head, rest) := Cut(line, ':').value;
       && ParseHead(r, head).Some?
       && var (name, params) := ParseHead(r, head).value;
          name == "BEGIN" && r.fold(DecodeValue(r, rest, params)) == r.fold("VCARD")
  }

  function BeginCount(r: Rules, lines: seq<string>): nat {
    if lines == [] then 0 else BeginCount(r, lines[..|lines| - 1]) + if Begins(r, lines[|lines| - 1]) then 1 else 0
  }

  /** Every record begun so far is a card, a rejection, or still open. */
  ghost predicate Accounted(r: Rules, s: Scan, lines: seq<string>) {
    && BeginCount(r, lines) == |s.cards| + |s.rejections| + (if s.current.Some? then 1 else 0)
    && (s.current.None? ==> s.poison.None?)
  }

  lemma {:induction false} AccountedAll(r: Rules, lines: seq<string>)
    ensures Accounted(r, ScanAll(r, lines), lines)
  {
    hide Cut, ParseHead, DecodeValue, Supported;
    if lines != [] {
      AccountedAll(r, lines[..|lines| - 1]);
    }
  }

  /** A damaged record is rejected for the first thing wrong with it: no later line changes the reason. */
  lemma FirstReason(r: Rules, s: Scan, n: nat, line: string)
    requires s.current.Some? && s.poison.Some?
    ensures var after := Scanned(r, s, n, line);
            || after == s
            || (after.cards == s.cards && after.rejections == s.rejections + [Rejection(s.index, s.poison.value)])
  {
    hide Cut, ParseHead, DecodeValue, Supported;
  }

  /** The end of the text closes an open record as unterminated. */
  function Closed(s: Scan): Scan { Finish(Poisoned(s, Unterminated)) }

  function Cards(r: Rules, lines: seq<string>): seq<seq<Line>> { Closed(ScanAll(r, lines)).cards }

  function Rejections(r: Rules, lines: seq<string>): seq<Rejection> { Closed(ScanAll(r, lines)).rejections }

  lemma OutcomesOfLines(r: Rules, lines: seq<string>)
    ensures |Cards(r, lines)| + |Rejections(r, lines)| == BeginCount(r, lines)
  {
    hide Scanned, BeginCount;
    AccountedAll(r, lines);
  }

  /** For every text, as many cards and rejections come out as its logical lines have BEGIN:VCARD. */
  lemma OutcomePerRecord(r: Rules, content: string)
    ensures var (cards, rejections) := Parse(r, content);
            |cards| + |rejections| == BeginCount(r, ContentLines(r, content))
  {
    hide ScanAll, ContentLines, BeginCount;
    OutcomesOfLines(r, ContentLines(r, content));
  }

  // -------------------------------------------------------------------------------------------
  // Independent records, on logical lines
  // -------------------------------------------------------------------------------------------

  /** `s` is what `t` is, after the records of `base`. */
  ghost predicate After(base: Scan, t: Scan, s: Scan) {
    && s.current == t.current && s.poison.Some? == t.poison.Some?
    && s.cards == base.cards + t.cards
    && |s.rejections| == |base.rejections| + |t.rejections|
    && base.rejections <= s.rejections
  }

  lemma AfterStep(r: Rules, base: Scan, t: Scan, s: Scan, n: nat, m: nat, line: string)
    requires After(base, t, s)
    ensures After(base, Scanned(r, t, n, line), Scanned(r, s, m, line))
  {
    hide Cut, ParseHead, DecodeValue, Supported;
  }

  /** A BEGIN:VCARD line closes whatever was open and starts afresh. */
  lemma AfterBegin(r: Rules, s: Scan, n: nat, line: string)
    requires Begins(r, line) && (s.current.None? ==> s.poison.None?)
    ensures After(Closed(s), Scanned(r, START, 0, line), Scanned(r, s, n, line))
  {
    hide Cut, ParseHead, DecodeValue;
  }

  lemma {:induction false} AfterAll(r: Rules, s: Scan, n: nat, lines: seq<string>)
    requires lines != [] && Begins(r, lines[0]) && (s.current.None? ==> s.poison.None?)
    ensures After(Closed(s), ScanAll(r, lines), ScanFrom(r, s, n, lines))
  {
    hide Scanned, Begins, Closed;
    var front, last := lines[..|lines| - 1], lines[|lines| - 1];
    if front == [] {
      AfterBegin(r, s, n, last);
      assert lines == [last] && lines[..0] == [];
    } else {
      AfterAll(r, s, n, front);
      AfterStep(r, Closed(s), ScanAll(r, front), ScanFrom(r, s, n, front), |lines| - 1, n + |lines| - 1, last);
    }
  }

  lemma AfterClosed(base: Scan, t: Scan, s: Scan)
    requires After(base, t, s)
    ensures After(base, Closed(t), Closed(s))
  {
  }

  /**
   Lines that begin with a record are read as if they stood alone, whatever came before: an unterminated or
   otherwise damaged record is rejected by itself and takes no other card with it.
   */
  lemma RecordsIndependent(r: Rules, a: seq<string>, b: seq<string>)
    requires b != [] && Begins(r, b[0])
    ensures Cards(r, a + b) == Cards(r, a) + Cards(r, b)
    ensures |Rejections(r, a + b)| == |Rejections(r, a)| + |Rejections(r, b)|
    ensures Rejections(r, a) <= Rejections(r, a + b)
  {
    hide Scanned, ScanAll, ScanFrom, Begins, Closed, BeginCount;
    AccountedAll(r, a);
    ScanSplit(r, a, b);
    AfterAll(r, ScanAll(r, a), |a|, b);
    AfterClosed(Closed(ScanAll(r, a)), ScanAll(r, b), ScanAll(r, a + b));
  }

  // -------------------------------------------------------------------------------------------
  // Independent records, on text
  // -------------------------------------------------------------------------------------------

  function RawLines(text: string): (raws: seq<string>)
    ensures raws != []
  {
    SplitLines(DropReturns(text))
  }

  /** Text made of whole lines. */
  predicate WholeLines(text: string) { text != "" && text[|text| - 1] == '\n' }

  /** The lines of such a text, without the empty rest after the last newline. */
  function Raws(text: string): seq<string> { RawLines(text)[..|RawLines(text)| - 1] }

  lemma {:induction false} DropConcat(a: string, b: string)
    requires WholeLines(a)
    ensures DropReturns(a + b) == DropReturns(a) + DropReturns(b)
    ensures WholeLines(DropReturns(a))
  {
    hide DropReturns;
    if |a| == 1 {
      DropNone('\n', "");
      DropNone('\n', b);
      DropsNothing();
      assert a == ['\n'] + "" && a + b == ['\n'] + b && ['\n'] + DropReturns("") == a;
    } else if a[0] == '\r' && a[1] == '\n' {
      var rest := a[2..];
      assert a == "\r\n" + rest && a + b == "\r\n" + (rest + b);
      DropPair(rest);
      DropPair(rest + b);
      if rest == "" {
        DropsNothing();
        assert rest + b == b;
      } else {
        DropConcat(rest, b);
      }
    } else {
      var c, rest := a[0], a[1..];
      DropConcat(rest, b);
      assert a == [c] + rest && a + b == [c] + (rest + b);
      DropNone(c, rest);
      DropNone(c, rest + b);
    }
  }

  lemma DropsNothing()
    ensures DropReturns("") == ""
  {
  }

  /** What splitting a longer text does to the parts of the shorter one. */
  function Prefixed(c: char, parts: seq<string>): seq<string>
    requires parts != []
  {
    if c == '\n' then [""] + parts else [[c] + parts[0]] + parts[1..]
  }

  lemma SplitFirst(c: char, s: string)
    ensures SplitLines([c] + s) == Prefixed(c, SplitLines(s))
  {
    assert ([c] + s)[1..] == s;
  }

  lemma PrefixedFront(c: char, p: seq<string>, q: seq<string>)
    requires |p| >= 2
    ensures Prefixed(c, p[..|p| - 1] + q) == Prefixed(c, p)[..|Prefixed(c, p)| - 1] + q
    ensures |Prefixed(c, p)| >= 2 && Prefixed(c, p)[|Prefixed(c, p)| - 1] == p[|p| - 1]
  {
  }

  lemma {:induction false} SplitConcat(a: string, b: string)
    requires WholeLines(a)
    ensures SplitLines(a + b) == SplitLines(a)[..|SplitLines(a)| - 1] + SplitLines(b)
    ensures SplitLines(a)[|SplitLines(a)| - 1] == "" && |SplitLines(a)| >= 2
  {
    hide Prefixed, SplitLines;
    if |a| == 1 {
      OneBreak(b);
      assert a == "\n" && ["", ""][..1] == [""];
    } else {
      var c, tail := a[0], a[1..];
      SplitConcat(tail, b);
      SplitFirst(c, tail);
      SplitFirst(c, tail + b);
      assert a == [c] + tail && a + b == [c] + (tail + b);
      PrefixedFront(c, SplitLines(tail), SplitLines(b));
    }
  }

  lemma OneBreak(b: string)
    ensures SplitLines("\n") == ["", ""] && SplitLines("\n" + b) == [""] + SplitLines(b)
  {
    assert "\n"[1..] == "";
    assert ("\n" + b)[1..] == b;
  }

  lemma RawConcat(a: string, b: string)
    requires WholeLines(a)
    ensures RawLines(a + b) == Raws(a) + RawLines(b)
    ensures RawLines(a) == Raws(a) + [""]
  {
    hide DropReturns, SplitLines;
    DropConcat(a, b);
    SplitConcat(DropReturns(a), DropReturns(b));
    var raws := RawLines(a);
    assert raws == raws[..|raws| - 1] + [raws[|raws| - 1]];
  }

  /** A quoted-printable line at the end of the text waits for its continuation. */
  predicate Pending(r: Rules, text: string) { Unfold(r, Raws(text)).more }

  /** A raw line that starts a logical line of its own. */
  predicate Fresh(raw: string) { !Folded(raw) && Trim(raw) != "" }

  ghost predicate Appended(u: Unfolding, v: Unfolding, s: Unfolding) {
    s.lines == u.lines + v.lines && v.lines != [] && s.more == v.more
  }

  lemma AppendedStep(r: Rules, u: Unfolding, v: Unfolding, s: Unfolding, raw: string)
    requires Appended(u, v, s)
    ensures Appended(u, UnfoldOne(r, v, raw), UnfoldOne(r, s, raw))
  {
    hide QuotedPrintable, Trim, TrimReturns;
    assert s.lines[|s.lines| - 1] == v.lines[|v.lines| - 1];
  }

  lemma {:induction false} UnfoldAppends(r: Rules, u: Unfolding, raws: seq<string>)
    requires !u.more && raws != [] && Fresh(raws[0])
    ensures Appended(u, Unfold(r, raws), UnfoldFrom(r, u, raws))
  {
    hide UnfoldOne, Fresh;
    var front, last := raws[..|raws| - 1], raws[|raws| - 1];
    if front == [] {
      FreshFirst(r, u, last);
      assert raws == [last] && raws[..0] == [];
    } else {
      UnfoldAppends(r, u, front);
      AppendedStep(r, u, Unfold(r, front), UnfoldFrom(r, u, front), last);
    }
  }

  lemma FreshFirst(r: Rules, u: Unfolding, raw: string)
    requires !u.more && Fresh(raw)
    ensures Appended(u, UnfoldOne(r, Unfolding([], false), raw), UnfoldOne(r, u, raw))
  {
    hide QuotedPrintable, Trim, TrimReturns;
    assert [] + [TrimReturns(raw)] == [TrimReturns(raw)];
  }

  /** The text after a complete one starts a logical line of its own, and that line begins a record. */
  ghost predicate StartsRecord(r: Rules, text: string) {
    Fresh(RawLines(text)[0]) && ContentLines(r, text) != [] && Begins(r, ContentLines(r, text)[0])
  }

  /** Without a pending continuation, the logical lines of two texts are those of the one and then the other. */
  lemma LinesConcat(r: Rules, a: string, b: string)
    requires WholeLines(a) && !Pending(r, a) && Fresh(RawLines(b)[0])
    ensures ContentLines(r, a + b) == ContentLines(r, a) + ContentLines(r, b)
  {
    hide RawLines, Fresh, Unfold, UnfoldFrom;
    ContentOf(r, a);
    ContentOf(r, b);
    ContentOf(r, a + b);
    RawConcat(a, b);
    UnfoldSplit(r, Raws(a), RawLines(b));
    UnfoldAppends(r, Unfold(r, Raws(a)), RawLines(b));
    UnfoldSplit(r, Raws(a), [""]);
    BlankLast(r, Unfold(r, Raws(a)));
  }

  lemma ContentOf(r: Rules, text: string)
    ensures ContentLines(r, text) == Unfold(r, RawLines(text)).lines
  {
  }

  lemma BlankLast(r: Rules, u: Unfolding)
    ensures !u.more ==> UnfoldFrom(r, u, [""]) == u
    ensures u.more && u.lines != [] ==>
              UnfoldFrom(r, u, [""]).lines == u.lines[|u.lines| - 1 := Unbroken(u.lines[|u.lines| - 1])]
  {
    assert [""][..0] == [];
    assert Trim("") == "";
    assert forall s: string :: s + "" == s;
  }

  /** A line without the soft break at its end. */
  function Unbroken(line: string): string { if EndsWith(line, '=') then line[..|line| - 1] else line }

  /** Both texts together give what each gives alone. */
  ghost predicate Independent(r: Rules, a: string, b: string) {
    && Parse(r, a + b).0 == Parse(r, a).0 + Parse(r, b).0
    && |Parse(r, a + b).1| == |Parse(r, a).1| + |Parse(r, b).1|
    && Parse(r, a).1 <= Parse(r, a + b).1
  }

  /** A text of whole lines without a pending continuation affects no record that follows it. */
  lemma TextsIndependent(r: Rules, a: string, b: string)
    requires WholeLines(a) && !Pending(r, a) && StartsRecord(r, b)
    ensures Independent(r, a, b)
  {
    hide ContentLines, RawLines, Fresh, Begins, ScanAll, Closed, Unfold;
    LinesConcat(r, a, b);
    RecordsIndependent(r, ContentLines(r, a), ContentLines(r, b));
    ParseOf(r, a);
    ParseOf(r, b);
    ParseOf(r, a + b);
  }

  lemma ParseOf(r: Rules, text: string)
    ensures Parse(r, text) == (Cards(r, ContentLines(r, text)), Rejections(r, ContentLines(r, text)))
  {
  }

  // -------------------------------------------------------------------------------------------
  // What a pending continuation does
  // -------------------------------------------------------------------------------------------

  predicate EndsIn(s: string, t: string) { |t| <= |s| && s[|s| - |t|..] == t }

  const BEGIN_LINE: string := "BEGIN:VCARD"
  const TAIL: string := "GIN:VCARD"

  /**
   What quoted-printable decoding and case folding really do here: the two hex digits after an equals sign
   are all that decoding can take from the text behind it, and equal names have equal lengths.
   */
  ghost predicate Fair(r: Rules) {
    && RulesOk(r)
    && (forall v :: EndsIn(v, BEGIN_LINE) && r.decode(v).Some? ==> EndsIn(r.decode(v).value, TAIL))
    && (forall v :: r.fold(v) == r.fold("VCARD") ==> |v| == 5)
  }

  /** Text that neither unescaping nor trimming shortens. */
  predicate Sturdy(t: string) {
    t != "" && '\\' !in t && Escaped(t[0]) == [] && !IsSpace(t[0]) && !IsSpace(t[|t| - 1])
  }

  lemma TailSturdy()
    ensures Sturdy(TAIL) && |TAIL| == 9 && |BEGIN_LINE| == 11
    ensures forall v :: EndsIn(v, BEGIN_LINE) ==> EndsIn(v, TAIL)
  {
    forall v | EndsIn(v, BEGIN_LINE) ensures EndsIn(v, TAIL) {
      assert BEGIN_LINE[2..] == TAIL;
      assert v[|v| - 11..][2..] == v[|v| - 9..];
    }
  }

  lemma EndsMore(x: string, s: string, t: string)
    requires EndsIn(s, t)
    ensures EndsIn(x + s, t)
  {
    assert (x + s)[|x + s| - |t|..] == s[|s| - |t|..];
  }

  lemma {:induction false} UnescapeTail(p: string, t: string)
    requires Sturdy(t)
    ensures EndsIn(Unescape(p + t), t)
  {
    if p == [] {
      assert p + t == t;
      NoEscapes(t);
    } else if p[0] == '\\' && |p| >= 2 && Escaped(p[1]) != [] {
      UnescapeTail(p[2..], t);
      assert (p + t)[2..] == p[2..] + t;
      EndsMore(Escaped(p[1]), Unescape(p[2..] + t), t);
    } else {
      UnescapeTail(p[1..], t);
      assert (p + t)[1..] == p[1..] + t;
      EndsMore([p[0]], Unescape(p[1..] + t), t);
    }
  }

  lemma {:induction false} NoEscapes(s: string)
    requires '\\' !in s
    ensures Unescape(s) == s
  {
    if s != [] {
      NoEscapes(s[1..]);
      assert s == [s[0]] + s[1..];
    }
  }

  /** Trimming takes nothing from a text that ends sturdily. */
  lemma {:induction false} TrimTail(s: string, t: string)
    requires Sturdy(t) && EndsIn(s, t)
    ensures |Trim(s)| >= |t|
  {
    assert s[|s| - |t|..][0] == t[0] && s[|s| - |t|..][|t| - 1] == t[|t| - 1];
    if IsSpace(s[0]) {
      assert s[1..][|s| - 1 - |t|..] == s[|s| - |t|..];
      TrimTail(s[1..], t);
    }
  }

  /** A line that swallowed a BEGIN:VCARD line does not begin a record. */
  lemma SwallowedBegin(r: Rules, line: string)
    requires Fair(r) && ':' in line
    ensures !Begins(r, line + BEGIN_LINE)
  {
    hide Trim, Unescape, ParseHead, Cut, EndsIn, RulesOk;
    CutKept(line, BEGIN_LINE);
    var cut := Cut(line + BEGIN_LINE, ':').value;
    if ParseHead(r, cut.0).Some? {
      ValueLong(r, cut.1, ParseHead(r, cut.0).value.1);
    }
  }

  lemma ValueLong(r: Rules, v: string, params: Params)
    requires Fair(r) && EndsIn(v, BEGIN_LINE)
    ensures r.fold(DecodeValue(r, v, params)) != r.fold("VCARD")
  {
    hide Trim, Unescape, RulesOk, HasParamValue, Sturdy;
    var quoted := HasParamValue(r, params, "ENCODING", "QUOTED-PRINTABLE") && r.decode(v).Some?;
    var decoded := if quoted then r.decode(v).value else v;
    TailSturdy();
    assert EndsIn(decoded, TAIL);
    var p := decoded[..|decoded| - |TAIL|];
    assert decoded == p + TAIL;
    UnescapeTail(p, TAIL);
    TrimTail(Unescape(decoded), TAIL);
  }

  lemma {:induction false} CutKept(line: string, more: string)
    requires ':' in line
    ensures Cut(line + more, ':').Some? && EndsIn(Cut(line + more, ':').value.1, more)
  {
    assert (line + more)[0] == line[0];
    assert (line + more)[1..] == line[1..] + more;
    if line[0] != ':' {
      CutKept(line[1..], more);
    } else {
      assert (line[1..] + more)[|line| - 1..] == more;
    }
  }

  /** A line that waits for its continuation has its separator already. */
  lemma {:induction false} PendingHasHead(r: Rules, raws: seq<string>)
    ensures var u := Unfold(r, raws); u.more ==> u.lines != [] && ':' in u.lines[|u.lines| - 1]
  {
    if raws != [] {
      var front, raw := raws[..|raws| - 1], raws[|raws| - 1];
      PendingHasHead(r, front);
      PendingStep(r, Unfold(r, front), raw);
    }
  }

  lemma PendingStep(r: Rules, u: Unfolding, raw: string)
    requires u.more ==> u.lines != [] && ':' in u.lines[|u.lines| - 1]
    ensures var s := UnfoldOne(r, u, raw); s.more ==> s.lines != [] && ':' in s.lines[|s.lines| - 1]
  {
    hide Trim, Contains;
    if u.more {
      UnbrokenKeeps(u.lines[|u.lines| - 1]);
    }
    if Cut(TrimReturns(raw), ':').Some? {
      CutHas(TrimReturns(raw));
    }
  }

  lemma UnbrokenKeeps(line: string)
    requires ':' in line
    ensures ':' in Unbroken(line)
  {
    var i :| 0 <= i < |line| && line[i] == ':';
    if EndsWith(line, '=') {
      assert line[..|line| - 1][i] == ':';
    }
  }

  lemma {:induction false} CutHas(line: string)
    requires Cut(line, ':').Some?
    ensures ':' in line
  {
    if line[0] != ':' {
      CutHas(line[1..]);
    }
  }

  lemma {:induction false} SolidAppends(r: Rules, u: Unfolding, lines: seq<string>)
    requires !u.more && forall l :: l in lines ==> Solid(r, l)
    ensures UnfoldFrom(r, u, lines) == Unfolding(u.lines + lines, false)
  {
    if lines == [] {
      assert u.lines + [] == u.lines;
    } else {
      var front, last := lines[..|lines| - 1], lines[|lines| - 1];
      SolidAppends(r, u, front);
      assert last in lines;
      SolidOne(r, UnfoldFrom(r, u, front), last);
      assert u.lines + lines == (u.lines + front) + [last];
    }
  }

  lemma SolidOne(r: Rules, u: Unfolding, line: string)
    requires !u.more && Solid(r, line)
    ensures UnfoldOne(r, u, line) == Unfolding(u.lines + [line], false)
  {
    hide QuotedPrintable, Trim;
  }

  lemma {:induction false} UnfoldFromSplit(r: Rules, u: Unfolding, a: seq<string>, b: seq<string>)
    ensures UnfoldFrom(r, u, a + b) == UnfoldFrom(r, UnfoldFrom(r, u, a), b)
    decreases |b|
  {
    hide UnfoldOne;
    if b == [] {
      assert a + b == a;
    } else {
      UnfoldFromSplit(r, u, a, b[..|b| - 1]);
      assert (a + b)[..|a + b| - 1] == a + b[..|b| - 1];
    }
  }

  /** A pending line takes the next raw line in, whatever it says. */
  lemma SwallowOne(r: Rules, u: Unfolding, raw: string)
    requires u.more && u.lines != [] && !Folded(raw) && raw != "" && raw[|raw| - 1] != '='
    ensures UnfoldFrom(r, u, [raw]) ==
            Unfolding(u.lines[|u.lines| - 1 := Unbroken(u.lines[|u.lines| - 1]) + raw], false)
  {
    hide Trim, QuotedPrintable;
    assert [raw][..0] == [];
    var longer := Unbroken(u.lines[|u.lines| - 1]) + raw;
    assert longer[|longer| - 1] == raw[|raw| - 1];
  }

  lemma SolidRaws(r: Rules, lines: seq<string>)
    requires forall l :: l in lines ==> Solid(r, l)
    ensures RawLines(Joined(lines)) == lines + [""]
  {
    hide QuotedPrintable;
    JoinedNoPairs(lines);
    NothingDropped(Joined(lines));
    SplitJoined(lines);
  }

  /** The printed lines of some records. */
  ghost predicate RecordLines(r: Rules, lines: seq<string>) {
    lines != [] && lines[0] == BEGIN_LINE && forall l :: l in lines ==> Solid(r, l)
  }

  /** With a pending continuation, the BEGIN:VCARD line that follows becomes part of the pending line. */
  lemma PendingSwallows(r: Rules, a: string, lines: seq<string>)
    requires WholeLines(a) && Pending(r, a) && RecordLines(r, lines)
    ensures var u := Unfold(r, Raws(a)).lines;
            && u != []
            && var front, last := u[..|u| - 1], Unbroken(u[|u| - 1]);
               && ':' in last
               && ContentLines(r, a) == front + [last]
               && ContentLines(r, a + Joined(lines)) == front + [last + BEGIN_LINE] + lines[1..]
  {
    hide RawLines, Unfold, UnfoldFrom, Solid, Joined, Unbroken;
    var u := Unfold(r, Raws(a));
    PendingHasHead(r, Raws(a));
    var front, last := u.lines[..|u.lines| - 1], u.lines[|u.lines| - 1];
    UnbrokenKeeps(last);
    ContentOf(r, a);
    ContentOf(r, a + Joined(lines));
    RawConcat(a, Joined(lines));
    UnfoldSplit(r, Raws(a), [""]);
    BlankLast(r, u);
    SolidRaws(r, lines);
    var rest := lines[1..];
    assert lines + [""] == ([lines[0]] + rest) + [""];
    UnfoldSplit(r, Raws(a), lines + [""]);
    UnfoldFromSplit(r, u, [lines[0]] + rest, [""]);
    UnfoldFromSplit(r, u, [lines[0]], rest);
    assert BEGIN_LINE[10] == 'D' && |BEGIN_LINE| == 11;
    SwallowOne(r, u, lines[0]);
    var v := UnfoldFrom(r, u, [lines[0]]);
    SolidAppends(r, v, rest);
    BlankLast(r, Unfolding(v.lines + rest, false));
    assert v.lines == front + [Unbroken(last) + BEGIN_LINE];
    assert u.lines[|u.lines| - 1 := Unbroken(last)] == front + [Unbroken(last)];
  }

  lemma {:induction false} BeginCountAppend(r: Rules, a: seq<string>, b: seq<string>)
    ensures BeginCount(r, a + b) == BeginCount(r, a) + BeginCount(r, b)
    decreases |b|
  {
    hide Begins;
    if b == [] {
      assert a + b == a;
    } else {
      BeginCountAppend(r, a, b[..|b| - 1]);
      assert (a + b)[..|a + b| - 1] == a + b[..|b| - 1];
    }
  }

  lemma BeginCountOne(r: Rules, line: string)
    ensures BeginCount(r, [line]) == if Begins(r, line) then 1 else 0
  {
    hide Begins;
    assert [line][..0] == [];
  }

  lemma BeginLineBegins(r: Rules)
    requires RulesOk(r)
    ensures Begins(r, BEGIN_LINE)
  {
    hide ParseHead, DecodeValue, RulesOk, Plain, Trimmed, Cut, LineOf, Escape;
    FixedLines();
    FixedWritable();
    WritableParts(BEGIN_CARD);
    LineCut(BEGIN_CARD);
    PlainHead(r, BEGIN_CARD.name);
    ValueBack(r, BEGIN_CARD.value);
  }

  /** A pending continuation loses a record: together the texts give fewer outcomes than each by itself. */
  lemma PendingLoses(r: Rules, a: string, lines: seq<string>)
    requires Fair(r) && WholeLines(a) && Pending(r, a) && RecordLines(r, lines)
    ensures !Independent(r, a, Joined(lines))
  {
    hide Begins, BeginCount, Unfold, Solid, Joined, ContentLines, Pending, Parse, Fair, Unbroken;
    var b := Joined(lines);
    PendingSwallows(r, a, lines);
    var u := Unfold(r, Raws(a)).lines;
    var front, last := u[..|u| - 1], Unbroken(u[|u| - 1]);
    LinesBack(r, lines);
    OutcomePerRecord(r, a);
    OutcomePerRecord(r, b);
    OutcomePerRecord(r, a + b);
    BeginCountAppend(r, front, [last]);
    BeginCountAppend(r, front + [last + BEGIN_LINE], lines[1..]);
    BeginCountAppend(r, front, [last + BEGIN_LINE]);
    BeginCountOne(r, last + BEGIN_LINE);
    SwallowedBegin(r, last);
    assert lines == [BEGIN_LINE] + lines[1..];
    BeginCountAppend(r, [BEGIN_LINE], lines[1..]);
    BeginCountOne(r, BEGIN_LINE);
    FairOk(r);
    BeginLineBegins(r);
  }

  lemma FairOk(r: Rules)
    requires Fair(r)
    ensures RulesOk(r)
  {
  }

  /** The shortest record. */
  lemma ShortRecord(r: Rules)
    requires RulesOk(r)
    ensures RecordLines(r, [BEGIN_LINE, "END:VCARD"]) && StartsRecord(r, Joined([BEGIN_LINE, "END:VCARD"]))
  {
    hide Solid, RulesOk, Begins, LineOf, Joined, ContentLines, RawLines, Trim, QuotedPrintable;
    FixedLines();
    FixedWritable();
    LineSolid(r, BEGIN_CARD);
    LineSolid(r, END_CARD);
    var lines := [BEGIN_LINE, "END:VCARD"];
    LinesBack(r, lines);
    SolidRaws(r, lines);
    SolidFresh(r, BEGIN_LINE);
    BeginLineBegins(r);
  }

  lemma SolidFresh(r: Rules, line: string)
    requires Solid(r, line)
    ensures Fresh(line)
  {
  }

  /**
   A text of whole lines leaves every record that follows it alone if and only if it does not end in a
   quoted-printable line that waits for its continuation.
   */
  lemma TextIndependentExactly(r: Rules, a: string)
    requires Fair(r) && WholeLines(a)
    ensures (forall b :: StartsRecord(r, b) ==> Independent(r, a, b)) <==> !Pending(r, a)
  {
    hide Pending, StartsRecord, Independent, RecordLines, Fair;
    if Pending(r, a) {
      FairOk(r);
      ShortRecord(r);
      PendingLoses(r, a, [BEGIN_LINE, "END:VCARD"]);
    } else {
      forall b | StartsRecord(r, b) ensures Independent(r, a, b) {
        TextsIndependent(r, a, b);
      }
    }
  }

  const QUOTED: string := "ENCODING=QUOTED-PRINTABLE"
  const SOFT_HEAD: string := "NOTE;" + QUOTED
  const SOFT_BREAK: string := SOFT_HEAD + ":" + "abc="

  /** Such a text: a card whose NOTE ends in a soft line break and that has no END. */
  const SOFT_TEXT: string := Joined([BEGIN_LINE, SOFT_BREAK])

  lemma SoftTextPending(r: Rules)
    requires RulesOk(r) && r.upper(SOFT_HEAD) == SOFT_HEAD
    ensures WholeLines(SOFT_TEXT) && Pending(r, SOFT_TEXT)
    ensures Unfold(r, Raws(SOFT_TEXT)).lines == [BEGIN_LINE, SOFT_BREAK]
  {
    hide Trim, QuotedPrintable, RulesOk, Joined;
    var lines := [BEGIN_LINE, SOFT_BREAK];
    SoftFramed();
    BeginSolid(r);
    JoinedNoPairs(lines);
    NothingDropped(Joined(lines));
    SplitJoined(lines);
    assert Raws(SOFT_TEXT) == lines;
    SoftWhole();
    SolidOne(r, Unfolding([], false), BEGIN_LINE);
    assert lines[..1] == [BEGIN_LINE] && [BEGIN_LINE][..0] == [];
    assert Unfold(r, [BEGIN_LINE]) == Unfolding([BEGIN_LINE], false);
    SoftQuoted(r);
    assert Unfold(r, lines) == UnfoldOne(r, Unfolding([BEGIN_LINE], false), SOFT_BREAK);
    assert [BEGIN_LINE] + [SOFT_BREAK] == lines;
  }

  lemma SoftFramed()
    ensures Framed(SOFT_BREAK) && !Folded(SOFT_BREAK) && Trim(SOFT_BREAK) != "" && EndsWith(SOFT_BREAK, '=')
    ensures TrimReturns(SOFT_BREAK) == SOFT_BREAK
  {
    NotBlank(SOFT_BREAK);
  }

  lemma BeginSolid(r: Rules)
    requires RulesOk(r)
    ensures Solid(r, BEGIN_LINE)
  {
    hide Solid, RulesOk, LineOf;
    FixedLines();
    FixedWritable();
    LineSolid(r, BEGIN_CARD);
  }

  lemma SoftWhole()
    ensures WholeLines(SOFT_TEXT)
  {
    assert [BEGIN_LINE, SOFT_BREAK][1..] == [SOFT_BREAK];
    JoinedOne(SOFT_BREAK);
  }

  lemma SoftQuoted(r: Rules)
    requires r.upper(SOFT_HEAD) == SOFT_HEAD
    ensures QuotedPrintable(r, SOFT_BREAK)
  {
    assert ':' !in "NOTE;";
    assert ':' !in QUOTED;
    assert forall c :: c in SOFT_HEAD ==> c in "NOTE;" || c in QUOTED;
    CutHere(SOFT_HEAD, "abc=", ':');
    assert SOFT_HEAD[5..5 + |QUOTED|] == QUOTED;
    assert OccursAt(SOFT_HEAD, QUOTED, 5);
  }

  /** After it, another contact's card is lost: the two records come out as one. */
  lemma SoftBreakMerges(r: Rules)
    requires Fair(r) && r.upper(SOFT_HEAD) == SOFT_HEAD
    ensures var next := Joined([BEGIN_LINE, "END:VCARD"]);
            && StartsRecord(r, next) && !Independent(r, SOFT_TEXT, next)
            && var (cards, rejections) := Parse(r, SOFT_TEXT + next); |cards| + |rejections| == 1
  {
    hide Fair, Parse, Pending, StartsRecord, RecordLines, Independent, BeginCount, ContentLines, Begins, Joined,
         Unfold, Unbroken;
    FairOk(r);
    SoftTextPending(r);
    ShortRecord(r);
    var lines := [BEGIN_LINE, "END:VCARD"];
    PendingLoses(r, SOFT_TEXT, lines);
    OutcomePerRecord(r, SOFT_TEXT + Joined(lines));
    PendingSwallows(r, SOFT_TEXT, lines);
    var u := Unfold(r, Raws(SOFT_TEXT)).lines;
    var last := Unbroken(u[|u| - 1]);
    var swallowed := last + BEGIN_LINE;
    assert u[..|u| - 1] + [swallowed] + lines[1..] == [BEGIN_LINE] + ([swallowed] + ["END:VCARD"]);
    BeginCountAppend(r, [BEGIN_LINE], [swallowed] + ["END:VCARD"]);
    BeginCountAppend(r, [swallowed], ["END:VCARD"]);
    BeginCountOne(r, BEGIN_LINE);
    BeginCountOne(r, swallowed);
    BeginCountOne(r, "END:VCARD");
    SwallowedBegin(r, last);
    BeginLineBegins(r);
    EndEnds(r);
  }

  lemma EndEnds(r: Rules)
    requires RulesOk(r)
    ensures !Begins(r, "END:VCARD")
  {
    hide ParseHead, DecodeValue, RulesOk, Plain, Trimmed, Cut, LineOf, Escape;
    FixedLines();
    FixedWritable();
    WritableParts(END_CARD);
    LineCut(END_CARD);
    PlainHead(r, END_CARD.name);
  }

  /** There are such rules. */
  lemma FairMet()
    ensures Fair(Rules(s => s, s => s, s => true, s => false, v => Option<string>.None))
  {
  }
}
