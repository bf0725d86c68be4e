/** Splitting vCard text into cards: unfolding, property heads, and the card scanner with its rejections. */
module VCardParser {
  import opened Options
  import opened VCardText
  import opened VCard

  /**
   What the parser takes from elsewhere: upper case, case folding, the known parameter names, the supported
   properties beyond the standard ones, and quoted-printable decoding.
   */
  datatype Rules = Rules(
    upper: string -> string, fold: string -> string, knownParam: string -> bool, also: string -> bool,
    decode: string -> Option<string>)

  const STANDARD: set<string> :=
    {"ADR", "AIM", "EMAIL", "FN", "N", "NICKNAME", "NOTE", "ORG", "TEL", "TITLE", "UID", "URL", "VERSION"}

  predicate Supported(r: Rules, name: string) { name in STANDARD || "X-" <= name || r.also(name) }

  // -------------------------------------------------------------------------------------------
  // Unfolding
  // -------------------------------------------------------------------------------------------

  /** The parts before and after the first `c`. */
  function Cut(s: string, c: char): Option<(string, string)> {
    if s == [] then None
    else if s[0] == c then Some(("", s[1..]))
    else
      match Cut(s[1..], c)
      case None => None
      case Some(p) => Some(([s[0]] + p.0, p.1))
  }

  predicate OccursAt(s: string, sub: string, i: int) {
    0 <= i <= |s| - |sub| && s[i..i + |sub|] == sub
  }

  predicate Contains(s: string, sub: string) {
    exists i :: 0 <= i <= |s| && OccursAt(s, sub, i)
  }

  predicate QuotedPrintable(r: Rules, line: string) {
    Cut(line, ':').Some? && Contains(r.upper(Cut(line, ':').value.0), "ENCODING=QUOTED-PRINTABLE")
  }

  predicate EndsWith(s: string, c: char) { s != [] && s[|s| - 1] == c }

  function TrimReturns(s: string): string {
    if EndsWith(s, '\r') then TrimReturns(s[..|s| - 1]) else s
  }

  predicate Folded(raw: string) { raw != [] && (raw[0] == ' ' || raw[0] == '\t') }

  /** The unfolded lines so far, and whether the last one goes on. */
  datatype Unfolding = Unfolding(lines: seq<string>, more: bool)

  function UnfoldOne(r: Rules, u: Unfolding, raw: string): Unfolding {
    if Folded(raw) then
      if u.lines == [] then u else u.(lines := u.lines[|u.lines| - 1 := u.lines[|u.lines| - 1] + raw[1..]])
    else if u.lines != [] && u.more then
      var last := u.lines[|u.lines| - 1];
      var longer := (if EndsWith(last, '=') then last[..|last| - 1] else last) + raw;
      Unfolding(u.lines[|u.lines| - 1 := longer], EndsWith(longer, '='))
    else if Trim(raw) != "" then
      var line := TrimReturns(raw);
      Unfolding(u.lines + [line], QuotedPrintable(r, line) && EndsWith(line, '='))
    else u
  }

  function Unfold(r: Rules, raws: seq<string>): Unfolding {
    if raws == [] then Unfolding([], false) else UnfoldOne(r, Unfold(r, raws[..|raws| - 1]), raws[|raws| - 1])
  }

  function ContentLines(r: Rules, content: string): seq<string> {
    Unfold(r, SplitLines(DropReturns(content))).lines
  }

  method UnfoldLines(r: Rules, content: string) returns (lines: seq<string>)
    ensures lines == ContentLines(r, content)
  {
    var raws := SplitLines(DropReturns(content));
    lines := [];
    var more := false;
    for i := 0 to |raws|
      invariant Unfolding(lines, more) == Unfold(r, raws[..i])
    {
      var raw := raws[i];
      assert raws[..i + 1][..|raws[..i + 1]| - 1] == raws[..i];
      if Folded(raw) {
        if |lines| > 0 {
          lines := lines[|lines| - 1 := lines[|lines| - 1] + raw[1..]];
        }
        continue;
      }
      if |lines| > 0 && more {
        var last := lines[|lines| - 1];
        last := (if EndsWith(last, '=') then last[..|last| - 1] else last) + raw;
        lines := lines[|lines| - 1 := last];
        more := EndsWith(last, '=');
        continue;
      }
      if Trim(raw) != "" {
        var line := TrimReturns(raw);
        lines := lines + [line];
        more := QuotedPrintable(r, line) && EndsWith(line, '=');
      }
    }
    assert raws[..|raws|] == raws;
  }

  // -------------------------------------------------------------------------------------------
  // One line
  // -------------------------------------------------------------------------------------------

  function SplitOn(s: string, c: char): (parts: seq<string>)
    ensures parts != []
    decreases |s|
  {
    match Cut(s, c)
    case None => [s]
    case Some(p) => CutShorter(s, c); [p.0] + SplitOn(p.1, c)
  }

  lemma {:induction false} CutShorter(s: string, c: char)
    ensures Cut(s, c).Some? ==> |Cut(s, c).value.1| < |s|
  {
    if s != [] && s[0] != c {
      CutShorter(s[1..], c);
    }
  }

  type Params = map<string, seq<string>>

  function PropertyName(r: Rules, s: string): string {
    var property := SplitOn(s, ';')[0];
    r.upper(Trim(match Cut(property, '.') case None => property case Some(p) => p.1))
  }

  function AddItems(params: Params, key: string, items: seq<string>): Params {
    if items == [] then params
    else
      var before := AddItems(params, key, items[..|items| - 1]);
      var item := Trim(items[|items| - 1]);
      if item == "" then before else before[key := (if key in before then before[key] else []) + [item]]
  }

  function ParseParams(r: Rules, parts: seq<string>): Option<Params> {
    if parts == [] then Some(map[])
    else
      match ParseParams(r, parts[..|parts| - 1])
      case None => None
      case Some(params) =>
        var raw := Trim(parts[|parts| - 1]);
        if raw == "" then Some(params)
        else
          var pair := match Cut(raw, '=') case None => ("TYPE", raw) case Some(p) => p;
          var key := r.upper(Trim(pair.0));
          if !r.knownParam(key) then None else Some(AddItems(params, key, SplitOn(pair.1, ',')))
  }

  function ParseHead(r: Rules, head: string): Option<(string, Params)> {
    var parts := SplitOn(head, ';');
    match ParseParams(r, parts[1..])
    case None => None
    case Some(params) => Some((PropertyName(r, parts[0]), params))
  }

  predicate HasParamValue(r: Rules, params: Params, key: string, value: string) {
    key in params && exists i :: 0 <= i < |params[key]| && r.fold(Trim(params[key][i])) == r.fold(value)
  }

  function DecodeValue(r: Rules, value: string, params: Params): string {
    var quoted := HasParamValue(r, params, "ENCODING", "QUOTED-PRINTABLE");
    var decoded := if quoted && r.decode(value).Some? then r.decode(value).value else value;
    Trim(Unescape(decoded))
  }

  // -------------------------------------------------------------------------------------------
  // Cards
  // -------------------------------------------------------------------------------------------

  datatype Line = Line(name: string, params: Params, value: string)

  type Values = map<string, seq<string>>

  /** The values of a card, filed under their property names. */
  function Grouped(lines: seq<Line>): Values {
    if lines == [] then map[]
    else
      var before, line := Grouped(lines[..|lines| - 1]), lines[|lines| - 1];
      before[line.name := (if line.name in before then before[line.name] else []) + [line.value]]
  }

  function ValuesOf(lines: seq<Line>, name: string): seq<string> {
    if lines == [] then []
    else
      var line := lines[|lines| - 1];
      ValuesOf(lines[..|lines| - 1], name) + if line.name == name then [line.value] else []
  }

  /** Grouping keeps every value, in order, under its own name. */
  lemma {:induction false} GroupedExactly(lines: seq<Line>, name: string)
    ensures name in Grouped(lines) <==> exists i :: 0 <= i < |lines| && lines[i].name == name
    ensures (if name in Grouped(lines) then Grouped(lines)[name] else []) == ValuesOf(lines, name)
    decreases |lines|
  {
    if lines != [] {
      var front, line := lines[..|lines| - 1], lines[|lines| - 1];
      GroupedExactly(front, name);
      assert forall i :: 0 <= i < |front| ==> lines[i] == front[i];
      assert ValuesOf(front, name) + [] == ValuesOf(front, name);
    }
  }

  datatype Reason = NoSeparator(line: nat) | BadHead(line: nat) | Unsupported(name: string, line: nat) | Unterminated

  datatype Rejection = Rejection(index: nat, reason: Reason)

  /** The card being read, what is wrong with it, how many have begun, and what has come out. */
  datatype Scan = Scan(
    current: Option<seq<Line>>, poison: Option<Reason>, index: nat,
    cards: seq<seq<Line>>, rejections: seq<Rejection>)

  function Poisoned(s: Scan, reason: Reason): Scan {
    if s.current.Some? && s.poison.None? then s.(poison := Some(reason)) else s
  }

  function Finish(s: Scan): Scan {
    match s.current
    case None => s
    case Some(lines) =>
      match s.poison
      case None => s.(current := None, cards := s.cards + [lines])
      case Some(reason) =>
        s.(current := None, poison := None, rejections := s.rejections + [Rejection(s.index, reason)])
  }

  function Scanned(r: Rules, s: Scan, n: nat, line: string): Scan {
    match Cut(line, ':')
    case None => Poisoned(s, NoSeparator(n + 1))
    case Some((head, rest)) =>
      match ParseHead(r, head)
      case None => Poisoned(s, BadHead(n + 1))
      case Some((name, params)) =>
        var value := DecodeValue(r, rest, params);
        if name == "BEGIN" then
          if r.fold(value) != r.fold("VCARD") then s
          else Finish(Poisoned(s, Unterminated)).(current := Some([]), poison := None, index := s.index + 1)
        else if name == "END" then
          if r.fold(value) == r.fold("VCARD") then Finish(s) else s
        else if s.current.None? || s.poison.Some? || value == "" then s
        else if !Supported(r, name) then s.(poison := Some(Unsupported(name, n + 1)))
        else s.(current := Some(s.current.value + [Line(name, params, value)]))
  }

  const START: Scan := Scan(None, None, 0, [], [])

  function ScanAll(r: Rules, lines: seq<string>): Scan {
    if lines == [] then START else Scanned(r, ScanAll(r, lines[..|lines| - 1]), |lines| - 1, lines[|lines| - 1])
  }

  /** The cards of a text and the records rejected from it. */
  function Parse(r: Rules, content: string): (seq<seq<Line>>, seq<Rejection>) {
    var s := ScanAll(r, ContentLines(r, content));
    var end := Finish(Poisoned(s, Unterminated));
    (end.cards, end.rejections)
  }

  /** The values of each card are the values of its lines. */
  ghost predicate AllGrouped(cards: seq<seq<Line>>, values: seq<Values>) {
    |values| == |cards| && forall i :: 0 <= i < |cards| ==> values[i] == Grouped(cards[i])
  }

  method FinishCard(current: Option<seq<Line>>, poison: Option<Reason>, index: nat, cards: seq<seq<Line>>,
                    rejections: seq<Rejection>, fields: Values, values: seq<Values>)
    returns (cards': seq<seq<Line>>, rejections': seq<Rejection>, poison': Option<Reason>, values': seq<Values>)
    requires AllGrouped(cards, values) && (current.Some? ==> fields == Grouped(current.value))
    ensures Scan(None, poison', index, cards', rejections') == Finish(Scan(current, poison, index, cards, rejections))
    ensures AllGrouped(cards', values')
  {
    cards', rejections', poison', values' := cards, rejections, poison, values;
    if current.None? {
      return;
    }
    if poison.Some? {
      rejections' := rejections + [Rejection(index, poison.value)];
    } else {
      cards', values' := cards + [current.value], values + [fields];
    }
    poison' := None;
  }

  /** The scanning loop: one damaged record is rejected by itself, the others still come out. */
  method ParseVCards(r: Rules, content: string)
    returns (cards: seq<seq<Line>>, rejections: seq<Rejection>, values: seq<Values>)
    ensures (cards, rejections) == Parse(r, content) && AllGrouped(cards, values)
  {
    hide ParseHead, DecodeValue, Cut, ContentLines, Supported, AllGrouped;
    assert AllGrouped([], []) by { NoneGrouped(); }
    var lines := UnfoldLines(r, content);
    cards, rejections, values := [], [], [];
    var fields: Values := map[];
    var current: Option<seq<Line>> := None;
    var index: nat, poison: Option<Reason> := 0, None;
    for i := 0 to |lines|
      invariant Scan(current, poison, index, cards, rejections) == ScanAll(r, lines[..i])
      invariant AllGrouped(cards, values) && (current.Some? ==> fields == Grouped(current.value))
    {
      assert lines[..i + 1][..|lines[..i + 1]| - 1] == lines[..i];
      var cut := Cut(lines[i], ':');
      if cut.None? {
        if current.Some? && poison.None? {
          poison := Some(NoSeparator(i + 1));
        }
        continue;
      }
      var head := ParseHead(r, cut.value.0);
      if head.None? {
        if current.Some? && poison.None? {
          poison := Some(BadHead(i + 1));
        }
        continue;
      }
      var name, params := head.value.0, head.value.1;
      var value := DecodeValue(r, cut.value.1, params);
      if name == "BEGIN" {
        if r.fold(value) == r.fold("VCARD") {
          if current.Some? {
            if poison.None? {
              poison := Some(Unterminated);
            }
            cards, rejections, poison, values :=
              FinishCard(current, poison, index, cards, rejections, fields, values);
          }
          current, index, poison, fields := Some([]), index + 1, None, map[];
        }
      } else if name == "END" {
        if r.fold(value) == r.fold("VCARD") && current.Some? {
          cards, rejections, poison, values :=
            FinishCard(current, poison, index, cards, rejections, fields, values);
          current := None;
        }
      } else {
        if current.None? || poison.Some? || value == "" {
          continue;
        }
        if !Supported(r, name) {
          poison := Some(Unsupported(name, i + 1));
          continue;
        }
        GroupedMore(current.value, Line(name, params, value));
        fields := fields[name := (if name in fields then fields[name] else []) + [value]];
        current := Some(current.value + [Line(name, params, value)]);
      }
    }
    assert lines[..|lines|] == lines;
    if current.Some? {
      if poison.None? {
        poison := Some(Unterminated);
      }
      cards, rejections, poison, values :=
        FinishCard(current, poison, index, cards, rejections, fields, values);
    }
  }

  lemma NoneGrouped()
    ensures AllGrouped([], [])
  {
  }

  lemma GroupedMore(lines: seq<Line>, line: Line)
    ensures var before := Grouped(lines);
            Grouped(lines + [line]) ==
            before[line.name := (if line.name in before then before[line.name] else []) + [line.value]]
  {
    assert (lines + [line])[..|lines|] == lines;
  }
}
