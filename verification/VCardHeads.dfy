/**
 Property heads with a group and parameters (sections 3.3 and 5 of RFC 6350): `HeadBack` says that a head
 written in parts reads back as its name and its parameters.
 */
module VCardHeads {
  import opened Options
  import opened VCardText
  import opened VCardParser
  import opened VCardRoundTrip

  /** A parameter with its items; without a key it is a type. */
  datatype Param = Param(key: Option<string>, items: seq<string>)

  function JoinBy(parts: seq<string>, c: char): string
    requires parts != []
  {
    if |parts| == 1 then parts[0] else parts[0] + [c] + JoinBy(parts[1..], c)
  }

  function ParamText(param: Param): string
    requires param.items != []
  {
    (if param.key.Some? then param.key.value + "=" else "") + JoinBy(param.items, ',')
  }

  /** An item that is not blank, has no white space around it and none of the separators in it. */
  predicate Item(s: string) {
    s != "" && Trimmed(s) && ';' !in s && ',' !in s && '=' !in s
  }

  function KeyName(param: Param): string {
    if param.key.Some? then param.key.value else "TYPE"
  }

  ghost predicate Proper(r: Rules, param: Param) {
    && param.items != [] && (forall i :: 0 <= i < |param.items| ==> Item(param.items[i]))
    && Plain(KeyName(param)) && r.knownParam(KeyName(param))
  }

  ghost predicate AllProper(r: Rules, params: seq<Param>) {
    forall i :: 0 <= i < |params| ==> Proper(r, params[i])
  }

  /** The items given under a key, in order. */
  ghost function ItemsOf(params: seq<Param>, key: string): seq<string> {
    if params == [] then []
    else ItemsOf(params[..|params| - 1], key) +
         if KeyName(params[|params| - 1]) == key then params[|params| - 1].items else []
  }

  ghost predicate Collects(m: Params, params: seq<Param>) {
    forall key ::
      (if key in m then m[key] else []) == ItemsOf(params, key) && (key in m <==> ItemsOf(params, key) != [])
  }

  function ParamTexts(params: seq<Param>): seq<string>
    requires forall i :: 0 <= i < |params| ==> params[i].items != []
  {
    seq(|params|, i requires 0 <= i < |params| => ParamText(params[i]))
  }

  /** A head: a group and a dot, if there is a group, the name, and the parameters. */
  function HeadText(group: Option<string>, name: string, params: seq<Param>): string
    requires forall i :: 0 <= i < |params| ==> params[i].items != []
  {
    JoinBy([(if group.Some? then group.value + "." else "") + name] + ParamTexts(params), ';')
  }

  // -------------------------------------------------------------------------------------------
  // Splitting
  // -------------------------------------------------------------------------------------------

  lemma {:induction false} SplitBack(parts: seq<string>, c: char)
    requires parts != [] && forall p :: p in parts ==> c !in p
    ensures SplitOn(JoinBy(parts, c), c) == parts
  {
    assert parts[0] in parts;
    if |parts| == 1 {
      CutNowhere(parts[0], c);
    } else {
      SplitBack(parts[1..], c);
      CutHere(parts[0], JoinBy(parts[1..], c), c);
      assert parts == [parts[0]] + parts[1..];
    }
  }

  lemma {:induction false} JoinHas(parts: seq<string>, c: char, d: char)
    requires parts != [] && d != c && forall p :: p in parts ==> d !in p
    ensures d !in JoinBy(parts, c)
  {
    assert parts[0] in parts;
    if |parts| > 1 {
      JoinHas(parts[1..], c, d);
    }
  }

  lemma {:induction false} JoinEnds(parts: seq<string>, c: char)
    requires parts != [] && forall i :: 0 <= i < |parts| ==> parts[i] != ""
    ensures var s, first, last := JoinBy(parts, c), parts[0], parts[|parts| - 1];
            s != "" && s[0] == first[0] && s[|s| - 1] == last[|last| - 1]
  {
    if |parts| > 1 {
      JoinEnds(parts[1..], c);
    }
  }

  // -------------------------------------------------------------------------------------------
  // Parameters
  // -------------------------------------------------------------------------------------------

  /** What a parameter's text is made of. */
  lemma ParamParts(r: Rules, param: Param)
    requires Proper(r, param)
    ensures var text, items := ParamText(param), JoinBy(param.items, ',');
            && text != "" && Trim(text) == text && ';' !in text
            && Cut(text, '=') == (if param.key.Some? then Some((param.key.value, items)) else None)
            && SplitOn(items, ',') == param.items
  {
    hide Cut, SplitOn, Trim;
    var items := JoinBy(param.items, ',');
    forall p | p in param.items ensures Item(p) {
    }
    SplitBack(param.items, ',');
    JoinHas(param.items, ',', ';');
    JoinHas(param.items, ',', '=');
    JoinEnds(param.items, ',');
    assert Item(param.items[0]) && Item(param.items[|param.items| - 1]);
    PlainHas(KeyName(param), ';');
    PlainHas(KeyName(param), '=');
    var text := ParamText(param);
    if param.key.Some? {
      CutHere(param.key.value, items, '=');
      assert text[0] == param.key.value[0] && text[|text| - 1] == items[|items| - 1];
    } else {
      CutNowhere(items, '=');
      assert text == items;
    }
    TrimmedStays(text);
  }

  lemma {:induction false} ItemsAdd(m: Params, key: string, items: seq<string>)
    requires forall i :: 0 <= i < |items| ==> Item(items[i])
    ensures AddItems(m, key, items) ==
            if items == [] then m else m[key := (if key in m then m[key] else []) + items]
  {
    hide Trim;
    if items != [] {
      var front, last := items[..|items| - 1], items[|items| - 1];
      ItemsAdd(m, key, front);
      assert Item(last);
      TrimmedStays(last);
      assert items == front + [last];
      var own := if key in m then m[key] else [];
      assert own + items == (own + front) + [last];
      assert front == [] ==> own + front == own;
    }
  }

  lemma KeyReads(r: Rules, param: Param)
    requires RulesOk(r) && Plain(KeyName(param))
    ensures r.upper(Trim(KeyName(param))) == KeyName(param)
  {
    PlainTrimmed(KeyName(param));
  }

  /** Reading one more parameter. */
  lemma ParamStep(r: Rules, texts: seq<string>, param: Param)
    requires RulesOk(r) && Proper(r, param) && ParseParams(r, texts).Some?
    ensures ParseParams(r, texts + [ParamText(param)]) ==
            Some(AddItems(ParseParams(r, texts).value, KeyName(param), param.items))
  {
    hide ParseParams, AddItems, RulesOk, Plain, Trim, Cut, SplitOn, Item;
    ParamParts(r, param);
    KeyReads(r, param);
    ParamFound(r, texts, ParamText(param), param.key, JoinBy(param.items, ','));
  }

  lemma ParamFound(r: Rules, texts: seq<string>, raw: string, key: Option<string>, items: string)
    requires ParseParams(r, texts).Some? && raw != "" && Trim(raw) == raw
    requires Cut(raw, '=') == if key.Some? then Some((key.value, items)) else None
    requires key.None? ==> raw == items
    requires var name := if key.Some? then key.value else "TYPE"; r.upper(Trim(name)) == name && r.knownParam(name)
    ensures var name := if key.Some? then key.value else "TYPE";
            ParseParams(r, texts + [raw]) == Some(AddItems(ParseParams(r, texts).value, name, SplitOn(items, ',')))
  {
    hide Trim, Cut, SplitOn, AddItems;
    assert (texts + [raw])[..|texts|] == texts;
  }

  /** The texts of some parameters read back. */
  ghost predicate Reads(r: Rules, params: seq<Param>) {
    && (forall i :: 0 <= i < |params| ==> params[i].items != [])
    && ParseParams(r, ParamTexts(params)).Some?
    && Collects(ParseParams(r, ParamTexts(params)).value, params)
  }

  lemma NoneRead(r: Rules)
    ensures Reads(r, [])
  {
  }

  lemma OneMoreRead(r: Rules, params: seq<Param>, param: Param)
    requires RulesOk(r) && Proper(r, param) && Reads(r, params)
    ensures Reads(r, params + [param])
  {
    hide ParseParams, AddItems, RulesOk, ParamText, Plain, JoinBy, Collects, Item;
    var all := params + [param];
    assert ParamTexts(all) == ParamTexts(params) + [ParamText(param)];
    ParamStep(r, ParamTexts(params), param);
    var m := ParseParams(r, ParamTexts(params)).value;
    ItemsAdd(m, KeyName(param), param.items);
    assert all[..|all| - 1] == params;
    CollectsMore(m, all);
  }

  lemma {:induction false} ParamsBack(r: Rules, params: seq<Param>)
    requires RulesOk(r) && AllProper(r, params)
    ensures Reads(r, params)
  {
    hide Reads, RulesOk, Proper;
    if params == [] {
      NoneRead(r);
    } else {
      ParamsBack(r, params[..|params| - 1]);
      OneMoreRead(r, params[..|params| - 1], params[|params| - 1]);
      assert params == params[..|params| - 1] + [params[|params| - 1]];
    }
  }

  lemma CollectsMore(m: Params, params: seq<Param>)
    requires params != [] && params[|params| - 1].items != [] && Collects(m, params[..|params| - 1])
    ensures var last := params[|params| - 1];
            Collects(m[KeyName(last) := (if KeyName(last) in m then m[KeyName(last)] else []) + last.items], params)
  {
  }

  // -------------------------------------------------------------------------------------------
  // Heads
  // -------------------------------------------------------------------------------------------

  lemma NameReads(r: Rules, group: Option<string>, name: string)
    requires RulesOk(r) && Plain(name)
    requires group.Some? ==> '.' !in group.value && ';' !in group.value
    ensures var s := (if group.Some? then group.value + "." else "") + name;
            ';' !in s && PropertyName(r, s) == name
  {
    var s := (if group.Some? then group.value + "." else "") + name;
    PlainHas(name, ';');
    PlainHas(name, '.');
    CutNowhere(s, ';');
    PlainTrimmed(name);
    if group.Some? {
      assert s == group.value + ['.'] + name;
      CutHere(group.value, name, '.');
    } else {
      CutNowhere(s, '.');
    }
  }

  /** A head reads back as its name, without the group, and the items of each parameter in order. */
  lemma HeadBack(r: Rules, group: Option<string>, name: string, params: seq<Param>)
    requires RulesOk(r) && Plain(name) && AllProper(r, params)
    requires group.Some? ==> '.' !in group.value && ';' !in group.value
    ensures var head := ParseHead(r, HeadText(group, name, params));
            head.Some? && head.value.0 == name && Collects(head.value.1, params)
  {
    hide RulesOk, Plain, SplitOn, ParseParams, Collects, ParamText, PropertyName, JoinBy, Proper;
    NameReads(r, group, name);
    ParamsBack(r, params);
    var parts := [(if group.Some? then group.value + "." else "") + name] + ParamTexts(params);
    forall p | p in parts ensures ';' !in p {
      if p != parts[0] {
        var i :| 0 < i < |parts| && parts[i] == p;
        assert parts[i] == ParamText(params[i - 1]);
        ParamParts(r, params[i - 1]);
      }
    }
    SplitBack(parts, ';');
    assert parts[1..] == ParamTexts(params);
  }

  // -------------------------------------------------------------------------------------------
  // Whole lines
  // -------------------------------------------------------------------------------------------

  /** Some parameter says that the value is quoted-printable. */
  ghost predicate Quoted(r: Rules, params: seq<Param>) {
    exists i, j :: 0 <= i < |params| && 0 <= j < |params[i].items| && SaysQuoted(r, params[i], j)
  }

  predicate SaysQuoted(r: Rules, param: Param, j: nat)
    requires j < |param.items|
  {
    KeyName(param) == "ENCODING" && r.fold(param.items[j]) == r.fold("QUOTED-PRINTABLE")
  }

  lemma {:induction false} ItemsIn(params: seq<Param>, key: string, item: string)
    ensures item in ItemsOf(params, key) <==>
            exists i :: 0 <= i < |params| && KeyName(params[i]) == key && item in params[i].items
  {
    if params != [] {
      var front, last := params[..|params| - 1], params[|params| - 1];
      ItemsIn(front, key, item);
      assert forall i :: 0 <= i < |front| ==> front[i] == params[i];
    }
  }

  lemma QuotedExactly(r: Rules, params: seq<Param>, m: Params)
    requires AllProper(r, params) && Collects(m, params)
    ensures HasParamValue(r, m, "ENCODING", "QUOTED-PRINTABLE") <==> Quoted(r, params)
  {
    hide Trim, Plain;
    var key, quoted := "ENCODING", "QUOTED-PRINTABLE";
    var items := ItemsOf(params, key);
    assert items == if key in m then m[key] else [];
    forall x | x in items ensures Trim(x) == x {
      ItemsIn(params, key, x);
      var i :| 0 <= i < |params| && KeyName(params[i]) == key && x in params[i].items;
      assert Proper(r, params[i]);
      var j :| 0 <= j < |params[i].items| && params[i].items[j] == x;
      TrimmedStays(x);
    }
    if k :| 0 <= k < |items| && r.fold(Trim(items[k])) == r.fold(quoted) {
      assert items[k] in items;
      ItemsIn(params, key, items[k]);
      var i :| 0 <= i < |params| && KeyName(params[i]) == key && items[k] in params[i].items;
      var j :| 0 <= j < |params[i].items| && params[i].items[j] == items[k];
      assert SaysQuoted(r, params[i], j);
    }
    if Quoted(r, params) {
      var i, j :| 0 <= i < |params| && 0 <= j < |params[i].items| && SaysQuoted(r, params[i], j);
      assert params[i].items[j] in params[i].items;
      ItemsIn(params, key, params[i].items[j]);
      var k :| 0 <= k < |items| && items[k] == params[i].items[j];
      assert items[k] in items;
      assert r.fold(Trim(m[key][k])) == r.fold(quoted);
    }
  }

  /** What the value of a line stands for: decoded if it is to be and can be, unescaped and trimmed. */
  ghost function ValueText(r: Rules, params: seq<Param>, value: string): string {
    Trim(Unescape(if Quoted(r, params) && r.decode(value).Some? then r.decode(value).value else value))
  }

  /**
   Inside a healthy card a property line adds its name, parameters and value if it is standard, an extension
   or in the tables, spoils the card if it is not, and is passed over when its value is blank.
   */
  lemma LineReads(r: Rules, s: Scan, n: nat, group: Option<string>, name: string, params: seq<Param>, value: string)
    returns (m: Params)
    requires RulesOk(r) && Plain(name) && name != "BEGIN" && name != "END" && AllProper(r, params)
    requires group.Some? ==> '.' !in group.value && ';' !in group.value
    requires ':' !in HeadText(group, name, params) && s.current.Some? && s.poison.None?
    ensures Collects(m, params)
    ensures var v := ValueText(r, params, value);
            Scanned(r, s, n, HeadText(group, name, params) + ":" + value) ==
              if v == "" then s
              else if name in STANDARD || "X-" <= name || r.also(name)
              then s.(current := Some(s.current.value + [Line(name, m, v)]))
              else s.(poison := Some(Unsupported(name, n + 1)))
  {
    hide RulesOk, Plain, Cut, ParseHead, Collects, HeadText, Trim, Unescape, HasParamValue, Quoted, Item;
    var head := HeadText(group, name, params);
    HeadBack(r, group, name, params);
    m := ParseHead(r, head).value.1;
    CutHere(head, value, ':');
    QuotedExactly(r, params, m);
    assert ParseHead(r, head) == Some((name, m));
  }
}
