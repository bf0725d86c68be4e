/**
 What the reader of an exported file finds in it: the facts of each contact under their vCard names, however
 the file's lines were folded and ended on the way.
 */
module VCardContents {
  import opened Options
  import opened VCardText
  import opened VCard
  import opened VCardParser
  import opened VCardRoundTrip

  // -------------------------------------------------------------------------------------------
  // Values by name
  // -------------------------------------------------------------------------------------------

  /** A fact belongs under a vCard name. */
  predicate Under(fact: Fact, displayName: string, name: string) {
    || (name == "ADR" && fact.kind.Address?)
    || (name == "EMAIL" && fact.kind.EmailFact? && !fact.historical)
    || (name == "NICKNAME" && (fact.kind.Alias? || (fact.kind.NameFact? && fact.value != displayName)))
    || (name == "NOTE" && fact.kind.Note?)
    || (name == "ORG" && fact.kind.Affiliation?)
    || (name == "TEL" && fact.kind.Phone?)
    || (name == "TITLE" && fact.kind.Title?)
    || (name == "URL" && fact.kind.Url?)
  }

  predicate Blank(s: string) { forall i :: 0 <= i < |s| ==> IsSpace(s[i]) }

  function FactValue(fact: Fact, displayName: string, name: string): seq<string> {
    if Under(fact, displayName, name) && !Blank(fact.value) then [Trim(fact.value)] else []
  }

  /** The trimmed values of the facts under a name that are not blank, in fact order. */
  function FactValues(facts: seq<Fact>, displayName: string, name: string): seq<string> {
    if facts == [] then [] else FactValue(facts[0], displayName, name) + FactValues(facts[1..], displayName, name)
  }

  /** The formatted name: the display name, or the id when that is blank, or nothing. */
  ghost function FormattedName(c: Contact): seq<string> {
    if !Blank(c.displayName) then [Trim(c.displayName)] else if !Blank(c.id) then [Trim(c.id)] else []
  }

  /** A card says what a contact's facts say. */
  ghost predicate Says(card: seq<Line>, c: Contact) {
    && ValuesOf(card, "VERSION") == ["4.0"]
    && ValuesOf(card, "FN") == FormattedName(c)
    && forall name :: name != "VERSION" && name != "FN" ==>
                        ValuesOf(card, name) == FactValues(c.facts, c.displayName, name)
  }

  lemma {:induction false} ValuesAppend(a: seq<Line>, b: seq<Line>, name: string)
    ensures ValuesOf(a + b, name) == ValuesOf(a, name) + ValuesOf(b, name)
    decreases |b|
  {
    if b == [] {
      assert a + b == a;
    } else {
      ValuesAppend(a, b[..|b| - 1], name);
      assert (a + b)[..|a + b| - 1] == a + b[..|b| - 1];
    }
  }

  lemma {:induction false} FactValuesAppend(a: seq<Fact>, b: seq<Fact>, displayName: string, name: string)
    ensures FactValues(a + b, displayName, name) == FactValues(a, displayName, name) + FactValues(b, displayName, name)
  {
    hide FactValue;
    if a == [] {
      assert a + b == b;
    } else {
      FactValuesAppend(a[1..], b, displayName, name);
      assert (a + b)[1..] == a[1..] + b && (a + b)[0] == a[0];
    }
  }

  lemma NameUnder(fact: Fact, displayName: string, name: string)
    ensures Under(fact, displayName, name) <==> NameFor(fact, displayName) == Some(name)
  {
  }

  lemma BlankTrim(s: string)
    ensures Blank(s) <==> Trim(s) == ""
  {
    var i, j := TrimExact(s);
    TrimTrims(s);
  }

  lemma LineValues(p: Property, name: string)
    ensures ValuesOf(LinesFor([p]), name) == if p.name == name then [p.value] else []
  {
    assert LinesFor([p]) == [LineFor(p)];
    assert [LineFor(p)][..0] == [];
  }

  lemma WrittenValues(written: string, value: string, name: string)
    ensures ValuesOf(LinesFor(Written(written, value)), name) ==
            if written == name && !Blank(value) then [Trim(value)] else []
  {
    hide Trim, Blank;
    BlankTrim(value);
    if Trim(value) != "" {
      LineValues(Property(written, Trim(value)), name);
    } else {
      assert LinesFor([]) == [];
    }
  }

  lemma LinesForAppend(a: seq<Property>, b: seq<Property>, name: string)
    ensures ValuesOf(LinesFor(a + b), name) == ValuesOf(LinesFor(a), name) + ValuesOf(LinesFor(b), name)
  {
    assert LinesFor(a + b) == LinesFor(a) + LinesFor(b);
    ValuesAppend(LinesFor(a), LinesFor(b), name);
  }

  lemma OneFactValue(fact: Fact, displayName: string, name: string)
    ensures FactValues([fact], displayName, name) == FactValue(fact, displayName, name)
  {
    hide FactValue;
    assert FactValues([fact][1..], displayName, name) == [];
  }

  lemma {:induction false} FactsSaid(facts: seq<Fact>, displayName: string, name: string)
    ensures ValuesOf(LinesFor(FactProperties(facts, displayName)), name) == FactValues(facts, displayName, name)
  {
    hide Under, Blank, Trim, LinesFor, Written, NameFor, ValuesOf;
    if facts == [] {
      NoValues(name);
    } else {
      var front, last := facts[..|facts| - 1], facts[|facts| - 1];
      FactsSaid(front, displayName, name);
      assert facts == front + [last];
      FactValuesAppend(front, [last], displayName, name);
      OneFactValue(last, displayName, name);
      NameUnder(last, displayName, name);
      if NameFor(last, displayName).Some? {
        var written := NameFor(last, displayName).value;
        LinesForAppend(FactProperties(front, displayName), Written(written, last.value), name);
        WrittenValues(written, last.value, name);
      } else {
        assert FactProperties(front, displayName) + [] == FactProperties(front, displayName);
      }
    }
  }

  lemma NoValues(name: string)
    ensures ValuesOf(LinesFor([]), name) == []
  {
    assert LinesFor([]) == [];
  }

  lemma ApartNames(fact: Fact, displayName: string)
    ensures !Under(fact, displayName, "FN") && !Under(fact, displayName, "VERSION")
  {
  }

  lemma {:induction false} NoneUnder(facts: seq<Fact>, displayName: string, name: string)
    requires name == "FN" || name == "VERSION"
    ensures FactValues(facts, displayName, name) == []
  {
    hide Under, Blank, Trim;
    if facts != [] {
      NoneUnder(facts[1..], displayName, name);
      ApartNames(facts[0], displayName);
    }
  }

  lemma NameSaid(c: Contact, name: string)
    ensures ValuesOf(LinesFor(Written("FN", FirstNonEmpty(c.displayName, c.id))), name) ==
            if name == "FN" then FormattedName(c) else []
  {
    hide Blank, Trim, LinesFor, ValuesOf, Written;
    BlankTrim(c.displayName);
    BlankTrim(c.id);
    var value := FirstNonEmpty(c.displayName, c.id);
    WrittenValues("FN", value, name);
    BlankTrim(value);
    TrimTrims(c.displayName);
    TrimTrims(c.id);
    TrimmedTwice(c.displayName);
    TrimmedTwice(c.id);
  }

  lemma TrimmedTwice(s: string)
    ensures Trim(Trim(s)) == Trim(s)
  {
    TrimTrims(s);
    TrimmedStays(Trim(s));
  }

  /** Every printed value is found on the card under its name, and nothing else is. */
  lemma CardSays(c: Contact)
    ensures Says(CardOf(c), c)
  {
    hide Blank, Trim, LinesFor, ValuesOf, Written, FactProperties, FormattedName, FactValues, FirstNonEmpty;
    forall name
      ensures ValuesOf(CardOf(c), name) ==
              (if name == "VERSION" then ["4.0"] else []) + (if name == "FN" then FormattedName(c) else [])
              + FactValues(c.facts, c.displayName, name)
    {
      LinesForAppend([VERSION_4], Properties(c), name);
      LineValues(VERSION_4, name);
      LinesForAppend(Written("FN", FirstNonEmpty(c.displayName, c.id)),
                     FactProperties(c.facts, c.displayName), name);
      NameSaid(c, name);
      FactsSaid(c.facts, c.displayName, name);
    }
    NoneUnder(c.facts, c.displayName, "FN");
    NoneUnder(c.facts, c.displayName, "VERSION");
  }

  /** The reader of an export finds one card per contact, in order, that says what the contact's facts say. */
  lemma ExportSays(r: Rules, cs: seq<Contact>)
    requires RulesOk(r)
    ensures var (cards, rejections) := Parse(r, Joined(AllLines(cs)));
            rejections == [] && |cards| == |cs| && forall i :: 0 <= i < |cs| ==> Says(cards[i], cs[i])
  {
    hide RulesOk, Parse, Says, CardOf, AllLines;
    RoundTrip(r, cs);
    forall i | 0 <= i < |cs| ensures Says(CardsOf(cs)[i], cs[i]) {
      CardSays(cs[i]);
    }
  }
}
