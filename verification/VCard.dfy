/**
 The vCard printer: which property each fact of a contact is printed under, the lines of a card, and
 the loops that write them.
 */
module VCard {
  import opened Options
  import opened VCardText

  // -------------------------------------------------------------------------------------------
  // Printing
  // -------------------------------------------------------------------------------------------

  datatype FactKind = NameFact | EmailFact | Address | Affiliation | Alias | Note | Phone | Title | Url | OtherFact

  datatype Fact = Fact(kind: FactKind, value: string, historical: bool)

  /** A contact with its facts in export order. */
  datatype Contact = Contact(id: string, displayName: string, facts: seq<Fact>)

  /** A property as it is written and as it is read back. */
  datatype Property = Property(name: string, value: string)

  function FirstNonEmpty(a: string, b: string): string {
    if Trim(a) != "" then Trim(a) else if Trim(b) != "" then Trim(b) else ""
  }

  /** The property name a fact is printed under, if it is printed. */
  function NameFor(fact: Fact, displayName: string): Option<string> {
    match fact.kind
    case NameFact => if fact.value != displayName then Some("NICKNAME") else None
    case EmailFact => if !fact.historical then Some("EMAIL") else None
    case Address => Some("ADR")
    case Affiliation => Some("ORG")
    case Alias => Some("NICKNAME")
    case Note => Some("NOTE")
    case Phone => Some("TEL")
    case Title => Some("TITLE")
    case Url => Some("URL")
    case OtherFact => None
  }

  /** A property with a trimmed value, unless that is empty. */
  function Written(name: string, value: string): seq<Property> {
    if Trim(value) == "" then [] else [Property(name, Trim(value))]
  }

  function FactProperties(facts: seq<Fact>, displayName: string): seq<Property> {
    if facts == [] then []
    else
      var last := facts[|facts| - 1];
      FactProperties(facts[..|facts| - 1], displayName) +
      match NameFor(last, displayName)
      case None => []
      case Some(name) => Written(name, last.value)
  }

  /** What a card says, apart from its version. */
  function Properties(c: Contact): seq<Property> {
    Written("FN", FirstNonEmpty(c.displayName, c.id)) + FactProperties(c.facts, c.displayName)
  }

  function LineOf(p: Property): string { p.name + ":" + Escape(p.value) }

  function LinesOf(ps: seq<Property>): seq<string> {
    seq(|ps|, i requires 0 <= i < |ps| => LineOf(ps[i]))
  }

  function CardLines(c: Contact): seq<string> {
    ["BEGIN:VCARD", "VERSION:4.0"] + LinesOf(Properties(c)) + ["END:VCARD"]
  }

  function AllLines(cs: seq<Contact>): seq<string> {
    if cs == [] then [] else AllLines(cs[..|cs| - 1]) + CardLines(cs[|cs| - 1])
  }

  /** The name and value of one property, appended unless the value is blank. */
  method WriteLine(builder: string, name: string, value: string) returns (out: string)
    ensures out == builder + Joined(LinesOf(Written(name, value)))
  {
    var trimmed := Trim(value);
    if trimmed == "" {
      assert LinesOf(Written(name, value)) == [];
      return builder;
    }
    out := builder + name + ":" + Escape(trimmed) + "\n";
    OneLine(Property(name, trimmed));
    assert out == builder + (LineOf(Property(name, trimmed)) + "\n");
  }

  lemma OneLine(p: Property)
    ensures Joined(LinesOf([p])) == LineOf(p) + "\n"
  {
    assert LinesOf([p]) == [LineOf(p)];
    JoinedOne(LineOf(p));
  }

  lemma JoinedOne(line: string)
    ensures Joined([line]) == line + "\n"
  {
    assert [line][1..] == [];
    assert Joined([]) == "";
  }

  lemma LinesAppend(a: seq<Property>, b: seq<Property>)
    ensures Joined(LinesOf(a + b)) == Joined(LinesOf(a)) + Joined(LinesOf(b))
  {
    assert LinesOf(a + b) == LinesOf(a) + LinesOf(b);
    JoinedAppend(LinesOf(a), LinesOf(b));
  }

  method WriteFacts(builder: string, facts: seq<Fact>, displayName: string) returns (out: string)
    ensures out == builder + Joined(LinesOf(FactProperties(facts, displayName)))
  {
    hide Joined, LinesOf, Written, Trim;
    out := builder;
    NoLines();
    for i := 0 to |facts|
      invariant out == builder + Joined(LinesOf(FactProperties(facts[..i], displayName)))
    {
      var fact := facts[i];
      assert facts[..i + 1][..|facts[..i + 1]| - 1] == facts[..i];
      ghost var before := FactProperties(facts[..i], displayName);
      var name := NameFor(fact, displayName);
      if name.Some? {
        LinesAppend(before, Written(name.value, fact.value));
        out := WriteLine(out, name.value, fact.value);
      } else {
        assert before + [] == before;
      }
    }
    assert facts[..|facts|] == facts;
  }

  lemma NoLines()
    ensures Joined(LinesOf([])) == "" && Joined([]) == ""
  {
    assert LinesOf([]) == [];
  }

  method ExportVCard(contacts: seq<Contact>) returns (out: string)
    ensures out == Joined(AllLines(contacts))
  {
    hide Joined, LinesOf, Written, Trim, FactProperties;
    out := "";
    NoLines();
    for i := 0 to |contacts|
      invariant out == Joined(AllLines(contacts[..i]))
    {
      var c := contacts[i];
      assert contacts[..i + 1][..|contacts[..i + 1]| - 1] == contacts[..i];
      ghost var before := out;
      out := out + "BEGIN:VCARD\nVERSION:4.0\n";
      out := WriteLine(out, "FN", FirstNonEmpty(c.displayName, c.id));
      out := WriteFacts(out, c.facts, c.displayName);
      out := out + "END:VCARD\n";
      CardText(before, c);
      JoinedAppend(AllLines(contacts[..i]), CardLines(c));
    }
    assert contacts[..|contacts|] == contacts;
  }

  lemma CardText(before: string, c: Contact)
    ensures before + "BEGIN:VCARD\nVERSION:4.0\n" + Joined(LinesOf(Written("FN", FirstNonEmpty(c.displayName, c.id))))
            + Joined(LinesOf(FactProperties(c.facts, c.displayName))) + "END:VCARD\n"
            == before + Joined(CardLines(c))
  {
    hide Joined, LinesOf, Written, Trim, FactProperties;
    LinesAppend(Written("FN", FirstNonEmpty(c.displayName, c.id)), FactProperties(c.facts, c.displayName));
    JoinedAppend(["BEGIN:VCARD", "VERSION:4.0"] + LinesOf(Properties(c)), ["END:VCARD"]);
    JoinedAppend(["BEGIN:VCARD", "VERSION:4.0"], LinesOf(Properties(c)));
    JoinedAppend(["BEGIN:VCARD"], ["VERSION:4.0"]);
    JoinedOne("BEGIN:VCARD");
    JoinedOne("VERSION:4.0");
    JoinedOne("END:VCARD");
    assert ["BEGIN:VCARD"] + ["VERSION:4.0"] == ["BEGIN:VCARD", "VERSION:4.0"];
    assert "BEGIN:VCARD" + "\n" + ("VERSION:4.0" + "\n") == "BEGIN:VCARD\nVERSION:4.0\n";
  }
}
