/** The vCard 3.0 export: every contact becomes a BEGIN:VCARD ... END:VCARD
    block of content lines followed by an empty line, and the file is the
    blocks one after the other. A content line is modelled as its parts
    (property name, optional parameter, value) and rendered to text as
    `NAME[;PARAM]:VALUE`, which is the content-line shape of RFC 2426. */
module VCardExport {
  import opened Text
  import opened Seqs
  import opened Contacts

  /** The property names the export writes. */
  datatype Name =
    | Begin | Version | FormattedName | StructuredName | Org | Title
    | Tel | EmailAddress | Url | Note | End

  function NameText(n: Name): (r: string)
    ensures r != [] && ':' !in r && ';' !in r && '\n' !in r
  {
    match n
    case Begin => "BEGIN"
    case Version => "VERSION"
    case FormattedName => "FN"
    case StructuredName => "N"
    case Org => "ORG"
    case Title => "TITLE"
    case Tel => "TEL"
    case EmailAddress => "EMAIL"
    case Url => "URL"
    case Note => "NOTE"
    case End => "END"
  }

  /** Different properties are written under different names. */
  lemma NameTextInjective(a: Name, b: Name)
    ensures NameText(a) == NameText(b) <==> a == b
  {
  }

  /** One content line: a property, an optional parameter, a value. */
  datatype Line = Line(name: Name, param: string, value: string)

  /** What follows the property name on a rendered line. */
  function Rest(l: Line): (r: string)
    ensures r != [] && (r[0] == ':' || r[0] == ';')
  {
    (if l.param == "" then "" else ";" + l.param) + ":" + l.value
  }

  function Render(l: Line): string {
    NameText(l.name) + Rest(l)
  }

  function RenderAll(ls: seq<Line>): (r: seq<string>)
    ensures |r| == |ls| && forall i :: 0 <= i < |ls| ==> r[i] == Render(ls[i])
  {
    seq(|ls|, i requires 0 <= i < |ls| => Render(ls[i]))
  }

  /** A line written only when the field is truthy (a non-empty string). */
  function WhenSet(n: Name, value: string): (r: seq<Line>)
    ensures |r| == (if value != "" then 1 else 0)
    ensures forall l :: l in r ==> l == Line(n, "", value)
  {
    if value != "" then [Line(n, "", value)] else []
  }

  /** One TEL line per phone number, its type upper-cased into the TYPE
      parameter. */
  function TelLines(phones: seq<Phone>): (r: seq<Line>)
    ensures |r| == |phones|
    ensures forall i :: 0 <= i < |phones| ==> r[i].name == Tel && r[i].value == phones[i].number
  {
    seq(|phones|, i requires 0 <= i < |phones| =>
      Line(Tel, "TYPE=" + Upper(phones[i].kind), phones[i].number))
  }

  /** One EMAIL line per address, its type upper-cased into the TYPE
      parameter. */
  function EmailLines(emails: seq<Email>): (r: seq<Line>)
    ensures |r| == |emails|
    ensures forall i :: 0 <= i < |emails| ==> r[i].name == EmailAddress && r[i].value == emails[i].email
  {
    seq(|emails|, i requires 0 <= i < |emails| =>
      Line(EmailAddress, "TYPE=" + Upper(emails[i].kind), emails[i].email))
  }

  const BeginLine := Line(Begin, "", "VCARD")
  const VersionLine := Line(Version, "", "3.0")
  const EndLine := Line(End, "", "VCARD")

  /** The four lines every block opens with. */
  function Header(c: Contact): seq<Line> {
    [BeginLine, VersionLine,
     Line(FormattedName, "", c.fullName),
     Line(StructuredName, "", c.lastName + ";" + c.firstName + ";;;")]
  }

  function Organisation(c: Contact): seq<Line> {
    WhenSet(Org, c.company) + WhenSet(Title, c.jobTitle)
  }

  function Reach(c: Contact): seq<Line> {
    TelLines(c.phoneNumbers) + EmailLines(c.emails)
  }

  function Links(c: Contact): seq<Line> {
    WhenSet(Url, c.website) + WhenSet(Note, c.notes)
  }

  /** The content lines of one contact's block, in the order they are
      written. */
  function CardLines(c: Contact): (r: seq<Line>)
    ensures |r| >= 5 && r[0] == BeginLine && r[1] == VersionLine && r[|r| - 1] == EndLine
    ensures r[2] == Line(FormattedName, "", c.fullName)
    ensures r[3] == Line(StructuredName, "", c.lastName + ";" + c.firstName + ";;;")
  {
    Header(c) + Organisation(c) + Reach(c) + Links(c) + [EndLine]
  }

  /** One contact's block: its lines, each ended by a line break, then the
      empty line that separates blocks. */
  function Card(c: Contact): string {
    Unlines(RenderAll(CardLines(c))) + "\n"
  }

  /** The whole file: the blocks of the contacts in order. */
  function ExportVCard(cs: seq<Contact>): string
    decreases |cs|
  {
    if cs == [] then "" else Card(cs[0]) + ExportVCard(cs[1..])
  }

  // ---------------------------------------------------------------------
  // Counting lines by property

  function Named(n: Name): Line -> bool {
    (l: Line) => l.name == n
  }

  ghost predicate AllNamed(ls: seq<Line>, m: Name) {
    forall i :: 0 <= i < |ls| ==> ls[i].name == m
  }

  /** Lines that all carry one property contribute all or nothing to a
      count by property. */
  lemma {:induction false} CountUniform(ls: seq<Line>, m: Name, n: Name)
    requires AllNamed(ls, m)
    ensures Count(ls, Named(n)) == if m == n then |ls| else 0
    decreases |ls|
  {
    if ls != [] {
      CountUniform(ls[1..], m, n);
    }
  }

  lemma CountPair(a: seq<Line>, b: seq<Line>, ma: Name, mb: Name, n: Name)
    requires AllNamed(a, ma) && AllNamed(b, mb)
    ensures Count(a + b, Named(n)) == (if ma == n then |a| else 0) + (if mb == n then |b| else 0)
  {
    CountAppend(a, b, Named(n));
    CountUniform(a, ma, n);
    CountUniform(b, mb, n);
  }

  lemma CountHeader(c: Contact, n: Name)
    ensures Count(Header(c), Named(n)) == Indicator(n == Begin || n == Version || n == FormattedName || n == StructuredName)
  {
    var h := Header(c);
    var p := Named(n);
    assert h == [h[0]] + [h[1]] + [h[2]] + [h[3]];
    CountAppend([h[0]] + [h[1]] + [h[2]], [h[3]], p);
    CountAppend([h[0]] + [h[1]], [h[2]], p);
    CountAppend([h[0]], [h[1]], p);
    CountOne(h[0], n);
    CountOne(h[1], n);
    CountOne(h[2], n);
    CountOne(h[3], n);
  }

  lemma CountOne(l: Line, n: Name)
    ensures Count([l], Named(n)) == if l.name == n then 1 else 0
  {
    assert [l][1..] == [];
  }

  /** How many lines of each property a contact's block should hold: one
      BEGIN, VERSION, FN, N and END each; ORG, TITLE, URL and NOTE exactly
      when the field is set; a TEL line per phone number and an EMAIL line
      per address. */
  function Expected(c: Contact, n: Name): nat {
    match n
    case Begin | Version | FormattedName | StructuredName | End => 1
    case Org => Indicator(c.company != "")
    case Title => Indicator(c.jobTitle != "")
    case Tel => |c.phoneNumbers|
    case EmailAddress => |c.emails|
    case Url => Indicator(c.website != "")
    case Note => Indicator(c.notes != "")
  }

  /** A block holds exactly the expected number of lines of each property. */
  lemma CardCounts(c: Contact, n: Name)
    ensures Count(CardLines(c), Named(n)) == Expected(c, n)
  {
    CountGroupsOf(c, n);
    CountHeader(c, n);
  }

  /** The count of a block split into the counts of its groups. */
  lemma CountGroupsOf(c: Contact, n: Name)
    ensures Count(CardLines(c), Named(n)) ==
      Count(Header(c), Named(n))
      + (if n == Org then |WhenSet(Org, c.company)| else 0)
      + (if n == Title then |WhenSet(Title, c.jobTitle)| else 0)
      + (if n == Tel then |c.phoneNumbers| else 0)
      + (if n == EmailAddress then |c.emails| else 0)
      + (if n == Url then |WhenSet(Url, c.website)| else 0)
      + (if n == Note then |WhenSet(Note, c.notes)| else 0)
      + (if n == End then 1 else 0)
  {
    CountGroups(c, n);
    GroupsNamed(c);
    CountPair(WhenSet(Org, c.company), WhenSet(Title, c.jobTitle), Org, Title, n);
    CountPair(TelLines(c.phoneNumbers), EmailLines(c.emails), Tel, EmailAddress, n);
    CountPair(WhenSet(Url, c.website), WhenSet(Note, c.notes), Url, Note, n);
    CountOne(EndLine, n);
  }

  /** Each group after the header carries a single property. */
  lemma GroupsNamed(c: Contact)
    ensures AllNamed(WhenSet(Org, c.company), Org) && AllNamed(WhenSet(Title, c.jobTitle), Title)
    ensures AllNamed(TelLines(c.phoneNumbers), Tel) && AllNamed(EmailLines(c.emails), EmailAddress)
    ensures AllNamed(WhenSet(Url, c.website), Url) && AllNamed(WhenSet(Note, c.notes), Note)
  {
    WhenSetNamed(Org, c.company);
    WhenSetNamed(Title, c.jobTitle);
    WhenSetNamed(Url, c.website);
    WhenSetNamed(Note, c.notes);
  }

  lemma WhenSetNamed(n: Name, value: string)
    ensures AllNamed(WhenSet(n, value), n)
  {
  }

  lemma CountGroups(c: Contact, n: Name)
    ensures Count(CardLines(c), Named(n)) ==
      Count(Header(c), Named(n)) + Count(Organisation(c), Named(n)) + Count(Reach(c), Named(n))
      + Count(Links(c), Named(n)) + Count([EndLine], Named(n))
  {
    var p := Named(n);
    var h, o, r, l := Header(c), Organisation(c), Reach(c), Links(c);
    CountAppend(h + o + r + l, [EndLine], p);
    CountAppend(h + o + r, l, p);
    CountAppend(h + o, r, p);
    CountAppend(h, o, p);
  }

  lemma {:induction false} FilterUniform(ls: seq<Line>, m: Name, n: Name)
    requires AllNamed(ls, m)
    ensures Filter(ls, Named(n)) == if m == n then ls else []
    decreases |ls|
  {
    if ls != [] {
      assert AllNamed(ls[1..], m) by {
        forall i | 0 <= i < |ls| - 1 ensures ls[1..][i].name == m {
          assert ls[1..][i] == ls[i + 1];
        }
      }
      FilterUniform(ls[1..], m, n);
      var keep := Named(n);
      assert keep(ls[0]) == (m == n);
      assert Filter(ls, keep) == (if keep(ls[0]) then [ls[0]] else []) + Filter(ls[1..], keep);
      if m == n {
        assert [ls[0]] + ls[1..] == ls;
      }
    }
  }

  lemma {:induction false} FilterNone(ls: seq<Line>, n: Name)
    requires forall i :: 0 <= i < |ls| ==> ls[i].name != n
    ensures Filter(ls, Named(n)) == []
    decreases |ls|
  {
    if ls != [] {
      FilterNone(ls[1..], n);
    }
  }

  /** The TEL lines of a block are its phone numbers in order, and the
      EMAIL lines its addresses in order. */
  lemma CardTelAndEmailLines(c: Contact)
    ensures Filter(CardLines(c), Named(Tel)) == TelLines(c.phoneNumbers)
    ensures Filter(CardLines(c), Named(EmailAddress)) == EmailLines(c.emails)
  {
    FilterGroups(c, Tel);
    FilterReach(c, Tel);
    FilterGroups(c, EmailAddress);
    FilterReach(c, EmailAddress);
  }

  /** The text of the TEL line of a phone number carries its type
      upper-cased, and likewise for an e-mail address. */
  lemma TypedLineText(c: Contact)
    ensures forall i :: 0 <= i < |c.phoneNumbers| ==>
      Render(TelLines(c.phoneNumbers)[i]) == "TEL;TYPE=" + Upper(c.phoneNumbers[i].kind) + ":" + c.phoneNumbers[i].number
    ensures forall i :: 0 <= i < |c.emails| ==>
      Render(EmailLines(c.emails)[i]) == "EMAIL;TYPE=" + Upper(c.emails[i].kind) + ":" + c.emails[i].email
  {
  }

  lemma FilterGroups(c: Contact, n: Name)
    requires n == Tel || n == EmailAddress
    ensures Filter(CardLines(c), Named(n)) == Filter(Reach(c), Named(n))
  {
    FilterSplit(c, n);
    FilterHeader(c, n);
    FilterOthers(c, n);
    var fr := Filter(Reach(c), Named(n));
    assert [] + [] + fr + [] + [] == fr;
  }

  lemma FilterOthers(c: Contact, n: Name)
    requires n == Tel || n == EmailAddress
    ensures Filter(Organisation(c), Named(n)) == []
    ensures Filter(Links(c), Named(n)) == []
    ensures Filter([EndLine], Named(n)) == []
  {
    FilterOrganisation(c, n);
    FilterLinks(c, n);
    FilterNone([EndLine], n);
  }

  lemma FilterOrganisation(c: Contact, n: Name)
    requires n == Tel || n == EmailAddress
    ensures Filter(Organisation(c), Named(n)) == []
  {
    WhenSetNamed(Org, c.company);
    WhenSetNamed(Title, c.jobTitle);
    FilterPair(WhenSet(Org, c.company), WhenSet(Title, c.jobTitle), Org, Title, n);
  }

  lemma FilterLinks(c: Contact, n: Name)
    requires n == Tel || n == EmailAddress
    ensures Filter(Links(c), Named(n)) == []
  {
    WhenSetNamed(Url, c.website);
    WhenSetNamed(Note, c.notes);
    FilterPair(WhenSet(Url, c.website), WhenSet(Note, c.notes), Url, Note, n);
  }

  lemma FilterSplit(c: Contact, n: Name)
    ensures Filter(CardLines(c), Named(n)) ==
      Filter(Header(c), Named(n)) + Filter(Organisation(c), Named(n)) + Filter(Reach(c), Named(n))
      + Filter(Links(c), Named(n)) + Filter([EndLine], Named(n))
  {
    var p := Named(n);
    var h, o, r, l := Header(c), Organisation(c), Reach(c), Links(c);
    FilterAppend(h + o + r + l, [EndLine], p);
    FilterAppend(h + o + r, l, p);
    FilterAppend(h + o, r, p);
    FilterAppend(h, o, p);
  }

  lemma FilterHeader(c: Contact, n: Name)
    requires n == Tel || n == EmailAddress
    ensures Filter(Header(c), Named(n)) == []
  {
    var h := Header(c);
    forall i | 0 <= i < |h| ensures h[i].name != n {
    }
    FilterNone(h, n);
  }

  lemma FilterPair(a: seq<Line>, b: seq<Line>, ma: Name, mb: Name, n: Name)
    requires AllNamed(a, ma) && AllNamed(b, mb)
    ensures Filter(a + b, Named(n)) == (if ma == n then a else []) + (if mb == n then b else [])
  {
    FilterAppend(a, b, Named(n));
    FilterUniform(a, ma, n);
    FilterUniform(b, mb, n);
  }

  lemma FilterReach(c: Contact, n: Name)
    requires n == Tel || n == EmailAddress
    ensures Filter(Reach(c), Named(n)) == if n == Tel then TelLines(c.phoneNumbers) else EmailLines(c.emails)
  {
    GroupsNamed(c);
    FilterPair(TelLines(c.phoneNumbers), EmailLines(c.emails), Tel, EmailAddress, n);
  }

  // ---------------------------------------------------------------------
  // The text of the file

  /** The property name of a line of text: everything before the first
      ':' or ';'. */
  function LineName(s: string): (r: string)
    ensures ':' !in r && ';' !in r
    decreases |s|
  {
    if s == [] || s[0] == ':' || s[0] == ';' then [] else [s[0]] + LineName(s[1..])
  }

  lemma {:induction false} LineNameOfPrefix(name: string, rest: string)
    requires ':' !in name && ';' !in name
    requires rest != [] && (rest[0] == ':' || rest[0] == ';')
    ensures LineName(name + rest) == name
    decreases |name|
  {
    if name == [] {
      assert name + rest == rest;
    } else {
      assert (name + rest)[1..] == name[1..] + rest;
      LineNameOfPrefix(name[1..], rest);
      assert [name[0]] + name[1..] == name;
    }
  }

  /** Reading the name back off a rendered line gives its property. */
  lemma LineNameOfRender(l: Line)
    ensures LineName(Render(l)) == NameText(l.name)
  {
    LineNameOfPrefix(NameText(l.name), Rest(l));
  }

  function TextNamed(name: string): string -> bool {
    (s: string) => LineName(s) == name
  }

  /** Counting rendered lines by the name written on them is counting the
      lines by property. */
  lemma {:induction false} CountRendered(ls: seq<Line>, n: Name)
    ensures Count(RenderAll(ls), TextNamed(NameText(n))) == Count(ls, Named(n))
    decreases |ls|
  {
    if ls != [] {
      assert RenderAll(ls)[1..] == RenderAll(ls[1..]);
      CountRendered(ls[1..], n);
      LineNameOfRender(ls[0]);
      NameTextInjective(ls[0].name, n);
    }
  }

  /** No field the export writes holds a line break. */
  ghost predicate SingleLineFields(c: Contact) {
    && '\n' !in c.fullName && '\n' !in c.firstName && '\n' !in c.lastName
    && '\n' !in c.company && '\n' !in c.jobTitle
    && '\n' !in c.website && '\n' !in c.notes
    && (forall i :: 0 <= i < |c.phoneNumbers| ==>
          '\n' !in c.phoneNumbers[i].kind && '\n' !in c.phoneNumbers[i].number)
    && (forall i :: 0 <= i < |c.emails| ==>
          '\n' !in c.emails[i].kind && '\n' !in c.emails[i].email)
  }

  lemma CardLinesSingle(c: Contact)
    requires SingleLineFields(c)
    ensures forall i :: 0 <= i < |CardLines(c)| ==> '\n' !in Render(CardLines(c)[i])
  {
    var ls := CardLines(c);
    forall i | 0 <= i < |ls| ensures '\n' !in Render(ls[i]) {
      ParamAndValueSingle(c, ls[i]);
    }
  }

  lemma ParamAndValueSingle(c: Contact, l: Line)
    requires SingleLineFields(c) && l in CardLines(c)
    ensures '\n' !in Render(l)
  {
    var h, o, r, k := Header(c), Organisation(c), Reach(c), Links(c);
    assert CardLines(c) == h + o + r + k + [EndLine];
    if l in r {
      ReachSingle(c, l);
    } else {
      assert l in h || l in o || l in k || l == EndLine;
    }
  }

  lemma ReachSingle(c: Contact, l: Line)
    requires SingleLineFields(c) && l in Reach(c)
    ensures '\n' !in l.param && '\n' !in l.value
  {
    if l in TelLines(c.phoneNumbers) {
      var i :| 0 <= i < |c.phoneNumbers| && l == TelLines(c.phoneNumbers)[i];
      assert '\n' !in c.phoneNumbers[i].kind;
    } else {
      assert l in EmailLines(c.emails);
      var i :| 0 <= i < |c.emails| && l == EmailLines(c.emails)[i];
      assert '\n' !in c.emails[i].kind;
    }
  }

  /** The lines of the text of the file, in order: each block's rendered
      lines and its separating empty line. */
  function FileLines(cs: seq<Contact>): seq<string>
    decreases |cs|
  {
    if cs == [] then [] else RenderAll(CardLines(cs[0])) + [""] + FileLines(cs[1..])
  }

  lemma {:induction false} ExportIsUnlines(cs: seq<Contact>)
    ensures ExportVCard(cs) == Unlines(FileLines(cs))
    decreases |cs|
  {
    if cs != [] {
      ExportIsUnlines(cs[1..]);
      var r := RenderAll(CardLines(cs[0]));
      UnlinesAppend(r + [""], FileLines(cs[1..]));
      UnlinesAppend(r, [""]);
      assert Unlines([""]) == "\n";
    }
  }

  lemma {:induction false} FileLinesSingle(cs: seq<Contact>)
    requires forall i :: 0 <= i < |cs| ==> SingleLineFields(cs[i])
    ensures Unbroken(FileLines(cs))
    decreases |cs|
  {
    if cs != [] {
      FileLinesSingle(cs[1..]);
      CardLinesSingle(cs[0]);
    }
  }

  /** When no field holds a line break, splitting the exported file at its
      line breaks gives back exactly the lines the blocks were written as
      (and the empty piece after the final break). */
  lemma ExportLines(cs: seq<Contact>)
    requires forall i :: 0 <= i < |cs| ==> SingleLineFields(cs[i])
    ensures Split(ExportVCard(cs), '\n') == FileLines(cs) + [""]
  {
    ExportIsUnlines(cs);
    FileLinesSingle(cs);
    SplitUnlines(FileLines(cs));
  }

  /** The file holds exactly one BEGIN line and one END line per contact. */
  lemma {:induction false} FileCounts(cs: seq<Contact>)
    ensures Count(FileLines(cs), TextNamed("BEGIN")) == |cs|
    ensures Count(FileLines(cs), TextNamed("END")) == |cs|
    decreases |cs|
  {
    if cs != [] {
      FileCounts(cs[1..]);
      var r := RenderAll(CardLines(cs[0]));
      CountAppend(r + [""], FileLines(cs[1..]), TextNamed("BEGIN"));
      CountAppend(r, [""], TextNamed("BEGIN"));
      CountAppend(r + [""], FileLines(cs[1..]), TextNamed("END"));
      CountAppend(r, [""], TextNamed("END"));
      CountRendered(CardLines(cs[0]), Begin);
      CountRendered(CardLines(cs[0]), End);
      CardCounts(cs[0], Begin);
      CardCounts(cs[0], End);
      assert LineName("") == "";
    }
  }

  /** In the text of a block, the lines named TEL are as many as the phone
      numbers and the lines named EMAIL as many as the addresses. */
  lemma CardTextCounts(c: Contact)
    ensures Count(RenderAll(CardLines(c)), TextNamed("TEL")) == |c.phoneNumbers|
    ensures Count(RenderAll(CardLines(c)), TextNamed("EMAIL")) == |c.emails|
  {
    CardTextCount(c, Tel);
    CardTextCount(c, EmailAddress);
  }

  /** In the text of a block, the lines named after a property are as
      many as the block should hold. */
  lemma CardTextCount(c: Contact, n: Name)
    ensures Count(RenderAll(CardLines(c)), TextNamed(NameText(n))) == Expected(c, n)
  {
    CountRendered(CardLines(c), n);
    CardCounts(c, n);
  }
}
