/** exportToCSV (app.js:2007-2027) without the download step: a header
    line with the eight column names, then one line per contact holding
    eight fields, each enclosed in double quotes with every inner double
    quote doubled, as in section 2 of RFC 4180 (rules 5 to 7). Only the
    first e-mail address and the first phone number are written.

    The partner of the writer is a reader for exactly that shape of file,
    and the round trip between the two is proved. */
module CsvExport {
  import opened Text
  import opened Maybe
  import opened Contacts

  const CsvHeader: seq<string> := ["firstName", "lastName", "company", "jobTitle", "email", "phone", "website", "notes"]

  const HeaderLine: string := Join(CsvHeader, ',') + "\n"

  /** `contact.emails[0]?.email || ''` */
  function FirstEmail(c: Contact): string {
    if |c.emails| > 0 then c.emails[0].email else ""
  }

  /** `contact.phoneNumbers[0]?.number || ''` */
  function FirstPhone(c: Contact): string {
    if |c.phoneNumbers| > 0 then c.phoneNumbers[0].number else ""
  }

  /** The eight values of a contact's line, in header order. */
  function CsvFields(c: Contact): seq<string> {
    [c.firstName, c.lastName, c.company, c.jobTitle, FirstEmail(c), FirstPhone(c), c.website, c.notes]
  }

  /** `field.replace(/"/g, '""')` */
  function EscapeQuotes(f: string): string
    decreases |f|
  {
    if f == [] then ""
    else (if f[0] == '"' then "\"\"" else [f[0]]) + EscapeQuotes(f[1..])
  }

  function Quote(f: string): string {
    "\"" + EscapeQuotes(f) + "\""
  }

  function QuoteAll(fields: seq<string>): (r: seq<string>)
    ensures |r| == |fields|
    decreases |fields|
  {
    if fields == [] then [] else [Quote(fields[0])] + QuoteAll(fields[1..])
  }

  /** One line of the file without its line break. */
  function CsvRow(fields: seq<string>): string {
    Join(QuoteAll(fields), ',')
  }

  function Rows(contacts: seq<Contact>): string
    decreases |contacts|
  {
    if contacts == [] then ""
    else CsvRow(CsvFields(contacts[0])) + "\n" + Rows(contacts[1..])
  }

  function ExportCsv(contacts: seq<Contact>): string {
    HeaderLine + Rows(contacts)
  }

  /** Reads the inside of a quoted field up to its closing quote: two
      double quotes stand for one, a lone double quote closes the field.
      Returns the field's value and the text after the closing quote. */
  function ReadQuotedBody(s: string): (r: Option<(string, string)>)
    ensures r.Some? ==> |r.value.1| < |s|
    decreases |s|
  {
    if s == [] then None
    else if s[0] == '"' then
      if |s| >= 2 && s[1] == '"' then
        match ReadQuotedBody(s[2..])
        case Some(fr) => Some(("\"" + fr.0, fr.1))
        case None => None
      else Some(("", s[1..]))
    else
      match ReadQuotedBody(s[1..])
      case Some(fr) => Some(([s[0]] + fr.0, fr.1))
      case None => None
  }

  function ReadField(s: string): (r: Option<(string, string)>)
    ensures r.Some? ==> |r.value.1| < |s|
  {
    if |s| > 0 && s[0] == '"' then ReadQuotedBody(s[1..]) else None
  }

  /** Reads n quoted fields separated by commas and ended by a line break. */
  function ReadRecord(s: string, n: nat): (r: Option<(seq<string>, string)>)
    requires n >= 1
    ensures r.Some? ==> |r.value.0| == n && |r.value.1| < |s|
    decreases n
  {
    match ReadField(s)
    case None => None
    case Some(fr) =>
      var rest := fr.1;
      if n == 1 then
        if |rest| > 0 && rest[0] == '\n' then Some(([fr.0], rest[1..])) else None
      else if |rest| > 0 && rest[0] == ',' then
        match ReadRecord(rest[1..], n - 1)
        case Some(rec) => Some(([fr.0] + rec.0, rec.1))
        case None => None
      else None
  }

  /** Reads records of n fields until the text runs out. */
  function ReadRecords(s: string, n: nat): Option<seq<seq<string>>>
    requires n >= 1
    decreases |s|
  {
    if s == [] then Some([])
    else
      match ReadRecord(s, n)
      case None => None
      case Some(rec) =>
        match ReadRecords(rec.1, n)
        case Some(recs) => Some([rec.0] + recs)
        case None => None
  }

  /** Reads a file of the shape exportToCSV writes. */
  function ReadCsvExport(doc: string): Option<seq<seq<string>>> {
    if StartsWith(doc, HeaderLine) then ReadRecords(doc[|HeaderLine|..], |CsvHeader|) else None
  }

  lemma {:induction false} ReadEscaped(f: string, rest: string)
    requires rest == [] || rest[0] != '"'
    ensures ReadQuotedBody(EscapeQuotes(f) + "\"" + rest) == Some((f, rest))
    decreases |f|
  {
    var s := EscapeQuotes(f) + "\"" + rest;
    if f == [] {
      assert s == "\"" + rest;
      assert s[1..] == rest;
    } else {
      ReadEscaped(f[1..], rest);
      var tail := EscapeQuotes(f[1..]) + "\"" + rest;
      if f[0] == '"' {
        assert s == "\"\"" + tail;
        assert s[2..] == tail;
        assert "\"" + f[1..] == f;
      } else {
        assert s == [f[0]] + tail;
        assert s[1..] == tail;
        assert [f[0]] + f[1..] == f;
      }
    }
  }

  /** A quoted field reads back as the original value. */
  lemma ReadQuoted(f: string, rest: string)
    requires rest == [] || rest[0] != '"'
    ensures ReadField(Quote(f) + rest) == Some((f, rest))
  {
    var s := Quote(f) + rest;
    assert s[1..] == EscapeQuotes(f) + "\"" + rest;
    ReadEscaped(f, rest);
  }

  /** A written line reads back as the fields it was written from. */
  lemma {:induction false} ReadRow(fields: seq<string>, rest: string)
    requires |fields| >= 1
    ensures ReadRecord(CsvRow(fields) + "\n" + rest, |fields|) == Some((fields, rest))
    decreases |fields|
  {
    var s := CsvRow(fields) + "\n" + rest;
    var q := QuoteAll(fields);
    assert q == [Quote(fields[0])] + QuoteAll(fields[1..]);
    if |fields| == 1 {
      assert CsvRow(fields) == Quote(fields[0]);
      assert s == Quote(fields[0]) + ("\n" + rest);
      ReadQuoted(fields[0], "\n" + rest);
      assert ("\n" + rest)[1..] == rest;
      assert fields == [fields[0]];
    } else {
      var tail := CsvRow(fields[1..]) + "\n" + rest;
      JoinCons(Quote(fields[0]), QuoteAll(fields[1..]), ',');
      assert s == Quote(fields[0]) + ("," + tail);
      ReadQuoted(fields[0], "," + tail);
      assert ("," + tail)[1..] == tail;
      ReadRow(fields[1..], rest);
      assert [fields[0]] + fields[1..] == fields;
    }
  }

  function AllFields(contacts: seq<Contact>): (r: seq<seq<string>>)
    ensures |r| == |contacts|
    ensures forall i :: 0 <= i < |contacts| ==> r[i] == CsvFields(contacts[i])
  {
    seq(|contacts|, i requires 0 <= i < |contacts| => CsvFields(contacts[i]))
  }

  lemma {:induction false} ReadRows(contacts: seq<Contact>)
    ensures ReadRecords(Rows(contacts), |CsvHeader|) == Some(AllFields(contacts))
    decreases |contacts|
  {
    if contacts != [] {
      ReadRow(CsvFields(contacts[0]), Rows(contacts[1..]));
      ReadRows(contacts[1..]);
      assert AllFields(contacts) == [CsvFields(contacts[0])] + AllFields(contacts[1..]);
    }
  }

  /** The exported file reads back, line by line, as the eight fields of
      each contact in order: every line has exactly eight fields, and
      stripping the quotes and un-doubling recovers each value. */
  lemma ExportCsvRoundTrip(contacts: seq<Contact>)
    ensures ReadCsvExport(ExportCsv(contacts)) == Some(AllFields(contacts))
  {
    var doc := ExportCsv(contacts);
    assert doc[..|HeaderLine|] == HeaderLine;
    assert doc[|HeaderLine|..] == Rows(contacts);
    ReadRows(contacts);
  }

  /** Only the first e-mail address and the first phone number are
      written: the others do not change the line. */
  lemma CsvIgnoresLaterEntries(c: Contact, moreEmails: seq<Email>, morePhones: seq<Phone>)
    requires |c.emails| >= 1 && |c.phoneNumbers| >= 1
    ensures CsvFields(c.(emails := c.emails + moreEmails, phoneNumbers := c.phoneNumbers + morePhones))
            == CsvFields(c)
  {
  }
}
