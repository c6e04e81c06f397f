/** What the CSV import makes of the file the CSV export writes.

    With the reader the code uses, every value keeps the double quotes the
    export put around it, so the names come back quoted and every contact
    gains an e-mail address and a phone number made of two quote
    characters. With the quote-aware reader the contacts come back with
    their names, company, job title, first e-mail address and first phone
    number, trimmed.

    The import preview announces one line per line of the file after the
    first; the file the export writes ends with a line break, so the
    announced number is one more than the number of contacts imported. */
module CsvRoundTrip {
  import opened Text
  import opened Seqs
  import opened Contacts
  import opened CsvExport
  import opened CsvImport

  /** The header line without its line break. */
  const HeaderText: string := Join(CsvHeader, ',')

  /** The contact lines of an export, without their line breaks. */
  function RowLines(cs: seq<Contact>): (r: seq<string>)
    ensures |r| == |cs|
    ensures forall i :: 0 <= i < |cs| ==> r[i] == CsvRow(CsvFields(cs[i]))
    decreases |cs|
  {
    if cs == [] then [] else [CsvRow(CsvFields(cs[0]))] + RowLines(cs[1..])
  }

  /** No exported value holds a line break. */
  ghost predicate SingleLine(c: Contact) {
    forall i :: 0 <= i < |CsvFields(c)| ==> '\n' !in CsvFields(c)[i]
  }

  /** No exported value holds a line break, a comma or a double quote. */
  ghost predicate PlainValues(c: Contact) {
    forall i :: 0 <= i < |CsvFields(c)| ==>
      '\n' !in CsvFields(c)[i] && ',' !in CsvFields(c)[i] && '"' !in CsvFields(c)[i]
  }

  // ---------------------------------------------------------------------
  // Characters that quoting and joining do not introduce

  lemma {:induction false} EscapeAvoids(f: string, ch: char)
    requires ch != '"' && ch !in f
    ensures ch !in EscapeQuotes(f)
    decreases |f|
  {
    if f != [] {
      assert f[1..] <= f[1..] && forall x :: x in f[1..] ==> x in f;
      EscapeAvoids(f[1..], ch);
    }
  }

  lemma QuoteAvoids(f: string, ch: char)
    requires ch != '"' && ch !in f
    ensures ch !in Quote(f)
  {
    EscapeAvoids(f, ch);
  }

  lemma {:induction false} QuoteAllAvoids(fields: seq<string>, ch: char)
    requires ch != '"'
    requires forall i :: 0 <= i < |fields| ==> ch !in fields[i]
    ensures forall i :: 0 <= i < |fields| ==> ch !in QuoteAll(fields)[i]
    decreases |fields|
  {
    if fields != [] {
      QuoteAvoids(fields[0], ch);
      QuoteAllAvoids(fields[1..], ch);
      assert forall i :: 1 <= i < |fields| ==> QuoteAll(fields)[i] == QuoteAll(fields[1..])[i - 1];
    }
  }

  lemma {:induction false} JoinAvoids(parts: seq<string>, sep: char, ch: char)
    requires sep != ch
    requires forall i :: 0 <= i < |parts| ==> ch !in parts[i]
    ensures ch !in Join(parts, sep)
    decreases |parts|
  {
    if |parts| > 1 {
      JoinAvoids(parts[1..], sep, ch);
    }
  }

  lemma RowAvoids(fields: seq<string>, ch: char)
    requires ch != '"' && ch != ','
    requires forall i :: 0 <= i < |fields| ==> ch !in fields[i]
    ensures ch !in CsvRow(fields)
  {
    QuoteAllAvoids(fields, ch);
    JoinAvoids(QuoteAll(fields), ',', ch);
  }

  /** A quoted value opens and closes with a double quote, so trimming
      leaves it alone. */
  lemma TrimQuoted(f: string)
    ensures Trim(Quote(f)) == Quote(f)
  {
    var q := Quote(f);
    assert q[0] == '"' && q[|q| - 1] == '"';
    TrimOfTrimmed(q);
  }

  lemma {:induction false} QuoteAllSlots(fields: seq<string>)
    ensures forall i :: 0 <= i < |fields| ==> QuoteAll(fields)[i] == Quote(fields[i])
    decreases |fields|
  {
    if fields != [] {
      QuoteAllSlots(fields[1..]);
      assert forall i :: 1 <= i < |fields| ==> QuoteAll(fields)[i] == QuoteAll(fields[1..])[i - 1];
    }
  }

  // ---------------------------------------------------------------------
  // The lines of an exported file

  lemma {:induction false} RowsAreLines(cs: seq<Contact>)
    ensures Rows(cs) == Unlines(RowLines(cs))
    decreases |cs|
  {
    if cs != [] {
      RowsAreLines(cs[1..]);
      assert RowLines(cs)[1..] == RowLines(cs[1..]);
    }
  }

  lemma HeaderNames()
    ensures forall i :: 0 <= i < |CsvHeader| ==>
      && CsvHeader[i] != []
      && '\n' !in CsvHeader[i] && ',' !in CsvHeader[i] && CsvHeader[i][0] != '"'
      && !IsSpace(CsvHeader[i][0]) && !IsSpace(CsvHeader[i][|CsvHeader[i]| - 1])
  {
  }

  lemma ExportIsUnlines(cs: seq<Contact>)
    ensures ExportCsv(cs) == Unlines([HeaderText] + RowLines(cs))
  {
    RowsAreLines(cs);
    var lines := [HeaderText] + RowLines(cs);
    assert lines[1..] == RowLines(cs);
  }

  lemma ExportLinesSingle(cs: seq<Contact>)
    requires forall i :: 0 <= i < |cs| ==> SingleLine(cs[i])
    ensures Unbroken([HeaderText] + RowLines(cs))
  {
    var lines := [HeaderText] + RowLines(cs);
    HeaderNames();
    JoinAvoids(CsvHeader, ',', '\n');
    forall i | 0 <= i < |lines| ensures '\n' !in lines[i] {
      if i > 0 {
        assert lines[i] == CsvRow(CsvFields(cs[i - 1]));
        RowAvoids(CsvFields(cs[i - 1]), '\n');
      }
    }
  }

  /** Split at its line breaks, an exported file is the header line, one
      line per contact and the empty piece after the last break. */
  lemma ExportLines(cs: seq<Contact>)
    requires forall i :: 0 <= i < |cs| ==> SingleLine(cs[i])
    ensures Split(ExportCsv(cs), '\n') == [HeaderText] + RowLines(cs) + [""]
  {
    ExportLinesPieces(cs);
    SplitOfLines(ExportCsv(cs), [HeaderText] + RowLines(cs));
  }

  lemma ExportLinesPieces(cs: seq<Contact>)
    requires forall i :: 0 <= i < |cs| ==> SingleLine(cs[i])
    ensures ExportCsv(cs) == Unlines([HeaderText] + RowLines(cs))
    ensures Unbroken([HeaderText] + RowLines(cs))
  {
    ExportIsUnlines(cs);
    ExportLinesSingle(cs);
  }

  lemma SplitOfLines(text: string, lines: seq<string>)
    requires text == Unlines(lines) && Unbroken(lines)
    ensures Split(text, '\n') == lines + [""]
  {
    SplitUnlines(lines);
  }

  lemma {:induction false} JoinStart(parts: seq<string>, sep: char)
    requires |parts| >= 1 && parts[0] != []
    ensures Join(parts, sep) != [] && Join(parts, sep)[0] == parts[0][0]
    decreases |parts|
  {
  }

  /** A contact line opens with a double quote, so it is never blank. */
  lemma RowNotBlank(fields: seq<string>)
    requires |fields| >= 1
    ensures NonBlank(CsvRow(fields))
  {
    QuoteAllSlots(fields);
    JoinStart(QuoteAll(fields), ',');
    assert CsvRow(fields)[0] == '"';
  }

  /** The import of an exported file reads every contact line and skips
      only the empty piece at the end. */
  lemma ImportOfLines(reader: Reader, cs: seq<Contact>, headers: seq<string>)
    ensures ImportBody(reader, RowLines(cs) + [""], headers) == DraftsOf(reader, RowLines(cs), headers)
  {
    var rows := RowLines(cs);
    ImportIsFilterThenMap(reader, rows + [""], headers);
    FilterAppend(rows, [""], NonBlank);
    forall x | x in rows ensures NonBlank(x) {
      var i :| 0 <= i < |rows| && rows[i] == x;
      RowNotBlank(CsvFields(cs[i]));
    }
    FilterKeepsAll(rows, NonBlank);
    assert Filter([""], NonBlank) == [] by {
      assert IsBlank("");
    }
    assert rows + [] == rows;
  }

  // ---------------------------------------------------------------------
  // Reading the header and the values back

  lemma HeadersDistinct()
    ensures forall i, j :: 0 <= i < j < |CsvHeader| ==> CsvHeader[i] != CsvHeader[j]
  {
  }

  /** In a list without repeats, indexOf finds each entry where it is. */
  lemma IndexOfDistinct(xs: seq<string>, k: nat)
    requires k < |xs|
    requires forall i, j :: 0 <= i < j < |xs| ==> xs[i] != xs[j]
    ensures IndexOf(xs, xs[k]) == k
  {
  }

  /** Under the export's header, each named column is the value at that
      name's place. */
  lemma ExportColumns(values: seq<string>)
    requires |values| == |CsvHeader|
    ensures Column(values, CsvHeader, "firstName") == values[0]
    ensures Column(values, CsvHeader, "lastName") == values[1]
    ensures Column(values, CsvHeader, "company") == values[2]
    ensures Column(values, CsvHeader, "jobTitle") == values[3]
    ensures Column(values, CsvHeader, "email") == values[4]
    ensures Column(values, CsvHeader, "phone") == values[5]
  {
    ColumnAt(values, 0);
    ColumnAt(values, 1);
    ColumnAt(values, 2);
    ColumnAt(values, 3);
    ColumnAt(values, 4);
    ColumnAt(values, 5);
  }

  lemma ColumnAt(values: seq<string>, k: nat)
    requires |values| == |CsvHeader| && k < |CsvHeader|
    ensures Column(values, CsvHeader, CsvHeader[k]) == values[k]
  {
    HeadersDistinct();
    IndexOfDistinct(CsvHeader, k);
  }

  lemma TrimAllHeader()
    ensures TrimAll(CsvHeader) == CsvHeader
  {
    HeaderNames();
    forall i | 0 <= i < |CsvHeader| ensures Trim(CsvHeader[i]) == CsvHeader[i] {
      TrimOfTrimmed(CsvHeader[i]);
    }
  }

  /** Both readers read the export's header line as the eight names. */
  lemma HeaderReadBack(reader: Reader, text: string)
    requires Split(text, '\n')[0] == HeaderText
    ensures Headers(reader, text) == CsvHeader
  {
    HeaderNames();
    TrimAllHeader();
    match reader
    case CommaSplit =>
      SplitJoin(CsvHeader, ',');
    case QuoteAware =>
      SplitFieldsPlain(CsvHeader);
  }

  /** The code's reader keeps the quotes of every value it reads. */
  lemma CommaSplitOfRow(fields: seq<string>)
    requires |fields| >= 1
    requires forall i :: 0 <= i < |fields| ==> ',' !in fields[i]
    ensures Values(CommaSplit, CsvRow(fields)) == QuoteAll(fields)
  {
    QuoteAllAvoids(fields, ',');
    SplitJoin(QuoteAll(fields), ',');
    QuoteAllSlots(fields);
    forall i | 0 <= i < |fields| ensures Trim(QuoteAll(fields)[i]) == QuoteAll(fields)[i] {
      TrimQuoted(fields[i]);
    }
  }

  /** The quote-aware reader gives back exactly the values a line was
      written from, whatever commas and quotes they hold. */
  lemma {:induction false} SplitFieldsOfRow(fields: seq<string>)
    requires |fields| >= 1
    ensures SplitFields(CsvRow(fields)) == fields
    decreases |fields|
  {
    var f := fields[0];
    RowCons(fields);
    if |fields| == 1 {
      SplitFieldsQuoted(f, "");
      assert Quote(f) + "" == Quote(f);
      assert [f] + [] == fields;
    } else {
      var rest := CsvRow(fields[1..]);
      SplitFieldsQuoted(f, "," + rest);
      assert ("," + rest)[1..] == rest;
      SplitFieldsOfRow(fields[1..]);
      assert [f] + fields[1..] == fields;
    }
  }

  /** A line is its first value quoted, then a comma and the line of the
      other values if there are any. */
  lemma RowCons(fields: seq<string>)
    requires |fields| >= 1
    ensures |fields| == 1 ==> CsvRow(fields) == Quote(fields[0])
    ensures |fields| > 1 ==> CsvRow(fields) == Quote(fields[0]) + ("," + CsvRow(fields[1..]))
  {
    assert QuoteAll(fields) == [Quote(fields[0])] + QuoteAll(fields[1..]);
    if |fields| > 1 {
      JoinCons(Quote(fields[0]), QuoteAll(fields[1..]), ',');
      assert Quote(fields[0]) + [','] + CsvRow(fields[1..]) == Quote(fields[0]) + ("," + CsvRow(fields[1..]));
    }
  }

  /** The quote-aware reader takes a quoted value whole, up to the comma
      or line end after its closing quote. */
  lemma SplitFieldsQuoted(f: string, tail: string)
    requires tail == [] || tail[0] == ','
    ensures SplitFields(Quote(f) + tail) == [f] + (if tail == [] then [] else SplitFields(tail[1..]))
  {
    var s := Quote(f) + tail;
    assert s[1..] == EscapeQuotes(f) + "\"" + tail;
    ReadEscaped(f, tail);
  }

  /** A line of values with no commas that do not open with a double quote
      reads back as those values under the quote-aware reader. */
  lemma {:induction false} SplitFieldsPlain(parts: seq<string>)
    requires |parts| >= 1
    requires forall i :: 0 <= i < |parts| ==> ',' !in parts[i] && (parts[i] == [] || parts[i][0] != '"')
    ensures SplitFields(Join(parts, ',')) == parts
    decreases |parts|
  {
    var p := parts[0];
    var s := Join(parts, ',');
    if |parts| == 1 {
      assert s == p;
      CommaFree(p, "");
      assert p + "" == p;
    } else {
      var rest := Join(parts[1..], ',');
      assert s == p + [','] + rest;
      assert s != [] && s[0] != '"' by {
        if p == [] {
          assert s[0] == ',';
        } else {
          assert s[0] == p[0];
        }
      }
      CommaFree(p, [','] + rest);
      assert p + ([','] + rest) == s;
      var k := CommaAt(s);
      assert s[..k] == p;
      assert s[k + 1..] == rest;
      SplitFieldsPlain(parts[1..]);
      assert [p] + parts[1..] == parts;
    }
  }

  /** The first comma after a comma-free prefix is where the prefix ends,
      if the rest starts with one. */
  lemma {:induction false} CommaFree(a: string, b: string)
    requires ',' !in a && (b == [] || b[0] == ',')
    ensures CommaAt(a + b) == |a|
    decreases |a|
  {
    if a == [] {
      assert a + b == b;
    } else {
      assert (a + b)[1..] == a[1..] + b;
      assert forall x :: x in a[1..] ==> x in a;
      CommaFree(a[1..], b);
    }
  }

  // ---------------------------------------------------------------------
  // The two readers on an exported file

  /** Either reader makes one draft of each exported line, the header
      read back as the export wrote it. */
  lemma ImportOfExport(reader: Reader, cs: seq<Contact>)
    requires forall i :: 0 <= i < |cs| ==> SingleLine(cs[i])
    ensures ImportText(reader, ExportCsv(cs)) == DraftsOf(reader, RowLines(cs), CsvHeader)
  {
    ExportLines(cs);
    ImportOfText(reader, ExportCsv(cs), cs);
  }

  lemma DropHead(h: string, rest: seq<string>)
    ensures ([h] + rest)[1..] == rest && ([h] + rest)[0] == h
  {
  }

  lemma ImportOfText(reader: Reader, text: string, cs: seq<Contact>)
    requires Split(text, '\n') == [HeaderText] + RowLines(cs) + [""]
    ensures ImportText(reader, text) == DraftsOf(reader, RowLines(cs), CsvHeader)
  {
    DropHead(HeaderText, RowLines(cs) + [""]);
    assert [HeaderText] + RowLines(cs) + [""] == [HeaderText] + (RowLines(cs) + [""]);
    HeaderReadBack(reader, text);
    ImportOfLines(reader, cs, CsvHeader);
  }

  /** The as-written import of a one-contact export: the one draft is built
      from the quoted values. */
  lemma ImportOfExportAsWritten(c: Contact)
    requires PlainValues(c)
    ensures ImportCsv(ExportCsv([c])) == [RowToContact(QuoteAll(CsvFields(c)), CsvHeader)]
  {
    assert SingleLine(c);
    ImportOfExport(CommaSplit, [c]);
    var fields := CsvFields(c);
    assert RowLines([c]) == [CsvRow(fields)];
    assert DraftsOf(CommaSplit, [CsvRow(fields)], CsvHeader)
        == [Draft(CommaSplit, CsvRow(fields), CsvHeader)];
    CommaSplitOfRow(fields);
  }

  /** Re-importing an exported contact with the code's reader gives back
      its first name in quotes, never the name itself, and an e-mail entry
      whether or not the contact had one. */
  lemma ImportKeepsQuotes(c: Contact)
    requires PlainValues(c)
    ensures |ImportCsv(ExportCsv([c]))| == 1
    ensures ImportCsv(ExportCsv([c]))[0].firstName == Quote(c.firstName)
    ensures ImportCsv(ExportCsv([c]))[0].firstName != c.firstName
    ensures ImportCsv(ExportCsv([c]))[0].emails == [Email(Work, Quote(FirstEmail(c)))]
  {
    ImportOfExportAsWritten(c);
    var q := QuoteAll(CsvFields(c));
    QuoteAllSlots(CsvFields(c));
    ExportColumns(q);
    DraftFields(q, CsvHeader);
    assert |Quote(c.firstName)| == |c.firstName| + 2 by {
      assert '"' !in c.firstName;
      EscapeWithoutQuotes(c.firstName);
    }
  }

  lemma {:induction false} EscapeWithoutQuotes(f: string)
    requires '"' !in f
    ensures EscapeQuotes(f) == f
    decreases |f|
  {
    if f != [] {
      assert forall x :: x in f[1..] ==> x in f;
      EscapeWithoutQuotes(f[1..]);
      assert [f[0]] + f[1..] == f;
    }
  }

  /** What the quote-aware import makes of one exported contact. */
  function Recovered(c: Contact): Contact {
    RowToContact(TrimAll(CsvFields(c)), CsvHeader)
  }

  /** With the quote-aware reader, importing an export gives one draft per
      contact, in order, each built from that contact's trimmed values. */
  lemma ImportOfExportQuoteAware(cs: seq<Contact>)
    requires forall i :: 0 <= i < |cs| ==> SingleLine(cs[i])
    ensures ImportText(QuoteAware, ExportCsv(cs)) == DraftsOf(QuoteAware, RowLines(cs), CsvHeader)
    ensures |ImportText(QuoteAware, ExportCsv(cs))| == |cs|
    ensures forall i :: 0 <= i < |cs| ==> ImportText(QuoteAware, ExportCsv(cs))[i] == Recovered(cs[i])
  {
    ImportOfExport(QuoteAware, cs);
    DraftsRecovered(cs);
  }

  lemma DraftsRecovered(cs: seq<Contact>)
    ensures forall i :: 0 <= i < |cs| ==> DraftsOf(QuoteAware, RowLines(cs), CsvHeader)[i] == Recovered(cs[i])
  {
    forall i | 0 <= i < |cs| ensures DraftsOf(QuoteAware, RowLines(cs), CsvHeader)[i] == Recovered(cs[i]) {
      DraftOfRow(cs[i]);
    }
  }

  lemma DraftOfRow(c: Contact)
    ensures Draft(QuoteAware, CsvRow(CsvFields(c)), CsvHeader) == Recovered(c)
  {
    SplitFieldsOfRow(CsvFields(c));
  }

  /** A recovered contact carries the original's names, company, job
      title, first e-mail address and first phone number, trimmed. */
  lemma RecoveredFields(c: Contact)
    ensures Recovered(c).firstName == Trim(c.firstName)
    ensures Recovered(c).lastName == Trim(c.lastName)
    ensures Recovered(c).company == Trim(c.company)
    ensures Recovered(c).jobTitle == Trim(c.jobTitle)
    ensures Recovered(c).emails == (if Trim(FirstEmail(c)) != "" then [Email(Work, Trim(FirstEmail(c)))] else [])
    ensures Recovered(c).phoneNumbers == (if Trim(FirstPhone(c)) != "" then [Phone(Work, Trim(FirstPhone(c)))] else [])
  {
    ExportColumns(TrimAll(CsvFields(c)));
    DraftFields(TrimAll(CsvFields(c)), CsvHeader);
  }

  // ---------------------------------------------------------------------
  // The preview count

  /** `rows.length - 1`, the number handleImportFile announces. */
  function PreviewCount(text: string): int {
    |Split(text, '\n')| - 1
  }

  /** The number of contacts the import will create: the non-blank lines
      after the header. */
  function PreviewCountCorrected(text: string): nat {
    Count(Split(text, '\n')[1..], NonBlank)
  }

  /** For an exported file the announced number is one more than the
      number of contacts the import then creates. */
  lemma PreviewOvercounts(cs: seq<Contact>)
    requires forall i :: 0 <= i < |cs| ==> SingleLine(cs[i])
    ensures PreviewCount(ExportCsv(cs)) == |cs| + 1
    ensures |ImportCsv(ExportCsv(cs))| == |cs|
  {
    ExportLines(cs);
    ImportOfExport(CommaSplit, cs);
  }

  /** The corrected count is the number of contacts either reader's import
      creates, for every file. */
  lemma PreviewCountCorrectedMatches(reader: Reader, text: string)
    ensures PreviewCountCorrected(text) == |ImportText(reader, text)|
  {
    ImportCount(reader, text);
  }
}
