/** The CSV import: handleImportFile splits the file into lines and reads
    the column names from the first one; importCSVData turns every later
    non-blank line into a draft contact of category "imported", taking
    the names, company and title from the columns so named (falling back
    to the first two columns for the names) and at most one e-mail address
    and one phone number.

    Two readers of a line's values are modelled: the one the code uses,
    which cuts the line at every comma and keeps quote characters, and a
    quote-aware reader (section 2 of RFC 4180) under which the file the
    CSV export writes reads back as the contacts it was written from. */
module CsvImport {
  import opened Text
  import opened Seqs
  import opened Maybe
  import opened Contacts
  import opened CsvExport

  /** Array.prototype.indexOf: the first position of x, or -1. */
  function IndexOf(xs: seq<string>, x: string): (r: int)
    ensures -1 <= r < |xs|
    ensures r == -1 <==> x !in xs
    ensures 0 <= r ==> xs[r] == x && forall k :: 0 <= k < r ==> xs[k] != x
    decreases |xs|
  {
    if xs == [] then -1
    else if xs[0] == x then 0
    else
      var k := IndexOf(xs[1..], x);
      if k == -1 then -1 else k + 1
  }

  /** `values[i]`: outside the array it is `undefined`, which the code
      only ever tests for truthiness, like the empty string. */
  function At(values: seq<string>, i: int): string {
    if 0 <= i < |values| then values[i] else ""
  }

  function TrimAll(xs: seq<string>): (r: seq<string>)
    ensures |r| == |xs|
  {
    seq(|xs|, i requires 0 <= i < |xs| => Trim(xs[i]))
  }

  /** The value in the column whose header is `name` (the first such
      column), or "" when there is no such column or value. */
  function Column(values: seq<string>, headers: seq<string>, name: string): string {
    At(values, IndexOf(headers, name))
  }

  const ImportedCategory := "imported"

  /** The draft contact importCSVData builds from one line's values. */
  function RowToContact(values: seq<string>, headers: seq<string>): Contact
  {
    var email := Column(values, headers, "email");
    var phone := Column(values, headers, "phone");
    Contact(
      id := "",
      firstName := Or(Column(values, headers, "firstName"), At(values, 0)),
      lastName := Or(Column(values, headers, "lastName"), At(values, 1)),
      fullName := "",
      company := Column(values, headers, "company"),
      jobTitle := Column(values, headers, "jobTitle"),
      phoneNumbers := if phone != "" then [Phone(Work, phone)] else [],
      emails := if email != "" then [Email(Work, email)] else [],
      address := NoAddress,
      website := "",
      notes := "",
      category := ImportedCategory,
      createdDate := "",
      lastUpdated := "")
  }

  /** A draft is of category "imported" with no id, full name, dates,
      website, notes or address; it holds the e-mail address and the phone
      number of the columns so named, as work entries, exactly when those
      are not empty; its first and last names are empty only when both the
      column so named and the first (or second) value are. */
  lemma DraftFields(values: seq<string>, headers: seq<string>)
    ensures var r := RowToContact(values, headers);
      && r.category == ImportedCategory
      && r.id == "" && r.fullName == "" && r.createdDate == "" && r.lastUpdated == ""
      && r.website == "" && r.notes == "" && r.address == NoAddress
      && |r.emails| <= 1 && |r.phoneNumbers| <= 1
      && (r.emails != [] <==> Column(values, headers, "email") != "")
      && (r.emails != [] ==> r.emails[0] == Email(Work, Column(values, headers, "email")))
      && (r.phoneNumbers != [] <==> Column(values, headers, "phone") != "")
      && (r.phoneNumbers != [] ==> r.phoneNumbers[0] == Phone(Work, Column(values, headers, "phone")))
      && (r.firstName == "" <==> Column(values, headers, "firstName") == "" && At(values, 0) == "")
      && (r.lastName == "" <==> Column(values, headers, "lastName") == "" && At(values, 1) == "")
      && r.company == Column(values, headers, "company")
      && r.jobTitle == Column(values, headers, "jobTitle")
  {
  }

  /** No column name occurs twice. */
  predicate Distinct(xs: seq<string>) {
    forall i, j :: 0 <= i < j < |xs| ==> xs[i] != xs[j]
  }

  /** xs with the entries at a and b exchanged. */
  function Swap(xs: seq<string>, a: nat, b: nat): (r: seq<string>)
    requires a < |xs| && b < |xs|
    ensures |r| == |xs|
  {
    xs[a := xs[b]][b := xs[a]]
  }

  /** Under distinct column names, exchanging two columns, header and
      values together, finds every named column's value where it was. */
  lemma ColumnIgnoresSwap(values: seq<string>, headers: seq<string>, a: nat, b: nat, name: string)
    requires Distinct(headers)
    requires a < |values| && a < |headers| && b < |values| && b < |headers|
    ensures Column(Swap(values, a, b), Swap(headers, a, b), name) == Column(values, headers, name)
  {
    var h := Swap(headers, a, b);
    var k := IndexOf(headers, name);
    if k == -1 {
      forall m | 0 <= m < |h| ensures h[m] != name {
        assert h[m] == headers[if m == a then b else if m == b then a else m];
      }
    } else {
      var m := if k == a then b else if k == b then a else k;
      assert h[m] == name;
      var n := IndexOf(h, name);
      assert headers[if n == a then b else if n == b then a else n] == name;
    }
  }

  /** The draft does not depend on the order of the columns, except where
      a name falls back to the first or second value: exchanging two
      columns of the file, header and values together, leaves every other
      field of the draft as it was, and leaves each name as it was when
      its column has a value or the exchange does not move the value it
      falls back to. */
  lemma DraftIgnoresColumnOrder(values: seq<string>, headers: seq<string>, a: nat, b: nat)
    requires Distinct(headers)
    requires a < |values| && a < |headers| && b < |values| && b < |headers|
    ensures var r := RowToContact(values, headers);
            var s := RowToContact(Swap(values, a, b), Swap(headers, a, b));
            && s.(firstName := r.firstName, lastName := r.lastName) == r
            && (Column(values, headers, "firstName") != "" || (a != 0 && b != 0) ==> s.firstName == r.firstName)
            && (Column(values, headers, "lastName") != "" || (a != 1 && b != 1) ==> s.lastName == r.lastName)
  {
    ColumnIgnoresSwap(values, headers, a, b, "firstName");
    ColumnIgnoresSwap(values, headers, a, b, "lastName");
    ColumnIgnoresSwap(values, headers, a, b, "company");
    ColumnIgnoresSwap(values, headers, a, b, "jobTitle");
    ColumnIgnoresSwap(values, headers, a, b, "email");
    ColumnIgnoresSwap(values, headers, a, b, "phone");
  }

  // ---------------------------------------------------------------------
  // Reading the values of a line

  /** How a line is cut into values. */
  datatype Reader =
    | CommaSplit    // `row.split(',')`, the reader the code uses
    | QuoteAware    // quoted fields with doubled inner quotes, RFC 4180

  /** The position of the first comma in s, or |s| when there is none. */
  function CommaAt(s: string): (k: nat)
    ensures k <= |s| && ',' !in s[..k]
    ensures k < |s| ==> s[k] == ','
    decreases |s|
  {
    if s == [] then 0
    else if s[0] == ',' then 0
    else
      var k := CommaAt(s[1..]);
      assert s[..k + 1] == [s[0]] + s[1..][..k];
      k + 1
  }

  /** The values of a line read field by field: a field that opens with a
      double quote and closes before a comma or the end of the line is
      unquoted; any other field runs to the next comma as it stands. */
  function SplitFields(s: string): (r: seq<string>)
    ensures |r| >= 1
    decreases |s|
  {
    var q := if |s| > 0 && s[0] == '"' then ReadQuotedBody(s[1..]) else None;
    if q.Some? && (q.value.1 == [] || q.value.1[0] == ',') then
      [q.value.0] + (if q.value.1 == [] then [] else SplitFields(q.value.1[1..]))
    else
      var k := CommaAt(s);
      [s[..k]] + (if k == |s| then [] else SplitFields(s[k + 1..]))
  }

  /** The trimmed values of one line (`.map(v => v.trim())`). */
  function Values(reader: Reader, row: string): seq<string> {
    match reader
    case CommaSplit => TrimAll(Split(row, ','))
    case QuoteAware => TrimAll(SplitFields(row))
  }

  // ---------------------------------------------------------------------
  // The import

  /** The drafts built from the lines after the header, blank lines
      skipped. */
  function ImportBody(reader: Reader, body: seq<string>, headers: seq<string>): (r: seq<Contact>)
    ensures |r| <= |body|
    decreases |body|
  {
    if body == [] then []
    else
      (if NonBlank(body[0]) then [Draft(reader, body[0], headers)] else [])
      + ImportBody(reader, body[1..], headers)
  }

  /** The column names: the first line's values. */
  function Headers(reader: Reader, text: string): seq<string> {
    Values(reader, Split(text, '\n')[0])
  }

  function ImportText(reader: Reader, text: string): seq<Contact> {
    var rows := Split(text, '\n');
    ImportBody(reader, rows[1..], Headers(reader, text))
  }

  /** The import as the code performs it. */
  function ImportCsv(text: string): seq<Contact> {
    ImportText(CommaSplit, text)
  }

  /** The draft of one line. */
  function Draft(reader: Reader, row: string, headers: seq<string>): Contact {
    RowToContact(Values(reader, row), headers)
  }

  /** The drafts of the given lines, one per line. */
  function DraftsOf(reader: Reader, rows: seq<string>, headers: seq<string>): seq<Contact> {
    Map(rows, (row: string) => Draft(reader, row, headers))
  }

  /** The import keeps the non-blank lines after the header, in order, and
      maps each to a draft: its result is the drafts of exactly those
      lines. */
  lemma {:induction false} ImportIsFilterThenMap(reader: Reader, body: seq<string>, headers: seq<string>)
    ensures ImportBody(reader, body, headers) == DraftsOf(reader, Filter(body, NonBlank), headers)
    decreases |body|
  {
    if body != [] {
      ImportIsFilterThenMap(reader, body[1..], headers);
      var rest := Filter(body[1..], NonBlank);
      if NonBlank(body[0]) {
        assert Filter(body, NonBlank) == [body[0]] + rest;
        DraftsCons(reader, body[0], rest, headers);
      } else {
        assert Filter(body, NonBlank) == rest;
      }
    }
  }

  lemma DraftsCons(reader: Reader, row: string, rows: seq<string>, headers: seq<string>)
    ensures DraftsOf(reader, [row] + rows, headers)
         == [Draft(reader, row, headers)] + DraftsOf(reader, rows, headers)
  {
    assert ([row] + rows)[1..] == rows;
  }

  /** One draft per non-blank line after the header. */
  lemma ImportCount(reader: Reader, text: string)
    ensures |ImportText(reader, text)| == Count(Split(text, '\n')[1..], NonBlank)
  {
    var body := Split(text, '\n')[1..];
    ImportIsFilterThenMap(reader, body, Headers(reader, text));
    CountIsFilterLength(body, NonBlank);
  }
}
