/** parseOCRText (app.js:1548-1614): turns the text an OCR engine read
    off a business card into a contact draft. It is a positional
    heuristic: the first e-mail, phone, website and ZIP match anywhere in
    the text, then the first three lines that look like neither of the
    first three and hold no digit become name, job title and company. */
module OcrScan {
  import opened Text
  import opened Maybe
  import opened Regex
  import opened Patterns
  import opened Seqs
  import opened Contacts
  import opened GreedyMatch
  import opened LongestMatch

  /** The object parseOCRText returns. */
  datatype Scan = Scan(
    firstName: string,
    lastName: string,
    company: string,
    jobTitle: string,
    phoneNumbers: seq<Phone>,
    emails: seq<Email>,
    website: string,
    address: Address)

  /** The non-blank lines of the text, untrimmed, in order. */
  function Lines(text: string): seq<string> {
    Filter(Split(text, '\n'), NonBlank)
  }

  /** The test a line must pass to be used for the name, the job title or
      the company: no e-mail, phone or website match, fewer than 50
      characters and no digit. Each pattern test starts at the beginning
      of the line. */
  predicate IsNameLine(line: string) {
    && !Test(EmailPattern, line)
    && !Test(PhonePattern, line)
    && !Test(WebsitePattern, line)
    && |line| < 50
    && !HasDigit(line)
  }

  function NameLines(text: string): seq<string> {
    Filter(Lines(text), IsNameLine)
  }

  /** The website rule: a match not starting with "http" gets "https://"
      in front. */
  function WithScheme(site: string): (r: string)
    ensures StartsWith(r, "http")
    ensures r == site || r == "https://" + site
  {
    if StartsWith(site, "http") then site else "https://" + site
  }

  /** Applying the website rule a second time changes nothing. */
  lemma WithSchemeIdempotent(site: string)
    ensures WithScheme(WithScheme(site)) == WithScheme(site)
  {
  }

  /** The name rule: split the trimmed line at single spaces; the first
      piece is the first name and the rest, joined back with spaces, the
      last name. */
  function SplitName(line: string): (r: (string, string))
    ensures ' ' !in r.0
    ensures ' ' in Trim(line) ==> r.0 + " " + r.1 == Trim(line)
    ensures ' ' !in Trim(line) ==> r.0 == Trim(line) && r.1 == ""
    ensures r.0 == "" <==> IsBlank(line)
  {
    var t := Trim(line);
    var parts := Split(t, ' ');
    SpacePieces(t);
    (Or(parts[0], ""), Or(Join(parts[1..], ' '), ""))
  }

  lemma SpacePieces(t: string)
    ensures var parts := Split(t, ' ');
            && (' ' in t ==> parts[0] + " " + Join(parts[1..], ' ') == t)
            && (' ' !in t ==> parts == [t])
            && (parts[0] == "" ==> t == [] || t[0] == ' ')
  {
    var parts := Split(t, ' ');
    JoinSplit(t, ' ');
    SplitHead(t, ' ');
    if |parts| > 1 {
      JoinCons(parts[0], parts[1..], ' ');
      assert [parts[0]] + parts[1..] == parts;
    }
  }

  /** The first e-mail match, as a one-entry list of type "work". */
  function ScanEmails(text: string): (r: seq<Email>)
    ensures |r| <= 1
    ensures r == [] <==> !Test(EmailPattern, text)
    ensures forall k :: 0 <= k < |r| ==> r[k].kind == Work
  {
    match FirstMatchText(EmailPattern, text)
    case Some(m) => [Email(Work, m)]
    case None => []
  }

  /** The first phone match, as a one-entry list of type "work". */
  function ScanPhones(text: string): (r: seq<Phone>)
    ensures |r| <= 1
    ensures r == [] <==> !Test(PhonePattern, text)
    ensures forall k :: 0 <= k < |r| ==> r[k].kind == Work
  {
    match FirstMatchText(PhonePattern, text)
    case Some(m) => [Phone(Work, m)]
    case None => []
  }

  function ScanWebsite(text: string): (r: string)
    ensures r == "" <==> !Test(WebsitePattern, text)
    ensures r != "" ==> StartsWith(r, "http") && WithScheme(r) == r
  {
    match FirstMatchText(WebsitePattern, text)
    case Some(m) => WithSchemeIdempotent(m); WithScheme(m)
    case None => ""
  }

  function ScanZip(text: string): string {
    FirstMatchText(ZipPattern, text).GetOr("")
  }

  function ParseOcrText(text: string): (r: Scan)
    ensures r.address.street == "" && r.address.city == "" && r.address.state == ""
    ensures r.firstName != "" <==> |NameLines(text)| >= 1
    ensures r.jobTitle != "" <==> |NameLines(text)| >= 2
    ensures r.company != "" <==> |NameLines(text)| >= 3
    ensures r.lastName != "" ==> r.firstName != ""
    ensures r.emails == ScanEmails(text) && r.phoneNumbers == ScanPhones(text)
    ensures r.website == ScanWebsite(text) && r.address.zipCode == ScanZip(text)
  {
    var nameLines := NameLines(text);
    NameLinesAreNonBlank(text);
    var name := if |nameLines| > 0 then SplitName(nameLines[0]) else ("", "");
    var jobTitle := if |nameLines| > 1 then Trim(nameLines[1]) else "";
    var company := if |nameLines| > 2 then Trim(nameLines[2]) else "";
    Scan(name.0, name.1, company, jobTitle, ScanPhones(text), ScanEmails(text), ScanWebsite(text),
         Address("", "", "", ScanZip(text)))
  }

  lemma NameLinesAreNonBlank(text: string)
    ensures forall k :: 0 <= k < |NameLines(text)| ==>
              NonBlank(NameLines(text)[k]) && IsNameLine(NameLines(text)[k])
  {
    var nl := NameLines(text);
    forall k | 0 <= k < |nl| ensures NonBlank(nl[k]) && IsNameLine(nl[k]) {
      assert nl[k] in nl;
    }
  }

  /** `emails` holds the leftmost e-mail match of the whole text, the
      longest of those starting there, verbatim, and is empty exactly
      when the text has none. */
  lemma ScanEmailIsFirstMatch(text: string)
    ensures ScanEmails(text) == [] <==> NoMatch(EmailPattern, text, 0)
    ensures ScanEmails(text) != [] ==>
              exists m :: LeftmostLongest(EmailPattern, text, 0, m)
                          && ScanEmails(text) == [Email(Work, text[m.start..m.end])]
  {
    EmailGreedy(text);
    FirstMatchTextLongest(EmailPattern, text);
  }

  /** `phoneNumbers` holds the leftmost phone match, the longest of those
      starting there, verbatim: it is not reformatted. */
  lemma ScanPhoneIsFirstMatch(text: string)
    ensures ScanPhones(text) == [] <==> NoMatch(PhonePattern, text, 0)
    ensures ScanPhones(text) != [] ==>
              exists m :: LeftmostLongest(PhonePattern, text, 0, m)
                          && ScanPhones(text) == [Phone(Work, text[m.start..m.end])]
  {
    PhoneGreedy(text);
    FirstMatchTextLongest(PhonePattern, text);
  }

  /** `website` is the leftmost website match, the longest of those
      starting there, given a scheme when it lacks one, and empty exactly
      when there is no match. */
  lemma ScanWebsiteIsFirstMatch(text: string)
    ensures ScanWebsite(text) == "" <==> NoMatch(WebsitePattern, text, 0)
    ensures ScanWebsite(text) != "" ==>
              exists m :: LeftmostLongest(WebsitePattern, text, 0, m)
                          && ScanWebsite(text) == WithScheme(text[m.start..m.end])
  {
    WebsiteGreedy(text);
    FirstMatchTextLongest(WebsitePattern, text);
  }

  /** `address.zipCode` is the leftmost ZIP match, the longest of those
      starting there, and empty exactly when there is none. */
  lemma ScanZipIsFirstMatch(text: string)
    ensures ScanZip(text) == "" <==> NoMatch(ZipPattern, text, 0)
    ensures ScanZip(text) != "" ==>
              exists m :: LeftmostLongest(ZipPattern, text, 0, m) && ScanZip(text) == text[m.start..m.end]
  {
    ZipGreedy(text);
    FirstMatchTextLongest(ZipPattern, text);
    if FirstMatchText(ZipPattern, text).Some? {
      var m :| LeftmostLongest(ZipPattern, text, 0, m)
               && FirstMatchText(ZipPattern, text).value == text[m.start..m.end];
      MandatoryCharPresent(ZipPattern, text, m.start, m.end, 1);
    }
  }

  /** A text without '@' yields no e-mail address. */
  lemma NoAtSignNoEmail(text: string)
    requires '@' !in text
    ensures ScanEmails(text) == []
  {
    NoAtSignNoEmailMatch(text);
  }

  /** A text without a digit yields no phone number and no ZIP code. */
  lemma NoDigitNoPhoneOrZip(text: string)
    requires !HasDigit(text)
    ensures ScanPhones(text) == [] && ScanZip(text) == ""
  {
    NoDigitNoPhoneMatch(text);
    TestSpec(ZipPattern, text);
    if Test(ZipPattern, text) {
      var s: nat, e: nat :| s <= |text| && Accepts(ZipPattern, text, s, e);
      MandatoryCharPresent(ZipPattern, text, s, e, 1);
    }
  }

  /** The name, job title and company come from the first, second and
      third line (in text order) that passes IsNameLine: idx lists the
      positions in Lines(text) of all passing lines, increasing, so the
      three fields come from three different lines and every earlier line
      failed the test. */
  lemma NameFieldsFromFirstPassingLines(text: string) returns (idx: seq<nat>)
    ensures var lines := Lines(text);
            && Embeds(NameLines(text), lines, idx)
            && (forall j :: 0 <= j < |lines| ==> (IsNameLine(lines[j]) <==> j in idx))
    ensures var r := ParseOcrText(text); var lines := Lines(text);
            && (|idx| >= 1 ==> (r.firstName, r.lastName) == SplitName(lines[idx[0]]))
            && (|idx| >= 2 ==> r.jobTitle == Trim(lines[idx[1]]))
            && (|idx| >= 3 ==> r.company == Trim(lines[idx[2]]))
  {
    idx := FilterPositions(Lines(text), IsNameLine);
  }

  /** What survives into the job title and the company is trimmed, free
      of digits and shorter than 50 characters. */
  lemma TitleAndCompanyAreClean(text: string)
    ensures var r := ParseOcrText(text);
            && !HasDigit(r.jobTitle) && |r.jobTitle| < 50 && Trim(r.jobTitle) == r.jobTitle
            && !HasDigit(r.company) && |r.company| < 50 && Trim(r.company) == r.company
  {
    var r := ParseOcrText(text);
    var nl := NameLines(text);
    NameLinesAreNonBlank(text);
    if |nl| > 1 {
      assert r.jobTitle == Trim(nl[1]);
      TrimClean(nl[1]);
      TrimIdempotent(nl[1]);
    }
    if |nl| > 2 {
      assert r.company == Trim(nl[2]);
      TrimClean(nl[2]);
      TrimIdempotent(nl[2]);
    }
  }

  /** The first and last name hold no digit and together are shorter
      than 50 characters. */
  lemma NameIsClean(text: string)
    ensures var r := ParseOcrText(text);
            && !HasDigit(r.firstName) && !HasDigit(r.lastName)
            && |r.firstName| + |r.lastName| < 50
  {
    var r := ParseOcrText(text);
    var nl := NameLines(text);
    NameLinesAreNonBlank(text);
    if |nl| > 0 {
      assert (r.firstName, r.lastName) == SplitName(nl[0]);
      TrimClean(nl[0]);
      SplitNameClean(nl[0]);
    }
  }

  lemma TrimClean(line: string)
    requires |line| < 50 && !HasDigit(line)
    ensures |Trim(line)| < 50 && !HasDigit(Trim(line))
  {
    var a := TrimIsSlice(line);
    var t := Trim(line);
    forall i | 0 <= i < |t| ensures !IsDigit(t[i]) {
      assert t[i] == line[a + i];
    }
  }

  lemma SplitNameClean(line: string)
    requires |Trim(line)| < 50 && !HasDigit(Trim(line))
    ensures var r := SplitName(line);
            !HasDigit(r.0) && !HasDigit(r.1) && |r.0| + |r.1| < 50
  {
    var t := Trim(line);
    var r := SplitName(line);
    if ' ' in t {
      assert r.0 + " " + r.1 == t;
      forall i | 0 <= i < |r.0| ensures !IsDigit(r.0[i]) {
        assert r.0[i] == t[i];
      }
      forall i | 0 <= i < |r.1| ensures !IsDigit(r.1[i]) {
        assert r.1[i] == t[|r.0| + 1 + i];
      }
    }
  }

  // ---------------------------------------------------------------------
  // The name-line filter as written: the three patterns carry the `g`
  // flag, so each `test` starts where the last successful one ended.

  /** Where each global pattern starts its next search (its lastIndex).
      The whole-text `match` calls before the filter leave all three at 0. */
  datatype Cursors = Cursors(email: nat, phone: nat, website: nat)

  /** `re.test(line)` on a pattern with the `g` flag: the search starts at
      lastIndex; a match moves lastIndex to the match's end, a failure
      (including a lastIndex past the end of the line) resets it to 0. */
  function TestAt(p: Pattern, line: string, lastIndex: nat): (r: (bool, nat))
    ensures r.0 <==> FirstMatch(p, line, lastIndex).Some?
    ensures r.0 ==> lastIndex + MinLength(p) <= r.1 <= |line|
    ensures !r.0 ==> r.1 == 0
  {
    FirstMatchSpec(p, line, lastIndex);
    match FirstMatch(p, line, lastIndex)
    case Some(m) =>
      AcceptsMinLength(p, line, m.start, m.end);
      (true, m.end)
    case None => (false, 0)
  }

  /** The filter as the code runs it: the `&&` chain stops at the first
      test that matches, so only the tests it reaches move their
      lastIndex. */
  function NameLinesAsWritten(lines: seq<string>, at: Cursors): (r: seq<string>)
    ensures |r| <= |lines|
    ensures forall k :: 0 <= k < |r| ==> r[k] in lines && |r[k]| < 50 && !HasDigit(r[k])
    decreases |lines|
  {
    if lines == [] then []
    else
      var line := lines[0];
      var (email, ae) := TestAt(EmailPattern, line, at.email);
      if email then NameLinesAsWritten(lines[1..], at.(email := ae))
      else
        var (phone, ap) := TestAt(PhonePattern, line, at.phone);
        if phone then NameLinesAsWritten(lines[1..], at.(email := ae, phone := ap))
        else
          var (site, aw) := TestAt(WebsitePattern, line, at.website);
          var rest := NameLinesAsWritten(lines[1..], Cursors(ae, ap, aw));
          if !site && |line| < 50 && !HasDigit(line) then [line] + rest else rest
  }

  /** While no line matches any of the three patterns every lastIndex
      stays at 0, and the filter as written agrees with IsNameLine. */
  lemma {:induction false} AsWrittenAgreesWithoutMatches(lines: seq<string>)
    requires forall k :: 0 <= k < |lines| ==> NoPatternIn(lines[k])
    ensures NameLinesAsWritten(lines, Cursors(0, 0, 0)) == Filter(lines, IsNameLine)
    decreases |lines|
  {
    if lines != [] {
      assert NoPatternIn(lines[0]);
      AsWrittenAgreesWithoutMatches(lines[1..]);
    }
  }

  /** No e-mail, phone or website match anywhere in the line. */
  predicate NoPatternIn(line: string) {
    !Test(EmailPattern, line) && !Test(PhonePattern, line) && !Test(WebsitePattern, line)
  }

  /** A line without '@' has no e-mail match. */
  lemma NoAtSignNoEmailMatch(line: string)
    ensures '@' !in line ==> !Test(EmailPattern, line)
  {
    TestSpec(EmailPattern, line);
    if '@' !in line && Test(EmailPattern, line) {
      var s: nat, e: nat :| s <= |line| && Accepts(EmailPattern, line, s, e);
      MandatoryCharPresent(EmailPattern, line, s, e, 2);
    }
  }

  /** A line without a digit has no phone match. */
  lemma NoDigitNoPhoneMatch(line: string)
    ensures !HasDigit(line) ==> !Test(PhonePattern, line)
  {
    TestSpec(PhonePattern, line);
    if !HasDigit(line) && Test(PhonePattern, line) {
      var s: nat, e: nat :| s <= |line| && Accepts(PhonePattern, line, s, e);
      MandatoryCharPresent(PhonePattern, line, s, e, 4);
    }
  }

  /** A host with no scheme and no "www." prefix: an alphanumeric at i,
      a run of letters, digits and hyphens, an alphanumeric before the
      '.' at k, and two or more letters up to e. */
  lemma HostAccepts(t: string, i: nat, k: nat, e: nat)
    requires i + 3 <= k <= i + 63 && k + 3 <= e <= |t|
    requires InClass(Alnum, t[i]) && InClass(Alnum, t[k - 1]) && t[k] == '.'
    requires AllIn(HostChars, t, i + 1, k - 1)
    requires AllIn(Letters, t, k + 1, e)
    ensures Accepts(WebsitePattern, t, i, e)
  {
    var p := WebsitePattern;
    assert Accepts(p[7..], t, e, e);
    assert Accepts(p[6..], t, k + 1, e);
    assert InClass([Single('.')], t[k]) by {
      assert ItemHas([Single('.')][0], t[k]);
    }
    assert Accepts(p[5..], t, k, e);
    assert Accepts(p[4..], t, k - 1, e);
    assert Accepts(p[3..], t, i + 1, e);
    assert Accepts(p[2..], t, i, e);
    assert Accepts(p[1..], t, i, e);
  }

  /** Finding: the filter tests each line with the `g` patterns the
      whole-text matches were made with, so a website match on one line
      leaves the website pattern's lastIndex at 6 or more for the next
      line. A website line b shorter than 12 characters is then searched
      only from too near its end, finds nothing and passes as a name line,
      though IsNameLine rejects it. For example a = "www.abc.com",
      b = "abc.de". */
  lemma StaleLastIndexKeepsWebsite(a: string, b: string)
    requires HostLine(a) && '@' !in a && !HasDigit(a)
    requires HostLine(b) && |b| < 12 && forall m :: 0 <= m < |b| && m != 3 ==> 'a' <= b[m] <= 'z'
    ensures NameLinesAsWritten([a, b], Cursors(0, 0, 0)) == [b]
    ensures Filter([a, b], IsNameLine) == []
  {
    LowerNoDigit(b);
    PlainLine(a);
    PlainLine(b);
    WebsiteAt(a);
    WebsiteAt(b);
    var aw := TestAt(WebsitePattern, a, 0).1;
    WebsiteMinLength();
    FirstMatchNearEnd(WebsitePattern, b, aw);
    SkipMatchedLine(a, [b]);
    KeepLine(b, [], Cursors(0, 0, aw));
    var lines := [a, b];
    assert lines[1..] == [b];
    assert [b][1..] == [];
  }

  /** The finding on the lines "www.abc.com" and "abc.de". */
  lemma StaleLastIndexExample()
    ensures NameLinesAsWritten(["www.abc.com", "abc.de"], Cursors(0, 0, 0)) == ["abc.de"]
    ensures Filter(["www.abc.com", "abc.de"], IsNameLine) == []
  {
    var a, b := "www.abc.com", "abc.de";
    StaleLastIndexKeepsWebsite(a, b);
  }

  /** The line opens with three lower-case letters, a '.' and two more
      lower-case letters. */
  predicate HostLine(t: string) {
    6 <= |t| && t[3] == '.' && forall m :: 0 <= m < 6 && m != 3 ==> 'a' <= t[m] <= 'z'
  }

  lemma LowerNoDigit(t: string)
    requires forall m :: 0 <= m < |t| && m != 3 ==> 'a' <= t[m] <= 'z'
    requires 3 < |t| ==> t[3] == '.'
    ensures '@' !in t && !HasDigit(t)
  {
  }

  /** A line with neither '@' nor a digit: no e-mail or phone test
      matches it from the start. */
  lemma PlainLine(line: string)
    requires '@' !in line && !HasDigit(line)
    ensures !Test(EmailPattern, line) && !Test(PhonePattern, line)
  {
    NoAtSignNoEmailMatch(line);
    NoDigitNoPhoneMatch(line);
  }

  /** A line that opens with a host has a website match. */
  lemma WebsiteAt(t: string)
    requires HostLine(t)
    ensures Test(WebsitePattern, t)
  {
    AlnumLetters(t);
    HostAccepts(t, 0, 3, 6);
    MatchComplete(WebsitePattern, t, 0, 6);
  }

  /** A line that only the website test matches is dropped, and moves the
      website pattern's lastIndex to the end of the match. */
  lemma SkipMatchedLine(line: string, rest: seq<string>)
    requires !Test(EmailPattern, line) && !Test(PhonePattern, line) && Test(WebsitePattern, line)
    ensures NameLinesAsWritten([line] + rest, Cursors(0, 0, 0))
         == NameLinesAsWritten(rest, Cursors(0, 0, TestAt(WebsitePattern, line, 0).1))
  {
    assert ([line] + rest)[1..] == rest;
  }

  /** A line no test matches, short and without a digit, is kept, and
      every lastIndex is 0 after it. */
  lemma KeepLine(line: string, rest: seq<string>, at: Cursors)
    requires !TestAt(EmailPattern, line, at.email).0 && !TestAt(PhonePattern, line, at.phone).0
    requires !TestAt(WebsitePattern, line, at.website).0 && |line| < 50 && !HasDigit(line)
    ensures NameLinesAsWritten([line] + rest, at) == [line] + NameLinesAsWritten(rest, Cursors(0, 0, 0))
  {
    assert ([line] + rest)[1..] == rest;
  }

  /** A website match spans at least six characters: two around the
      host's middle run and at least one in it, the '.', two letters. */
  lemma WebsiteMinLength()
    ensures MinLength(WebsitePattern) == 6
  {
    var h := HostPattern;
    assert MinLength(h[4..]) == 2 by {
      assert h[4..][1..] == [];
    }
    assert MinLength(h[3..]) == 3 by {
      assert h[3..][1..] == h[4..];
    }
    assert MinLength(h[2..]) == 4 by {
      assert h[2..][1..] == h[3..];
    }
    assert MinLength(h[1..]) == 5 by {
      assert h[1..][1..] == h[2..];
    }
    assert MinLength(h) == 6 by {
      assert h[1..] == h[1..];
    }
    var schemes := WebsitePattern[..2];
    assert MinLength(schemes) == 0 by {
      assert schemes[1..][1..] == [];
    }
    assert WebsitePattern == schemes + h;
    MinLengthAppend(schemes, h);
  }

  /** The letters of a line, for the host witnesses above. */
  lemma AlnumLetters(t: string)
    ensures forall m :: 0 <= m < |t| && 'a' <= t[m] <= 'z' ==>
              InClass(Alnum, t[m]) && InClass(Letters, t[m])
              && InClass(HostChars, t[m])
  {
    forall m | 0 <= m < |t| && 'a' <= t[m] <= 'z'
      ensures InClass(Alnum, t[m]) && InClass(Letters, t[m])
              && InClass(HostChars, t[m])
    {
      assert ItemHas(Alnum[0], t[m]);
      assert ItemHas(Letters[0], t[m]);
      assert ItemHas(HostChars[0], t[m]);
    }
  }
}
