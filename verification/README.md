# Contact manager core, in Dafny

A model of the data-handling core of the contact manager's `ContactManager`
class (`app.js`). The parts of the class that compute something from a value
are written as pure Dafny functions over immutable records, and their
properties are proved:

- **The business-card scanner** (`parseOCRText`). It finds the first e-mail
  address, phone number, website and ZIP code in the text the OCR engine
  returned. Its four regular expressions run on a small backtracking engine
  (`Regex`) that has a declarative reference semantics. The first three
  lines that pass the name-line test become the name, the job title and the
  company.
- **The contact list filter** (`applyFilters`): a case-insensitive search
  over the name, company, title, e-mail, phone and notes fields, then a
  category filter.
- **The three exports:**
  - the CSV export (`exportToCSV`), with a reader for its file format;
  - the vCard export (`exportToVCard`), as typed content lines;
  - the plain-text share message (`generateContactText`).
- **The record preparation of `saveContact`:** id, dates and full name.
- **The CSV import:**
  - the header row and the preview count of `handleImportFile`;
  - the row-to-draft mapping of `importCSVData`;
  - what the import makes of the file the CSV export writes.

A JavaScript field that is missing or `undefined` is the empty string in the
model. The code mostly tests such fields for truthiness or replaces them with
`''`, and there the two agree. It does not everywhere: a contact from the
manual entry form (`processManualExtraction`) has a full name but no first or
last name, and the vCard `N` line writes the missing names as the text
`undefined` (see "Left out"); `saveContact` loses that full name (see
"Findings").

Modules, by file:

| file | module | what it holds |
|---|---|---|
| option.dfy | `Maybe` | `Option` |
| text.dfy | `Text` | `split`, `join`, `trim`, ASCII case mapping, decimal numerals |
| seqs.dfy | `Seqs` | `filter`, `map`, counting, subsequences |
| contacts.dfy | `Contacts` | the contact record |
| regex.dfy | `Regex` | the regular-expression fragment and its matcher |
| greedy.dfy | `GreedyMatch` | when the matcher's answer is the longest match |
| patterns.dfy | `Patterns` | the scanner's four patterns |
| longest.dfy | `LongestMatch` | the four patterns are matched longest-first |
| ocr.dfy | `OcrScan` | `parseOCRText` |
| search.dfy | `ContactSearch` | `applyFilters` |
| saving.dfy | `Saving` | the record preparation in `saveContact` |
| csv.dfy | `CsvExport` | `exportToCSV` and a reader for its output |
| csvimport.dfy | `CsvImport` | `handleImportFile` / `importCSVData` |
| roundtrip.dfy | `CsvRoundTrip` | importing what the CSV export writes |
| vcard.dfy | `VCardExport` | `exportToVCard` |
| sharetext.dfy | `ShareText` | `generateContactText` |

## Model

| member | source | states |
|---|---|---|
| Regex.MatchSound | app.js:1563-1585 | whatever end position the backtracking matcher returns is a way the pattern can match the slice |
| Regex.MatchComplete | app.js:1563-1585 | whenever the pattern can match from a position, the matcher finds a match there |
| Regex.FirstMatchSpec | app.js:1564 | for any pattern, the search returns a match that starts at the leftmost position where one starts, and nothing exactly when no slice from the start position matches (which end it takes is stated by `GreedyMatch.FirstMatchLongest`) |
| Regex.TestSpec | app.js:1592-1594 | a test from position 0 succeeds exactly when some slice of the line matches |
| Regex.FirstMatchTextSpec | app.js:1564-1566 | for any pattern, element 0 of `match` is a match at the leftmost start, verbatim; there is none exactly when nothing matches |
| Regex.AcceptsMinLength | app.js:1577 | every match spans at least the pattern's minimum length |
| Regex.FirstMatchNearEnd | app.js:1592-1594 | a search that starts closer to the end of the line than the pattern's minimum length finds nothing |
| GreedyMatch.GreedyClass | app.js:1563-1584 | a class or word boundary in front of a pattern whose matcher answers with the longest match keeps that so |
| GreedyMatch.GreedyOptional | app.js:1577-1584 | an optional group keeps the matcher's answer the longest match when every way of skipping it ends no later than every way of taking it |
| GreedyMatch.GreedyRepeat | app.js:1563-1584 | a greedy repetition keeps the matcher's answer the longest match when a longer run never lets the rest end earlier than a shorter one |
| GreedyMatch.TryRepeatPicks | app.js:1563-1584 | backtracking through a repetition stops at the longest run after which the rest of the pattern matches; the rest matches after no longer run |
| GreedyMatch.RunLengthMax | app.js:1563-1584 | no run of a class within the bound is longer than the greedy run |
| GreedyMatch.AcceptsStart | app.js:1570 | a match starting inside the text starts with a character that can begin one |
| GreedyMatch.FirstMatchLongest | app.js:1564 | when the matcher's answer is the longest match from each position, the search returns the leftmost match and the longest of those starting there, and nothing exactly when nothing matches |
| GreedyMatch.FirstMatchTextLongest | app.js:1564-1566 | for such a pattern, element 0 of `match` is that leftmost-longest match, verbatim; there is none exactly when nothing matches |
| LongestMatch.EmailGreedy | app.js:1563 | from every position, the matcher's answer for the e-mail pattern is the furthest end of any e-mail match there |
| LongestMatch.EmailDomainDominates | app.js:1563 | a longer run of domain characters never ends an e-mail match earlier: a shorter run's top-level domain stops at a '.' the longer run holds |
| LongestMatch.PhoneGreedy | app.js:1570 | from every position, the matcher's answer for the phone pattern is the furthest end of any phone match there |
| LongestMatch.AcceptsDigits | app.js:1570 | a match of a pattern made of exact digit groups and optional runs of non-digits holds exactly as many digits as its groups ask for |
| LongestMatch.PhoneRestCounted | app.js:1570 | the phone pattern after its optional '+' and '1' is such a pattern, with ten digits in all |
| LongestMatch.PhoneOneDominates | app.js:1570 | where a phone match can both take and skip a leading '1', taking it ends the match no earlier |
| LongestMatch.WebsiteGreedy | app.js:1577 | from every position, the matcher's answer for the website pattern is the furthest end of any website match there |
| LongestMatch.HostShape | app.js:1577 | a host match is at least three letters, digits or hyphens, a '.', and two or more letters up to its end |
| LongestMatch.WwwDominates | app.js:1577 | taking "www." never ends a website match earlier than reading "www" as the start of the host |
| LongestMatch.SchemeExcludesHost | app.js:1577 | where "http://" or "https://" can be taken, nothing matches without it |
| LongestMatch.ZipGreedy | app.js:1584 | from every position, the matcher's answer for the ZIP pattern is the furthest end of any ZIP match there |
| Regex.MandatoryCharPresent | app.js:1563-1585 | every match holds a character of each element the pattern cannot skip |
| OcrScan.ParseOcrText | app.js:1548-1614 | street, city and state stay empty; first name, job title and company are set exactly when at least one, two or three lines pass the name-line test; there is no last name without a first name; the e-mail, phone, website and ZIP fields are the leftmost-longest scans of the whole text that the `OcrScan.Scan*IsFirstMatch` rows describe |
| OcrScan.ScanEmails | app.js:1563-1567 | at most one e-mail entry, of type "work"; none exactly when the text has no e-mail match |
| OcrScan.ScanPhones | app.js:1570-1574 | at most one phone entry, of type "work"; none exactly when the text has no phone match |
| OcrScan.ScanWebsite | app.js:1577-1581 | the website is empty exactly when there is no match; otherwise it starts with "http" and applying the prefix rule again leaves it unchanged |
| OcrScan.ScanEmailIsFirstMatch | app.js:1562-1567 | the e-mail list holds, as a work address, the leftmost e-mail match of the whole text, the longest of those starting there; it is empty exactly when there is none |
| OcrScan.ScanPhoneIsFirstMatch | app.js:1569-1574 | the phone list holds the leftmost phone match, the longest of those starting there, verbatim and not reformatted; it is empty exactly when there is none |
| OcrScan.ScanWebsiteIsFirstMatch | app.js:1576-1581 | the website is the leftmost website match, the longest of those starting there, with the scheme rule applied; it is empty exactly when there is none |
| OcrScan.WithScheme | app.js:1580 | the result starts with "http"; it is the match itself or "https://" in front of it |
| OcrScan.ScanZipIsFirstMatch | app.js:1583-1588 | the ZIP code is the leftmost ZIP match, the longest of those starting there; it is empty exactly when there is none |
| OcrScan.NoAtSignNoEmail | app.js:1563-1567 | a text without '@' yields no e-mail address |
| OcrScan.NoDigitNoPhoneOrZip | app.js:1570-1588 | a text without a digit yields no phone number and no ZIP code |
| OcrScan.NameLinesAreNonBlank | app.js:1560-1597 | every line used for the name, title or company is non-blank and passes the name-line test |
| OcrScan.NameFieldsFromFirstPassingLines | app.js:1591-1611 | name, title and company come from the first, second and third passing lines, in text order; a line is among the passing ones exactly when it passes the test |
| OcrScan.SplitName | app.js:1599-1603 | the first name holds no space; when the trimmed line has a space, first name, a space and last name give back the trimmed line; the first name is empty only for a blank line |
| OcrScan.TitleAndCompanyAreClean | app.js:1605-1611 | job title and company are trimmed, hold no digit and are shorter than 50 characters |
| OcrScan.NameIsClean | app.js:1599-1603 | first and last name hold no digit and together are shorter than 50 characters |
| OcrScan.TestAt | app.js:1592-1594 | a `g`-flag test succeeds exactly when a match exists from lastIndex; on success lastIndex moves to the match's end, at least a minimum match length further; on failure it is 0 |
| OcrScan.NameLinesAsWritten | app.js:1591-1597 | the filter as the code runs it keeps no more lines than it is given; each line it keeps is one of them, shorter than 50 characters and without a digit |
| OcrScan.AsWrittenAgreesWithoutMatches | app.js:1591-1597 | when no line matches any of the three patterns, the filter as written and the name-line test agree |
| OcrScan.StaleLastIndexKeepsWebsite | app.js:1577-1597 | after a website line, a short website line passes the filter as written, though the name-line test rejects both |
| OcrScan.StaleLastIndexExample | app.js:1577-1597 | the lines "www.abc.com" and "abc.de" give the name line "abc.de" as written, and no name line under the test |
| ContactSearch.ApplyFilters | app.js:690-754 | the list is the contacts that pass both the search and the category filter, in their order; a contact is listed exactly when it passes both; with neither set, every contact is listed |
| ContactSearch.FiltersCombine | app.js:693-752 | the search filter followed by the category filter is the filter by both conditions at once |
| ContactSearch.SearchIgnoresTermCase | app.js:695 | with the ASCII case mapping, upper-casing or lower-casing the search term does not change the list |
| Text.LowerForgetsCase | app.js:695-741 | with the ASCII case mapping, lower-casing after upper-casing or after lower-casing is lower-casing |
| Saving.PrepareForSave | app.js:77-90 | an id is kept, or a new one is made from the clock reading and the random suffix; the creation date is kept or set to today; the update date is today; the full name is rebuilt; no other field changes |
| Saving.ManualNameLost | app.js:1383-1392 | a contact with a full name but blank first and last names is saved with an empty full name |
| Saving.PrepareKeepingName | app.js:77-90 | with the full name kept when both names are blank, a saved contact has an empty full name only when it has no name at all; otherwise the save is the code's |
| Saving.SaveAgain | app.js:77-90 | saving a saved contact again changes only its last-update date |
| Saving.NewIdParts | app.js:79 | a new id splits at '_' into "contact", the clock reading in decimal and the suffix; the clock reading can be read back |
| Saving.NewIdInjective | app.js:79 | two new ids are equal exactly when their clock readings and suffixes are |
| Saving.DatePart | app.js:83 | the date is the part of the time stamp before the first 'T', or all of it when there is none |
| Saving.FullName | app.js:90 | the full name has no white space at either end, and is empty exactly when both names are blank |
| Saving.FullNameOfParts | app.js:90 | for trimmed names the full name is both names with one space between them, or the one that is not empty |
| Text.DecimalRoundTrip | app.js:79 | the decimal numeral of a number reads back as that number |
| CsvExport.ExportCsvRoundTrip | app.js:2007-2024 | reading the exported file by the quoting rule of RFC 4180 gives back, for each contact, in order, the eight values the export took from it |
| CsvExport.ReadQuoted | app.js:2021 | stripping the outer quotes of a written field and un-doubling the inner ones gives the field back |
| CsvExport.ReadRow | app.js:2010-2023 | a written row reads back as its fields, whatever follows the row |
| CsvExport.CsvIgnoresLaterEntries | app.js:2017-2018 | only the first e-mail address and the first phone number reach the file |
| CsvImport.IndexOf | app.js:1930-1945 | the position of the first column with that name, or -1 exactly when there is none |
| CsvImport.DraftIgnoresColumnOrder | app.js:1929-1947 | with distinct column names, exchanging two columns, header and values together, leaves the draft as it was, except a name whose column is empty and whose fallback value (the first or second) moved |
| CsvImport.ImportIsFilterThenMap | app.js:1921-1954 | the import keeps the non-blank lines after the header, in order, and maps each to its draft |
| CsvImport.ImportCount | app.js:1921-1954 | one draft per non-blank line after the header |
| CsvRoundTrip.ExportLines | app.js:2007-2024 | for contacts without line breaks in their values, the exported file's lines are the header, one row per contact, and an empty last line |
| CsvRoundTrip.HeaderReadBack | app.js:1902-1905 | the import reads the export's header line back as the export's column names |
| CsvRoundTrip.ImportOfExport | app.js:1902-1953 | for contacts without line breaks in their values, importing an export gives the draft of each contact's row, one per contact, in order |
| CsvRoundTrip.ImportOfExportAsWritten | app.js:1925-1953 | for one exported contact whose values hold no comma, quote or line break, the comma split the code uses builds the draft from its values with their quotes |
| CsvRoundTrip.ImportKeepsQuotes | app.js:1929-1930 | for one exported contact whose values hold no comma, quote or line break, after an export and an import the first name comes back in quotes, and differs from the original |
| CsvRoundTrip.ImportOfExportQuoteAware | app.js:1925-1953 | for contacts without line breaks in their values, with a quote-aware reader, importing an export gives each contact's trimmed values back, one draft per contact, in order |
| CsvRoundTrip.RecoveredFields | app.js:1929-1947 | with that reader the names, company and title come back trimmed; the first e-mail and phone come back when not blank |
| CsvRoundTrip.SplitFieldsOfRow | app.js:2021-2023 | the quote-aware reader splits a written row back into its fields |
| CsvRoundTrip.PreviewOvercounts | app.js:1911 | for an exported file of contacts without line breaks in their values, the preview announces one more contact than the import creates |
| CsvRoundTrip.PreviewCountCorrectedMatches | app.js:1911-1927 | the corrected preview count equals the number of drafts the import creates |
| VCardExport.CardLines | app.js:1981-2001 | a block opens with BEGIN and VERSION, then FN with the full name and N with five components (last name, first name and three empty ones), and closes with END |
| VCardExport.CardCounts | app.js:1982-2001 | a card holds one BEGIN, VERSION, FN, N and END line; one ORG, TITLE, URL and NOTE line exactly when the field is set; one TEL per phone number and one EMAIL per address |
| VCardExport.CardTelAndEmailLines | app.js:1990-1996 | the TEL lines are the phone numbers, in order, and the EMAIL lines are the addresses, in order |
| VCardExport.TypedLineText | app.js:1990-1996 | each TEL and EMAIL line carries its entry's type in upper case, then its value |
| VCardExport.CardTextCounts | app.js:1990-1996 | counting the written lines by their property name finds one TEL line per phone number and one EMAIL line per address |
| VCardExport.NameTextInjective | app.js:1982-2001 | different properties are written with different names |
| VCardExport.ExportLines | app.js:1978-2005 | for contacts without line breaks in their fields, the file splits into the cards' lines with an empty line after each card |
| VCardExport.FileCounts | app.js:1978-2005 | the file holds one BEGIN line and one END line per contact |
| ShareText.ShareLayout | app.js:2076-2092 | the full name comes first, then the company and title when set, the phone lines, the e-mail lines, and the website line last |
| ShareText.ContactTextLines | app.js:2076-2092 | for fields without line breaks, the text splits into exactly those lines, each ended by a line break |
| Text.SplitJoin | app.js:1902 | splitting the join of separator-free pieces gives the pieces back |
| Text.JoinSplit | app.js:1600-1602 | joining the pieces of a split gives the text back |

## Left out

- Storage, the user interface and the device: IndexedDB, the DOM, the camera, the OCR engine itself, toasts, themes, gestures, file download, the share sheet and the clipboard. These are I/O or foreign code. `saveContact` is modelled up to the record it stores. The CSV import ends at the drafts it hands to `saveContact`.
- `exportToExcel` calls the XLSX library, whose output is not part of this model. `server.js` is static file serving and is not part of this model either.
- Strings are sequences of Dafny characters. JavaScript's UTF-16 code units and surrogate pairs are not modelled, and case mapping covers the ASCII letters only. White space, for `trim` and the `\s` class, is the full set JavaScript uses.
- ContactSearch.SearchIgnoresTermCase: holds for the ASCII case mapping of the model only. JavaScript's full Unicode mapping can change a string's length ("ß" upper-cases to "SS", which lower-cases to "ss"), and with it the term that is searched.
- Text.LowerForgetsCase: holds for the ASCII case mapping only, for the same reason.
- OcrScan.ParseOcrText: each line's name-line test is a fresh search from the line's start, not the code's search with the shared `g`-flag lastIndex. The code's behaviour is modelled separately by `OcrScan.NameLinesAsWritten` (see "Findings").
- VCardExport.CardLines: a contact without a `firstName` or `lastName` field (one from the manual entry form) gets the text `undefined` for that name in the code's `N` line; the model writes the empty string there.
- `Date.now()`, `Math.random()` and `new Date().toISOString()` are parameters of `saveContact` (`Saving.Clock`), not computed.
- The CSV import reads a contact's website and notes from no column, although the export writes both. This follows the code, and the drafts' website and notes are empty.
- ContactSearch.ApplyFilters: the search term and the category are parameters rather than the fields `currentSearchTerm` and `currentCategoryFilter`. The result is returned rather than stored in `filteredContacts`.
- VCardExport: values are written without the backslash escaping of commas, semicolons and line breaks that the text-value rule of RFC 2426 (section 4, the formal grammar of vCard 3.0) asks for. The code does not escape, and the model follows it. The line split of `VCardExport.ExportLines` is stated for line-break-free fields only.

## Findings

| source | as written | input that shows it | evidently intended | confidence | as-written member | corrected member |
|---|---|---|---|---|---|---|
| app.js:1929-1947 | the import cuts each line at every comma and keeps the double quotes the CSV export writes around every value | a contact with first name "Ann", exported and imported again, comes back with first name "\"Ann\"" and an e-mail address made of two quote characters | the import reads the export's quoted fields, so the contact comes back with its own values | not executed | CsvRoundTrip.ImportKeepsQuotes | CsvRoundTrip.ImportOfExportQuoteAware |
| app.js:1911 | the preview announces `rows.length - 1` contacts, counting the empty line after the last line break and any blank lines | the export of one contact: the preview says 2, the import creates 1 | announce the number of non-blank lines after the header, which is what the import creates | not executed | CsvRoundTrip.PreviewOvercounts | CsvRoundTrip.PreviewCountCorrectedMatches |
| app.js:1563-1597 | the name-line filter tests each line with the same `g`-flag patterns, so a match on one line moves that pattern's lastIndex and the next line is searched only from there | the lines "www.abc.com" and "abc.de": the second is a website but passes as a name line | each line is tested from its start, as the stateless name-line test does | not executed | OcrScan.StaleLastIndexKeepsWebsite | OcrScan.NameFieldsFromFirstPassingLines |
| app.js:77-90 | `saveContact` always rebuilds the full name from `firstName` and `lastName`; the manual entry form (app.js:1383-1392) gives only a full name | a name typed by hand as "Ann Lee", with no first or last name: the contact is stored with full name "" | keep the full name that was entered when there is no first or last name to rebuild it from | not executed | Saving.ManualNameLost | Saving.PrepareKeepingName |
