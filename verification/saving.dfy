/** The record preparation saveContact does before it stores a contact:
    a new contact gets an id made of the clock and a random suffix, the
    creation date is set once, the last-update date every time, and the
    full name is rebuilt from the first and last names. The clock, the
    random suffix and the ISO time stamp are parameters. */
module Saving {
  import opened Text
  import opened Contacts

  /** What saveContact reads from the world: `Date.now()`, the random
      suffix `Math.random().toString(36).substring(2, 11)`, and
      `new Date().toISOString()`. */
  datatype Clock = Clock(millis: nat, suffix: string, iso: string)

  /** `'contact_' + Date.now() + '_' + suffix` */
  function NewId(millis: nat, suffix: string): (r: string)
    ensures StartsWith(r, "contact_") && r != ""
  {
    "contact_" + Decimal(millis) + "_" + suffix
  }

  /** `iso.split('T')[0]`: the text before the first 'T', all of it when
      there is none. */
  function DatePart(iso: string): (r: string)
    ensures StartsWith(iso, r) && 'T' !in r
    ensures 'T' in iso ==> |r| < |iso| && iso[|r|] == 'T'
    ensures 'T' !in iso ==> r == iso
  {
    SplitHead(iso, 'T');
    NoSeparatorOnePiece(iso, 'T');
    Split(iso, 'T')[0]
  }

  lemma NoSeparatorOnePiece(s: string, sep: char)
    ensures sep !in s ==> Split(s, sep) == [s]
  {
    if sep !in s {
      SplitOfSeparatorFree(s, sep);
    }
  }

  /** `` `${firstName || ''} ${lastName || ''}`.trim() `` */
  function FullName(first: string, last: string): (r: string)
    ensures r != [] ==> !IsSpace(r[0]) && !IsSpace(r[|r| - 1])
    ensures r == [] <==> IsBlank(first) && IsBlank(last)
  {
    BlankAround(first, last);
    Trim(first + " " + last)
  }

  lemma BlankAround(first: string, last: string)
    ensures IsBlank(first + " " + last) <==> IsBlank(first) && IsBlank(last)
  {
    var s := first + " " + last;
    if IsBlank(first) && IsBlank(last) {
      forall i | 0 <= i < |s| ensures IsSpace(s[i]) {
        if i < |first| {
          assert s[i] == first[i];
        } else if i > |first| {
          assert s[i] == last[i - |first| - 1];
        }
      }
    }
    if IsBlank(s) {
      forall i | 0 <= i < |first| ensures IsSpace(first[i]) {
        assert s[i] == first[i];
      }
      forall i | 0 <= i < |last| ensures IsSpace(last[i]) {
        assert s[|first| + 1 + i] == last[i];
      }
    }
  }

  /** The contact as saveContact stores it. */
  function PrepareForSave(c: Contact, clock: Clock): (r: Contact)
    ensures r.id != "" && (c.id != "" ==> r.id == c.id)
    ensures c.id == "" ==> r.id == NewId(clock.millis, clock.suffix)
    ensures r.lastUpdated == DatePart(clock.iso)
    ensures r.createdDate == (if c.createdDate != "" then c.createdDate else r.lastUpdated)
    ensures r.fullName == FullName(c.firstName, c.lastName)
    ensures r.(id := c.id, createdDate := c.createdDate, lastUpdated := c.lastUpdated, fullName := c.fullName) == c
  {
    var now := DatePart(clock.iso);
    c.(id := if c.id != "" then c.id else NewId(clock.millis, clock.suffix),
       createdDate := if c.createdDate != "" then c.createdDate else now,
       lastUpdated := now,
       fullName := FullName(c.firstName, c.lastName))
  }

  /** The contact of the manual entry form has a full name but no first
      or last name. Saving it rebuilds the full name from the two missing
      names, so the name that was entered is lost. */
  lemma ManualNameLost(c: Contact, clock: Clock)
    requires IsBlank(c.firstName) && IsBlank(c.lastName) && c.fullName != ""
    ensures PrepareForSave(c, clock).fullName == "" != c.fullName
  {
  }

  /** The full name a save should store: rebuilt from the first and last
      names, or the full name as entered when both of those are blank. */
  function KeptFullName(c: Contact): (r: string)
    ensures r == "" <==> IsBlank(c.firstName) && IsBlank(c.lastName) && c.fullName == ""
    ensures IsBlank(c.firstName) && IsBlank(c.lastName) ==> r == c.fullName
    ensures !IsBlank(c.firstName) || !IsBlank(c.lastName) ==> r == FullName(c.firstName, c.lastName)
  {
    if IsBlank(c.firstName) && IsBlank(c.lastName) then c.fullName else FullName(c.firstName, c.lastName)
  }

  /** saveContact with the full name kept: it differs from the code only
      for a contact whose first and last names are both blank, and a
      contact that has any name keeps one. */
  function PrepareKeepingName(c: Contact, clock: Clock): (r: Contact)
    ensures r.fullName == "" <==> IsBlank(c.firstName) && IsBlank(c.lastName) && c.fullName == ""
    ensures !IsBlank(c.firstName) || !IsBlank(c.lastName) ==> r == PrepareForSave(c, clock)
    ensures r.(fullName := c.fullName) == PrepareForSave(c, clock).(fullName := c.fullName)
  {
    PrepareForSave(c, clock).(fullName := KeptFullName(c))
  }

  /** Saving a saved contact again keeps its id, its creation date and its
      full name; only the last-update date moves (provided the first time
      stamp had a date part, which an ISO time stamp always has). */
  lemma SaveAgain(c: Contact, first: Clock, second: Clock)
    requires DatePart(first.iso) != ""
    ensures PrepareForSave(PrepareForSave(c, first), second)
         == PrepareForSave(c, first).(lastUpdated := DatePart(second.iso))
  {
  }

  /** The id of a new contact splits at '_' into the word "contact", the
      clock reading in decimal and the suffix (which, written in base 36,
      holds no '_'), so the clock reading can be read back from the id. */
  lemma NewIdParts(millis: nat, suffix: string)
    requires '_' !in suffix
    ensures Split(NewId(millis, suffix), '_') == ["contact", Decimal(millis), suffix]
    ensures DecimalValue(Split(NewId(millis, suffix), '_')[1]) == millis
  {
    var parts := ["contact", Decimal(millis), suffix];
    assert Join(parts, '_') == NewId(millis, suffix) by {
      assert parts[1..][1..] == [suffix];
      assert Join(parts[1..], '_') == Decimal(millis) + "_" + suffix;
    }
    SplitJoin(parts, '_');
    DecimalRoundTrip(millis);
  }

  /** Two new ids are equal only when the clock readings and the suffixes
      are. */
  lemma NewIdInjective(m1: nat, s1: string, m2: nat, s2: string)
    requires '_' !in s1 && '_' !in s2
    ensures NewId(m1, s1) == NewId(m2, s2) <==> m1 == m2 && s1 == s2
  {
    NewIdParts(m1, s1);
    NewIdParts(m2, s2);
    if NewId(m1, s1) == NewId(m2, s2) {
      assert Split(NewId(m1, s1), '_')[2] == s1;
    }
  }

  /** The full name is the two names with one space between them when
      neither has white space at its ends, and the other name alone when
      one of them is empty. */
  lemma FullNameOfParts(first: string, last: string)
    requires first != [] ==> !IsSpace(first[0]) && !IsSpace(first[|first| - 1])
    requires last != [] ==> !IsSpace(last[0]) && !IsSpace(last[|last| - 1])
    ensures first != [] && last != [] ==> FullName(first, last) == first + " " + last
    ensures last == [] ==> FullName(first, last) == first
    ensures first == [] ==> FullName(first, last) == last
  {
    var s := first + " " + last;
    if first != [] && last != [] {
      assert s[0] == first[0] && s[|s| - 1] == last[|last| - 1];
      TrimOfTrimmed(s);
    } else if first == [] && last == [] {
      assert IsBlank(first) && IsBlank(last);
    } else if last == [] {
      assert TrimStart(s) == s by {
        assert s[0] == first[0];
      }
      assert TrimEnd(s) == TrimEnd(first) by {
        assert s[..|s| - 1] == first;
      }
      assert TrimEnd(first) == first;
      TrimOfTrimmed(first);
    } else {
      assert s == " " + last;
      assert TrimStart(s) == TrimStart(last) by {
        assert s[1..] == last;
      }
      assert TrimStart(last) == last;
      assert TrimEnd(last) == last;
    }
  }
}
