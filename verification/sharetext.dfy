/** The plain-text card used for sharing a contact: the full name, then
    company and job title when set, one `type: number` line per phone, one
    `type: address` line per e-mail, and `Website: ...` when set; every
    line ends with a line break. */
module ShareText {
  import opened Text
  import opened Seqs
  import opened Contacts

  function WhenSet(value: string): seq<string> {
    if value != "" then [value] else []
  }

  function PhoneLines(phones: seq<Phone>): (r: seq<string>)
    ensures |r| == |phones|
  {
    seq(|phones|, i requires 0 <= i < |phones| => phones[i].kind + ": " + phones[i].number)
  }

  function EmailLines(emails: seq<Email>): (r: seq<string>)
    ensures |r| == |emails|
  {
    seq(|emails|, i requires 0 <= i < |emails| => emails[i].kind + ": " + emails[i].email)
  }

  function WebsiteLine(website: string): seq<string> {
    if website != "" then ["Website: " + website] else []
  }

  /** The lines of the text, in the order they are written. */
  function ShareLines(c: Contact): seq<string> {
    [c.fullName] + WhenSet(c.company) + WhenSet(c.jobTitle)
    + PhoneLines(c.phoneNumbers) + EmailLines(c.emails) + WebsiteLine(c.website)
  }

  function ContactText(c: Contact): string {
    Unlines(ShareLines(c))
  }

  /** Where each piece of the contact sits in the text: the name first,
      then the optional company and title, the phone numbers from line
      `1 + o` on (o counting the organisation lines that were written), the
      addresses after them, and the website last. */
  lemma ShareLayout(c: Contact)
    ensures var ls := ShareLines(c);
      var o := Indicator(c.company != "") + Indicator(c.jobTitle != "");
      && |ls| == 1 + o + |c.phoneNumbers| + |c.emails| + Indicator(c.website != "")
      && ls[0] == c.fullName
      && (c.company != "" ==> ls[1] == c.company)
      && (c.jobTitle != "" ==> ls[o] == c.jobTitle)
      && (forall k :: 0 <= k < |c.phoneNumbers| ==>
            ls[1 + o + k] == c.phoneNumbers[k].kind + ": " + c.phoneNumbers[k].number)
      && (forall k :: 0 <= k < |c.emails| ==>
            ls[1 + o + |c.phoneNumbers| + k] == c.emails[k].kind + ": " + c.emails[k].email)
      && (c.website != "" ==> ls[|ls| - 1] == "Website: " + c.website)
  {
    var head := [c.fullName] + WhenSet(c.company) + WhenSet(c.jobTitle);
    var phones := PhoneLines(c.phoneNumbers);
    var emails := EmailLines(c.emails);
    var ls := ShareLines(c);
    assert ls == head + phones + emails + WebsiteLine(c.website);
    var o := Indicator(c.company != "") + Indicator(c.jobTitle != "");
    assert |head| == 1 + o;
    forall k | 0 <= k < |c.phoneNumbers|
      ensures ls[1 + o + k] == c.phoneNumbers[k].kind + ": " + c.phoneNumbers[k].number
    {
      assert ls[1 + o + k] == phones[k];
    }
    forall k | 0 <= k < |c.emails|
      ensures ls[1 + o + |c.phoneNumbers| + k] == c.emails[k].kind + ": " + c.emails[k].email
    {
      assert ls[1 + o + |c.phoneNumbers| + k] == emails[k];
    }
  }

  /** No field the text writes holds a line break. */
  ghost predicate SingleLineFields(c: Contact) {
    && '\n' !in c.fullName && '\n' !in c.company && '\n' !in c.jobTitle
    && '\n' !in c.website
    && (forall i :: 0 <= i < |c.phoneNumbers| ==>
          '\n' !in c.phoneNumbers[i].kind && '\n' !in c.phoneNumbers[i].number)
    && (forall i :: 0 <= i < |c.emails| ==>
          '\n' !in c.emails[i].kind && '\n' !in c.emails[i].email)
  }

  /** When no field holds a line break, the text splits at its line breaks
      into exactly the lines above, the last of them followed by one empty
      piece: the text starts with the name and ends with a line break. */
  lemma ContactTextLines(c: Contact)
    requires SingleLineFields(c)
    ensures Split(ContactText(c), '\n') == ShareLines(c) + [""]
  {
    ShareLinesUnbroken(c);
    SplitUnlines(ShareLines(c));
  }

  lemma ShareLinesUnbroken(c: Contact)
    requires SingleLineFields(c)
    ensures Unbroken(ShareLines(c))
  {
    var head := [c.fullName] + WhenSet(c.company) + WhenSet(c.jobTitle);
    var phones := PhoneLines(c.phoneNumbers);
    var emails := EmailLines(c.emails);
    assert Unbroken(head);
    assert Unbroken(phones) by {
      forall k | 0 <= k < |phones| ensures '\n' !in phones[k] {
        assert phones[k] == c.phoneNumbers[k].kind + ": " + c.phoneNumbers[k].number;
      }
    }
    assert Unbroken(emails) by {
      forall k | 0 <= k < |emails| ensures '\n' !in emails[k] {
        assert emails[k] == c.emails[k].kind + ": " + c.emails[k].email;
      }
    }
    assert Unbroken(WebsiteLine(c.website));
    UnbrokenAppend(head, phones);
    UnbrokenAppend(head + phones, emails);
    UnbrokenAppend(head + phones + emails, WebsiteLine(c.website));
  }
}
