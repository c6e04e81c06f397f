/** applyFilters (app.js:690-754): the contact list's search box and
    category drop-down. A non-empty search term keeps the contacts one of
    whose fields contains it, ignoring case (phone numbers are compared
    as they are); a non-empty category then keeps the contacts of exactly
    that category. */
module ContactSearch {
  import opened Text
  import opened Seqs
  import opened Contacts

  /** Some searched field of c contains `term`, which the caller has
      already lower-cased: the full name, first name, last name, company,
      job title, an e-mail address or the notes after lower-casing them,
      or a phone number as it is. */
  predicate MatchesTerm(c: Contact, term: string) {
    || Contains(Lower(c.fullName), term)
    || Contains(Lower(c.firstName), term)
    || Contains(Lower(c.lastName), term)
    || Contains(Lower(c.company), term)
    || Contains(Lower(c.jobTitle), term)
    || (exists k :: 0 <= k < |c.emails| && Contains(Lower(c.emails[k].email), term))
    || (exists k :: 0 <= k < |c.phoneNumbers| && Contains(c.phoneNumbers[k].number, term))
    || Contains(Lower(c.notes), term)
  }

  /** The combined condition: a contact is listed when it passes the
      search (or there is no search term) and is in the category (or no
      category is chosen). */
  predicate Selected(c: Contact, searchTerm: string, category: string) {
    && (searchTerm == "" || MatchesTerm(c, Lower(searchTerm)))
    && (category == "" || c.category == category)
  }

  function ApplyFilters(contacts: seq<Contact>, searchTerm: string, category: string): (r: seq<Contact>)
    ensures r == Filter(contacts, c => Selected(c, searchTerm, category))
    ensures IsSubsequence(r, contacts)
    ensures forall c :: c in r <==> c in contacts && Selected(c, searchTerm, category)
    ensures searchTerm == "" && category == "" ==> r == contacts
  {
    var term := Lower(searchTerm);
    var searched := if |searchTerm| > 0 then Filter(contacts, c => MatchesTerm(c, term)) else contacts;
    var r := if |category| > 0 then Filter(searched, (c: Contact) => c.category == category) else searched;
    FiltersCombine(contacts, searchTerm, category);
    SelectedFilter(contacts, searchTerm, category);
    r
  }

  /** The filter by the combined condition keeps a subsequence, and keeps
      everything when there is neither a term nor a category. */
  lemma SelectedFilter(contacts: seq<Contact>, searchTerm: string, category: string)
    ensures var r := Filter(contacts, c => Selected(c, searchTerm, category));
      && IsSubsequence(r, contacts)
      && (forall c :: c in r <==> c in contacts && Selected(c, searchTerm, category))
      && (searchTerm == "" && category == "" ==> r == contacts)
  {
    var both := c => Selected(c, searchTerm, category);
    FilterIsSubsequence(contacts, both);
    if searchTerm == "" && category == "" {
      FilterKeepsAll(contacts, both);
    }
  }

  /** Searching and then filtering by category is one filter by the
      combined condition. */
  lemma FiltersCombine(contacts: seq<Contact>, searchTerm: string, category: string)
    ensures var term := Lower(searchTerm);
            var searched := if |searchTerm| > 0 then Filter(contacts, c => MatchesTerm(c, term)) else contacts;
            (if |category| > 0 then Filter(searched, (c: Contact) => c.category == category) else searched)
              == Filter(contacts, c => Selected(c, searchTerm, category))
  {
    var term := Lower(searchTerm);
    var search := (c: Contact) => MatchesTerm(c, term);
    var inCategory := (c: Contact) => c.category == category;
    var both := (c: Contact) => Selected(c, searchTerm, category);
    if |searchTerm| > 0 && |category| > 0 {
      FilterTwice(contacts, search, inCategory, both);
    } else if |searchTerm| > 0 {
      FilterSameKeep(contacts, search, both);
    } else if |category| > 0 {
      FilterSameKeep(contacts, inCategory, both);
    } else {
      FilterKeepsAll(contacts, both);
    }
  }

  lemma {:induction false} FilterSameKeep(s: seq<Contact>, p: Contact -> bool, q: Contact -> bool)
    requires forall c :: p(c) == q(c)
    ensures Filter(s, p) == Filter(s, q)
    decreases |s|
  {
    if s != [] {
      FilterSameKeep(s[1..], p, q);
    }
  }

  /** The search ignores the case of the search term. */
  lemma SearchIgnoresTermCase(contacts: seq<Contact>, searchTerm: string, category: string)
    ensures ApplyFilters(contacts, Upper(searchTerm), category) == ApplyFilters(contacts, searchTerm, category)
    ensures ApplyFilters(contacts, Lower(searchTerm), category) == ApplyFilters(contacts, searchTerm, category)
  {
    LowerForgetsCase(searchTerm);
    FiltersCombine(contacts, Upper(searchTerm), category);
    FiltersCombine(contacts, Lower(searchTerm), category);
    FiltersCombine(contacts, searchTerm, category);
    FilterSameKeep(contacts, c => Selected(c, Upper(searchTerm), category), c => Selected(c, searchTerm, category));
    FilterSameKeep(contacts, c => Selected(c, Lower(searchTerm), category), c => Selected(c, searchTerm, category));
  }
}
