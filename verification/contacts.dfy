/** The contact record the application stores, as a value. A JavaScript
    field that is missing or `undefined` is the empty string here. The code
    mostly tests such fields for truthiness or replaces them with `''`, and
    there the two agree. It does not everywhere: a contact from the manual
    entry form has a full name but no first or last name, the vCard `N` line
    writes those missing names as the text `undefined` (the README's
    "VCardExport.CardLines:" line under "Left out"), and saving drops the
    full name (Saving.ManualNameLost). */
module Contacts {

  /** An entry of `emails`: `{type, email}`. */
  datatype Email = Email(kind: string, email: string)

  /** An entry of `phoneNumbers`: `{type, number}`. */
  datatype Phone = Phone(kind: string, number: string)

  datatype Address = Address(street: string, city: string, state: string, zipCode: string)

  const NoAddress := Address("", "", "", "")

  datatype Contact = Contact(
    id: string,
    firstName: string,
    lastName: string,
    fullName: string,
    company: string,
    jobTitle: string,
    phoneNumbers: seq<Phone>,
    emails: seq<Email>,
    address: Address,
    website: string,
    notes: string,
    category: string,
    createdDate: string,
    lastUpdated: string)

  /** The default type of every e-mail address and phone number the
      scanner and the importer produce. */
  const Work := "work"
}
