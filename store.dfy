/**
  The in-memory contact list (`contactData`) and the two handlers that use
  it: GET `/contacts`, which lists it sorted, and POST `/contacts/new`, whose
  middleware chain validates a submission and appends it only when no check
  failed.
*/
module Store {
  import opened JsText
  import opened Contacts
  import opened SeedData
  import opened SortPolicy
  import opened Validation

  /** A submission that passes every check can be appended without breaking
      the store invariant: its fields are well formed and its key is new. */
  lemma {:induction false} AcceptedKeepsInvariant(store: seq<Contact>, t: Contact)
    requires StoreInvariant(store)
    requires Acceptable(t, store)
    ensures StoreInvariant(store + [t])
  {
    var s := store + [t];
    forall i, j | 0 <= i < j < |s| ensures KeyOf(s[i]) != KeyOf(s[j]) {
      if j == |store| {
        assert s[i] == store[i];
      }
    }
  }

  /** One name middleware: pushes at most one message about `name`. */
  method CheckName(name: string, required: Message, tooLong: Message, notAlphabetical: Message,
                   errorMessages: seq<Message>) returns (pushed: seq<Message>)
    ensures pushed == errorMessages + NameErrors(name, required, tooLong, notAlphabetical)
  {
    pushed := errorMessages;
    if |name| == 0 {
      pushed := pushed + [required];
    } else if |name| > MaxNameLength {
      pushed := pushed + [tooLong];
    } else if !IsAlphabetical(name) {
      pushed := pushed + [notAlphabetical];
    }
  }

  /** The uniqueness middleware: looks the joined, lower-cased name up in `contacts`. */
  method CheckUnique(contacts: seq<Contact>, firstName: string, lastName: string,
                     errorMessages: seq<Message>) returns (pushed: seq<Message>)
    ensures pushed == errorMessages + UniquenessErrors(firstName, lastName, contacts)
  {
    pushed := errorMessages;
    var indexOfMatchingContact := FindIndex(contacts, NameKey(firstName, lastName));
    if indexOfMatchingContact != -1 {
      pushed := pushed + [DuplicateContact];
    }
  }

  /** The phone middleware: pushes at most one message about `phoneNumber`. */
  method CheckPhone(phoneNumber: string, errorMessages: seq<Message>) returns (pushed: seq<Message>)
    ensures pushed == errorMessages + PhoneErrors(phoneNumber)
  {
    pushed := errorMessages;
    if |phoneNumber| == 0 {
      pushed := pushed + [PhoneRequired];
    } else if !IsPhoneNumber(phoneNumber) {
      pushed := pushed + [PhoneInvalid];
    }
  }

  class ContactStore {
    var contacts: seq<Contact>

    ghost predicate Valid()
      reads this
    {
      StoreInvariant(contacts)
    }

    /** `let contactData = [...]`: the store starts as the seed data. */
    constructor ()
      ensures Valid() && contacts == Seed()
    {
      contacts := Seed();
      SeedSatisfiesInvariant();
    }

    /** GET `/contacts`: the contacts handed to the view, in display order. */
    method List() returns (listing: seq<Contact>)
      ensures Sorted(listing) && multiset(listing) == multiset(contacts)
      ensures listing == SortContacts(contacts)
    {
      listing := SortContacts(contacts);
    }

    /** POST `/contacts/new`: trims the fields, runs the checks one after the
        other, then either reports the messages with the trimmed fields or
        appends the new contact. */
    method Add(body: Contact) returns (errorMessages: seq<Message>, echoed: Contact)
      requires Valid()
      modifies this
      ensures Valid()
      ensures echoed == Normalize(body)
      ensures errorMessages == Validate(body, old(contacts))
      ensures errorMessages == [] ==> contacts == old(contacts) + [echoed]
      ensures errorMessages != [] ==> contacts == old(contacts)
    {
      errorMessages := [];
      var firstName, lastName, phoneNumber := Trim(body.firstName), Trim(body.lastName), Trim(body.phoneNumber);
      echoed := Contact(firstName, lastName, phoneNumber);
      errorMessages := CheckName(firstName, FirstNameRequired, FirstNameTooLong, FirstNameNotAlphabetical, errorMessages);
      errorMessages := CheckName(lastName, LastNameRequired, LastNameTooLong, LastNameNotAlphabetical, errorMessages);
      errorMessages := CheckUnique(contacts, firstName, lastName, errorMessages);
      errorMessages := CheckPhone(phoneNumber, errorMessages);
      assert errorMessages == Validate(body, contacts) by {
        assert echoed == Normalize(body);
        assert [] + FirstNameErrors(firstName) == FirstNameErrors(firstName);
      }

      if |errorMessages| > 0 {
        return;
      }
      ValidateAcceptsIffAcceptable(body, contacts);
      AcceptedKeepsInvariant(contacts, echoed);
      contacts := contacts + [echoed];
    }
  }
}
