/**
  Concrete submissions against the seed data and against an empty store,
  with the outcome the handlers give for each. Each check is settled in a
  lemma of its own, and the scenarios put them together.
*/
module Scenarios {
  import opened JsText
  import opened Contacts
  import opened SeedData
  import opened SortPolicy
  import opened Validation
  import opened Store

  /** A submission whose fields have no whitespace at either end is left as it is. */
  lemma {:induction false} NormalizeKeepsTrimmed(c: Contact)
    requires c.firstName == [] || (!IsTrimmable(c.firstName[0]) && !IsTrimmable(c.firstName[|c.firstName| - 1]))
    requires c.lastName == [] || (!IsTrimmable(c.lastName[0]) && !IsTrimmable(c.lastName[|c.lastName| - 1]))
    requires c.phoneNumber == [] || (!IsTrimmable(c.phoneNumber[0]) && !IsTrimmable(c.phoneNumber[|c.phoneNumber| - 1]))
    ensures Normalize(c) == c
  {
    TrimFixesTrimmed(c.firstName);
    TrimFixesTrimmed(c.lastName);
    TrimFixesTrimmed(c.phoneNumber);
  }

  lemma {:induction false} PhoneFormatExamples()
    ensures IsPhoneNumber("555-123-4567")
    ensures !IsPhoneNumber("5551234567")
  {
    PhoneNumberByPositions("555-123-4567");
    PhoneNumberShape("5551234567");
  }

  lemma {:induction false} SmithLastNameAccepted()
    ensures LastNameErrors("Smith") == []
  {
    assert IsValidName("Smith");
  }

  lemma {:induction false} SmithPhoneAccepted()
    ensures PhoneErrors("111-111-1111") == []
  {
    PhoneNumberByPositions("111-111-1111");
  }

  lemma {:induction false} EmptyFirstNameNormalized()
    ensures Normalize(Contact("", "Smith", "111-111-1111")) == Contact("", "Smith", "111-111-1111")
  {
    NormalizeKeepsTrimmed(Contact("", "Smith", "111-111-1111"));
  }

  /** An empty first name yields only the first-name message. */
  lemma {:induction false} MissingFirstName()
    ensures Validate(Contact("", "Smith", "111-111-1111"), []) == [FirstNameRequired]
  {
    EmptyFirstNameNormalized();
    assert FirstNameErrors("") == [FirstNameRequired];
    SmithLastNameAccepted();
    assert UniquenessErrors("", "Smith", []) == [];
    SmithPhoneAccepted();
  }

  lemma {:induction false} JohnDigitsNormalized()
    ensures Normalize(Contact("John123", "Smith", "111-111-1111")) == Contact("John123", "Smith", "111-111-1111")
  {
    NormalizeKeepsTrimmed(Contact("John123", "Smith", "111-111-1111"));
  }

  lemma {:induction false} JohnDigitsRejected()
    ensures FirstNameErrors("John123") == [FirstNameNotAlphabetical]
  {
    assert !IsAsciiLetter("John123"[4]);
  }

  lemma {:induction false} JohnSmithUnique()
    ensures UniquenessErrors("John123", "Smith", []) == []
  {
  }

  /** Digits in a first name yield the alphabetical-characters message. */
  lemma {:induction false} DigitsInFirstName()
    ensures Validate(Contact("John123", "Smith", "111-111-1111"), []) == [FirstNameNotAlphabetical]
  {
    JohnDigitsNormalized();
    JohnDigitsRejected();
    SmithLastNameAccepted();
    JohnSmithUnique();
    SmithPhoneAccepted();
  }

  lemma {:induction false} PaddedMikeTrimmed()
    ensures Trim(" mike ") == "mike"
  {
    assert IsTrimmable(' ') && !IsTrimmable('m') && !IsTrimmable('e');
    assert " mike "[1..] == "mike " && "mike "[..4] == "mike";
    assert TrimStart("mike ") == "mike ";
    assert TrimStart(" mike ") == "mike ";
    assert TrimEnd("mike") == "mike";
    assert TrimEnd("mike ") == "mike";
  }

  lemma {:induction false} JonesTrimmed()
    ensures Trim("JONES") == "JONES"
  {
    TrimFixesTrimmed("JONES");
  }

  lemma {:induction false} MikeJonesPhoneTrimmed()
    ensures Trim("281-330-8004") == "281-330-8004"
  {
    TrimFixesTrimmed("281-330-8004");
  }

  lemma {:induction false} PaddedMikeJonesFields()
    ensures Normalize(Contact(" mike ", "JONES", "281-330-8004")) == Contact("mike", "JONES", "281-330-8004")
  {
    PaddedMikeTrimmed();
    JonesTrimmed();
    MikeJonesPhoneTrimmed();
  }

  lemma {:induction false} MikeJonesKeyTaken()
    ensures KeyTaken(Seed(), NameKey("mike", "JONES"))
  {
    NameKeyParts("Mike", "Jones");
    NameKeyParts("mike", "JONES");
    assert Lower("Mike") == Lower("mike");
    assert Lower("Jones") == Lower("JONES");
    assert KeyOf(Seed()[0]) == NameKey("mike", "JONES");
  }

  lemma {:induction false} MikeJonesPhoneAccepted()
    ensures PhoneErrors("281-330-8004") == []
  {
    PhoneNumberByPositions("281-330-8004");
  }

  /** Re-submitting a seeded contact, in another case and padded with spaces,
      is refused with the uniqueness message alone. */
  lemma {:induction false} SeededNameRefused()
    ensures Validate(Contact(" mike ", "JONES", "281-330-8004"), Seed()) == [DuplicateContact]
  {
    var body := Contact(" mike ", "JONES", "281-330-8004");
    PaddedMikeJonesFields();
    MikeJonesKeyTaken();
    MikeJonesPhoneAccepted();
    SeedSatisfiesInvariant();
    DuplicateReportedIffKeyTaken(body, Seed());
    DuplicateComesWithoutNameMessages(body, Seed());
  }

  function Aaron(): Contact {
    Contact("Aaron", "Banks", "555-123-4567")
  }

  lemma {:induction false} AaronKeyFree()
    ensures !KeyTaken(Seed(), KeyOf(Aaron()))
  {
    var k := KeyOf(Aaron());
    assert k[0] == 'a' && k[1] == 'a';
    assert KeyOf(Seed()[0])[0] == 'm';
    assert KeyOf(Seed()[1])[0] == 'j';
    assert KeyOf(Seed()[2])[0] == 'm';
    assert KeyOf(Seed()[3])[1] == 'l';
  }

  lemma {:induction false} AaronNormalized()
    ensures Normalize(Aaron()) == Aaron()
  {
    NormalizeKeepsTrimmed(Aaron());
  }

  lemma {:induction false} AaronFieldsAccepted()
    ensures FirstNameErrors("Aaron") == [] && LastNameErrors("Banks") == []
  {
    assert IsValidName("Aaron");
    assert IsValidName("Banks");
  }

  lemma {:induction false} AaronPhoneAccepted()
    ensures PhoneErrors("555-123-4567") == []
  {
    PhoneNumberByPositions("555-123-4567");
  }

  lemma {:induction false} AaronUnique()
    ensures UniquenessErrors("Aaron", "Banks", Seed()) == []
  {
    AaronKeyFree();
  }

  /** "Aaron Banks" passes every check against the seed data. */
  lemma {:induction false} AaronAccepted()
    ensures Validate(Aaron(), Seed()) == []
  {
    AaronNormalized();
    AaronFieldsAccepted();
    AaronUnique();
    AaronPhoneAccepted();
  }

  /** Every seeded last name sorts after "Banks". */
  lemma {:induction false} SeedAfterBanks(c: Contact)
    requires c in Seed()
    ensures StrLess("Banks", c.lastName)
  {
  }

  /** After "Aaron Banks" is added to the seed data, the listing starts with him. */
  lemma {:induction false} AaronListedFirst()
    ensures |SortContacts(Seed() + [Aaron()])| == 5
    ensures SortContacts(Seed() + [Aaron()])[0] == Aaron()
  {
    var s := Seed() + [Aaron()];
    var listing := SortContacts(s);
    assert listing[0] in multiset(s);
    if listing[0] != Aaron() {
      assert listing[0] in Seed();
      SeedAfterBanks(listing[0]);
      assert Aaron() in multiset(listing);
      var k :| 0 <= k < |listing| && listing[k] == Aaron();
      assert LessEq(listing[0], listing[k]);
      StrLessAsymmetric("Banks", listing[0].lastName);
    }
  }

  /** Adding "Aaron Banks" to a fresh store and listing it puts him first,
      ahead of "Max Entiger", and lists him exactly once. */
  method AddThenList() returns (listing: seq<Contact>)
    ensures |listing| == 5 && listing[0] == Aaron()
    ensures multiset(listing)[Aaron()] == 1
  {
    var store := new ContactStore();
    var errors, echoed := store.Add(Aaron());
    AaronAccepted();
    AaronNormalized();
    listing := store.List();
    AaronListedFirst();
    AaronKeyFree();
    assert Aaron() !in Seed();
  }
}
