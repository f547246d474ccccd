/**
  `contactData` as the application starts: four contacts, which already
  satisfy the invariant that every later state of the store keeps.
*/
module SeedData {
  import opened JsText
  import opened Contacts

  /** The contacts the store is seeded with. */
  function Seed(): seq<Contact> {
    [ Contact("Mike", "Jones", "281-330-8004"),
      Contact("Jenny", "Keys", "768-867-5309"),
      Contact("Max", "Entiger", "214-748-3647"),
      Contact("Alicia", "Keys", "515-489-4608") ]
  }

  /** The seed data already satisfies the store invariant. */
  lemma {:induction false} SeedSatisfiesInvariant()
    ensures StoreInvariant(Seed())
  {
    SeedWellFormed();
    SeedKeysDistinct();
  }

  lemma {:induction false} SeedWellFormed()
    ensures forall i :: 0 <= i < |Seed()| ==> WellFormed(Seed()[i])
  {
    SeedEntries();
    forall i | 0 <= i < |Seed()| ensures WellFormed(Seed()[i]) {
      SeedEntryWellFormed(i);
    }
  }

  lemma {:induction false} SeedEntryWellFormed(i: int)
    requires 0 <= i < 4
    ensures WellFormed(Seed()[i])
  {
    SeedEntries();
    SeedContactsWellFormed();
    if i == 0 {
      assert Seed()[i] == Contact("Mike", "Jones", "281-330-8004");
    } else if i == 1 {
      assert Seed()[i] == Contact("Jenny", "Keys", "768-867-5309");
    } else if i == 2 {
      assert Seed()[i] == Contact("Max", "Entiger", "214-748-3647");
    } else {
      assert Seed()[i] == Contact("Alicia", "Keys", "515-489-4608");
    }
  }

  lemma {:induction false} SeedContactsWellFormed()
    ensures WellFormed(Contact("Mike", "Jones", "281-330-8004"))
    ensures WellFormed(Contact("Jenny", "Keys", "768-867-5309"))
    ensures WellFormed(Contact("Max", "Entiger", "214-748-3647"))
    ensures WellFormed(Contact("Alicia", "Keys", "515-489-4608"))
  {
    SeedNamesValid();
    SeedPhonesValid();
  }

  lemma {:induction false} SeedNamesValid()
    ensures IsValidName("Mike") && IsValidName("Jones")
    ensures IsValidName("Jenny") && IsValidName("Keys")
    ensures IsValidName("Max") && IsValidName("Entiger")
    ensures IsValidName("Alicia")
  {
  }

  lemma {:induction false} SeedPhonesValid()
    ensures IsPhoneNumber("281-330-8004") && IsPhoneNumber("768-867-5309")
    ensures IsPhoneNumber("214-748-3647") && IsPhoneNumber("515-489-4608")
  {
    PhoneNumberByPositions("281-330-8004");
    PhoneNumberByPositions("768-867-5309");
    PhoneNumberByPositions("214-748-3647");
    PhoneNumberByPositions("515-489-4608");
  }

  lemma {:induction false} SeedEntries()
    ensures |Seed()| == 4
    ensures Seed()[0] == Contact("Mike", "Jones", "281-330-8004")
    ensures Seed()[1] == Contact("Jenny", "Keys", "768-867-5309")
    ensures Seed()[2] == Contact("Max", "Entiger", "214-748-3647")
    ensures Seed()[3] == Contact("Alicia", "Keys", "515-489-4608")
  {
  }

  lemma {:induction false} SeedKeysDistinct()
    ensures UniqueKeys(Seed())
  {
    var s := Seed();
    assert KeyOf(s[0])[1] == 'i';
    assert KeyOf(s[1])[0] == 'j';
    assert KeyOf(s[2])[1] == 'a';
    assert KeyOf(s[3])[0] == 'a';
  }
}
