/**
  The contact record, the case-insensitive name key that the uniqueness rule
  compares, and the invariant every state of the store keeps.
*/
module Contacts {
  import opened JsText

  /** One contact, and equally the three fields of a submitted form. */
  datatype Contact = Contact(firstName: string, lastName: string, phoneNumber: string)

  /** `` `${first} ${last}`.toLowerCase() `` */
  function NameKey(first: string, last: string): string {
    Lower(first + " " + last)
  }

  function KeyOf(c: Contact): string {
    NameKey(c.firstName, c.lastName)
  }

  /** A name the form accepts: 1 to 25 ASCII letters. */
  predicate IsValidName(n: string) {
    |n| <= 25 && IsAlphabetical(n)
  }

  /** A contact whose three fields all pass the form's format checks. */
  predicate WellFormed(c: Contact) {
    IsValidName(c.firstName) && IsValidName(c.lastName) && IsPhoneNumber(c.phoneNumber)
  }

  /** No two contacts share a case-insensitive "first last" key. */
  predicate UniqueKeys(s: seq<Contact>) {
    forall i, j :: 0 <= i < j < |s| ==> KeyOf(s[i]) != KeyOf(s[j])
  }

  /** What every state of the store satisfies. */
  predicate StoreInvariant(s: seq<Contact>) {
    (forall i :: 0 <= i < |s| ==> WellFormed(s[i])) && UniqueKeys(s)
  }

  /** Lower-casing keeps spaces and creates none. */
  lemma {:induction false} NoSpaceLowered(s: string)
    requires ' ' !in s
    ensures ' ' !in Lower(s)
  {
    assert forall i :: 0 <= i < |s| ==> Lower(s)[i] != ' ';
  }

  /** Joining two strings with a space can be undone when the parts on one
      side have no space: the joining space is then the only one. */
  lemma {:induction false} SpaceJoinSplits(a: string, b: string, c: string, d: string)
    requires ' ' !in c && ' ' !in d
    requires a + " " + b == c + " " + d
    ensures a == c && b == d
  {
    var x := c + " " + d;
    assert x[|a|] == (a + " " + b)[|a|] == ' ';
    assert a == (a + " " + b)[..|a|] == x[..|c|] == c;
    assert b == (a + " " + b)[|a| + 1..] == x[|c| + 1..] == d;
  }

  /** The key is the lower-cased first name, a space, the lower-cased last name. */
  lemma {:induction false} NameKeyParts(f: string, l: string)
    ensures NameKey(f, l) == Lower(f) + " " + Lower(l)
  {
    LowerAppend(f + " ", l);
    LowerAppend(f, " ");
    assert Lower(" ") == " ";
  }

  /** For names without spaces (every name the form accepts), the joined
      lower-cased key of two contacts is equal exactly when their first names
      and their last names are equal up to ASCII case. */
  lemma {:induction false} NameKeyMatchesBothNames(f1: string, l1: string, f2: string, l2: string)
    requires ' ' !in f1 && ' ' !in l1 && ' ' !in f2 && ' ' !in l2
    ensures NameKey(f1, l1) == NameKey(f2, l2) <==> Lower(f1) == Lower(f2) && Lower(l1) == Lower(l2)
  {
    NameKeyParts(f1, l1);
    NameKeyParts(f2, l2);
    NoSpaceLowered(f2);
    NoSpaceLowered(l2);
    if NameKey(f1, l1) == NameKey(f2, l2) {
      SpaceJoinSplits(Lower(f1), Lower(l1), Lower(f2), Lower(l2));
    }
  }

  /** A letter-only name has no space in it. */
  lemma {:induction false} ValidNameHasNoSpace(n: string)
    requires IsValidName(n)
    ensures ' ' !in n
  {
    AlphabeticalIffAllLetters(n);
  }

  /** In a store that keeps its invariant, no two contacts have both the same
      first name and the same last name, ignoring ASCII case. */
  lemma {:induction false} StoredNamesDistinct(s: seq<Contact>, i: int, j: int)
    requires StoreInvariant(s)
    requires 0 <= i < j < |s|
    ensures Lower(s[i].firstName) != Lower(s[j].firstName) || Lower(s[i].lastName) != Lower(s[j].lastName)
  {
    assert WellFormed(s[i]) && WellFormed(s[j]);
    ValidNameHasNoSpace(s[i].firstName);
    ValidNameHasNoSpace(s[i].lastName);
    ValidNameHasNoSpace(s[j].firstName);
    ValidNameHasNoSpace(s[j].lastName);
    NameKeyMatchesBothNames(s[i].firstName, s[i].lastName, s[j].firstName, s[j].lastName);
  }

  /** A name with the same lower-cased form as an accepted name is accepted
      too: lower-casing maps nothing but ASCII letters onto ASCII letters. */
  lemma {:induction false} SameLowerAsValidName(n: string, m: string)
    requires IsValidName(m) && Lower(n) == Lower(m)
    ensures IsValidName(n)
  {
    AlphabeticalIffAllLetters(m);
    AlphabeticalIffAllLetters(n);
    forall i | 0 <= i < |n| ensures IsAsciiLetter(n[i]) {
      assert LowerChar(n[i]) == Lower(n)[i] == Lower(m)[i] == LowerChar(m[i]);
    }
  }

  /** Only names that pass the format checks can have the key of a well-formed
      contact, whatever their case. */
  lemma {:induction false} KeyOfWellFormedHasValidNames(f: string, l: string, c: Contact)
    requires WellFormed(c) && NameKey(f, l) == KeyOf(c)
    ensures IsValidName(f) && IsValidName(l)
  {
    NameKeyParts(f, l);
    NameKeyParts(c.firstName, c.lastName);
    ValidNameHasNoSpace(c.firstName);
    ValidNameHasNoSpace(c.lastName);
    NoSpaceLowered(c.firstName);
    NoSpaceLowered(c.lastName);
    SpaceJoinSplits(Lower(f), Lower(l), Lower(c.firstName), Lower(c.lastName));
    SameLowerAsValidName(f, c.firstName);
    SameLowerAsValidName(l, c.lastName);
  }
}
