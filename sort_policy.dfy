/**
  The order in which the contact list is displayed: `sortContacts` sorts a
  copy of the contacts by last name, then by first name, each compared with
  the string `<`. The copy is a value here, so the caller's sequence is never
  affected.
*/
module SortPolicy {
  import opened JsText
  import opened Contacts

  /** The comparator handed to `Array.prototype.sort`. */
  function CompareContacts(a: Contact, b: Contact): (r: int)
    ensures -1 <= r <= 1
  {
    if StrLess(a.lastName, b.lastName) then -1
    else if StrLess(b.lastName, a.lastName) then 1
    else if StrLess(a.firstName, b.firstName) then -1
    else if StrLess(b.firstName, a.firstName) then 1
    else 0
  }

  /** `a` may come before `b` in the sorted list. */
  predicate LessEq(a: Contact, b: Contact) {
    CompareContacts(a, b) <= 0
  }

  predicate Sorted(s: seq<Contact>) {
    forall i, j :: 0 <= i < j < |s| ==> LessEq(s[i], s[j])
  }

  /** Swapping the arguments negates the comparator's answer. */
  lemma {:induction false} CompareAntisymmetric(a: Contact, b: Contact)
    ensures CompareContacts(a, b) == -CompareContacts(b, a)
  {
    if StrLess(a.lastName, b.lastName) {
      StrLessAsymmetric(a.lastName, b.lastName);
    } else if StrLess(b.lastName, a.lastName) {
    } else if StrLess(a.firstName, b.firstName) {
      StrLessAsymmetric(a.firstName, b.firstName);
    }
  }

  /** The comparator answers 0 exactly for contacts with the same two names;
      the phone number plays no part. */
  lemma {:induction false} CompareZeroIffSameNames(a: Contact, b: Contact)
    ensures CompareContacts(a, b) == 0 <==> a.lastName == b.lastName && a.firstName == b.firstName
  {
    StrLessConnected(a.lastName, b.lastName);
    StrLessConnected(a.firstName, b.firstName);
    StrLessIrreflexive(a.lastName);
    StrLessIrreflexive(a.firstName);
  }

  lemma {:induction false} CompareTransitive(a: Contact, b: Contact, c: Contact)
    requires LessEq(a, b) && LessEq(b, c)
    ensures LessEq(a, c)
  {
    CompareZeroIffSameNames(a, b);
    CompareZeroIffSameNames(b, c);
    if StrLess(a.lastName, b.lastName) {
      if StrLess(b.lastName, c.lastName) {
        StrLessTransitive(a.lastName, b.lastName, c.lastName);
      } else {
        StrLessConnected(b.lastName, c.lastName);
        StrLessAsymmetric(a.lastName, c.lastName);
      }
    } else {
      StrLessConnected(a.lastName, b.lastName);
      if StrLess(b.lastName, c.lastName) {
        StrLessAsymmetric(a.lastName, c.lastName);
      } else {
        StrLessConnected(b.lastName, c.lastName);
        StrLessConnected(a.firstName, b.firstName);
        StrLessConnected(b.firstName, c.firstName);
        if StrLess(a.firstName, b.firstName) && StrLess(b.firstName, c.firstName) {
          StrLessTransitive(a.firstName, b.firstName, c.firstName);
        }
        if StrLess(a.firstName, c.firstName) {
          StrLessAsymmetric(a.firstName, c.firstName);
        }
      }
    }
  }

  lemma {:induction false} CompareTotal(a: Contact, b: Contact)
    ensures LessEq(a, b) || LessEq(b, a)
  {
    CompareAntisymmetric(a, b);
  }

  /** In a sorted list, last names never decrease, and where two last names
      are equal the first names never decrease. */
  lemma {:induction false} SortedByLastThenFirst(s: seq<Contact>, i: int, j: int)
    requires Sorted(s) && 0 <= i < j < |s|
    ensures StrLess(s[i].lastName, s[j].lastName)
      || (s[i].lastName == s[j].lastName && !StrLess(s[j].firstName, s[i].firstName))
  {
    assert LessEq(s[i], s[j]);
    StrLessConnected(s[i].lastName, s[j].lastName);
    if StrLess(s[i].firstName, s[j].firstName) {
      StrLessAsymmetric(s[i].firstName, s[j].firstName);
    }
  }

  /** Puts `x` in front of the first element it may precede. */
  function Insert(x: Contact, s: seq<Contact>): (r: seq<Contact>)
    ensures multiset(r) == multiset(s) + multiset{x}
    ensures |r| == |s| + 1
  {
    if s == [] then [x]
    else if LessEq(x, s[0]) then [x] + s
    else
      assert s == [s[0]] + s[1..];
      [s[0]] + Insert(x, s[1..])
  }

  lemma {:induction false} InsertKeepsSorted(x: Contact, s: seq<Contact>)
    requires Sorted(s)
    ensures Sorted(Insert(x, s))
  {
    var r := Insert(x, s);
    if s == [] {
    } else if LessEq(x, s[0]) {
      forall j | 0 <= j < |s| ensures LessEq(x, s[j]) {
        if j > 0 { CompareTransitive(x, s[0], s[j]); }
      }
    } else {
      var t := Insert(x, s[1..]);
      InsertKeepsSorted(x, s[1..]);
      CompareTotal(x, s[0]);
      forall k | 0 <= k < |t| ensures LessEq(s[0], t[k]) {
        assert t[k] in multiset(t);
        if t[k] != x {
          assert t[k] in multiset(s[1..]);
          var j :| 0 <= j < |s[1..]| && s[1..][j] == t[k];
          assert s[1..][j] == s[j + 1];
        }
      }
      assert r == [s[0]] + t;
    }
  }

  /** `sortContacts(contactsArr)`: the contacts, reordered by name. */
  function SortContacts(xs: seq<Contact>): (r: seq<Contact>)
    ensures Sorted(r)
    ensures multiset(r) == multiset(xs)
    ensures |r| == |xs|
  {
    if xs == [] then []
    else
      var rest := SortContacts(xs[1..]);
      InsertKeepsSorted(xs[0], rest);
      assert xs == [xs[0]] + xs[1..];
      Insert(xs[0], rest)
  }

  lemma {:induction false} SortedTail(s: seq<Contact>)
    requires Sorted(s) && s != []
    ensures Sorted(s[1..])
  {
    forall i, j | 0 <= i < j < |s[1..]| ensures LessEq(s[1..][i], s[1..][j]) {
      assert s[1..][i] == s[i + 1] && s[1..][j] == s[j + 1];
    }
  }

  /** A list that is already in order is returned as it is. */
  lemma {:induction false} SortKeepsSortedList(s: seq<Contact>)
    requires Sorted(s)
    ensures SortContacts(s) == s
  {
    if s != [] {
      SortedTail(s);
      SortKeepsSortedList(s[1..]);
      assert SortContacts(s) == Insert(s[0], s[1..]);
      if |s| > 1 {
        assert s[1..][0] == s[1];
        assert LessEq(s[0], s[1]);
      }
      assert Insert(s[0], s[1..]) == [s[0]] + s[1..];
      assert s == [s[0]] + s[1..];
    }
  }

  /** Sorting a sorted list changes nothing. */
  lemma {:induction false} SortIdempotent(xs: seq<Contact>)
    ensures SortContacts(SortContacts(xs)) == SortContacts(xs)
  {
    SortKeepsSortedList(SortContacts(xs));
  }
}
