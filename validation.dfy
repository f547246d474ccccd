/**
  The checks of the POST `/contacts/new` handler, as one pure function from
  the submitted fields and the current contacts to the list of error
  messages. Every check runs on the trimmed fields; each field adds at most
  one message, and the messages come in a fixed order: first name, last name,
  uniqueness, phone number.
*/
module Validation {
  import opened JsText
  import opened Contacts

  /** The messages the checks can push, in the order of the checks. */
  datatype Message =
    | FirstNameRequired | FirstNameTooLong | FirstNameNotAlphabetical
    | LastNameRequired | LastNameTooLong | LastNameNotAlphabetical
    | DuplicateContact
    | PhoneRequired | PhoneInvalid

  /** The text each message is rendered with; the checks below push the
      message, and the view shows its text. */
  function Text(m: Message): string {
    match m
    case FirstNameRequired => "First name is required."
    case FirstNameTooLong => "First name maximum length is 25 characters."
    case FirstNameNotAlphabetical => "First name must only contain alphabetical characters."
    case LastNameRequired => "Last name is required."
    case LastNameTooLong => "Last name maximum length is 25 characters."
    // the source gives this one message no final period
    case LastNameNotAlphabetical => "Last name must only contain alphabetical characters"
    case DuplicateContact => "Contact already exists in database. First and last name must be unique."
    case PhoneRequired => "Phone number is required."
    case PhoneInvalid => "Invalid phone number. Must be valid US style phone number in format of ###-###-####."
  }

  /** Of the two "alphabetical characters" messages, only the first-name one
      ends with a period. */
  lemma {:induction false} AlphabeticalMessagesEndings()
    ensures var first := Text(FirstNameNotAlphabetical); first[|first| - 1] == '.'
    ensures var last := Text(LastNameNotAlphabetical); last[|last| - 1] == 's'
  {
  }

  /** The longest name the form accepts. */
  const MaxNameLength := 25

  /** The second middleware: the three fields, trimmed. */
  function Normalize(body: Contact): (t: Contact)
    ensures |t.firstName| <= |body.firstName| && |t.lastName| <= |body.lastName|
    ensures |t.phoneNumber| <= |body.phoneNumber|
  {
    Contact(Trim(body.firstName), Trim(body.lastName), Trim(body.phoneNumber))
  }

  /** The checks on one name field, in their priority order: empty, then too
      long, then a character that is not an ASCII letter. */
  function NameErrors(name: string, required: Message, tooLong: Message, notAlphabetical: Message): (r: seq<Message>)
    ensures r == [] <==> IsValidName(name)
    ensures |name| == 0 ==> r == [required]
    ensures |name| > MaxNameLength ==> r == [tooLong]
    ensures 0 < |name| <= MaxNameLength && (exists i :: 0 <= i < |name| && !IsAsciiLetter(name[i]))
      ==> r == [notAlphabetical]
  {
    AlphabeticalIffAllLetters(name);
    if |name| == 0 then [required]
    else if |name| > MaxNameLength then [tooLong]
    else if !IsAlphabetical(name) then [notAlphabetical]
    else []
  }

  function FirstNameErrors(name: string): seq<Message> {
    NameErrors(name, FirstNameRequired, FirstNameTooLong, FirstNameNotAlphabetical)
  }

  function LastNameErrors(name: string): seq<Message> {
    NameErrors(name, LastNameRequired, LastNameTooLong, LastNameNotAlphabetical)
  }

  /** `contactData.findIndex(...)`: the first position whose key is `key`, or -1. */
  function FindIndex(store: seq<Contact>, key: string): (r: int)
    ensures -1 <= r < |store|
    ensures r == -1 <==> forall i :: 0 <= i < |store| ==> KeyOf(store[i]) != key
    ensures r >= 0 ==> KeyOf(store[r]) == key && forall i :: 0 <= i < r ==> KeyOf(store[i]) != key
  {
    if store == [] then -1
    else if KeyOf(store[0]) == key then 0
    else
      var r := FindIndex(store[1..], key);
      assert forall i :: 1 <= i < |store| ==> store[i] == store[1..][i - 1];
      if r == -1 then -1 else r + 1
  }

  /** Some stored contact has the key `key`. */
  predicate KeyTaken(store: seq<Contact>, key: string) {
    exists i :: 0 <= i < |store| && KeyOf(store[i]) == key
  }

  /** The uniqueness check, on the candidate's own "first last" key. */
  function UniquenessErrors(firstName: string, lastName: string, store: seq<Contact>): (r: seq<Message>)
    ensures r == [DuplicateContact] <==> KeyTaken(store, NameKey(firstName, lastName))
    ensures r == [] <==> !KeyTaken(store, NameKey(firstName, lastName))
  {
    if FindIndex(store, NameKey(firstName, lastName)) != -1 then [DuplicateContact] else []
  }

  /** The phone number check: empty, or not in the `###-###-####` form. */
  function PhoneErrors(phone: string): (r: seq<Message>)
    ensures r == [] <==> IsPhoneNumber(phone)
    ensures |phone| == 0 ==> r == [PhoneRequired]
    ensures |phone| > 0 && !IsPhoneNumber(phone) ==> r == [PhoneInvalid]
  {
    PhoneNumberShape(phone);
    if |phone| == 0 then [PhoneRequired]
    else if !IsPhoneNumber(phone) then [PhoneInvalid]
    else []
  }

  /** What a submission must satisfy to be stored: its trimmed fields pass
      every format check and its key is not taken. */
  predicate Acceptable(t: Contact, store: seq<Contact>) {
    WellFormed(t) && !KeyTaken(store, KeyOf(t))
  }

  /** The position of each message in the fixed emission order. */
  function MessageRank(m: Message): nat {
    match m
    case FirstNameRequired | FirstNameTooLong | FirstNameNotAlphabetical => 0
    case LastNameRequired | LastNameTooLong | LastNameNotAlphabetical => 1
    case DuplicateContact => 2
    case PhoneRequired | PhoneInvalid => 3
  }

  /** The error list that the middleware chain builds for `body`. */
  function Validate(body: Contact, store: seq<Contact>): seq<Message> {
    var t := Normalize(body);
    FirstNameErrors(t.firstName) + LastNameErrors(t.lastName)
      + UniquenessErrors(t.firstName, t.lastName, store) + PhoneErrors(t.phoneNumber)
  }

  /** The chain reports no message exactly when the trimmed submission is
      acceptable, and it reports at most one message per check. */
  lemma {:induction false} ValidateAcceptsIffAcceptable(body: Contact, store: seq<Contact>)
    ensures Validate(body, store) == [] <==> Acceptable(Normalize(body), store)
    ensures |Validate(body, store)| <= 4
  {
    var t := Normalize(body);
    ChecksOfRank(t, store);
    assert KeyOf(t) == NameKey(t.firstName, t.lastName);
  }

  /** A sequence of at most one message, all of the given rank. */
  predicate OfRank(s: seq<Message>, k: nat) {
    |s| <= 1 && forall m :: m in s ==> MessageRank(m) == k
  }

  /** Messages in strictly increasing rank, all below `bound`. */
  predicate RankedBelow(s: seq<Message>, bound: nat) {
    && (forall i, j :: 0 <= i < j < |s| ==> MessageRank(s[i]) < MessageRank(s[j]))
    && (forall m :: m in s ==> MessageRank(m) < bound)
  }

  lemma {:induction false} AppendRanked(a: seq<Message>, b: seq<Message>, k: nat)
    requires RankedBelow(a, k) && OfRank(b, k)
    ensures RankedBelow(a + b, k + 1)
  {
    var s := a + b;
    forall i, j | 0 <= i < j < |s| ensures MessageRank(s[i]) < MessageRank(s[j]) {
      if j >= |a| {
        assert s[j] == b[j - |a|] && s[j] in b;
        if i < |a| { assert s[i] == a[i] && s[i] in a; }
      }
    }
  }

  /** Each check contributes at most one message, of its own rank. */
  lemma {:induction false} ChecksOfRank(t: Contact, store: seq<Contact>)
    ensures OfRank(FirstNameErrors(t.firstName), 0) && OfRank(LastNameErrors(t.lastName), 1)
    ensures OfRank(UniquenessErrors(t.firstName, t.lastName, store), 2)
    ensures OfRank(PhoneErrors(t.phoneNumber), 3)
  {
    NameErrorsOfRank(t.firstName, FirstNameRequired, FirstNameTooLong, FirstNameNotAlphabetical, 0);
    NameErrorsOfRank(t.lastName, LastNameRequired, LastNameTooLong, LastNameNotAlphabetical, 1);
    assert OfRank([DuplicateContact], 2);
    assert OfRank([PhoneRequired], 3) && OfRank([PhoneInvalid], 3);
  }

  lemma {:induction false} NameErrorsOfRank(name: string, required: Message, tooLong: Message,
                                            notAlphabetical: Message, k: nat)
    requires MessageRank(required) == k && MessageRank(tooLong) == k && MessageRank(notAlphabetical) == k
    ensures OfRank(NameErrors(name, required, tooLong, notAlphabetical), k)
  {
    assert OfRank([required], k) && OfRank([tooLong], k) && OfRank([notAlphabetical], k);
  }

  /** Four checks of ranks 0 to 3, one after the other, emit their messages
      in strictly increasing rank. */
  lemma {:induction false} RankedChecks(f: seq<Message>, l: seq<Message>, u: seq<Message>, p: seq<Message>)
    requires OfRank(f, 0) && OfRank(l, 1) && OfRank(u, 2) && OfRank(p, 3)
    ensures RankedBelow(f + l + u + p, 4)
  {
    assert RankedBelow([], 0);
    AppendRanked([], f, 0);
    assert [] + f == f;
    AppendRanked(f, l, 1);
    AppendRanked(f + l, u, 2);
    AppendRanked(f + l + u, p, 3);
  }

  /** The messages appear in the order first name, last name, uniqueness,
      phone number, at most one for each. */
  lemma {:induction false} ValidateMessageOrder(body: Contact, store: seq<Contact>)
    ensures var errors := Validate(body, store);
      forall i, j :: 0 <= i < j < |errors| ==> MessageRank(errors[i]) < MessageRank(errors[j])
  {
    var t := Normalize(body);
    ChecksOfRank(t, store);
    RankedChecks(FirstNameErrors(t.firstName), LastNameErrors(t.lastName),
      UniquenessErrors(t.firstName, t.lastName, store), PhoneErrors(t.phoneNumber));
  }

  /** Every check sees trimmed fields: trimming the submission first changes
      nothing. */
  lemma {:induction false} ValidateSeesTrimmedFields(body: Contact, store: seq<Contact>)
    ensures Validate(Normalize(body), store) == Validate(body, store)
  {
    TrimIdempotent(body.firstName);
    TrimIdempotent(body.lastName);
    TrimIdempotent(body.phoneNumber);
  }

  /** In the output of four checks of ranks 0 to 3, a message can only have
      come from the check of its own rank. */
  lemma {:induction false} MessageFromItsCheck(f: seq<Message>, l: seq<Message>, u: seq<Message>, p: seq<Message>, m: Message)
    requires OfRank(f, 0) && OfRank(l, 1) && OfRank(u, 2) && OfRank(p, 3)
    ensures MessageRank(m) == 0 ==> (m in f + l + u + p <==> m in f)
    ensures MessageRank(m) == 1 ==> (m in f + l + u + p <==> m in l)
    ensures MessageRank(m) == 2 ==> (m in f + l + u + p <==> m in u)
    ensures MessageRank(m) == 3 ==> (m in f + l + u + p <==> m in p)
  {
  }

  /** The uniqueness message is reported exactly when the trimmed "first last"
      key is taken, whatever the format checks say about the fields. */
  lemma {:induction false} DuplicateReportedIffKeyTaken(body: Contact, store: seq<Contact>)
    ensures DuplicateContact in Validate(body, store) <==> KeyTaken(store, KeyOf(Normalize(body)))
  {
    var t := Normalize(body);
    ChecksOfRank(t, store);
    MessageFromItsCheck(FirstNameErrors(t.firstName), LastNameErrors(t.lastName),
      UniquenessErrors(t.firstName, t.lastName, store), PhoneErrors(t.phoneNumber), DuplicateContact);
  }

  /** The phone field's messages depend on the phone field alone: "required"
      exactly when it is empty after trimming... */
  lemma {:induction false} PhoneRequiredIffEmpty(body: Contact, store: seq<Contact>)
    ensures PhoneRequired in Validate(body, store) <==> |Normalize(body).phoneNumber| == 0
  {
    var t := Normalize(body);
    var f, l := FirstNameErrors(t.firstName), LastNameErrors(t.lastName);
    var u, p := UniquenessErrors(t.firstName, t.lastName, store), PhoneErrors(t.phoneNumber);
    ChecksOfRank(t, store);
    MessageFromItsCheck(f, l, u, p, PhoneRequired);
    PhoneMessages(t.phoneNumber);
  }

  /** ...and "invalid" exactly when it is non-empty and not of the form
      `###-###-####`. */
  lemma {:induction false} PhoneInvalidIffMalformed(body: Contact, store: seq<Contact>)
    ensures PhoneInvalid in Validate(body, store)
      <==> |Normalize(body).phoneNumber| > 0 && !IsPhoneNumber(Normalize(body).phoneNumber)
  {
    var t := Normalize(body);
    var f, l := FirstNameErrors(t.firstName), LastNameErrors(t.lastName);
    var u, p := UniquenessErrors(t.firstName, t.lastName, store), PhoneErrors(t.phoneNumber);
    ChecksOfRank(t, store);
    MessageFromItsCheck(f, l, u, p, PhoneInvalid);
    PhoneMessages(t.phoneNumber);
  }

  lemma {:induction false} PhoneMessages(phone: string)
    ensures PhoneRequired in PhoneErrors(phone) <==> |phone| == 0
    ensures PhoneInvalid in PhoneErrors(phone) <==> |phone| > 0 && !IsPhoneNumber(phone)
  {
  }

  /** One name check alone: "required" iff the name is empty, "too long" iff
      it has more than 25 characters, "alphabetical" iff it has 1 to 25
      characters and one of them is not an ASCII letter. */
  lemma {:induction false} NameMessages(name: string, required: Message, tooLong: Message, notAlphabetical: Message)
    requires required != tooLong && required != notAlphabetical && tooLong != notAlphabetical
    ensures required in NameErrors(name, required, tooLong, notAlphabetical) <==> |name| == 0
    ensures tooLong in NameErrors(name, required, tooLong, notAlphabetical) <==> |name| > MaxNameLength
    ensures notAlphabetical in NameErrors(name, required, tooLong, notAlphabetical)
      <==> 0 < |name| <= MaxNameLength && !IsAlphabetical(name)
  {
  }

  /** The first-name messages of the whole chain depend on the trimmed first
      name alone, whatever the other fields and the store hold. */
  lemma {:induction false} FirstNameMessages(body: Contact, store: seq<Contact>)
    ensures var n := Normalize(body).firstName;
      && (FirstNameRequired in Validate(body, store) <==> |n| == 0)
      && (FirstNameTooLong in Validate(body, store) <==> |n| > MaxNameLength)
      && (FirstNameNotAlphabetical in Validate(body, store) <==> 0 < |n| <= MaxNameLength && !IsAlphabetical(n))
  {
    var t := Normalize(body);
    var f, l := FirstNameErrors(t.firstName), LastNameErrors(t.lastName);
    var u, p := UniquenessErrors(t.firstName, t.lastName, store), PhoneErrors(t.phoneNumber);
    ChecksOfRank(t, store);
    MessageFromItsCheck(f, l, u, p, FirstNameRequired);
    MessageFromItsCheck(f, l, u, p, FirstNameTooLong);
    MessageFromItsCheck(f, l, u, p, FirstNameNotAlphabetical);
    NameMessages(t.firstName, FirstNameRequired, FirstNameTooLong, FirstNameNotAlphabetical);
  }

  /** The same for the last name. */
  lemma {:induction false} LastNameMessages(body: Contact, store: seq<Contact>)
    ensures var n := Normalize(body).lastName;
      && (LastNameRequired in Validate(body, store) <==> |n| == 0)
      && (LastNameTooLong in Validate(body, store) <==> |n| > MaxNameLength)
      && (LastNameNotAlphabetical in Validate(body, store) <==> 0 < |n| <= MaxNameLength && !IsAlphabetical(n))
  {
    var t := Normalize(body);
    var f, l := FirstNameErrors(t.firstName), LastNameErrors(t.lastName);
    var u, p := UniquenessErrors(t.firstName, t.lastName, store), PhoneErrors(t.phoneNumber);
    ChecksOfRank(t, store);
    MessageFromItsCheck(f, l, u, p, LastNameRequired);
    MessageFromItsCheck(f, l, u, p, LastNameTooLong);
    MessageFromItsCheck(f, l, u, p, LastNameNotAlphabetical);
    NameMessages(t.lastName, LastNameRequired, LastNameTooLong, LastNameNotAlphabetical);
  }

  /** Against a store that keeps its invariant, the duplicate message never
      comes with a name message: a taken key belongs only to names that pass
      both name checks, so only a phone message can follow it. */
  lemma {:induction false} DuplicateComesWithoutNameMessages(body: Contact, store: seq<Contact>)
    requires StoreInvariant(store)
    requires DuplicateContact in Validate(body, store)
    ensures Validate(body, store) == [DuplicateContact] + PhoneErrors(Normalize(body).phoneNumber)
  {
    var t := Normalize(body);
    var f, l := FirstNameErrors(t.firstName), LastNameErrors(t.lastName);
    var u, p := UniquenessErrors(t.firstName, t.lastName, store), PhoneErrors(t.phoneNumber);
    assert Validate(body, store) == f + l + u + p;
    DuplicateReportedIffKeyTaken(body, store);
    TakenKeyHasValidNames(t.firstName, t.lastName, store);
    assert f == [] && l == [] && u == [DuplicateContact];
    assert f + l + u == [DuplicateContact];
  }

  /** In a store that keeps its invariant, a taken key belongs only to names
      that pass the format checks. */
  lemma {:induction false} TakenKeyHasValidNames(first: string, last: string, store: seq<Contact>)
    requires StoreInvariant(store) && KeyTaken(store, NameKey(first, last))
    ensures IsValidName(first) && IsValidName(last)
  {
    var i :| 0 <= i < |store| && KeyOf(store[i]) == NameKey(first, last);
    KeyOfWellFormedHasValidNames(first, last, store[i]);
  }
}
