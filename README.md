# Contact list: validation, uniqueness and ordering

This project models the core of a small Express contact-list application,
all of it in `app.js`:

- the in-memory contact list `contactData` and its four seed contacts;
- `sortContacts`, which the GET `/contacts` handler uses to list the contacts by last name, then first name;
- `isAlphabetical`;
- the POST `/contacts/new` middleware chain. The chain trims the three form fields and checks the first name, the last name, the uniqueness of the case-insensitive "first last" key and the phone number. On any error it re-renders the form with the messages and the trimmed fields. Otherwise it appends the contact.

Modules, one per file:

| module | file | models |
|---|---|---|
| `JsText` | `jstext.dfy` | the JavaScript string operations the code relies on: `trim`, `toLowerCase`, the relational `<` on strings (section 7.2.13 of ECMA-262), and the two regular expressions `/^[a-z]+$/i` and `/^\d{3}-\d{3}-\d{4}$/` |
| `Contacts` | `contacts.dfy` | the contact record, the lower-cased `"first last"` key, and the store invariant: every contact well formed, all keys distinct |
| `SeedData` | `seed_data.dfy` | the initial `contactData`, and the fact that it satisfies the invariant |
| `SortPolicy` | `sort_policy.dfy` | the comparator given to `sort`, and `sortContacts` as an insertion sort on a value copy |
| `Validation` | `validation.dfy` | each middleware check as a pure function, and `Validate`, the list of messages the whole chain pushes |
| `Store` | `store.dfy` | `class ContactStore`, whose `contacts` field is `contactData`; `Add` runs the chain step by step and is proved against `Validate` |
| `Scenarios` | `scenarios.dfy` | concrete submissions: a missing first name, digits in a first name, a re-submitted seed contact, and "Aaron Banks" accepted and listed first |

Error messages are a datatype `Validation.Message`. `Validation.Text` gives each message the exact text the source pushes.

Points of `app.js` that the model keeps:

- The uniqueness check runs whatever the format checks found. In the model, with its ASCII-only lower-casing, a taken key in a store that keeps its invariant belongs only to names that pass both name checks, so the duplicate message can come with a phone message but never with a name message (`Validation.DuplicateComesWithoutNameMessages`). `app.js` can report both; see `JsText.Lower` under "Left out".
- The form is re-rendered with the trimmed field values, not the raw ones.
- The last-name "alphabetical characters" message has no final period.
- `app.js` keeps one process-wide list; it has no sessions or flash messages.

## Model

| member | source | states |
|---|---|---|
| JsText.IsAlphabetical | app.js:44 | `isAlphabetical`, the test of `/^[a-z]+$/i`; its meaning is stated by `JsText.AlphabeticalIffAllLetters` |
| JsText.IsPhoneNumber | app.js:118 | the test of `/^\d{3}-\d{3}-\d{4}$/`; its meaning is stated by `JsText.PhoneNumberShape` |
| JsText.IsTrimmable | app.js:73-75 | the code points `trim` removes; what `trim` does with them is stated by `JsText.TrimIsWhitespaceBoundedSlice` |
| JsText.Trim | app.js:73-75 | the trimmed string is never longer and has no whitespace or line terminator at either end |
| JsText.TrimIsWhitespaceBoundedSlice | app.js:73-75 | `trim` returns the slice `s[i..j]` of its input, with only whitespace before `i` and after `j` |
| JsText.TrimFixesTrimmed | app.js:73-75 | a string without whitespace at either end is returned unchanged |
| JsText.TrimIdempotent | app.js:73-75 | trimming twice equals trimming once |
| JsText.Lower | app.js:105-106 | `toLowerCase` keeps the length and lower-cases each character on its own |
| JsText.LowerAppend | app.js:105-106 | lower-casing distributes over the concatenation in the template literal |
| JsText.StrLess | app.js:30-37 | the string `<` (`>` is `<` with its arguments swapped); its meaning is stated by `JsText.StrLessIsEcmaLessThan` and the four order lemmas below |
| JsText.StrLessIsEcmaLessThan | app.js:30-37 | the recursive string `<` is exactly the IsLessThan of ECMA-262: a proper prefix, or a smaller character at the first difference |
| JsText.StrLessIrreflexive | app.js:30-37 | no string is `<` itself |
| JsText.StrLessTransitive | app.js:30-37 | string `<` is transitive |
| JsText.StrLessConnected | app.js:30-37 | of two different strings, one is `<` the other |
| JsText.StrLessAsymmetric | app.js:30-37 | `a < b` and `b < a` never both hold |
| JsText.AlphabeticalIffAllLetters | app.js:44 | `isAlphabetical(t)` holds iff `t` is non-empty and every character is an ASCII letter of either case |
| JsText.MatchesWholeByPositions | app.js:118 | an anchored quantifier-free pattern matches iff the string has the pattern's length and each character is in its class |
| JsText.PhoneNumberShape | app.js:118 | the phone pattern matches iff the string has 12 characters, dashes at positions 3 and 7 and digits everywhere else |
| JsText.PhoneNumberByPositions | app.js:118 | a 12-character string with that shape matches the phone pattern |
| Contacts.NameKey | app.js:105-106 | the lower-cased `"first last"` template literal; its structure is stated by `Contacts.NameKeyParts` and `Contacts.NameKeyMatchesBothNames` |
| Contacts.KeyOf | app.js:105 | the key of a stored contact, the left side of the `findIndex` comparison |
| Contacts.NameKeyParts | app.js:105-106 | the key of `first`/`last` is the lower-cased first name, a space, the lower-cased last name |
| Contacts.SpaceJoinSplits | app.js:105-106 | joining with a space is injective against a pair of space-free parts |
| Contacts.NameKeyMatchesBothNames | app.js:104-107 | for space-free names, two keys are equal iff both first names and both last names are equal up to ASCII case |
| Contacts.ValidNameHasNoSpace | app.js:79-102 | a name that passes the format checks has no space |
| Contacts.StoredNamesDistinct | app.js:103-113 | in a store that keeps the invariant, no two contacts have both names equal up to ASCII case |
| Contacts.SameLowerAsValidName | app.js:79-106 | in the model (ASCII-only lower-casing), a name that lower-cases to the same string as an accepted name is itself accepted |
| Contacts.KeyOfWellFormedHasValidNames | app.js:79-106 | in the model (ASCII-only lower-casing), only names that pass both name checks can have the key of a well-formed contact |
| SeedData.Seed | app.js:5-26 | the initial `contactData`; its contents are stated by `SeedData.SeedEntries` and its invariant by `SeedData.SeedSatisfiesInvariant` |
| SeedData.SeedEntries | app.js:5-26 | the seed holds Mike Jones, Jenny Keys, Max Entiger and Alicia Keys with their numbers, in that order |
| SeedData.SeedSatisfiesInvariant | app.js:5-26 | every seed contact passes the form checks and the four keys are distinct |
| SeedData.SeedEntryWellFormed | app.js:5-26 | each seed contact passes the name and phone checks |
| SeedData.SeedKeysDistinct | app.js:5-26 | no two seed contacts share a key |
| SortPolicy.CompareContacts | app.js:29-41 | the comparator returns -1, 0 or 1; `SortPolicy.CompareAntisymmetric`, `SortPolicy.CompareTransitive`, `SortPolicy.CompareTotal` and `SortPolicy.CompareZeroIffSameNames` make it a total preorder |
| SortPolicy.CompareAntisymmetric | app.js:29-41 | swapping the arguments negates the comparator |
| SortPolicy.CompareZeroIffSameNames | app.js:29-41 | the comparator returns 0 iff both last names and both first names are equal; the phone number plays no part |
| SortPolicy.CompareTransitive | app.js:29-41 | "may come before" is transitive |
| SortPolicy.CompareTotal | app.js:29-41 | of any two contacts, one may come before the other |
| SortPolicy.SortContacts | app.js:28-42 | the result is sorted by the comparator and is a permutation of the input |
| SortPolicy.SortedByLastThenFirst | app.js:29-41 | in a sorted list, last names never decrease, and first names never decrease among equal last names |
| SortPolicy.SortKeepsSortedList | app.js:28-42 | a list that is already sorted is returned unchanged |
| SortPolicy.SortIdempotent | app.js:28-42 | sorting twice equals sorting once |
| Validation.Text | app.js:82-119 | the exact text of each message; `Validation.AlphabeticalMessagesEndings` states how the two "alphabetical" texts differ |
| Validation.AlphabeticalMessagesEndings | app.js:86-98 | the first-name "alphabetical" text ends with a period and the last-name one does not |
| Validation.Normalize | app.js:72-78 | trimming never lengthens a field |
| Validation.NameErrors | app.js:79-102 | no message iff the name is valid; otherwise exactly one message, with priority empty, then longer than 25, then a non-letter |
| Validation.FirstNameErrors | app.js:79-90 | the first-name middleware; `Validation.FirstNameMessages` states when the chain reports each of its messages |
| Validation.LastNameErrors | app.js:91-102 | the last-name middleware; `Validation.LastNameMessages` states when the chain reports each of its messages |
| Validation.NameMessages | app.js:79-102 | one name check alone pushes "required" iff the name is empty, "too long" iff it exceeds 25 characters, "alphabetical" iff it has 1 to 25 characters and is not all ASCII letters |
| Validation.FindIndex | app.js:104-107 | `findIndex` returns -1 iff no contact has the key, else the first index whose key matches |
| Validation.UniquenessErrors | app.js:103-113 | the duplicate message is pushed iff some stored contact has the candidate's key, and nothing is pushed otherwise |
| Validation.PhoneErrors | app.js:114-123 | no message iff the number matches the pattern; "required" when empty; "invalid" when non-empty and not matching |
| Validation.Validate | app.js:67-123 | the messages the whole chain pushes, in order; its meaning is stated by `Validation.ValidateAcceptsIffAcceptable` and `Validation.ValidateMessageOrder` |
| Validation.ValidateAcceptsIffAcceptable | app.js:67-135 | the chain reports nothing iff the trimmed contact is well formed and its key is new; never more than four messages |
| Validation.ChecksOfRank | app.js:79-123 | each check pushes at most one message, and only messages of its own field |
| Validation.NameErrorsOfRank | app.js:79-102 | a name check pushes at most one message, drawn from its own three |
| Validation.RankedChecks | app.js:79-123 | four checks run in order emit their messages in strictly increasing rank |
| Validation.ValidateMessageOrder | app.js:79-123 | the messages come in the order first name, last name, uniqueness, phone, with at most one for each |
| Validation.ValidateSeesTrimmedFields | app.js:72-78 | validating an already trimmed submission gives the same messages: every check sees the trimmed fields |
| Validation.MessageFromItsCheck | app.js:79-123 | a message in the combined list can only come from the check of its own field |
| Validation.DuplicateReportedIffKeyTaken | app.js:103-113 | the duplicate message is reported iff the trimmed key is taken, whatever the format checks found |
| Validation.FirstNameMessages | app.js:79-90 | the chain reports "First name is required." iff the trimmed first name is empty, the length message iff it exceeds 25 characters, the alphabetical message iff it has 1 to 25 characters and is not all ASCII letters |
| Validation.LastNameMessages | app.js:91-102 | the same three statements for the trimmed last name and its messages |
| Validation.TakenKeyHasValidNames | app.js:103-107 | in the model (ASCII-only lower-casing), in a store that keeps its invariant, a taken key belongs only to names that pass both name checks |
| Validation.DuplicateComesWithoutNameMessages | app.js:79-123 | in the model (ASCII-only lower-casing), against a store that keeps its invariant, a chain that reports the duplicate reports it first, followed by the phone field's messages only |
| Validation.PhoneRequiredIffEmpty | app.js:114-117 | "phone number is required" is reported iff the trimmed phone field is empty |
| Validation.PhoneInvalidIffMalformed | app.js:114-120 | "invalid phone number" is reported iff the trimmed phone field is non-empty and does not match |
| Validation.PhoneMessages | app.js:114-123 | the phone check alone pushes "required" iff the field is empty and "invalid" iff it is non-empty and malformed |
| Store.AcceptedKeepsInvariant | app.js:136-141 | appending an acceptable contact keeps every contact well formed and all keys distinct |
| Store.CheckName | app.js:79-102 | one name middleware appends exactly that name's messages to the list so far |
| Store.CheckUnique | app.js:103-113 | the uniqueness middleware appends exactly the duplicate message when the key is taken |
| Store.CheckPhone | app.js:114-123 | the phone middleware appends exactly the phone field's messages |
| Store.ContactStore.constructor | app.js:5-26 | the store starts as the seed data and satisfies the invariant |
| Store.ContactStore.List | app.js:57-61 | the listing is sorted by last then first name and is a permutation of the stored contacts |
| Store.ContactStore.Add | app.js:67-143 | returns `Validate`'s messages and the trimmed fields; with no message, appends exactly the trimmed contact; otherwise changes nothing; keeps the invariant |
| Scenarios.NormalizeKeepsTrimmed | app.js:72-78 | fields without whitespace at the ends are stored as submitted |
| Scenarios.PhoneFormatExamples | app.js:118 | "555-123-4567" matches the phone pattern and "5551234567" does not |
| Scenarios.MissingFirstName | app.js:79-90 | an empty first name with a valid rest yields only "First name is required." |
| Scenarios.DigitsInFirstName | app.js:79-90 | "John123" yields only the first-name "alphabetical characters" message |
| Scenarios.MikeJonesKeyTaken | app.js:103-107 | "mike"/"JONES" has the same key as the seeded Mike Jones |
| Scenarios.SeededNameRefused | app.js:103-113 | " mike "/"JONES" with a valid number yields only the duplicate message against the seed |
| Scenarios.AaronAccepted | app.js:67-135 | "Aaron Banks", 555-123-4567, passes every check against the seed |
| Scenarios.SeedAfterBanks | app.js:30-31 | every seeded last name sorts after "Banks" |
| Scenarios.AaronListedFirst | app.js:28-42 | after adding Aaron Banks to the seed, the sorted list has five contacts and starts with him |
| Scenarios.AddThenList | app.js:57-143 | adding Aaron Banks to a fresh store and listing it gives five contacts, with him first and exactly once |

## Left out

- Express wiring is not modelled: the view engine, static files, body parsing, logging, the `/` redirect, GET `/contacts/new`, template rendering and the redirect after a successful append. `Add` returns what the form is re-rendered with: the messages and the three trimmed fields.
- The error-handling middleware and `app.listen` perform I/O only.
- A request body that lacks one of the three fields, or repeats one (which `express.urlencoded` turns into an array), makes `trim` throw in the source. The model takes three strings, so that path is not modelled.
- JsText.Lower: lower-cases ASCII letters only; full Unicode `toLowerCase`, with its non-ASCII and multi-character mappings, is not modelled. No accepted name contains a non-ASCII character, so stored keys and the keys of accepted names are the same in both. A rejected name can differ: `toLowerCase` maps U+212A KELVIN SIGN to `k`, so in `app.js` the first name "MI\u212AE" with last name "Jones" fails the alphabetical check and also matches the seeded "Mike Jones", giving two messages. In the model no such name matches a stored key, and it gets the alphabetical message alone. Contacts.SameLowerAsValidName, Contacts.KeyOfWellFormedHasValidNames, Validation.TakenKeyHasValidNames and Validation.DuplicateComesWithoutNameMessages therefore hold for the model's lower-casing, not for `app.js` on such names.
- JsText.StrLess: compares Unicode scalar values, where JavaScript compares UTF-16 code units. The two orders differ only between supplementary-plane characters and U+E000–U+FFFF.
- Validation.NameErrors: string lengths are counted in Unicode scalar values, where JavaScript counts UTF-16 code units. The "maximum length" check can differ for names with supplementary-plane characters. Such names fail the alphabetical check anyway.
- JsText.IsTrimmable: the whitespace set is ECMA-262's WhiteSpace and LineTerminator, with Unicode category Zs as of Unicode 15.
- SortPolicy.SortContacts: the model uses insertion sort, not the engine's sort. Being sorted and a permutation fixes the result up to the order of contacts with identical names. Stability, which decides that order in the engine, is not proved.
- Concurrency: Node runs each handler to completion, and every POST is one atomic `Add`, so no check-then-append race arises.
