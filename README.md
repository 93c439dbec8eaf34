# After-school lessons storefront: catalogue, cart and checkout in Dafny

This project models the logic of the storefront page in `main.js`. The page
holds a catalogue of lessons fetched from a backend. Each lesson has an id,
subject, location, price, a number of free `spaces` and an image path. The
page also holds a cart of lesson ids and a checkout form. The model covers:

- the catalogue views: the search filter `filteredLessons` and the sorted copy
  `sortedLessons` (module `Catalog`, with the JavaScript string operations it
  needs in module `Text`);
- the cart ledger: `cartItemCount`, `cartDetails`, `itemsLeft`,
  `canAddToCart`, and the edits made by `addToCart` (a guarded `push`) and
  `removeFromCart` (`splice(index, 1)`) (module `Cart`);
- the checkout gate `isCheckoutValid`, with its two regular expressions
  modelled as anchored character-class patterns (module `Checkout`);
- the image path rewriting `imageUrl` (module `Images`);
- the local bookkeeping of `submitForm` (modules `Submission` and
  `Storefront`).

The page's state is the class `Storefront.App`. Its fields are `lessons`,
`cart` and `order`. Its methods `AddToCart`, `RemoveFromCart` and `SubmitForm`
change that state as the handlers do. `SubmitForm` runs the loop over the
cart: `UpdateSpaces` is the loop and `UpdateEntry` is one pass of it. The
computed properties are pure functions of the fields they read.

The network calls of `submitForm` are replaced by a sequence of outcomes.
Outcome 0 is the POST of the order. Outcome `i + 1` is the PUT for cart entry
`i`, and that PUT is made only when the entry's lesson is in the catalogue.
`false` means the call throws. Missing outcomes mean the call returns. A
`fetch` that gets an HTTP error status still returns, so it counts as a
success here, as in the code.

Proved, beyond each member's own contract:

- A blank search term keeps the catalogue unchanged. Any other term keeps,
  in catalogue order, every copy of each lesson that matches it and nothing
  else.
- Sorting yields a permutation of the filtered list, ordered by the key.
- `addToCart` adds exactly one entry when a place is left, and nothing
  otherwise.
- `removeFromCart` removes exactly the entry at the index, and nothing when
  the index is past the end.
- In a catalogue whose ids are unique, both edits keep every lesson's cart
  count within its `spaces`.
- In a catalogue whose ids are unique, after a fully successful submission
  each lesson's local `spaces` equals the `itemsLeft` shown for it before.
  The per-entry decrements add up to the occurrence count.
- A submission that throws part-way can leave the cart over capacity
  (`Submission.PartialFailureOverdraws`).

Behaviour of `main.js` worth noting:

- The search is matched against the lower-cased subject and location, and
  against the decimal form of the price and of the spaces. The term is
  lower-cased but not trimmed.
- `removeFromCart` is `splice(index, 1)`. A negative index counts from the
  end, and an index past the end changes nothing.
- `submitForm` makes one PUT per cart entry, and each PUT lowers the local
  `spaces` of that lesson by one. A lesson that is in the cart twice is
  lowered twice.
- One `catch` covers the POST and all PUTs. When any call throws, the
  decrements already made stay, the cart is kept, and nothing is retried.
- Names must be ASCII letters only, and the phone number 8 to 15 ASCII
  digits.
- The sort comparator never returns 0, so the order of lessons with equal
  keys is left to the JavaScript engine. The model claims only the
  permutation and the ordering.

## Model

| member | source | states |
|---|---|---|
| `Text.TrimStart` | main.js:35 | the result is a suffix of the input; everything dropped is white space; the result does not start with white space |
| `Text.TrimEnd` | main.js:35 | the result is a prefix of the input; everything dropped is white space; the result does not end with white space |
| `Text.Trim` | main.js:35 | `trim()` gives a stretch of the string with only white space before and after it, neither starting nor ending with white space |
| `Text.TrimEmptyIffBlank` | main.js:35 | `trim()` gives the empty string exactly when every character is white space |
| `Text.ToLower` | main.js:37 | lower-casing keeps the length |
| `Text.StartsWith` | main.js:105-108 | `startsWith(p)` holds exactly when the string is `p` followed by something |
| `Text.Contains` | main.js:40-43 | `includes` holds exactly when the term occurs at some position of the string |
| `Text.NatToString` | main.js:42-43 | `String(n)` is a non-empty string of decimal digits without a leading zero |
| `Text.NatToStringRoundTrip` | main.js:42-43 | reading the decimal form back gives the number |
| `Text.IntToString` | main.js:42-43 | `String(n)` is the canonical decimal form: a minus sign exactly for negative numbers, then digits without leading zeros that read back as the magnitude |
| `Text.IntToStringInjective` | main.js:42-43 | different numbers print differently |
| `Text.StrLess` | main.js:59-61 | string `<` holds exactly when, at the first position where the strings differ, the left one has ended or has the smaller character |
| `Text.StrLessIrreflexive` | main.js:59-61 | no string is less than itself |
| `Text.StrLessTransitive` | main.js:59-61 | string `<` is transitive |
| `Text.StrLessTotal` | main.js:59-61 | of two different strings, one is less than the other |
| `Text.StrNotLessTransitive` | main.js:59-61 | string `<=` is transitive |
| `Catalog.Find` | main.js:75 | `find` by id gives the first lesson with that id, or nothing exactly when no lesson has it |
| `Catalog.FindUnique` | main.js:166 | with unique ids, looking up a lesson's id finds that lesson |
| `Catalog.Matches` | main.js:40-43 | a lesson matches exactly when the term occurs somewhere in its lower-cased subject, its lower-cased location, or the decimal form of its price or of its spaces; so the empty term matches every lesson |
| `Catalog.FilterMatching` | main.js:39-44 | the filter keeps a subsequence of the catalogue holding every copy of each matching lesson and no other lesson |
| `Catalog.FilteredLessons` | main.js:34-45 | a blank term gives the catalogue unchanged; otherwise a subsequence holding every copy of each lesson that matches the lower-cased term, and no other lesson |
| `Catalog.KeyLess` | main.js:52-62 | the comparator's `<` on the chosen key never holds between lessons with the same key |
| `Catalog.InOrder` | main.js:52-62 | lessons with the same key may stand in either order |
| `Catalog.InOrderTotal` | main.js:51-63 | of two lessons, one may stand before the other for any key and direction |
| `Catalog.InOrderTransitive` | main.js:51-63 | the "may stand before" relation of the comparator is transitive |
| `Catalog.Insert` | main.js:51-63 | inserting into a sorted list gives a sorted permutation of the list plus the element |
| `Catalog.Sort` | main.js:49-65 | the sorted copy is a permutation of its input, ordered by the key |
| `Catalog.SortedLessons` | main.js:48-66 | `sortedLessons` is a permutation of `filteredLessons`, non-decreasing by key for "asc" and non-increasing otherwise |
| `Cart.Count` | main.js:116 | the number of entries equal to the id is its multiplicity in the cart |
| `Cart.CartItemCount` | main.js:69-71 | the item count is the number of reserved places in the cart |
| `Cart.ItemsLeft` | main.js:115-117 | places left are `spaces` minus the id's multiplicity in the cart |
| `Cart.CanAddToCart` | main.js:120-122 | a place is left exactly when the cart holds the lesson fewer times than its `spaces` |
| `Cart.Added` | main.js:125-129 | the old entries keep their order, and the lesson's id is added once exactly when a place is left |
| `Cart.Spliced` | main.js:133 | an in-range splice position removes exactly the entry there and shortens the cart by one; otherwise the cart is unchanged |
| `Cart.SpliceStart` | main.js:133 | where `splice(index, 1)` cuts: negative indexes count from the end, indexes clamp to the cart |
| `Cart.CartDetails` | main.js:74-76 | one detail per cart entry; present exactly when a catalogue lesson has that id, and then it is the first catalogue lesson with that id |
| `Cart.CartDetailsUnique` | main.js:75 | with unique ids, the detail is exactly the catalogue lesson with that id |
| `Cart.AddedCounts` | main.js:120-129 | adding appends exactly one entry for the lesson when a place is left, and otherwise nothing; no other id's count changes |
| `Cart.SplicedRemovesOne` | main.js:132-134 | an in-range index removes exactly that entry and keeps the others in order; an index past the end changes nothing; a negative one counts from the end |
| `Cart.SkipOneIsSubsequence` | main.js:133 | the cart without one entry is a subsequence of the cart |
| `Cart.EmptyCartWithinCapacity` | main.js:14 | the empty cart starts within capacity |
| `Cart.AddKeepsWithinCapacity` | main.js:115-129 | in a catalogue with unique ids, adding a catalogue lesson keeps every count at most its lesson's spaces |
| `Cart.RemoveKeepsWithinCapacity` | main.js:132-134 | removing keeps every count at most its lesson's spaces |
| `Cart.TwoSpacesScenario` | main.js:115-129 | a lesson with two spaces takes two adds, ignores a third, and has no place left |
| `Checkout.Run` | main.js:81-84 | the class run is the longest prefix of characters in the class |
| `Checkout.Test` | main.js:81-84 | an anchored pattern matches exactly when the length is in range and every character is in the class |
| `Checkout.IsCheckoutValid` | main.js:79-94 | the gate holds iff both names are non-empty ASCII letters, the phone is 8 to 15 digits, address, city and method are non-empty, and the cart is not empty |
| `Checkout.DigitsInNameRejected` | main.js:80-82 | the first name "John123" fails the gate |
| `Checkout.EmptyCartRejected` | main.js:92 | an empty cart fails the gate whatever the form holds |
| `Checkout.CompleteFormAccepted` | main.js:79-94 | a form with letters-only names, an eight-digit phone and the other fields filled passes with one cart entry |
| `Images.ImageUrl` | main.js:101-112 | empty stays empty; full URLs are kept; anything else lands under the base URL with exactly one "/" before the path; the path is always a suffix of the result |
| `Images.ImageUrlIdempotent` | main.js:101-112 | rewriting an already rewritten path changes nothing |
| `Submission.DecrementOne` | main.js:166-176 | one decrement keeps the catalogue's length |
| `Submission.Decremented` | main.js:165-178 | the decrements keep the catalogue's length |
| `Submission.DecrementedKeepsRecords` | main.js:176 | the decrements change nothing but `spaces` |
| `Submission.FindSameIds` | main.js:166 | a catalogue with the same ids answers every lookup the same way |
| `Submission.FindAfterDecrements` | main.js:166-176 | decrements change no lookup |
| `Submission.SubmitStep` | main.js:165-178 | entry `i` is applied to the catalogue left by the entries before it, and finds the same lesson there |
| `Submission.PutsReturnStep` | main.js:165-178 | entry `i` adds to the entries whose PUT returned when its PUT returns or is never made |
| `Submission.DecrementedSpaces` | main.js:165-178 | with unique ids each lesson ends with its spaces reduced by its number of cart entries; unknown ids change nothing |
| `Submission.SubmittedSpacesAreItemsLeft` | main.js:115-117 | in a catalogue with unique ids, after a full submission each lesson's spaces equal its earlier `itemsLeft`, and none is negative when the cart was within capacity |
| `Submission.UnknownIdSkipped` | main.js:166-167 | an entry whose id names no lesson changes nothing |
| `Submission.TwoLessonsSubmitted` | main.js:165-181 | two different lessons with one entry each both lose one space when every call returns |
| `Submission.PartialFailureOverdraws` | main.js:165-186 | a PUT that throws after an earlier one returned leaves the cart unchanged over a reduced catalogue, with `itemsLeft` at -1 |
| `Storefront.App.constructor` | main.js:11-30 | the page starts with the loaded catalogue, an empty cart and an empty form |
| `Storefront.App.AddToCart` | main.js:125-129 | the cart becomes the guarded append of the lesson's id, and stays within capacity for a catalogue lesson when the catalogue's ids are unique |
| `Storefront.App.RemoveFromCart` | main.js:132-134 | the cart becomes `splice(index, 1)` of itself, and stays within capacity |
| `Storefront.App.SubmitForm` | main.js:142-187 | an invalid form changes nothing; if every call returns, every cart entry is applied and the cart is emptied; if a call throws, the cart is kept and exactly the entries before the throwing call are applied |
| `Storefront.App.UpdateSpaces` | main.js:165-178 | the loop applies all entries iff no PUT throws, and otherwise stops at the first entry whose PUT throws, with the entries before it applied |
| `Storefront.App.UpdateEntry` | main.js:166-177 | one pass decrements the entry's lesson iff it exists and its PUT returns, and changes nothing when the PUT throws |

## Left out

- `fetchLessons` and the `created()` hook (main.js:192-206) are network I/O and JSON decoding. The catalogue is a constructor parameter instead.
- The request bodies of the POST and PUT calls (main.js:146-162, 170-174) are network I/O. Only each call's outcome (returns or throws) is modelled.
- `alert`, `console.error`, the `showLessons` flag and `toggleCheckout` (main.js:19, 136-139, 180-185) are user-interface state, left out.
- The `sitename`, `searchTerm`, `sortBy` and `sortOrder` fields are not fields of `App`. The views take them as parameters.
- Other handlers can run while `submitForm` waits at an `await`. That interleaving is not modelled: the loop works on the cart as it was at the start.
- Prices are whole numbers. JavaScript's number formatting of fractional prices in `String(price)` is not modelled.
- `price` and `spaces` are unbounded integers here. In `main.js` they are JavaScript numbers, which are doubles. Their range is not modelled. `String(n)` switches to exponent form from 1e21 on, and this changes what the search matches. `spaces - 1` is no longer exact above 2^53. Neither effect is modelled.
- `Text.ToLower`: only ASCII letters are lower-cased. The full Unicode case mapping of `toLowerCase` is not modelled.
- `Text.StrLess` compares characters by code point. JavaScript compares UTF-16 code units, which orders characters above U+FFFF differently.
- `Catalog.SortedLessons`: `sortBy` is one of the four lesson keys. A `sortBy` naming any other field is not modelled.
- `Catalog.Sort`: the model keeps tied lessons in input order. Only the permutation and the ordering are claimed, as the engine's order of ties is unspecified.
- Sort stability and idempotence are not claimed, because the comparator is inconsistent on ties.
- The catalogue's `_id`s are assumed unique where a lemma needs it. `main.js` never checks this. With two lessons sharing an id, `addToCart` on the second can take the first over capacity, and `submitForm` lowers only the first.
- Lessons are values in a sequence. Object identity of lesson records is not modelled. The code updates the first lesson with a matching id, and so does the model.
