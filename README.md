# Access control, sanitisers and session stores of the ilivebackstage console

This Dafny project models the client-side logic of the ilivebackstage admin
console that decides what a user may see and what input the console lets
through. It covers five parts of that code.

- **Permissions** (`src/utils/permissions.js`, module `Permissions`):
  - seven capability bits and six role masks;
  - the module/item table of required-permission strings;
  - `hasPermission`, which splits a required string on `|`, runs `parseInt`
    on each trimmed piece, and passes the user when `(user & p) === p` for
    some piece, or when the mask is exactly 127;
  - the `authStore` session store, a class whose mutations update the state
    and mirror the tokens into `localStorage`.
- **The installed store** (`src/main.js:13-48`, module `MainStore`): a
  sibling class to `authStore`. `SET_PERMISSIONS` parses its argument
  itself. `loginSuccess` reads the fields from the response and not from
  `.data`.
- **Sanitisers** (`src/utils/security.js`, module `Security`):
  - `cleanInput` as its chain of global replacements;
  - `validateNoXSS` as its seven pattern tests;
  - `sanitizeUrl`;
  - the two object sanitisers.
- **Input validation** (`useInputValidation.js`, module `InputValidation`):
  - the email regular expression;
  - a class whose `Validate` method resets `errorMessage` and then returns
    at the first failing check.
- **Router guard** (`src/router.js`, module `Router`): the `beforeEach`
  decision and the two static redirects.

The support modules are:

- `JsText`: the JavaScript number that `parseInt` yields, plus `parseInt`,
  `trim`, `split`, ASCII lower-casing and `includes`.
- `WebStorage`: `localStorage` as a class over a `map<string, string>`.

JavaScript's `&` is modelled exactly:

- both operands go through ToInt32, then the bits are combined and the
  result is read back as signed;
- a bit-level `And` on naturals carries the bit logic;
- the predicate `BitsWithin(b, a)` says that every bit of `b` is set in `a`.

Some behaviours of the source that the proofs bring out:

- Adding bits to a mask keeps every access it had, except at the 127
  shortcut. A mask of 255 loses the unconditional pass that 127 gets, so
  255 fails the empty required string while 127 passes it.
- `cleanInput` is a single left-to-right pass in which control characters
  are deleted last. A `javascript:` or `&#` split by a control character
  therefore comes out whole, and the cleaned text then fails
  `validateNoXSS`.
- `validateNoXSS` only rejects `<` when a `>` follows it. A cleaned string
  never contains either character, so it never matches the tag pattern.

## Model

| member | source | states |
|---|---|---|
| Permissions.CapabilityBits | src/utils/permissions.js:3-11 | every capability bit is a power of two between 1 and 64, the bits are pairwise distinct, and there are exactly seven capabilities |
| Permissions.AllCapabilitiesBits | src/utils/permissions.js:3-11 | the OR of all seven bits and their sum are both 127 |
| Permissions.GeneralAdminBits | src/utils/permissions.js:61 | the general admin's mask 42 is the OR and the sum of dashboard, promotions and products |
| Permissions.ManageGeneralAdminBits | src/utils/permissions.js:65 | 126 is the OR and the sum of the six bits other than user management |
| Permissions.DashboardPair | src/utils/permissions.js:62-64 | dashboard plus one disjoint bit has the same OR and sum: the 34, 36 and 96 comments |
| Permissions.RoleMasksMatchComments | src/utils/permissions.js:59-66 | each role's mask equals both the sum and the OR of the capabilities its comment names |
| Permissions.RoleMasksWithinFullAccess | src/utils/permissions.js:59-66 | every role's mask holds only bits of 127 |
| Permissions.RoleMaskBounded | src/utils/permissions.js:59-66 | no role mask exceeds 127 |
| Permissions.DashboardWithinEveryRole | src/utils/permissions.js:59-66 | every role holds the dashboard bit 32 |
| Permissions.AndWithin | src/utils/permissions.js:77 | `a & b == b` exactly when every bit of b is set in a |
| Permissions.OrDisjoint | src/utils/permissions.js:3-11 | OR of numbers with no common bit is their sum |
| Permissions.DisjointBelow | src/utils/permissions.js:3-11 | a power of two shares no bit with any smaller number |
| Permissions.OrBitsStep | src/utils/permissions.js:3-11 | a capability whose bit is clear in the rest adds its bit to both the OR and the sum |
| Permissions.WithinBounded | src/utils/permissions.js:77 | a number whose bits all lie in a is at most a |
| Permissions.AndCommutes | src/utils/permissions.js:77 | bitwise AND is commutative |
| Permissions.AndHalves | src/utils/permissions.js:77 | AND works bit by bit: lowest bit, then the rest shifted right |
| Permissions.AndAssociates | src/utils/permissions.js:77 | bitwise AND is associative |
| Permissions.ToInt32 | src/utils/permissions.js:77 | the signed 32-bit reading lies in [-2^31, 2^31) |
| Permissions.Uint32Of | src/utils/permissions.js:77 | ToUint32 of a parsed number is below 2^32, and NaN counts as 0 |
| Permissions.RequiredPiecesCount | src/utils/permissions.js:73 | a required string yields exactly one more piece than it has `\|` characters |
| Permissions.HasPermissionIff | src/utils/permissions.js:68-79 | the check passes exactly when the mask is 127 or some piece p satisfies `(user & p) === p` |
| Permissions.AnyMatchesExists | src/utils/permissions.js:76-78 | `some` over the pieces is true exactly when some piece matches |
| Permissions.PieceMatchesIff | src/utils/permissions.js:77 | a piece p matches exactly when p is an int32 and all its 32-bit pattern lies in the user's |
| Permissions.Int32RoundTrip | src/utils/permissions.js:77 | a 32-bit pattern reads as the signed integer p exactly when p is an int32 whose own pattern it is |
| Permissions.PieceMatchesSmall | src/utils/permissions.js:77 | for masks and pieces below 2^31 a match is bit containment, not a shared bit |
| Permissions.PieceEdgeCases | src/utils/permissions.js:73-77 | a NaN piece never matches; a 0 piece matches every user |
| Permissions.PieceMatchesMonotone | src/utils/permissions.js:76-77 | a piece matched by a mask is matched by every mask holding its bits |
| Permissions.AndFixedMonotone | src/utils/permissions.js:77 | if `(u & p) === p` and v holds every bit of u, then `(v & p) === p` |
| Permissions.HasPermissionMonotone | src/utils/permissions.js:68-79 | gaining bits keeps every granted access, unless the smaller mask was 127 and the larger is not |
| Permissions.SmallUint32 | src/utils/permissions.js:77 | ToUint32 leaves numbers below 2^32 unchanged |
| Permissions.SevenBitMonotone | src/utils/permissions.js:68-79 | among masks up to 127, adding bits never removes an access |
| Permissions.FullAccessShortcutNotMonotone | src/utils/permissions.js:70-77 | 255 holds every bit of 127, yet 127 passes the empty string and 255 does not |
| Permissions.EmptyRequired | src/utils/permissions.js:73 | the empty required string yields the single piece NaN |
| Permissions.FullAccessPassesAll | src/utils/permissions.js:70 | mask 127 passes every required string |
| Permissions.EmptyRequiredAdmitsOnlyFullAccess | src/utils/permissions.js:70-77 | the empty required string admits mask 127 and no other |
| Permissions.ZeroRequiredAdmitsAll | src/utils/permissions.js:73-77 | the required string `'0'` admits every user |
| Permissions.MaskPiece | src/utils/permissions.js:73 | a decimal numeral padded with whitespace parses back to its value |
| Permissions.PaddedMask | src/utils/permissions.js:73 | a table piece such as `' 16'` holds no `\|` and parses to its number |
| Permissions.PiecesOfMasks | src/utils/permissions.js:73 | joining padded numerals with `\|` and splitting again yields exactly those numbers |
| Permissions.Parse127 | src/utils/permissions.js:17-18 | `'127'` parses to the single piece 127 |
| Permissions.Parse34 | src/utils/permissions.js:25-28 | `'34'` parses to the single piece 34 |
| Permissions.Parse42 | src/utils/permissions.js:42-45 | `'42'` parses to the single piece 42 |
| Permissions.Parse36 | src/utils/permissions.js:34-36 | `'36'` parses to the single piece 36 |
| Permissions.Parse96 | src/utils/permissions.js:35 | `'96'` parses to the single piece 96 |
| Permissions.Parse32Or16 | src/utils/permissions.js:15 | `'32 \| 16'` parses to the pieces 32 and 16 |
| Permissions.Parse32Or2 | src/utils/permissions.js:23 | `'32 \| 2'` parses to the pieces 32 and 2 |
| Permissions.Parse32Or4Or64 | src/utils/permissions.js:32 | `'32 \| 4 \| 64'` parses to the pieces 32, 4 and 64 |
| Permissions.Parse32Or8 | src/utils/permissions.js:40 | `'32 \| 8'` parses to the pieces 32 and 8 |
| Permissions.Parse126Or42Or34Or36Or96 | src/utils/permissions.js:19 | the authorisation item's string parses to its five masks |
| Permissions.GrantedBy | src/utils/permissions.js:76-77 | a mask holding all bits of one listed alternative passes |
| Permissions.PassesSingle | src/utils/permissions.js:68-79 | against a one-piece string a role passes exactly when it is super admin or holds every bit of the piece |
| Permissions.SingleMaskPasses | src/utils/permissions.js:68-79 | against a one-piece string a mask below 2^31 passes exactly when it is 127 or holds every bit of the piece |
| Permissions.OwnMaskGranted | src/utils/permissions.js:19 | a role passes a string that lists its own mask, and the super admin passes any string |
| Permissions.RolesHolding127 | src/utils/permissions.js:59-66 | only the super admin holds all bits of 127 |
| Permissions.RolesHolding34 | src/utils/permissions.js:59-66 | exactly super, general, stock and manage-general admins hold the bits of 34 |
| Permissions.RolesHolding42 | src/utils/permissions.js:59-66 | exactly super, general and manage-general admins hold the bits of 42 |
| Permissions.RolesHolding36 | src/utils/permissions.js:59-66 | exactly super, order and manage-general admins hold the bits of 36 |
| Permissions.RolesHolding96 | src/utils/permissions.js:59-66 | exactly super, delivery and manage-general admins hold the bits of 96 |
| Permissions.RolesPassingAccountItems | src/utils/permissions.js:17-18 | a `'127'` item admits the super admin and no other role |
| Permissions.RolesPassingStockItems | src/utils/permissions.js:25-28 | a `'34'` item admits exactly super, general, stock and manage-general admins; an order admin fails it |
| Permissions.RolesPassingGeneralItems | src/utils/permissions.js:42-45 | a `'42'` item admits exactly super, general and manage-general admins; a stock admin (34) fails it |
| Permissions.RolesPassingOrderItems | src/utils/permissions.js:34-36 | a `'36'` item admits exactly super, order and manage-general admins |
| Permissions.RolesPassingDeliveryItems | src/utils/permissions.js:35 | a `'96'` item admits exactly super, delivery and manage-general admins; an order admin fails it |
| Permissions.RolesPassingModule | src/utils/permissions.js:13-48 | a string whose first alternative is 32 admits every role |
| Permissions.RolesPassingAuthorisationItem | src/utils/permissions.js:19 | a string parsing to the masks 126, 42, 34, 36 and 96 admits every role |
| Permissions.AuthorisationItemAccess | src/utils/permissions.js:19 | item `'1-3'` admits every role |
| Permissions.WithinSelf | src/utils/permissions.js:77 | every mask holds its own bits: `(m & m) === m` |
| Permissions.ModuleOneAccess | src/utils/permissions.js:14-21 | module 1 and item 1-3 admit every role; items 1-1 and 1-2 admit only the super admin |
| Permissions.ModuleTwoAccess | src/utils/permissions.js:22-30 | module 2 admits every role; items 2-1, 2-3 and 2-4 admit the four roles with 34; 2-2 admits the three with 42 |
| Permissions.ModuleThreeAccess | src/utils/permissions.js:31-38 | module 3 admits every role; items 3-1 and 3-3 admit the 36 roles; 3-2 admits the 96 roles and not the order admin |
| Permissions.ModuleFourAccess | src/utils/permissions.js:39-47 | module 4 admits every role; all four items admit exactly the three roles with 42 |
| Permissions.StoreTokens | src/utils/permissions.js:96-97 | storage gains both keys with the given tokens and every other key keeps its value |
| Permissions.RemoveTokens | src/utils/permissions.js:103-104 | storage loses both token keys and keeps every other entry |
| Permissions.ReloadKeepsTokensNotMask | src/utils/permissions.js:83-115 | a state re-initialised after a login has the stored tokens but mask 0: permissions are never persisted |
| Permissions.ReloadAfterClear | src/utils/permissions.js:83-105 | a state re-initialised after `CLEAR_AUTH` is the cleared state |
| Permissions.RemoveTokensIdempotent | src/utils/permissions.js:99-105 | clearing twice equals clearing once, and clearing after storing tokens leaves what clearing alone leaves |
| Permissions.AuthStore.constructor | src/utils/permissions.js:83-87 | initial state: mask 0 and the tokens read from storage; tokens and storage agree |
| Permissions.AuthStore.SetPermissions | src/utils/permissions.js:90-92 | only the mask changes; storage is untouched and stays in agreement |
| Permissions.AuthStore.SetToken | src/utils/permissions.js:93-98 | both state tokens and both stored keys take the new values, nothing else changes |
| Permissions.AuthStore.ClearAuth | src/utils/permissions.js:99-105 | mask 0, empty tokens, both keys removed from storage |
| Permissions.AuthStore.LoginSuccess | src/utils/permissions.js:109-115 | the state holds `parseInt(response.data.permissions)` and the response's tokens, which are also stored |
| Permissions.AuthStore.Logout | src/utils/permissions.js:116-118 | the same new state and storage as `CLEAR_AUTH` |
| MainStore.AppStore.constructor | src/main.js:14-18 | initial state: mask 0 and the stored tokens or `''` |
| MainStore.AppStore.SetPermissions | src/main.js:20-22 | the mask becomes `parseInt` of the argument; nothing else changes |
| MainStore.AppStore.SetToken | src/main.js:23-28 | state tokens and the stored `token`/`refreshToken` take the same values |
| MainStore.AppStore.ClearAuth | src/main.js:29-35 | mask 0, empty tokens, both keys removed |
| MainStore.AppStore.LoginSuccess | src/main.js:38-43 | the three fields come from the response itself; the mask is `parseInt` of its `permissions` |
| MainStore.AppStore.Logout | src/main.js:44-46 | exactly the effect of `CLEAR_AUTH` |
| MainStore.LoginInBoth | src/main.js:38-43 | the installed store given the fields and `authStore` given them under `data` reach the same state; when both use the same `localStorage` it holds the tokens once |
| Router.Guard | src/router.js:60-70 | the guard either lets the navigation through or redirects to `/login`, never elsewhere |
| Router.GuardOutcomes | src/router.js:63-69 | login and register always pass; another path redirects exactly when the stored token is missing or empty; a non-empty token lets every path through |
| Router.GuardNeverLoops | src/router.js:60-70 | the target of a redirect is always let through |
| Router.GuardAfterStoreChanges | src/router.js:60-70 | after `SET_TOKEN` with a non-empty token every path passes; after `CLEAR_AUTH` every path but login and register redirects |
| Router.StaticRedirect | src/router.js:4-22 | a redirect never points back at its own path |
| Router.StaticRedirects | src/router.js:4-22 | `/` goes to `/login`, `/dashboard` to `/home`, nothing else is redirected, and no target is redirected again |
| WebStorage.LocalStorage.GetItem | src/utils/permissions.js:85-86 | reads the stored value, if any, without changing storage |
| WebStorage.LocalStorage.SetItem | src/utils/permissions.js:96-97 | the key maps to the value, every other key is unchanged |
| WebStorage.LocalStorage.RemoveItem | src/utils/permissions.js:103-104 | the key is gone, every other key is unchanged |
| JsText.Trim | src/utils/security.js:12 | the result is an infix of the input that neither starts nor ends with whitespace, with only whitespace around it |
| JsText.TrimPadded | src/utils/permissions.js:73 | trimming removes exactly the whitespace padding around a word |
| JsText.TrimStartPadded | src/utils/security.js:12 | leading whitespace added before a string is removed again by trimming its start |
| JsText.ParseIntString | src/utils/permissions.js:73 | `parseInt` of an integer's decimal form, followed by a character other than a digit, `x` or `X`, gives the integer back |
| JsText.ParseIntNeedsDigit | src/utils/permissions.js:73 | `parseInt` gives a number only when the string holds a digit; spaces, signs and letters alone give NaN |
| JsText.ParseNaturalString | src/utils/permissions.js:73 | `parseInt` of a natural number's decimal form, followed by a character other than a digit, `x` or `X`, gives the number |
| JsText.ParseNegativeString | src/utils/permissions.js:73 | `parseInt` of `-` and a negative number's digits, followed by a character other than a digit, `x` or `X`, gives the number |
| JsText.ParseIntSkipsWhitespace | src/utils/permissions.js:73 | leading whitespace does not change what `parseInt` returns |
| JsText.JoinSplit | src/utils/permissions.js:73 | joining the pieces of a split on the same separator gives the string back |
| JsText.SplitJoin | src/utils/permissions.js:73 | splitting a join of separator-free pieces gives the pieces back |
| JsText.SplitCount | src/utils/permissions.js:73 | `split` yields one piece more than the string has separators |
| JsText.ToLowerAscii | src/utils/security.js:79 | same length, each character lower-cased, and no capital `A` to `Z` remains |
| JsText.ToLowerAsciiIdempotent | src/utils/security.js:79 | lower-casing twice is lower-casing once, and it leaves a string unchanged exactly when the string has no capital `A` to `Z` |
| Security.HandlerMatch | src/utils/security.js:18 | a match of `/on\w+=/i` is empty or at least four characters long, ends in `=`, and lies within the text |
| Security.WordRun | src/utils/security.js:18 | the longest run of `\w` characters at the start |
| Security.HandlerMatchIff | src/utils/security.js:18 | the greedy matcher finds `/on\w+=/i` exactly when the pattern occurs at that point, and with its only possible length |
| Security.DeleteChars | src/utils/security.js:14-26 | the result is never longer than the input, and it equals the input exactly when no character is in the class |
| Security.DeleteCharsKeeps | src/utils/security.js:14-26 | every character left after deleting a class is a character of the input outside the class |
| Security.DeleteAll | src/utils/security.js:16-22 | a global deletion never lengthens the text and keeps only characters of the input |
| Security.DeleteAllUnchanged | src/utils/security.js:16-22 | a global deletion changes the text exactly when the pattern occurs in it |
| Security.EscapeEntities | src/utils/security.js:24 | escaping never shortens the text, keeps its first character and adds only `a`, `m`, `p`, `;` |
| Security.EscapeLeavesNoEntity | src/utils/security.js:24 | after escaping no `&` is followed by `#` |
| Security.EscapeUnchanged | src/utils/security.js:24 | escaping changes the text exactly when it holds `&#` |
| Security.CleanText | src/utils/security.js:11-26 | the cleaned text contains no `<`, no `>` and no character in U+0000-U+001F or U+007F-U+009F |
| Security.CleanInput | src/utils/security.js:8-27 | non-strings come back unchanged; a string comes back as a string without angle brackets or control characters |
| Security.ValidateNoXSS | src/utils/security.js:47-61 | every non-string passes; a string holding a backslash fails |
| Security.TagPatternIff | src/utils/security.js:51 | `/<[^>]*>/` matches exactly when some `<` has a `>` after it |
| Security.CleanedHasNoTag | src/utils/security.js:11-61 | cleaned text never matches the tag pattern |
| Security.LiteralMatchIff | src/utils/security.js:52-53 | a case-insensitive literal pattern occurs exactly where the lower-cased text contains the literal |
| Security.ValidatedTextOnlyTrimmed | src/utils/security.js:11-60 | text that passes `validateNoXSS` and holds no angle bracket, no control character and no `vbscript:` is only trimmed by `cleanInput` |
| Security.PatternFreeTextOnlyTrimmed | src/utils/security.js:11-26 | text in which no step's pattern occurs is only trimmed |
| Security.CleanTextOfCleanTrim | src/utils/security.js:11-26 | when no step before the last finds anything in the trimmed text, cleaning only deletes its control characters |
| Security.PatternFreeSlice | src/utils/security.js:11-26 | an infix of a text free of every step's pattern is free of them too |
| Security.NoLiteralInSlice | src/utils/security.js:16-22 | a literal pattern absent from a text is absent from each infix |
| Security.NoHandlerInSlice | src/utils/security.js:18 | an event-handler pattern absent from a text is absent from each infix |
| Security.NoEntityInSlice | src/utils/security.js:24 | `&#` absent from a text is absent from each infix |
| Security.DeleteCharsConcat | src/utils/security.js:26 | deleting a character class distributes over concatenation |
| Security.DeleteSoleChar | src/utils/security.js:26 | deleting the only character of a class, such as the one control character, joins the text on either side of it |
| Security.DeleteMiddleControl | src/utils/security.js:26 | of three characters, a control character in the middle is the one removed |
| Security.CleanTextCanJoinEntity | src/utils/security.js:24-26 | `&`, a control character and `#` clean to `&#`, which fails `validateNoXSS` |
| Security.CleanTextCanJoinProtocol | src/utils/security.js:16-26 | `java`, a control character and `script:` clean to `javascript:`, which fails `validateNoXSS` |
| Security.ProtocolFailsValidation | src/utils/security.js:52 | a bare `javascript:` fails `validateNoXSS` |
| Security.EntityFailsValidation | src/utils/security.js:55 | a bare `&#` fails `validateNoXSS` |
| Security.SanitizeUrl | src/utils/security.js:68-85 | the result never contains a dangerous protocol in any letter case; a safe string comes back unchanged; a non-string gives `''` |
| Security.SanitizeUrlIdempotent | src/utils/security.js:79-84 | sanitising twice equals sanitising once; a string becomes `#` exactly when it is dangerous or already `#` |
| Security.CopyEntries | src/utils/security.js:95-98 | every entry except `__proto__` keeps its key with the value passed through the function, and every result entry comes from such an input entry |
| Security.SanitizeRequestData | src/utils/security.js:92-99 | non-objects pass through unchanged; an object stays an object whose string values hold no angle brackets |
| Security.CleanIfString | src/utils/security.js:113 | cleaning only strings is the same as `cleanInput` |
| Security.SanitizeResponseData | src/utils/security.js:106-119 | a string is cleaned with `cleanInput`; anything that is neither a string nor an object is returned unchanged |
| Security.SanitizersAgreeOnObjects | src/utils/security.js:92-119 | on a non-null object the response and request sanitisers give the same result |
| InputValidation.MessageOr | src/components/SafeInput/composables/useInputValidation.js:15 | `message \|\| fallback`: one of the two, and non-empty when the fallback is |
| InputValidation.MinLengthMessage | src/components/SafeInput/composables/useInputValidation.js:20 | the minimum-length message is never empty |
| InputValidation.MaxLengthMessage | src/components/SafeInput/composables/useInputValidation.js:25 | the maximum-length message is never empty |
| InputValidation.ValidateEmailIff | src/components/SafeInput/composables/useInputValidation.js:6-9 | an address is accepted exactly when it has no whitespace and exactly one `@`, not at the start, followed by a `.` that is neither first nor last in the domain |
| InputValidation.ValidatedIsPlain | src/components/SafeInput/composables/useInputValidation.js:6-9 | an accepted address has no whitespace and one `@` followed by an inner `.` |
| InputValidation.PlainIsValidated | src/components/SafeInput/composables/useInputValidation.js:6-9 | such a plain address is accepted by the regular expression |
| InputValidation.FirstFailure | src/components/SafeInput/composables/useInputValidation.js:11-40 | a failing check always produces a non-empty message |
| InputValidation.PassesIffEveryCheck | src/components/SafeInput/composables/useInputValidation.js:14-39 | a value passes exactly when it passes each of the five checks on its own; the order only picks the message |
| InputValidation.NoValidationPassesAll | src/components/SafeInput/composables/useInputValidation.js:3-39 | with no options every value passes |
| InputValidation.RequiredEmptyMessage | src/components/SafeInput/composables/useInputValidation.js:14-16 | a required empty value fails with the caller's message, or the default one when that is empty |
| InputValidation.LengthFailures | src/components/SafeInput/composables/useInputValidation.js:19-27 | length failures report the bound and ignore the caller's message; an empty value that is not required still fails a positive minimum |
| InputValidation.DroppingChecksKeepsPass | src/components/SafeInput/composables/useInputValidation.js:14-39 | switching any check off never makes a passing value fail |
| InputValidation.InputValidator.constructor | src/components/SafeInput/composables/useInputValidation.js:3-4 | the error message starts out empty |
| InputValidation.InputValidator.Validate | src/components/SafeInput/composables/useInputValidation.js:11-40 | returns true exactly when no check fails; the message is then `''`, and otherwise it is the first failing check's non-empty message |

## Left out

- `sanitizeHtml` (src/utils/security.js:34-40) depends on the DOM's `textContent`/`innerHTML` escaping, which is not part of this model.
- Numbers:
  - a JavaScript number is modelled only as `parseInt` can produce it, an integer or NaN;
  - fractions, infinities and -0 are not modelled;
  - precision loss above 2^53 is not modelled.
- `String(requiredPermissions)`, the argument of the installed store's `SET_PERMISSIONS`, and `response.data.permissions` in `authStore`'s `loginSuccess` (the `permissions` field of `LoginPayload`) are taken in their string form. A numeric argument is modelled as its decimal text.
- Strings are sequences of Unicode characters, not UTF-16 code units. `value.length` in `validate` therefore counts characters, and surrogate pairs are not modelled.
- `toLowerCase` in `sanitizeUrl` is modelled as ASCII lower-casing. The outcome of the test does not change:
  - the only non-ASCII characters that lower-case to something containing ASCII are U+0130 (to `i` followed by U+0307) and U+212A (to `k`);
  - neither can complete `javascript:`, `data:`, `vbscript:` or `file:`.
- The regular expressions carry no `u` flag. Their case-insensitive matching and `\w` are exactly the ASCII forms modelled here.
- The caller's `validation.pattern` is an arbitrary predicate on the value. The `lastIndex` state of a global RegExp is not modelled.
- Options of `validate` have the types of the form fields: booleans, a string message and integer length bounds. `validate` is always given a string.
- Objects passed to the sanitisers are their list of own enumerable entries:
  - arrays, dates and other object kinds are not told apart;
  - an entry keyed `__proto__` is dropped, because assigning it on a fresh `{}` goes to the prototype setter;
  - the resulting change of prototype is not modelled.
- `localStorage` is a map from strings to strings:
  - no persistence timing, quota errors or cross-tab events;
  - `setItem` of a non-string, which JavaScript would convert, is not modelled.
- `console.log` in `loginSuccess`, Vue reactivity, and the bootstrap in `src/main.js:50-63` are not modelled.
- The router:
  - vue-router's history, lazy component imports, and the order in which it applies redirects before guards are not modelled;
  - the guard is a function of the target path and the stored token only.
- Permissions.HasPermissionMonotone: requires that the smaller mask is not 127 unless the larger one is, because the unconditional pass for exactly 127 does not extend to larger masks (Permissions.FullAccessShortcutNotMonotone).
- The access facts about `MODULE_PERMISSIONS` are stated module by module (Permissions.ModuleOneAccess to Permissions.ModuleFourAccess), not as one lemma quantified over the whole table.
