# Supplier portal: authentication lifecycle and form logic

This project models the logic core of a supplier-homologation portal in
Dafny. It has an Express/Prisma API and Next.js pages. The model has two
parts.

**The API's authentication lifecycle** (`AuthMiddleware`, `AuthRoutes`):
- **Request gates.** `requireAuth` extracts the bearer token and verifies it; `requireRoles` answers 401 or 403.
- **Tokens.** The access-token payload; the hex refresh token.
- **The store.** `AuthStore` is a class holding users, suppliers, sessions and password-reset records as sequences.
- **Route handlers**, as methods that change the store:
  - `/register`, `/login`, `/refresh`, `/logout`;
  - `/forgot-password`, `/reset-password`.
- **Pure decision functions.** The guard chain each handler runs before it writes, stated once as a function. The lemmas are stated about these functions:
  - login cannot tell an unknown e-mail from a wrong password;
  - the refresh age limit is strict;
  - revocation only sets `revokedAt`, only on selected sessions, and is idempotent;
  - a reset link works once.

**The pages' validators and normalisers** (`Portal`, `Admin`, `Cadastro`, `ResetarSenha`, `HttpUtils`, over the helper modules `Text`, `NumberText`, `Lists`):
- **Numbers.** The pt-BR/en decimal-separator normaliser shared by `sanitizeNumericInput` and `normalizeNota`.
- **Labels and files.** Label truncation; the upload extension whitelist; the certificate number.
- **Lists.** Category merging and toggling; document de-duplication.
- **Status.** Status normalisation, with the totals, filter and monthly report built on it.
- **Registration form.** The CNPJ mask and validator, the e-mail pattern, the password scorers and the submit guard order.
- **Server messages.** Server-message extraction and safe JSON parsing.

## Conventions

**Strings.** Strings are `seq<char>`. JavaScript's `trim`/`trimEnd` and the regex class `\s` are modelled exactly:
- the ECMAScript white-space set is `Text.IsJsSpace`;
- the spaces are removed from either end.

**Regular expressions.** Each regex in the source is written out as the function it computes:
- `replace(/\D/g, "")` is `Text.Digits`;
- each `formatCNPJ` step that finds its leftmost match inserts one separator (`Cadastro.Insert`);
- `^[^\s@]+@[^\s@]+\.[^\s@]+$` is `Cadastro.MatchesEmailPattern`.

**Foreign code.** Code the project only calls is passed in as a parameter:

| Parameter | Stands for |
|---|---|
| `sign` | `jwt.sign` |
| `verify` | `jwt.verify`, with `None` for a throw |
| `verifyHash` | `argon2.verify` |
| `isEmail` | zod's `.email()` |
| `randomBytes` | what `crypto.randomBytes` drew |
| `toNumber` | JavaScript's `Number`, `None` when not finite |
| `parse` | `JSON.parse` |
| `dateOf` | `new Date(...)`'s month and year |
| `toUpperCase` | `toUpperCase` on the certificate's raw id |

Hashes that the source computes itself (`argon2.hash`) arrive as ready strings.

**The clock.** The clock is a `now: int` parameter in milliseconds.

**Identifiers.** A record's id is its position in the store's sequence. `AuthStore.Valid` states this together with:
- unique e-mails;
- unique refresh tokens.

The handlers only ever append, so this invariant holds.

**Behaviour of the code as written** that the model keeps:
- `/forgot-password` does not always answer `{ ok: true }`. When `sendMail` throws, the reset record exists and the reply is 400 (`AuthRoutes.AuthStore.ForgotPassword`, parameter `mailSent`).
- `/login` with a password shorter than 8 answers 400 from the schema, not 401.
- `/register` creates the supplier before the user, outside a transaction. A duplicate e-mail leaves the new supplier in place and answers 400.
- `/logout` with `refreshToken: ""` revokes all the caller's sessions, because the empty string is falsy.
- A `REFRESH_TOKEN_TTL_DAYS` that is not a number gives `NaN`, and no session ever expires (`AuthRoutes.NotANumberNeverExpires`).
- The certificate number has a middle case: an id with no ASCII letter or digit gives `"ENG-"` plus the whole id upper-cased.
- The monthly report compares the raw status, while the dashboard normalises it. `"aprovado"` counts as approved on the dashboard and as "em análise" in the report (`Admin.ReportBucketDiffers`).

## Model

| member | source | states |
|---|---|---|
| AuthMiddleware.BearerToken | src/middlewares/auth.js:5-6 | a token is extracted exactly when the header (absent meaning "") starts with "Bearer ", and the header is then "Bearer " followed by the token |
| AuthMiddleware.BearerTokenRoundTrip | src/middlewares/auth.js:5-6 | the header "Bearer " + t yields the token t back |
| AuthMiddleware.AuthDecide | src/middlewares/auth.js:5-14 | missing token iff no Bearer header or an empty suffix; invalid token iff the verifier rejects a non-empty token; otherwise authenticated with the verifier's payload |
| AuthMiddleware.RequireAuth | src/middlewares/auth.js:4-15 | 401 "Missing token" or 401 "Invalid token" with `next` not called and `req.user` unchanged, or `req.user` set to the payload and `next` called exactly once |
| AuthMiddleware.RoleDecide | src/middlewares/auth.js:19-21 | unauthorized iff there is no user, forbidden iff the user's role is outside the list, pass iff it is inside |
| AuthMiddleware.RequireRoles | src/middlewares/auth.js:17-23 | 401 "Unauthorized" without a user, 403 "Forbidden" for a role outside the list, neither calling `next`; otherwise `next` once; the user is untouched |
| AuthMiddleware.AuthenticatedIsNeverUnauthorized | src/middlewares/auth.js:10-20 | after `requireAuth` accepts, `requireRoles` never answers 401, and passes exactly when the verified role is listed |
| AuthMiddleware.HexEncode | src/middlewares/auth.js:43 | hex text is two characters per byte, all lower-case hex digits |
| AuthMiddleware.HexValue | src/middlewares/auth.js:43 | a lower-case hex digit's value is below 16 and names that digit |
| AuthMiddleware.HexDecode | src/middlewares/auth.js:43 | decoding halves the length |
| AuthMiddleware.HexRoundTrip | src/middlewares/auth.js:43 | decoding the hex text of any bytes gives those bytes back |
| AuthMiddleware.CryptoRandom | src/middlewares/auth.js:42-44 | the refresh token is 2n lower-case hex characters for n drawn bytes (128 for the 64 of line 29) and decodes to the drawn bytes |
| AuthMiddleware.CryptoRandomInjective | src/middlewares/auth.js:42-44 | different draws give different tokens |
| AuthRoutes.UserByEmail | src/routes/auth.js:66 | `findUnique` by e-mail: the index found has that e-mail; None means no user has it |
| AuthRoutes.UserById | src/routes/auth.js:84 | `findUnique` by id: the index found has that id; None means no user has it |
| AuthRoutes.SessionByToken | src/routes/auth.js:82 | `findUnique` by refresh token: the session found has that token; None means no session has it |
| AuthRoutes.NewestUsableReset | src/routes/auth.js:148-151 | the record found is the user's, unused and unexpired, and no usable record was created later; None means none is usable |
| AuthRoutes.Revoke | src/routes/auth.js:104-112 | `updateMany` with `revokedAt: null`: same length, and each session is stamped with `now` iff it is selected and unrevoked, otherwise unchanged |
| AuthRoutes.RevokeIsMonotonic | src/routes/auth.js:104-112 | revocation never clears a `revokedAt`, never changes an existing one, and changes no field but `revokedAt` |
| AuthRoutes.RevokeTouchesOnlySelected | src/routes/auth.js:104-112 | sessions of other users, or with another token when one is given, are unchanged |
| AuthRoutes.RevokeIdempotent | src/routes/auth.js:108-113 | repeating the same logout at any later time changes nothing |
| AuthRoutes.RevokeTokenChangesAtMostOne | src/routes/auth.js:103-107 | with unique refresh tokens, a logout with a token changes at most one session |
| AuthRoutes.MarkUsed | src/routes/auth.js:158 | the record gets `usedAt = now`; every other record is unchanged |
| AuthRoutes.MarkedIsNeverUsable | src/routes/auth.js:148-158 | a record once marked used is never again chosen as the newest usable one |
| AuthRoutes.SetPasswordHash | src/routes/auth.js:157 | only that user's password hash changes |
| AuthRoutes.LoginDecide | src/routes/auth.js:65-69 | 400 iff the e-mail fails the schema or the password is shorter than 8; accepted only for the user with that e-mail whose hash verifies; otherwise invalid credentials |
| AuthRoutes.LoginHidesUnknownEmail | src/routes/auth.js:66-69 | an unknown e-mail and a known one with a wrong password get the same decision |
| AuthRoutes.RefreshDecide | src/routes/auth.js:81-92 | 400 iff the token is shorter than 10; "Invalid refresh" iff there is no such session, it is revoked, or its user is missing; expired/accepted only for an unrevoked session of an existing user, by the age test |
| AuthRoutes.RefreshLimitIsStrict | src/routes/auth.js:87-89 | a session exactly `days` days old still refreshes; one millisecond older it expires |
| AuthRoutes.NotANumberNeverExpires | src/routes/auth.js:87-89 | a TTL setting that is not a number never expires a session |
| AuthRoutes.LogoutSelector | src/routes/auth.js:102-113 | a non-empty body token selects the caller's session with that token; otherwise all the caller's sessions |
| AuthRoutes.ResetDecide | src/routes/auth.js:145-154 | 400 from the schema iff the e-mail fails or the new password is shorter than 8; accepted only for the user's newest usable record whose hash verifies the token; otherwise "Invalid token" |
| AuthRoutes.ResetLinkWorksOnce | src/routes/auth.js:148-160 | when the redeemed record was the only usable one, no later reset succeeds with any token |
| AuthRoutes.AuthStore.constructor | src/routes/auth.js:4 | the store stands for the database behind the imported `prisma` client; an empty database, with all four tables empty, satisfies the store invariant |
| AuthRoutes.AuthStore.IssueTokens | src/middlewares/auth.js:26-39 | appends exactly one unrevoked session for the user with the generated token, and returns the signed payload and that same token; refuses a token already in use; nothing else changes |
| AuthRoutes.AuthStore.Register | src/routes/auth.js:26-57 | invalid input: 400 and no change; a supplier payload is stored first; a duplicate e-mail: 400 with only that supplier added; otherwise a SUPPLIER user linked to it is appended, and then a refresh token already held by a session gives 400 with no session added, while a free one gives the access token signed over `{ sub, role }` of the new user and that refresh token, with exactly one new session recorded |
| AuthRoutes.AuthStore.Login | src/routes/auth.js:63-75 | per LoginDecide: 400, 401 "Invalid credentials" with no change, or tokens issued for the matched user |
| AuthRoutes.AuthStore.Refresh | src/routes/auth.js:79-99 | per RefreshDecide: 400 or 401 "Invalid refresh" with no change; expired: that session alone is revoked and 401 "Refresh expired"; accepted: only a new access token for the session's user and the store unchanged |
| AuthRoutes.AuthStore.Logout | src/routes/auth.js:101-115 | the sessions become `Revoke` of the caller's selection; nothing else changes; `{ ok: true }` |
| AuthRoutes.AuthStore.ForgotPassword | src/routes/auth.js:119-140 | invalid e-mail: 400, no change; unknown user: `{ ok: true }`, no change; known user: exactly one record appended with `expiresAt = now + 3600000`, unused, then `{ ok: true }` or 400 as the mail succeeds |
| AuthRoutes.AuthStore.ResetPassword | src/routes/auth.js:143-165 | per ResetDecide: 400 with no change, or, all together, the user's new hash, the record marked used and all the user's sessions revoked, then `{ ok: true }` |
| Portal.NormalizeSeparators | app/portal/page.tsx:106-122 | the if/else rewrite of the numeric symbols yields exactly the normalised text whose decimal-mark properties are proved in `NumberText` |
| Portal.SanitizeNumericInput | app/portal/page.tsx:94-129 | a finite number is returned unchanged; non-finite and non-string values, and blank strings, give 0; otherwise `Number` of the normalised numeric symbols, or 0 when that is not finite |
| NumberText.NumericSymbols | app/portal/page.tsx:105 | only digits, commas, dots and minus signs are left |
| NumberText.NormalizedSeparators | app/portal/page.tsx:106-122 | the text handed to `Number` never holds a comma (the same rewrite is `normalizeNota` at app/admin/page.tsx:131-146); its decimal-mark meaning is given by the lemmas below |
| NumberText.LastSeparator | app/portal/page.tsx:106-107 | the last separator's position lies in the text, or is -1 |
| NumberText.BranchCommaLast | app/portal/page.tsx:110-117 | when the last comma comes after the last dot (or there is no dot), dots are removed and commas become dots |
| NumberText.BranchDotLast | app/portal/page.tsx:110-114 | when both occur and the last dot comes after the last comma, commas are removed |
| NumberText.BranchDotOnly | app/portal/page.tsx:118-121 | with only dots, the split/pop/join rebuild is used |
| NumberText.LastDotDecimalShape | app/portal/page.tsx:118-121 | the dot-only rebuild keeps the last dot and drops every earlier one |
| NumberText.NoSeparatorUnchanged | app/portal/page.tsx:108 | a text with no separator reaches `Number` unchanged |
| NumberText.NormalizedKeepsDigits | app/portal/page.tsx:105-122 | no comma is left, and the digits and minus signs survive in order |
| NumberText.DecimalMarkIsLastSeparator | app/portal/page.tsx:105-122 | when the last separator occurs once (or there is no comma), the result is the digits and signs before it, one dot, and what follows it |
| Portal.ShortenLabel | app/portal/page.tsx:137-144 | the trimmed text when it fits; otherwise a trimmed-end prefix of at most max(3, maxLength-3) characters, no longer than the text, followed by "..." |
| Portal.CutThenTrimEnd | app/portal/page.tsx:143 | slicing then `trimEnd` keeps a prefix and drops only trailing white space |
| Portal.ShortenLabelBound | app/portal/page.tsx:137-144 | the result is at most max(6, maxLength) long, and at most maxLength once maxLength ≥ 6 |
| Portal.ShortenLabelKeepsStart | app/portal/page.tsx:138-143 | a non-blank label keeps its first non-space character |
| Portal.ShortenLabelIdempotent | app/portal/page.tsx:137-144 | for `maxLength` of at least 6 (the defaults 48 and 36 both are), shortening twice is shortening once |
| Portal.ExtOK | app/portal/page.tsx:87-92 | true iff the lower-cased piece after the last dot is one of the eight accepted extensions |
| Portal.LastIndexOfAfter | app/portal/page.tsx:90 | the dot after a base is the last one when the extension has none |
| Portal.ExtOKDecidedByLastPiece | app/portal/page.tsx:87-92 | `base.ext` is accepted iff `ext` is |
| Portal.ExtOKWithoutDot | app/portal/page.tsx:90-91 | a name with no dot is its own extension |
| Portal.CertificateChars | app/portal/page.tsx:468 | the normalised id is no longer than the id and holds only digits and upper-case letters |
| Portal.CertificateNumber | app/portal/page.tsx:468-474 | starts "ENG-"; "ENG-000000" without an id; "ENG-" + the upper-cased id when no letter or digit is left; otherwise 10 characters, the last six normalised characters left-padded with "0" |
| Portal.CertificateIgnoresPunctuation | app/portal/page.tsx:468-471 | when the id holds at least one ASCII letter or digit, removing its punctuation does not change the number |
| Portal.TrimAll | app/portal/page.tsx:527 | the list of trimmed items, position by position |
| Portal.InKeysOfId | app/portal/page.tsx:527 | membership in a list is membership in its `Set` |
| Portal.TrimAllTrimmed | app/portal/page.tsx:527 | every trimmed item equals its own trim |
| Portal.NormalizedCategories | app/portal/page.tsx:526-528 | no blank category survives, and the list is never longer than the catalogue |
| Portal.NormalizedCategoriesShape | app/portal/page.tsx:526-528 | distinct, non-empty, trimmed items drawn from the list, and every non-blank item's trim occurs |
| Portal.CategoriaResumo | app/portal/page.tsx:525 | the summary category is trimmed |
| Portal.MergeCategories | app/portal/page.tsx:529-532 | a non-blank summary category always appears, no entry is blank, and at most one entry is added to the catalogue |
| Portal.PrependKeepsDistinct | app/portal/page.tsx:531 | prepending an absent item keeps the list duplicate-free |
| Portal.MergeCategoriesOnlyOnce | app/portal/page.tsx:525-532 | the merged list is duplicate-free, and each entry is non-empty, trimmed and either the summary category or an item's trim |
| Portal.MergeCategoriesComplete | app/portal/page.tsx:525-532 | every non-blank item and a non-empty summary category occur, the summary first when it was new |
| Portal.ToggleCategory | app/portal/page.tsx:727-735 | a present value is removed everywhere, an absent one appended; other values keep their counts |
| Portal.ToggleTwiceRestores | app/portal/page.tsx:727-735 | toggling an absent value twice restores the list |
| Portal.ToggleTwiceMovesToEnd | app/portal/page.tsx:727-735 | toggling a value that is in the list twice leaves the list without it, plus it once at the end |
| Portal.UniqueDocs | app/portal/page.tsx:567-573 | the accumulator is the first document of each `titulo` across the flattened arrays, titles pairwise distinct, and every title kept |
| Lists.UniqueBy | app/portal/page.tsx:568-573 | no longer than the input, the same set of keys, pairwise distinct keys |
| Lists.UniqueByKeepsFirst | app/portal/page.tsx:569-570 | every kept element is the first in the input with its key |
| Lists.UniqueByKeepsOrder | app/portal/page.tsx:568-573 | the kept elements are a subsequence of the input in its order |
| Lists.Without | app/portal/page.tsx:730 | `filter(c => c !== x)` removes every copy of x and keeps the rest |
| Lists.FilterByMembers | app/admin/page.tsx:286-292 | a filter keeps every copy of a passing value and none of a failing one |
| Lists.CountTrue | app/resetar-senha/page.tsx:111 | the count is at most the length, equal to it iff all pass, zero iff none does |
| Admin.JsRoundDiv | app/admin/page.tsx:102 | `Math.round(a / d)` on integers: the quotient nearest a/d, halves rounded up |
| Admin.FormatRelativeTime | app/admin/page.tsx:98-110 | "agora" iff the date is invalid or under a rounded minute; minutes 1-59, hours 1-23, days 1-6; otherwise the date itself |
| Admin.RelativeTimeBands | app/admin/page.tsx:101-109 | the bands in milliseconds: below 30 s "agora", then minutes, hours and days, and from 559 770 000 ms the date, future instants included in "agora" |
| Admin.InvalidDateIsNow | app/admin/page.tsx:100 | an invalid date is "agora" |
| Admin.ShortenDocumentName | app/admin/page.tsx:112-117 | the same truncation as `shortenLabel` on `value` or "", with default length 36 |
| Admin.ShortenDocumentNameOfNothing | app/admin/page.tsx:113 | missing input gives "" |
| Admin.NormalizeNota | app/admin/page.tsx:119-153 | a finite number itself; null for non-finite, non-string-non-number, blank and symbol-free strings; otherwise `Number` of the same normalisation as the portal |
| Admin.StatusTextIsNormal | app/admin/page.tsx:199-204 | each status's text is already trimmed and upper-case |
| Admin.StatusOfItsText | app/admin/page.tsx:201-203 | each status text reads back as that status |
| Admin.NormalizarStatusOfText | app/admin/page.tsx:199-204 | "APROVADO", "REPROVADO" and "PENDENTE" normalise to themselves |
| Admin.NormalizarStatusIdempotent | app/admin/page.tsx:199-204 | normalising a normalised status changes nothing |
| Admin.PendingStatuses | app/admin/page.tsx:199-204 | a missing status and "A CADASTRAR " are pending |
| Admin.ClassesPartition | app/admin/page.tsx:271-280 | the normalised classes split any list: the three counts add up to its length |
| Admin.ClassCountSnoc | app/admin/page.tsx:273-276 | appending one supplier adds one to its class's count only |
| Admin.FornecedoresFiltrados | app/admin/page.tsx:282-293 | "TODOS" gives the list unchanged; a status filter keeps only suppliers whose normalised status matches |
| Admin.FornecedoresFiltradosMembers | app/admin/page.tsx:286-292 | a status filter keeps every copy of each matching supplier and none of the others |
| Admin.FornecedoresFiltradosKeepsOrder | app/admin/page.tsx:282-293 | filtering a concatenation filters each part and keeps the parts in order, so the filter is an order-preserving subsequence |
| Admin.TotaisPorStatus | app/admin/page.tsx:271-280 | each counter is the size of that status's filtered list, and the three add up to the supplier count |
| Admin.InMonth | app/admin/page.tsx:649-654 | a supplier counts for the month only when its registration date parses to the current month and year; a blank date never counts |
| Admin.ReportBucket | app/admin/page.tsx:659-665 | the report counts a supplier as approved exactly when its raw status is `"APROVADO"`, and as rejected exactly when it is `"REPROVADO"` |
| Admin.MonthlyTotals | app/admin/page.tsx:649-669 | `total` counts the suppliers with a valid date in the current month and year; the three buckets count them by raw status and add up to `total` |
| Admin.ReportBucketAgrees | app/admin/page.tsx:659-665 | for the exact texts the report and the normalised status agree |
| Admin.ReportBucketDiffers | app/admin/page.tsx:659-665 | "aprovado" is approved on the dashboard but "em análise" in the report |
| Cadastro.StrengthRules | app/cadastro/page.tsx:149-152 | the four tests in order: length ≥ 8, an upper-case letter, a digit, a character outside [A-Za-z0-9] |
| Cadastro.CalculatePasswordStrength | app/cadastro/page.tsx:147-154 | 25 times the number of tests passed, so one of 0, 25, 50, 75, 100; 100 iff all four pass, 0 iff none does |
| Cadastro.GetStrengthText | app/cadastro/page.tsx:332-337 | one of the four labels |
| Cadastro.StrengthTextOfRules | app/cadastro/page.tsx:332-337 | 0, 1, 2 and 3-or-4 tests passed give "Muito fraca", "Fraca", "Média", "Forte" |
| Cadastro.Insert | app/cadastro/page.tsx:166-169 | one inserted character: length plus one, the text before and after unchanged |
| Cadastro.FindDotRun | app/cadastro/page.tsx:168 | the leftmost position of a dot followed by four digits, or none |
| Cadastro.FindDigitRun | app/cadastro/page.tsx:169 | the leftmost position of five digits, or none |
| Cadastro.FormatCnpj | app/cadastro/page.tsx:163-171 | at most 18 characters |
| Cadastro.MaskStep1 | app/cadastro/page.tsx:166 | the first replacement adds at most one character and leaves the digits as they were |
| Cadastro.MaskStep2 | app/cadastro/page.tsx:167 | the second replacement adds at most one character and leaves the digits as they were |
| Cadastro.MaskStep3 | app/cadastro/page.tsx:168 | the third replacement adds at most one character and leaves the digits as they were |
| Cadastro.MaskStep4 | app/cadastro/page.tsx:169 | the fourth replacement adds at most one character and leaves the digits as they were |
| Cadastro.MaskSteps | app/cadastro/page.tsx:165-169 | the four replacements add at most four characters and never change the digits |
| Cadastro.Step1OfDigits | app/cadastro/page.tsx:166 | on digits, the first step puts a dot after two digits once there are three |
| Cadastro.Step2OfDigits | app/cadastro/page.tsx:167 | the second step puts a dot after five digits once there are six |
| Cadastro.Step3OfDigits | app/cadastro/page.tsx:168 | the third step puts "/" after eight digits once there are nine |
| Cadastro.Step4OfDigits | app/cadastro/page.tsx:169 | the fourth step puts "-" after twelve digits once there are thirteen |
| Cadastro.MaskStepsOfDigits | app/cadastro/page.tsx:165-169 | the four replaces on a digit string give the DD.DDD.DDD/DDDD-DD layout for its length |
| Cadastro.LayoutLength | app/cadastro/page.tsx:165-169 | the layout is as long as the digits plus one separator per band passed |
| Cadastro.LayoutCut | app/cadastro/page.tsx:170 | cutting the layout of more than 14 digits to 18 is the layout of the first 14 |
| Cadastro.FormatCnpjLayout | app/cadastro/page.tsx:163-171 | the formatted value is the layout of the input's digits, or of their first 14 |
| Cadastro.FormatCnpjFourteenDigits | app/cadastro/page.tsx:163-171 | 14 or more digits give exactly 18 characters in the shape DD.DDD.DDD/DDDD-DD, filled with the first 14 digits |
| Cadastro.DigitsOfLayout | app/cadastro/page.tsx:165-169 | removing punctuation from a layout gives its digits back |
| Cadastro.FormatCnpjKeepsDigits | app/cadastro/page.tsx:163-171 | removing punctuation from the output gives the input's digits, or their first 14 |
| Cadastro.FormatCnpjIdempotent | app/cadastro/page.tsx:163-176 | formatting a formatted value changes nothing |
| Cadastro.ValidateCnpj | app/cadastro/page.tsx:184-188 | a valid CNPJ has at least 14 characters |
| Cadastro.ValidateFormattedCnpj | app/cadastro/page.tsx:172-188 | a formatted input is valid iff the typed value had at least 14 digits |
| Cadastro.ValidateEmail | app/cadastro/page.tsx:179-182 | an accepted address contains "@" and has at least 5 characters |
| Cadastro.EmailPatternCut | app/cadastro/page.tsx:180 | a match splits at its only "@" |
| Cadastro.PatternIsValidEmail | app/cadastro/page.tsx:180 | every string the regex matches has exactly one "@", no white space, a non-empty local part and a domain with an interior dot |
| Cadastro.ValidEmailIsPattern | app/cadastro/page.tsx:180 | every string with those four properties matches the regex |
| Cadastro.ValidateEmailIsPattern | app/cadastro/page.tsx:179-182 | `validateEmail` is true iff the regex matches |
| Cadastro.ClearError | app/cadastro/page.tsx:195-201 | the new map has the old keys minus that field and the same values for the rest |
| Cadastro.SubmitCadastro | app/cadastro/page.tsx:269-298 | a missing field first, then an invalid CNPJ, then terms not accepted, each stopping before the request; otherwise the request body carries the five fields with the password as `senha` |
| Cadastro.SubmitFormattedCnpj | app/cadastro/page.tsx:269-298 | with the other fields filled and the terms accepted, the request is sent iff the typed CNPJ had at least 14 digits |
| ResetarSenha.PasswordRules | app/resetar-senha/page.tsx:104-110 | five tests, in the page's order |
| ResetarSenha.FailedMessages | app/resetar-senha/page.tsx:43-49 | one message per failed rule: the count plus passed rules is the rule count |
| ResetarSenha.FailedMessagesOfFive | app/resetar-senha/page.tsx:44-48 | the five pushes, in rule order, each at most once |
| ResetarSenha.ValidatePassword | app/resetar-senha/page.tsx:42-50 | the messages of the failed rules in order, at most five; `[]` iff all five rules hold |
| ResetarSenha.GetPasswordStrength | app/resetar-senha/page.tsx:103-116 | one of the four labels |
| ResetarSenha.StrengthLabelOfErrors | app/resetar-senha/page.tsx:104-115 | "Fraca" iff three or more messages, "Média" iff two, "Forte" iff one, "Muito Forte" iff none |
| ResetarSenha.SubmitReset | app/resetar-senha/page.tsx:58-83 | a missing token first, then the rule messages, then exactly the mismatch message, none sending the request; otherwise the request with the token and the password, whose bar then reads "Muito Forte" |
| HttpUtils.ParseJsonSafe | app/services/http-utils.ts:3-26 | the text is kept; an empty body gives no JSON; JSON only when the parse yields a non-array object, which is then returned |
| HttpUtils.UnexpectedReplyIsTrimmed | app/services/http-utils.ts:37 | the default message is non-empty and trimmed |
| HttpUtils.ExtractMessage | app/services/http-utils.ts:28-38 | a string message whose trim is non-empty wins; otherwise the trimmed fallback or the default; never empty, always trimmed |
| HttpUtils.NonStringMessageFallsBack | app/services/http-utils.ts:29 | a `message` that is not a string is ignored like a missing one |

## Left out

- String lengths: JavaScript counts UTF-16 code units and the model counts Unicode scalar values. Lengths differ only for characters outside the Basic Multilingual Plane.
- `toUpperCase`/`toLowerCase` are modelled on ASCII letters. The certificate number's raw-id case takes `toUpperCase` as a parameter.
  - Every other comparison is against ASCII literals ("APROVADO", "REPROVADO", the extension list).
  - Non-ASCII case mappings that produce ASCII letters (such as "ſ" to "S") are not modelled.
- `Number(...)` is the `toNumber` parameter. The model states which text reaches it, not the floating-point value.
- Admin.JsRoundDiv: models `Math.round(diffMs / 60000)` on exact integers and ignores floating-point rounding of the division.
- Admin.FormatRelativeTime: returns the band and its count. The texts "há N min/h/d" and the `Intl.DateTimeFormat` date are not modelled.
- `Intl.NumberFormat`, `formatNota`, `formatDateTime`, `addMonthsToDate` and the file-size arithmetic are left out: they are locale and floating-point formatting.
- Every `fetch`/HTTP call, `sendMail` (its outcome is the `mailSent` parameter), Prisma itself and `console` logging: I/O.
- React state, rendering, toasts, timers, `localStorage`, popups and printing: UI.
- `prisma.$transaction` is taken as atomic. `AuthRoutes.AuthStore.ResetPassword` makes the three writes in one step.
- The database schema is not part of this model. Unique user e-mails and unique refresh tokens follow from the `findUnique` calls on them and are part of `AuthStore.Valid`.
- `argon2.hash`, `argon2.verify` and `jwt.sign`/`jwt.verify` are parameters. So are `crypto.randomBytes`, the request's `ip` and `user-agent`, and `Date.now()`.
- zod's schema checks: `.email()` is the `isEmail` parameter. Body fields are taken to be strings; a non-string field, which zod also rejects with 400, is not modelled.
- `ACCESS_TOKEN_TTL` and `JWT_SECRET` belong to the signer and are not modelled.
- `REFRESH_TOKEN_TTL_DAYS || '15'` arrives through `Number` as the `days` parameter, `None` standing for `NaN`.
- AuthRoutes.NewestUsableReset: when two usable records share the newest `createdAt`, the database's choice between them is not modelled. The model takes the later one in the sequence.
- AuthRoutes.AuthStore.IssueTokens: returns `None` instead of throwing when the drawn token is already in use (a unique-constraint failure in the database). The 64-byte length is the caller's draw.
- Admin.NormalizarStatus: has no contract of its own. Its properties are the `Admin.StatusOfItsText` … `Admin.PendingStatuses` lemmas.
- The registration submit does not call `validateEmail`, and the model keeps that: `Cadastro.SubmitCadastro` checks only that the e-mail is non-empty.
- Supplier-side CRUD, document uploads, the spreadsheet import, the admin bootstrap, the mock data and the static pages are outside the modelled core.
