# Credential forms: a verified model

This project models the core of a React login/sign-up front end in Dafny:

- the field validators (`validateEmail`, `validatePassword`, `validateConfirmPassword`);
- the cookie helpers behind "remember me" (`setCookie`, `getCookie`, `removeCookie` and the token and preference helpers), over a model of the browser's cookie jar and the `document.cookie` text it renders;
- three form controllers, each modelled as a class whose fields are the component's state cells:
  - the login form;
  - the sign-up form;
  - the forgot-password page.

Modelling conventions:

- React's effects become explicit steps. `Revalidate` runs the validation effects. `Mount` runs the login form's mount effects.
- A submission is split at its `await`. `StartSubmit` runs up to the backend call and returns the values the handler's closure captured. `ResolveSubmit` runs when the simulated backend settles.
- Effects on the outside world go into ghost logs, so contracts can state them:
  - the `onSuccess` callback and router navigation go into the form's `effects`;
  - assignments to `document.cookie` go into the jar's `writes`.
- `encodeURIComponent` and `decodeURIComponent` follow section 19.2.6 of ECMA-262. They are modelled in `uri.dfy` because the forgot-password page puts the address into the redirect's query string.

Modules:

| file | module | what |
|---|---|---|
| common.dfy | Common | `Option`, backend `Response`, `Effect`, `IndexOf` |
| validation.dfy | Validation | the three validators, the email regular expression as a language, the password rules in order |
| cookies.dfy | Cookies | `split`/`join`, the `getCookie` parser (a loop proved against a function), assignment texts, the jar, class `CookieJar` |
| uri.dfy | Uri | UTF-8, percent escapes, `encodeURIComponent`, `decodeURIComponent` |
| login.dfy | Login | `fakeLoginApi`, `fakeResumeSessionApi`, class `LoginForm` |
| signup.dfy | SignUp | `fakeSignUpApi`, class `SignUpForm` |
| forgot_password.dfy | ForgotPassword | `fakeForgotPasswordApi`, the redirect target, class `ForgotPasswordPage` |

The stored-error quirk is modelled as written. `formValid` in the login and sign-up forms reads the stored error cells, not a fresh validation. A field that was typed into but never blurred keeps its initial empty error, so invalid values can reach the backend (`Login.UntouchedFieldsAreSubmitted`). Once every field is touched and the effects have run, the stored errors agree with the validators (the contracts of `Login.LoginForm.FormValid` and `SignUp.SignUpForm.FormValid`).

The forgot-password page keeps `formValid` as state of its own. It is set only by the validation, together with the error (`ForgotPassword.ForgotPasswordPage.Valid`).

## Model

| member | source | states |
|---|---|---|
| Common.IndexOf | src/utils/cookies.ts:10 | the one-character search behind `split(';')` (and the first `@` of temp_backup/utils/validation.ts:3): the index of the first occurrence of the character, or the length when there is none; no earlier index holds it |
| Validation.ValidateEmail | temp_backup/utils/validation.ts:1-5 | "" exactly when the text matches `^[^@\s]+@[^@\s]+\.[^@\s]+$`; the "required" message for the empty text; the "invalid" message for any other non-matching text; never any other string |
| Validation.EmailShapeIffPattern | temp_backup/utils/validation.ts:3 | the executable test (first `@`, a dot strictly inside the domain, no `@` or white space) accepts exactly the strings the regular expression matches |
| Validation.EmailShapeMatches | temp_backup/utils/validation.ts:3 | every string the executable test accepts matches the regular expression |
| Validation.PatternHasEmailShape | temp_backup/utils/validation.ts:3 | every string the regular expression matches passes the executable test |
| Validation.LowercaseRun | temp_backup/utils/validation.ts:3 | a non-empty run of lowercase ASCII letters matches `[^@\s]+` |
| Validation.CountDigits | temp_backup/utils/validation.ts:15 | the number of `\d` matches is at most the length |
| Validation.CountDigitsPositive | temp_backup/utils/validation.ts:15-16 | `value.match(/\d/g)` is non-null exactly when some character is an ASCII digit |
| Validation.CountDigitsAtLeastTwo | temp_backup/utils/validation.ts:15-16 | at least two matches exactly when two distinct positions hold ASCII digits |
| Validation.ValidatePassword | temp_backup/utils/validation.ts:7-20 | "" exactly when all four rules hold (non-empty, an uppercase letter, a special character, two digits); otherwise the message of the first rule in that order that fails |
| Validation.PasswordFromWitnesses | temp_backup/utils/validation.ts:7-20 | an uppercase letter, a special character and two digits at distinct positions make the password valid |
| Validation.PasswordFailureHasFirstRule | temp_backup/utils/validation.ts:7-20 | a rejected password has a first failing rule, so the message is determined |
| Validation.ValidateConfirmPassword | temp_backup/utils/validation.ts:22-26 | "" exactly when the confirmation is non-empty and equals the password; the "confirm" message for the empty text; the mismatch message otherwise |
| Validation.MessagesDistinct | temp_backup/utils/validation.ts:1-26 | the eight messages are pairwise distinct and none is empty, so the error says which rule failed |
| Cookies.Split | src/utils/cookies.ts:10 | `split(';')` gives at least one piece and no piece holds the separator |
| Cookies.JoinSplit | src/utils/cookies.ts:10 | joining the pieces of `split` with the separator gives the text back |
| Cookies.SplitCons | src/utils/cookies.ts:10 | a separator-free first piece splits off on its own |
| Cookies.SplitSnoc | src/utils/cookies.ts:10 | a separator-free last piece splits off on its own |
| Cookies.SplitJoin | src/utils/cookies.ts:10 | splitting the join of separator-free pieces gives the pieces back |
| Cookies.TrimLeadingSpaces | src/utils/cookies.ts:13 | the result is a suffix of the input; it drops only spaces and all leading spaces |
| Cookies.ValueInFirstMatch | src/utils/cookies.ts:11-15 | the first segment that starts with `name=` after its spaces decides the value, which is the rest of that segment |
| Cookies.ValueInAbsent | src/utils/cookies.ts:11-16 | the result is null exactly when no segment starts with `name=` |
| Cookies.CookieValue | src/utils/cookies.ts:8-17 | `getCookie`'s answer for a document text: a value it finds never holds `;`, because it lies inside one `;`-separated segment |
| Cookies.ValueInNoSeparator | src/utils/cookies.ts:11-15 | the text after `name=` in a segment without `;` holds no `;` |
| Cookies.GetCookie | src/utils/cookies.ts:8-17 | the loop returns what the specification function `CookieValue` gives for the document text |
| Cookies.StripSpaces | src/utils/cookies.ts:13 | the inner loop leaves the segment with its leading spaces removed |
| Cookies.LongerNameDoesNotMatch | src/utils/cookies.ts:9 | a pair with another `=`-free name never starts with `name=`, so the `=` in the prefix stops one name from matching another it extends |
| Cookies.SetCookieText | src/utils/cookies.ts:5 | for a name, value and date without `;`, the assignment is exactly four fields: `name=value`, the expiry, `path=/` and `SameSite=Strict` |
| Cookies.AssignmentOfWrite | src/utils/cookies.ts:2-6 | the text the helpers assign carries the write the jar applies: `setCookie`'s first field is the stored cookie's pair, and `removeCookie`'s pairs the name with an empty value and the 1970 epoch expiry |
| Cookies.RemoveCookieText | src/utils/cookies.ts:20 | for a name without `;`, the assignment is exactly four fields: the name with an empty value, the 1970 epoch expiry, `path=/` and a trailing empty field |
| Cookies.SplitFourFields | src/utils/cookies.ts:5 | four `;`-free fields joined by `;` split back into those four fields |
| Cookies.Lookup | src/utils/cookies.ts:8-17 | in the jar model, absent exactly when no cookie has the name |
| Cookies.LookupFirst | src/utils/cookies.ts:8-17 | the first cookie with the name gives the value |
| Cookies.LookupUpsert | src/utils/cookies.ts:2-6 | after a store, the stored name reads back as the new value and every other name as before |
| Cookies.LookupDelete | src/utils/cookies.ts:19-21 | after an expiry, the name reads as absent and every other name as before |
| Cookies.UpsertWellFormed | src/utils/cookies.ts:2-6 | storing a well-formed pair keeps the jar well formed |
| Cookies.DeleteWellFormed | src/utils/cookies.ts:19-21 | expiring a cookie keeps the jar well formed |
| Cookies.ApplyTwo | src/utils/cookies.ts:2-6 | a log of two assignments applies them in order |
| Cookies.Segments | src/utils/cookies.ts:10 | the rendered document has one segment per cookie |
| Cookies.SegmentOfPair | src/utils/cookies.ts:11-15 | each rendered segment trims to its `name=value` pair and matches a key exactly when the names agree |
| Cookies.TrimPair | src/utils/cookies.ts:13 | a pair whose name starts with no space is unchanged by trimming, with or without the separator's space before it |
| Cookies.RenderedLookup | src/utils/cookies.ts:8-17 | `getCookie` on the rendered document of a well-formed jar gives the jar's value for the name: the parser and the jar agree |
| Cookies.RenderedSegments | src/utils/cookies.ts:10 | the rendered document of a non-empty well-formed jar splits on `;` into one segment per cookie |
| Cookies.SegmentsOfJar | src/utils/cookies.ts:11-16 | scanning the jar's segments for `name=` finds what the jar holds under the name |
| Cookies.SegmentsLookup | src/utils/cookies.ts:11-16 | segments that match the key exactly where the jar holds the name, each carrying that pair's value, read back the jar's value |
| Cookies.EmptyRendering | src/utils/cookies.ts:16 | an empty cookie text yields null for every name |
| Cookies.PreferenceFrom | src/utils/cookies.ts:40-43 | reads back whichever flag `setRememberMePreference` wrote as text; an absent cookie reads as false; true only for the exact text `"true"` |
| Cookies.RememberMeWrites | temp_backup/components/LoginForm/LoginForm.tsx:119-124 | a token is written exactly when "remember me" is set, first and for 30 days; the preference is written last, as the flag's text, for 365 days; every write stores; nothing else is written (two writes with remember-me, one without) |
| Cookies.PreferenceRoundTrip | src/utils/cookies.ts:36-43 | the preference written for a flag reads back as that flag and leaves the token as it was |
| Cookies.TokenRoundTrip | src/utils/cookies.ts:24-34 | a stored token reads back verbatim, a removed one reads as null, and neither touches the preference |
| Cookies.CookieJar.SetCookie | src/utils/cookies.ts:2-6 | logs one store for the name, value and days, and applies it to the jar |
| Cookies.CookieJar.RemoveCookie | src/utils/cookies.ts:19-21 | logs one expiry and deletes the name from the jar |
| Cookies.CookieJar.SetRememberMeToken | src/utils/cookies.ts:24-26 | stores the token under `rememberMeToken` for 30 days |
| Cookies.CookieJar.GetRememberMeToken | src/utils/cookies.ts:28-30 | `getCookie('rememberMeToken')` on the document; on a well-formed jar, the jar's token |
| Cookies.CookieJar.RemoveRememberMeToken | src/utils/cookies.ts:32-34 | expires `rememberMeToken` |
| Cookies.CookieJar.SetRememberMePreference | src/utils/cookies.ts:36-38 | stores `"true"` or `"false"` under `rememberMePreference` for 365 days |
| Cookies.CookieJar.GetRememberMePreference | src/utils/cookies.ts:40-43 | true exactly when the stored preference reads `"true"` |
| Uri.Utf8 | temp_backup/pages/ForgotPasswordPage/ForgotPasswordPage.tsx:74 | a scalar value encodes to one to four octets |
| Uri.Utf8RoundTrip | temp_backup/pages/ForgotPasswordPage/ForgotPasswordPage.tsx:74 | the encoding has a leading octet of the right length and continuation octets, and decodes back to the character |
| Uri.HexRoundTrip | temp_backup/pages/ForgotPasswordPage/ForgotPasswordPage.tsx:74 | an uppercase hex digit reads back as its value and is unreserved |
| Uri.Escapes | temp_backup/pages/ForgotPasswordPage/ForgotPasswordPage.tsx:74 | three characters per octet, each `%` or unreserved |
| Uri.EscapedBytesOfEscapes | temp_backup/pages/ForgotPasswordPage/ForgotPasswordPage.tsx:74 | reading the escapes of some octets gives those octets back |
| Uri.EncodeURIComponent | temp_backup/pages/ForgotPasswordPage/ForgotPasswordPage.tsx:74 | the result holds only unreserved characters and `%`; it is one to twelve times as long as the input |
| Uri.DecodeEncodedChar | temp_backup/pages/ForgotPasswordPage/ForgotPasswordPage.tsx:74 | the escapes of one reserved character decode to it and use exactly its encoding |
| Uri.DecodeEncode | temp_backup/pages/ForgotPasswordPage/ForgotPasswordPage.tsx:74 | `decodeURIComponent(encodeURIComponent(s)) == s` for every string |
| Login.FakeLoginApi | temp_backup/components/LoginForm/LoginForm.tsx:15-23 | resolves with the mock token exactly for the known address and password; every other pair is rejected with "Invalid email or password" |
| Login.FakeResumeSessionApi | temp_backup/components/LoginForm/LoginForm.tsx:25-33 | resolves exactly for the mock token; otherwise rejects with "Invalid or expired token" |
| Login.KnownEmailValid | temp_backup/components/LoginForm/LoginForm.tsx:18 | the known address passes `validateEmail` |
| Login.KnownPasswordValid | temp_backup/components/LoginForm/LoginForm.tsx:18 | the known password passes `validatePassword` |
| Login.KnownCredentialsValid | temp_backup/components/LoginForm/LoginForm.tsx:18 | the known account passes both validators, so the success path is reachable |
| Login.IssuedTokenResumes | temp_backup/components/LoginForm/LoginForm.tsx:15-33 | a token the login issues is one the resume call accepts |
| Login.SavedToken | temp_backup/components/LoginForm/LoginForm.tsx:82-83 | a resume is attempted exactly when the stored token is present and non-empty, with that token |
| Login.RememberedLoginResumes | temp_backup/components/LoginForm/LoginForm.tsx:118-124 | after a successful login with "remember me", the next mount reads the preference as set and finds a token the resume call accepts; without it, the preference reads as unset and the token is unchanged |
| Login.LoginForm.constructor | temp_backup/components/LoginForm/LoginForm.tsx:35-45 | the initial state cells: the prefilled address, empty password, flags false, no errors |
| Login.LoginForm.Mount | temp_backup/components/LoginForm/LoginForm.tsx:78-101 | "remember me" takes the saved preference; a truthy saved token is handed back for a resume; a non-empty prefilled address is set and marked touched; nothing else changes |
| Login.LoginForm.ResolveResume | temp_backup/components/LoginForm/LoginForm.tsx:84-92 | an accepted token runs `onSuccess` and writes no cookie; a rejected one is removed and nothing else changes |
| Login.LoginForm.ChangeEmail | temp_backup/components/LoginForm/LoginForm.tsx:145 | only the address changes |
| Login.LoginForm.ChangePassword | temp_backup/components/LoginForm/LoginForm.tsx:156 | only the password changes |
| Login.LoginForm.SetRememberMe | temp_backup/components/LoginForm/LoginForm.tsx:164 | only the flag changes |
| Login.LoginForm.BlurEmail | temp_backup/components/LoginForm/LoginForm.tsx:146 | only the address's touched flag is set |
| Login.LoginForm.BlurPassword | temp_backup/components/LoginForm/LoginForm.tsx:157 | only the password's touched flag is set |
| Login.LoginForm.Revalidate | temp_backup/components/LoginForm/LoginForm.tsx:66-76 | a touched field's error becomes its value's validation; an untouched field keeps its stored error; the form is settled afterwards |
| Login.LoginForm.StartSubmit | temp_backup/components/LoginForm/LoginForm.tsx:105-113 | both fields touched and the error cleared; the captured values go to the backend exactly when the stored `formValid` held, and only then does loading start |
| Login.LoginForm.ResolveSubmit | temp_backup/components/LoginForm/LoginForm.tsx:115-136 | on success the remember-me writes are made in order and `onSuccess` runs; on failure the message becomes the error and no cookie is written; loading ends either way |
| Login.LoginForm.FormValid | temp_backup/components/LoginForm/LoginForm.tsx:103 | once both fields are touched and settled, `formValid` holds exactly when the address matches the pattern and the password meets every rule |
| Login.LoginForm.SubmitDisabled | temp_backup/components/LoginForm/LoginForm.tsx:181 | disabled while loading; once both fields are touched and settled, enabled exactly when nothing is loading and both values pass validation |
| Login.LoginForm.SubmitLabel | temp_backup/components/LoginForm/LoginForm.tsx:183 | while loading, "Logging in" and one ellipsis character; otherwise "Login" |
| Login.WeakPasswordRejected | temp_backup/utils/validation.ts:9-11 | every non-empty password without an uppercase letter gets the uppercase message |
| Login.UntouchedFieldsAreSubmitted | temp_backup/components/LoginForm/LoginForm.tsx:103-116 | fields typed into but never blurred keep their empty errors, so an invalid address and password still reach the backend |
| SignUp.FakeSignUpApi | temp_backup/components/SignUpForm/SignUpForm.tsx:11-23 | the taken address is refused with "Email already in use" whatever the password; success exactly for the new account's address and password; every other pair gets "Server error" |
| SignUp.NewUserEmailValid | temp_backup/components/SignUpForm/SignUpForm.tsx:18 | the new account's address passes `validateEmail` |
| SignUp.TakenEmailValid | temp_backup/components/SignUpForm/SignUpForm.tsx:14 | the taken address passes `validateEmail`, so its refusal comes from the backend |
| SignUp.NewUserPasswordValid | temp_backup/components/SignUpForm/SignUpForm.tsx:18 | the new account's password passes `validatePassword` and confirms itself |
| SignUp.LoadingLabelAsWrittenIsMisencoded | temp_backup/components/SignUpForm/SignUpForm.tsx:158 | the spelled label carries the ellipsis's three UTF-8 octets as three characters, so it differs from "Signing up…" |
| SignUp.SignUpForm.SubmitLabel | temp_backup/components/SignUpForm/SignUpForm.tsx:158 | while loading, "Signing up" and one ellipsis character; otherwise "Sign Up" |
| SignUp.SignUpForm.SubmitLabelAsWritten | temp_backup/components/SignUpForm/SignUpForm.tsx:158 | while loading, the misencoded label, which differs from the intended one; otherwise the same text |
| SignUp.SignUpForm.constructor | temp_backup/components/SignUpForm/SignUpForm.tsx:25-36 | the initial state cells: empty values, flags false, no errors |
| SignUp.SignUpForm.ChangeEmail | temp_backup/components/SignUpForm/SignUpForm.tsx:117 | only the address changes |
| SignUp.SignUpForm.ChangePassword | temp_backup/components/SignUpForm/SignUpForm.tsx:128 | only the password changes |
| SignUp.SignUpForm.ChangeConfirmPassword | temp_backup/components/SignUpForm/SignUpForm.tsx:137 | only the confirmation changes |
| SignUp.SignUpForm.BlurEmail | temp_backup/components/SignUpForm/SignUpForm.tsx:118 | only the address's touched flag is set |
| SignUp.SignUpForm.BlurPassword | temp_backup/components/SignUpForm/SignUpForm.tsx:129 | only the password's touched flag is set |
| SignUp.SignUpForm.BlurConfirmPassword | temp_backup/components/SignUpForm/SignUpForm.tsx:138 | only the confirmation's touched flag is set |
| SignUp.SignUpForm.Revalidate | temp_backup/components/SignUpForm/SignUpForm.tsx:66-82 | a touched field's error becomes its validation at the current values, the confirmation against the current password; untouched fields keep their errors |
| SignUp.SignUpForm.StartSubmit | temp_backup/components/SignUpForm/SignUpForm.tsx:86-96 | all three fields touched and the error cleared; the captured address and password go to the backend exactly when the stored `formValid` held |
| SignUp.SignUpForm.ResolveSubmit | temp_backup/components/SignUpForm/SignUpForm.tsx:94-108 | on success `onSuccess` runs only if it was given; on failure the message becomes the error; loading ends either way |
| SignUp.SignUpForm.FormValid | temp_backup/components/SignUpForm/SignUpForm.tsx:84 | once all fields are touched and settled, `formValid` holds exactly when the address matches, the password meets every rule and the confirmation equals it |
| SignUp.SignUpForm.SubmitDisabled | temp_backup/components/SignUpForm/SignUpForm.tsx:155 | disabled while loading; once all fields are touched and settled, enabled exactly when nothing is loading and the three values pass validation |
| SignUp.ConfirmationFollowsPassword | temp_backup/components/SignUpForm/SignUpForm.tsx:78-82 | an example run: a touched confirmation equal to "Password123!" gets the mismatch error after the password alone changes to "Password124!", and "" again once it changes back; the rule for all inputs is the ensures of `SignUp.SignUpForm.Revalidate` |
| ForgotPassword.FakeForgotPasswordApi | temp_backup/pages/ForgotPasswordPage/ForgotPasswordPage.tsx:8-17 | "Email not found" and "Server error" for the two failing addresses; success for every other address |
| ForgotPassword.RedirectTarget | temp_backup/pages/ForgotPasswordPage/ForgotPasswordPage.tsx:74 | the credentials path with the `email` parameter; the parameter holds no `&`, `=`, `#`, `+` or space, and it decodes back to the address |
| ForgotPassword.ExampleAddressEncoded | temp_backup/pages/ForgotPasswordPage/ForgotPasswordPage.tsx:74 | `test@example.com` goes into the query as `test%40example.com` |
| ForgotPassword.EncodeAddress | temp_backup/pages/ForgotPasswordPage/ForgotPasswordPage.tsx:74 | an address whose halves are unreserved is encoded with only its `@` escaped, as `%40` |
| ForgotPassword.EncodeAt | temp_backup/pages/ForgotPasswordPage/ForgotPasswordPage.tsx:74 | `@` encodes as `%40` |
| ForgotPassword.UnreservedUnchanged | temp_backup/pages/ForgotPasswordPage/ForgotPasswordPage.tsx:74 | unreserved text encodes to itself |
| ForgotPassword.EncodeAppend | temp_backup/pages/ForgotPasswordPage/ForgotPasswordPage.tsx:74 | encoding distributes over concatenation |
| ForgotPassword.ForgotPasswordPage.constructor | temp_backup/pages/ForgotPasswordPage/ForgotPasswordPage.tsx:20-28 | the initial state cells, with `formValid` false |
| ForgotPassword.ForgotPasswordPage.Validate | temp_backup/pages/ForgotPasswordPage/ForgotPasswordPage.tsx:36-43 | the error and `formValid` are set from one validation of the value, `formValid` exactly when the value matches the pattern |
| ForgotPassword.ForgotPasswordPage.Revalidate | temp_backup/pages/ForgotPasswordPage/ForgotPasswordPage.tsx:46-50 | a touched field is validated at its current value; an untouched one changes nothing |
| ForgotPassword.ForgotPasswordPage.ApplySearchParam | temp_backup/pages/ForgotPasswordPage/ForgotPasswordPage.tsx:52-58 | a non-empty `email` parameter becomes the value and marks the field touched; an absent or empty one changes nothing |
| ForgotPassword.ForgotPasswordPage.Change | temp_backup/pages/ForgotPasswordPage/ForgotPasswordPage.tsx:87-91 | sets the value, marks it touched and validates the new value at once |
| ForgotPassword.ForgotPasswordPage.Blur | temp_backup/pages/ForgotPasswordPage/ForgotPasswordPage.tsx:108 | only the touched flag is set |
| ForgotPassword.ForgotPasswordPage.StartSubmit | temp_backup/pages/ForgotPasswordPage/ForgotPasswordPage.tsx:60-67 | the field touched and the error cleared; the captured address goes to the backend exactly when the stored `formValid` held, and only then does loading start |
| ForgotPassword.ForgotPasswordPage.ResolveSubmit | temp_backup/pages/ForgotPasswordPage/ForgotPasswordPage.tsx:69-84 | on success `success` is set and the redirect to the encoded address is made; on failure the message becomes the error and `success` is unchanged; loading ends either way |
| ForgotPassword.ForgotPasswordPage.BackToLogin | temp_backup/pages/ForgotPasswordPage/ForgotPasswordPage.tsx:150 | always navigates to `/credentials` |
| ForgotPassword.FormValidMeansValidated | temp_backup/pages/ForgotPasswordPage/ForgotPasswordPage.tsx:36-43 | the stored flag holds exactly when the last validated value matches the pattern; when the page is settled with the field touched, that is the current value |
| ForgotPassword.ForgotPasswordPage.SubmitDisabled | temp_backup/pages/ForgotPasswordPage/ForgotPasswordPage.tsx:140 | disabled while loading; otherwise enabled exactly when the last validated value matches the pattern, which is the current value once the touched field is settled |
| ForgotPassword.ForgotPasswordPage.SubmitLabel | temp_backup/pages/ForgotPasswordPage/ForgotPasswordPage.tsx:144 | "Sending..." exactly while loading, "Reset Password" otherwise |

## Left out

- Rendering, focus management and the zero-delay focus timers are not modelled; the visible error text is the `error` cell.
- The 800 ms backend delays and the 2 s delay before the redirect are not modelled. The redirect is recorded when the call succeeds.
- The expiry date is a parameter of the assignment text. `new Date()`, `setTime` and `toUTCString` are outside the model. An expired or zero-day cookie is dropped from the jar as soon as it is written.
- The jar model stores names and values verbatim. It covers non-empty names without `;`, `=` or a leading space and values without `;`. A browser renders a cookie with an empty name as its bare value; `Render` would write `=value`, so empty names are outside the model. Browsers also strip leading and trailing spaces and tabs from names and values and refuse control characters (section 5.2 of RFC 6265). None of that is modelled, so `Cookies.TokenRoundTrip` and `Cookies.RenderedLookup` read back `" t"` where a browser gives `"t"`.
- Login.LoginForm.ResolveSubmit: the cookie writes go to the jar's log and `onSuccess` to the form's effect log, so the model does not state that temp_backup/components/LoginForm/LoginForm.tsx:118-126 writes the cookies before it calls `onSuccess`.
- The `path` and `SameSite` attributes are not modelled: every cookie is visible to every page.
- `setCookie`'s default lifetime of 30 days is not modelled, because every caller passes a lifetime.
- Re-running effects when the `onSuccess` prop's identity or the search parameters change, and state updates that arrive after the component unmounts, are not modelled.
- React's batching of state updates is not modelled. Each step applies its updates at once, and the validation effects run only when `Revalidate` is called.
- The credentials page that reads the `email` query parameter back is not part of this model. `ForgotPassword.RedirectTarget` proves that the parameter decodes back with `decodeURIComponent`.
- Uri.EncodeURIComponent: strings are sequences of Unicode scalar values, so the `URIError` that `encodeURIComponent` throws for a lone surrogate cannot arise.
- The `err instanceof Error ? … : "Login failed"` fallbacks (also "Sign up failed" and "Reset failed") are not modelled, because every simulated backend throws an `Error`.

## Findings

| source | as written | input that shows it | evidently intended | confidence | as-written member | corrected member |
|---|---|---|---|---|---|---|
| temp_backup/components/SignUpForm/SignUpForm.tsx:158 | the loading label is the UTF-8 octets of "…" (E2 80 A6), each read as a Windows-1252 character: "Signing up" followed by U+00E2 U+20AC U+00A6 | a submission in progress (`loading` true) | "Signing up…" with one horizontal ellipsis, as temp_backup/components/SignUpForm/SignUpForm.test.tsx:59 expects and as the login form's label has | high, not executed | SignUp.SignUpForm.SubmitLabelAsWritten | SignUp.SignUpForm.SubmitLabel |
