# Banking app front end: verified model of its deterministic core

This project models, in Dafny, the parts of a React Native banking app (and its
seeding script) whose behaviour can be stated exactly. It proves that each part does
what its code promises.

- `AccountState` (hooks/useAccount.tsx) is the account provider. It is a class over:
  - the in-memory account details, the loading flag and the error message;
  - the one cached snapshot of the details;
  - the mounted flag;
  - the log of account numbers requested from the backend.

  `refreshAccount` resolves the number to ask for in priority order: the override, then the in-memory account, then the cache. It fails without a remote call when no number resolves, commits a success to memory and cache, and records the failure message otherwise. While unmounted it leaves every state field alone.
- `AuthState` (hooks/useAuth.tsx) is the auth provider. It is a class over the user, the loading flag and the storage entries `userToken` and `mockUser`. It has `login`, `register` and `logout` in Firebase mode and in the development mode without Firebase. It also covers the error-code-to-message switch and the six-character password rule of development mode. The `mockUser` record that `JSON.stringify` writes is proved to read back through `JSON.parse` as the address.
- `SeedScript` (scripts/seed-transactions.mjs) covers:
  - `parseArgs`: a loop proved equal to a recursive specification, with the resulting keys and values characterised completely;
  - the dotenv-style file loader: a loop over lines, line parsing and never overwriting;
  - `requireEnv`;
  - `parseAmountList`: separator splitting, decimal `Number()`, and the fallback rules;
  - `normalizeCallableData`.
- `NewTransaction` (app/new-transaction.tsx) covers `parseCurrencyInput` and the form's handlers.
- `MonthChart` (components/Dashboard/Dashboard.tsx) covers:
  - the last-twelve-months key list, with the calendar rollover and the `Date` constructor's 0..99 year rule;
  - the selector scroll offset;
  - the bar selection toggle;
  - the insert-if-absent animation cache.
- `CardSheet` (app/card.tsx) covers the bottom-sheet pan responder: the claim test, the clamped move and the release decision.
- `DashboardScreen` (app/dashboard.tsx) covers the income/expense filter and the balance toggle.
- `TabNavigator` (components/BottomTabNavigator/BottomTabNavigator.tsx) covers the tab state mapping and the content switch.
- `RadioGroup` (components/RadioGroupField.tsx) covers the `||` fallback, the selection flag and the press forwarding.
- `Common` holds the shared pieces:
  - Option and Result;
  - decimal digits and `String(n)`;
  - JavaScript's `trim` with the ECMAScript white-space set.

Remote calls and clocks are parameters:
- the reply of `getAccountDetails`, `signIn` or `signUp`;
- whether `signOut` throws;
- `Date.now()`;
- the current year and month;
- the document picker's result.

AsyncStorage is a field: one slot for the account cache, and a string map for the auth keys. The env file arrives as its content, or None when no path is given or the file does not exist.

Two behaviours of the code that the model keeps as written:
- When the remote sign-out throws, `logout` swallows the error and leaves the user and both storage keys as they were.
- The new-transaction `handleSubmit` does no validation and makes no remote call; it only logs.

## Model

| member | source | states |
|---|---|---|
| Common.Decimal | components/Dashboard/Dashboard.tsx:18 | `String(n)` for a natural number is non-empty, all digits, and has no leading zero |
| Common.DecimalRoundTrip | components/Dashboard/Dashboard.tsx:18 | reading the digits of `String(n)` gives back `n` |
| Common.IsWhitespace | scripts/seed-transactions.mjs:68-69 | in ASCII exactly space, tab, line feed, vertical tab, form feed and carriage return count as white space; the rest of the ECMAScript set lies above 0x7F |
| Common.TrimStart | scripts/seed-transactions.mjs:69 | the result does not start with white space, is the suffix of the input that is left once the cut-off part is removed, and everything cut off is white space |
| Common.TrimEnd | scripts/seed-transactions.mjs:69 | the result does not end with white space, is a prefix of the input, and everything cut off is white space |
| Common.Trim | scripts/seed-transactions.mjs:69 | `trim` leaves neither leading nor trailing ECMAScript white space |
| Common.TrimCutsOnlyWhitespace | scripts/seed-transactions.mjs:69 | `trim` removes only white space: its result is the slice of the input after the leading white space, and every character outside that slice is white space |
| AccountState.TargetNumber | hooks/useAccount.tsx:93-100 | a number that resolves is never empty, so it passes the truthiness test before the remote call |
| AccountState.FirstCandidate | hooks/useAccount.tsx:93 | no candidate exactly when there is neither an override nor an account; a present override is taken as is, even when empty, and otherwise the account's number |
| AccountState.TargetPriority | hooks/useAccount.tsx:93-98 | priority order: a non-empty override wins; with no override a non-empty in-memory number wins; otherwise the non-empty cached number, or none; the number is always one of the three |
| AccountState.ReplyOutcome | hooks/useAccount.tsx:104-121 | a refresh loads exactly when the response exists with `success`, and loads its details; a missing or unsuccessful response fails with 'Não foi possível obter os dados da conta.'; a thrown error keeps its message and falls back to 'Erro ao buscar detalhes da conta.' only when it has none |
| AccountState.RefreshOutcome | hooks/useAccount.tsx:100-108 | with no number the refresh fails with 'Número da conta não encontrado…'; a loaded outcome always comes from a successful reply for the resolved number |
| AccountState.RefreshAgainTargetsSameAccount | hooks/useAccount.tsx:93-116 | after a successful refresh, refreshing without an override asks for the same account whatever the cache holds |
| AccountState.ClearedAccountCannotRefresh | hooks/useAccount.tsx:72-102 | after memory and cache are cleared, a refresh without an override resolves no number and fails with the not-found message |
| AccountState.AccountProvider.constructor | hooks/useAccount.tsx:31-34 | no account, not loading, no error, mounted, no request made, and the storage as found |
| AccountState.AccountProvider.Unmount | hooks/useAccount.tsx:36-40 | the cleanup clears the mounted flag |
| AccountState.AccountProvider.PersistAccount | hooks/useAccount.tsx:42-53 | null removes the cache entry, details overwrite it |
| AccountState.AccountProvider.LoadStoredAccount | hooks/useAccount.tsx:55-70 | returns the cached snapshot; copies it into memory only when there is one and the provider is mounted |
| AccountState.AccountProvider.ClearAccount | hooks/useAccount.tsx:72-79 | the cache entry is always removed; account and error are cleared only while mounted |
| AccountState.AccountProvider.RefreshAccount | hooks/useAccount.tsx:81-127 | unauthenticated: clears and makes no request. Authenticated: requests the resolved number exactly once, or makes no request if none resolves. The cache holds the details after a success and is unchanged after a failure. While mounted, loading ends false, the error is the failure message or none, and the account is the loaded details, else the cached snapshot when the cache was read, else unchanged. Unmounted: no state field changes |
| AuthState.MessageOr | hooks/useAuth.tsx:152-155 | `error.message \|\| fallback`: a non-empty message is kept, an absent or empty one gives the fallback; never empty |
| AuthState.LoginErrorMessage | hooks/useAuth.tsx:133-156 | the login error message is never empty |
| AuthState.CredentialCodesShareMessage | hooks/useAuth.tsx:137-141 | 'auth/invalid-credential', 'auth/wrong-password' and 'auth/user-not-found' all give the wrong-credentials message, whatever the error's own message |
| AuthState.OtherCodesHaveOwnMessages | hooks/useAuth.tsx:142-150 | 'auth/invalid-email', 'auth/user-disabled' and 'auth/too-many-requests' each give their own message; the four messages are distinct |
| AuthState.UnknownCodeUsesMessage | hooks/useAuth.tsx:151-156 | any other code, or no code, gives the error's message or 'Erro ao fazer login' |
| AuthState.RegisterErrorMessage | hooks/useAuth.tsx:188-193 | register does no code mapping: the error's non-empty message, else 'Erro ao criar conta' |
| AuthState.MockUser | hooks/useAuth.tsx:7-9 | the mock user keeps the email and its uid starts with 'mock-user-' |
| AuthState.MockUidsDiffer | hooks/useAuth.tsx:8 | mock users created at different instants get different uids |
| AuthState.JsonEscape | hooks/useAuth.tsx:125 | `JSON.parse` reads the escaped text back as the original string, and plain text is written unchanged |
| AuthState.ValidBodyShape | hooks/useAuth.tsx:88 | text that `JSON.parse` accepts between quotes has no control character, does not start with a quote, and has a backslash before every other quote |
| AuthState.EscapeCharDecodes | hooks/useAuth.tsx:125 | the escape `JSON.stringify` writes for a character is read back by `JSON.parse` as that character and takes up exactly the escape |
| AuthState.MockUserRecord | hooks/useAuth.tsx:125 | the stored record is `{"email":"…"}`, and `JSON.parse` reads the text between its value's quotes back as the address |
| AuthState.PlainEmailRecord | hooks/useAuth.tsx:125 | the stored `{email}` record holds an ordinary address verbatim |
| AuthState.AttemptOutcome | hooks/useAuth.tsx:112-126 | with Firebase the provider reply decides, and its user or error is kept. Without it, sign-in succeeds exactly when the password has at least 6 characters, with the mock user; otherwise a plain error 'A senha deve ter pelo menos 6 caracteres' is thrown |
| AuthState.StoreSession | hooks/useAuth.tsx:113-125 | after sign-in the uid is under 'userToken'; 'mockUser' is written only in development mode; every other entry is unchanged and no other key appears |
| AuthState.ShortMockPasswordRejected | hooks/useAuth.tsx:117-120 | in development mode a short password fails, and both login and register report exactly the password message |
| AuthState.LogoutUndoesSession | hooks/useAuth.tsx:199-211 | logging out after signing in leaves the storage, apart from the two keys, as it was before the sign-in |
| AuthState.AuthProvider.constructor | hooks/useAuth.tsx:46-48 | no user and loading on first render |
| AuthState.AuthProvider.IsAuthenticated | hooks/useAuth.tsx:221 | authenticated exactly when a user is present (`!!user`) |
| AuthState.AuthProvider.Login | hooks/useAuth.tsx:108-165 | loading ends false. Success exactly when the attempt signs in: the user is set and the session stored, and `isAuthenticated` then holds. On failure user and storage are unchanged and the error is the login message |
| AuthState.AuthProvider.Register | hooks/useAuth.tsx:167-197 | as login, with the register message on failure |
| AuthState.AuthProvider.Logout | hooks/useAuth.tsx:199-211 | when the Firebase sign-out throws, nothing changes; otherwise the user is cleared and both keys are removed |
| SeedScript.ParseArgs | scripts/seed-transactions.mjs:27-54 | the loop computes the recursive specification; a key is present exactly when some `--key` token occurs |
| SeedScript.ParsedArgs | scripts/seed-transactions.mjs:27-54 | the keys of the parsed options are exactly the keys of the `--` tokens |
| SeedScript.ParseFromKeys | scripts/seed-transactions.mjs:30-51 | every option token's key is recorded and nothing else is |
| SeedScript.ParseFromLast | scripts/seed-transactions.mjs:43-50 | a key ends with the value recorded by its last occurrence |
| SeedScript.ParsedArgsCharacterized | scripts/seed-transactions.mjs:27-54 | keys are exactly those of `--` tokens; each value is `true` for a switch, a token at the end or a token followed by another option, and otherwise the next token; a later occurrence overwrites an earlier one |
| SeedScript.SwitchesAreFlags | scripts/seed-transactions.mjs:38-41 | `useEmulator`, `register` and `dryRun` are always `true` |
| SeedScript.SplitLines | scripts/seed-transactions.mjs:68 | at least one line, no line contains a line feed, and text without a line feed is one line |
| SeedScript.SplitLinesJoin | scripts/seed-transactions.mjs:68 | joining the lines with line feeds gives the text back, without the carriage returns that stood before line feeds |
| SeedScript.Unquote | scripts/seed-transactions.mjs:80 | exactly one leading double quote (if any) and then one trailing double quote (if any) are removed, and nothing else changes; a lone quote becomes empty |
| SeedScript.ParseLine | scripts/seed-transactions.mjs:68-80 | a line defines something exactly when its trimmed text is non-empty and starts with neither `#` nor `=`; the key defined is non-empty and has no `=` |
| SeedScript.LoadEnvFile | scripts/seed-transactions.mjs:56-86 | no file leaves the environment as it is; otherwise the loop applies the lines in order. A line is skipped when `key in process.env` holds, which is true for variables already set and for names inherited from `Object.prototype`; variables already set keep their values |
| SeedScript.ApplyLines | scripts/seed-transactions.mjs:67-85 | variables already in the environment are never overwritten |
| SeedScript.ApplyLinesAddsFirst | scripts/seed-transactions.mjs:68-85 | a variable that is neither set nor an inherited name is added exactly when some line defines it, with the value of the first such line |
| SeedScript.InheritedNamesNeverWritten | scripts/seed-transactions.mjs:82-84 | a name inherited from `Object.prototype`, such as `constructor`, counts as set and is never written, whatever the lines say |
| SeedScript.ParseAssignment | scripts/seed-transactions.mjs:74-80 | `KEY=raw` defines `KEY` with the trimmed, unquoted text after the first `=`; later `=` signs are kept |
| SeedScript.ParseQuotedLine | scripts/seed-transactions.mjs:74-80 | `KEY="v"` reads back as `(KEY, v)` for every `v` |
| SeedScript.ParsePlainLine | scripts/seed-transactions.mjs:74-80 | `KEY=v` reads back as `(KEY, v)` for an unpadded, unquoted `v` |
| SeedScript.IgnoredLines | scripts/seed-transactions.mjs:69-72 | blank lines and `#` lines define nothing |
| SeedScript.RequireEnv | scripts/seed-transactions.mjs:88-94 | succeeds exactly for a present, non-empty variable and returns it unchanged; otherwise the error names the key |
| SeedScript.LoadedVariableIsRequired | scripts/seed-transactions.mjs:56-94 | a variable defined by the env file, not set before and not an inherited name, satisfies `requireEnv` with the file's value |
| SeedScript.InheritedLineNotLoaded | scripts/seed-transactions.mjs:56-94 | after a file whose one line is `constructor=x`, `requireEnv('constructor')` still throws |
| SeedScript.TokenAmount | scripts/seed-transactions.mjs:103-104 | one token contributes at most one amount, and only a positive one |
| SeedScript.PositiveAmounts | scripts/seed-transactions.mjs:103-104 | only positive amounts are kept |
| SeedScript.ArgText | scripts/seed-transactions.mjs:101 | `String(rawValue)`: a text option is its own text, a bare flag reads as "true" |
| SeedScript.ParseAmountList | scripts/seed-transactions.mjs:96-107 | an absent or empty option gives the fallback; otherwise the positive amounts of the tokens when there are any, and the fallback when there are none; any result other than the fallback is non-empty and positive |
| SeedScript.ParseAmountListMeaning | scripts/seed-transactions.mjs:96-107 | for a given option, the fallback comes back exactly when no token reads as a positive number; otherwise the result holds exactly the amounts some token reads as |
| SeedScript.WordFallsBack | scripts/seed-transactions.mjs:96-107 | a single word that cannot start a number ("abc") gives the fallback |
| SeedScript.SplitAmounts | scripts/seed-transactions.mjs:102 | at least one token, and no token holds a comma, semicolon or white space |
| SeedScript.ToNumber | scripts/seed-transactions.mjs:103 | blank text is 0; a negative number only comes from a leading minus, and a positive one never does |
| SeedScript.PositiveAmountsAppend | scripts/seed-transactions.mjs:101-104 | amounts keep the order of their tokens |
| SeedScript.PositiveAmountsMembers | scripts/seed-transactions.mjs:103-104 | an amount is kept exactly when some token reads as that positive number |
| SeedScript.SplitJoin | scripts/seed-transactions.mjs:102 | splitting comma-joined tokens gives the tokens back |
| SeedScript.ToNumberDecimal | scripts/seed-transactions.mjs:103 | `Number` reads a decimal rendering back as its value |
| SeedScript.ToNumberFraction | scripts/seed-transactions.mjs:103 | `Number` reads digits, a point and digits as the whole part plus the fraction's digits divided by ten once per digit, as in "12.5" |
| SeedScript.NotANumber | scripts/seed-transactions.mjs:103 | text starting with anything but a digit, sign or point is NaN |
| SeedScript.AmountListRoundTrip | scripts/seed-transactions.mjs:96-107 | a comma-separated list of positive whole amounts parses to exactly those amounts, in order |
| SeedScript.BareFlagFallsBack | scripts/seed-transactions.mjs:96-107 | a bare `--deposits` (value `true`) falls back to the defaults |
| SeedScript.NormalizeCallableData | scripts/seed-transactions.mjs:109-114 | an object with `result` gives that member; anything else is returned unchanged |
| SeedScript.NormalizeUnwrapsEnvelope | scripts/seed-transactions.mjs:110-111 | unwrapping undoes the `{ result: x }` envelope |
| SeedScript.NormalizePlainIsStable | scripts/seed-transactions.mjs:109-114 | a payload without the envelope is a fixed point |
| NewTransaction.KeepDigits | app/new-transaction.tsx:38 | only digits are kept, and the result is never longer than the input |
| NewTransaction.ParseCurrencyInput | app/new-transaction.tsx:37-40 | an all-digit input is read as its decimal value, and an input without digits gives 0 |
| NewTransaction.KeepDigitsAppend | app/new-transaction.tsx:38 | stripping distributes over concatenation, so the digits keep their order |
| NewTransaction.KeepDigitsOfDigits | app/new-transaction.tsx:38 | a string of digits is kept whole |
| NewTransaction.KeepDigitsNone | app/new-transaction.tsx:38 | a string without digits is stripped to nothing |
| NewTransaction.NoDigitsParsesToZero | app/new-transaction.tsx:39 | input without digits parses to 0 |
| NewTransaction.NonDigitIgnored | app/new-transaction.tsx:38-39 | inserting a non-digit anywhere does not change the value |
| NewTransaction.MinusSignIgnored | app/new-transaction.tsx:38 | a leading minus sign is ignored, so the value is never negative |
| NewTransaction.ParseDecimal | app/new-transaction.tsx:38-39 | the decimal rendering of `n` parses to `n` |
| NewTransaction.ParseAppend | app/new-transaction.tsx:38-39 | typing more text shifts the value by one decimal place per typed digit and adds the typed digits' value |
| NewTransaction.TransactionTypeOptions | app/new-transaction.tsx:16-25 | two options with distinct values |
| NewTransaction.NewTransactionForm.constructor | app/new-transaction.tsx:28-31 | no type, amount 0, the initial display, no attachment |
| NewTransaction.NewTransactionForm.HandleTransactionTypeChange | app/new-transaction.tsx:33-35 | the type becomes the pressed value, unchecked |
| NewTransaction.NewTransactionForm.HandleAmountChange | app/new-transaction.tsx:42-46 | the amount is exactly the parsed value and the display shows it |
| NewTransaction.NewTransactionForm.HandlePickDocument | app/new-transaction.tsx:48-61 | a picked document is stored; a cancelled or failed pick leaves the attachment as it was |
| NewTransaction.NewTransactionForm.HandleRemoveAttachment | app/new-transaction.tsx:63-65 | the attachment becomes null |
| NewTransaction.NewTransactionForm.HandleSubmit | app/new-transaction.tsx:67-74 | changes nothing and only logs the type and amount |
| MonthChart.FromOrdinal | components/Dashboard/Dashboard.tsx:16 | any month index is carried into the year: a valid month with the given ordinal |
| MonthChart.ConstructorYear | components/Dashboard/Dashboard.tsx:16 | the year is changed exactly when it lies in 0..99, and then it lands in 1900..1999 |
| MonthChart.InitialSelectedMonth | components/Dashboard/Dashboard.tsx:28-31 | the initial selection is the key of the current month, built without the constructor's year rule |
| MonthChart.Pad2 | components/Dashboard/Dashboard.tsx:18 | exactly two digits |
| MonthChart.Pad2Value | components/Dashboard/Dashboard.tsx:18 | the padded text reads back as the number |
| MonthChart.Pad2Injective | components/Dashboard/Dashboard.tsx:18 | different months pad differently |
| MonthChart.MonthKey | components/Dashboard/Dashboard.tsx:18 | the key is the year's text, then a dash, then two digits whose value is the month from 1 to 12 |
| MonthChart.MonthKeyInjective | components/Dashboard/Dashboard.tsx:18 | different months have different keys |
| MonthChart.MonthsAgo | components/Dashboard/Dashboard.tsx:16 | every entry is a valid month |
| MonthChart.MonthsAgoCalendar | components/Dashboard/Dashboard.tsx:16 | entry `i` is `i` months back, in the same year until the walk passes January and in the previous year after |
| MonthChart.GenerateLast12Months | components/Dashboard/Dashboard.tsx:11-25 | exactly 12 keys; entry `i` is the key of the month `i` months back; the keys are pairwise distinct |
| MonthChart.KeysDistinct | components/Dashboard/Dashboard.tsx:15-22 | entries are strictly decreasing in time and their keys differ |
| MonthChart.ListedKeysDistinct | components/Dashboard/Dashboard.tsx:15-22 | the twelve keys generated back from the current month never repeat |
| MonthChart.FirstEntryIsInitialSelection | components/Dashboard/Dashboard.tsx:12-31 | the first key equals the initial `selectedMonth` exactly when the year lies outside 0..99 |
| MonthChart.FindIndex | components/Dashboard/Dashboard.tsx:80 | found exactly when present; the index is the first occurrence |
| MonthChart.ScrollOffset | components/Dashboard/Dashboard.tsx:80-84 | computed only when the month is listed; equals max(0, reversedIndex·120 − 40), so it lies between 0 and the list's width |
| MonthChart.InitialScrollOffset | components/Dashboard/Dashboard.tsx:27-84 | on first render the current month is the newest, so the offset is 11·120 − 40 |
| MonthChart.PressBar | components/Dashboard/Dashboard.tsx:189-192 | pressing the selected bar deselects it, any other bar becomes selected |
| MonthChart.PressBackground | components/Dashboard/Dashboard.tsx:161 | a background press clears the selection |
| MonthChart.BarId | components/Dashboard/Dashboard.tsx:49-50 | the text before the first dash of a bar id is the bar's index in decimal, and the text after it is the series name |
| MonthChart.BarIdInjective | components/Dashboard/Dashboard.tsx:191-210 | bar ids of different bars differ |
| MonthChart.AtMostOneValueShown | components/Dashboard/Dashboard.tsx:170-177 | at most one bar of the chart shows its value |
| MonthChart.BarAnimations.constructor | components/Dashboard/Dashboard.tsx:37 | the cache starts empty |
| MonthChart.BarAnimations.GetBarAnimation | components/Dashboard/Dashboard.tsx:39-44 | inserts the starting height only for an absent key, returns the key's entry, and leaves every other key untouched |
| CardSheet.Abs | app/card.tsx:46-47 | `Math.abs` |
| CardSheet.ShouldClaim | app/card.tsx:44-49 | a gesture of at most 10 points vertically, or no more vertical than horizontal, is never claimed; any other is |
| CardSheet.ClaimedGestureIsVertical | app/card.tsx:44-49 | a claimed gesture moved more than 10 points vertically, and further vertically than horizontally |
| CardSheet.ShouldCollapse | app/card.tsx:59-63 | a drag down by more than 100 collapses, a drag up by 100 or more expands, and anything in between keeps the current state |
| CardSheet.BottomSheet.constructor | app/card.tsx:37-38 | expanded at offset 0 |
| CardSheet.BottomSheet.Move | app/card.tsx:50-58 | expanded with dy > 0: min(dy, 260); collapsed with dy < 0: max(260 + dy, 0); otherwise unchanged; the offset stays within [0, 260] |
| CardSheet.BottomSheet.Release | app/card.tsx:59-92 | an expanded sheet collapses exactly when dy > 100; a collapsed one expands exactly when dy ≤ −100; otherwise the state stays; the spring heads to 260 exactly when collapsed and to 0 otherwise |
| CardSheet.ReleaseInPlaceKeepsState | app/card.tsx:61-63 | a release without movement keeps the state |
| CardSheet.CollapseThenExpand | app/card.tsx:61-63 | a collapsing release followed by an expanding one restores the expanded state |
| DashboardScreen.FilterByKind | app/dashboard.tsx:116 | only transactions of the active type, taken from the list, never more than the list |
| DashboardScreen.FilterAppend | app/dashboard.tsx:116 | the filter distributes over concatenation, so it keeps the original order |
| DashboardScreen.FilterKeepsExactlyMatching | app/dashboard.tsx:116 | a transaction is kept exactly when it is in the list and of the active type |
| DashboardScreen.FilterKeepsMultiplicity | app/dashboard.tsx:116 | matching transactions are kept as often as they occur |
| DashboardScreen.TabsPartition | app/dashboard.tsx:116 | the income and expense tabs together show every transaction once |
| DashboardScreen.FilterIdempotent | app/dashboard.tsx:116 | filtering twice is filtering once |
| DashboardScreen.ToggleBalance | app/dashboard.tsx:21 | the toggle always flips the visibility |
| DashboardScreen.ToggleTwiceRestores | app/dashboard.tsx:21 | toggling twice restores it |
| DashboardScreen.BalanceText | app/dashboard.tsx:206 | the amount while visible, the mask otherwise |
| DashboardScreen.HiddenBalanceNeverShown | app/dashboard.tsx:206 | the amount is never shown while hidden |
| TabNavigator.TabsWithState | components/BottomTabNavigator/BottomTabNavigator.tsx:17-21 | same length and order, fields copied; active exactly when the id is the active tab; the press passes the tab's own id |
| TabNavigator.AtMostOneActive | components/BottomTabNavigator/BottomTabNavigator.tsx:19 | with unique ids at most one tab is active |
| TabNavigator.SomeTabActive | components/BottomTabNavigator/BottomTabNavigator.tsx:19 | some tab is active exactly when the active id belongs to a tab |
| TabNavigator.RenderContent | components/BottomTabNavigator/BottomTabNavigator.tsx:23-58 | home content exactly for 'home'; the new-transaction link exactly for 'statement'; the 'Erro' / 'Tab não encontrada' placeholder exactly for ids other than the three known ones |
| TabNavigator.KnownTabsRenderContent | components/BottomTabNavigator/BottomTabNavigator.tsx:24-50 | the three known tabs never render the error placeholder |
| RadioGroup.CurrentValue | components/RadioGroupField.tsx:31 | the value when it is non-empty, the default otherwise |
| RadioGroup.RenderItems | components/RadioGroupField.tsx:41-49 | one rendered item per item, in order, with value and label copied; selected exactly when its value is the current value |
| RadioGroup.AtMostOneSelected | components/RadioGroupField.tsx:46 | with distinct values at most one item is selected |
| RadioGroup.PressedItemBecomesSelected | components/RadioGroupField.tsx:33-46 | feeding a pressed item's non-empty value back makes exactly that item selected |
| RadioGroup.HandlePress | components/RadioGroupField.tsx:33-37 | the item's value is forwarded when a handler exists; otherwise nothing happens |

## Left out

- Concurrency and effect ordering are not modelled: every operation runs to completion on its own. This leaves out:
  - the `onAuthStateChange` subscription and its initialisation in hooks/useAuth.tsx:50-106;
  - the `synchronizeAccount` effect and its `cancelled` flag in hooks/useAccount.tsx:129-149;
  - stale closures, such as `refreshAccount` reading an older `account`.
- Storage failures are not modelled: every AsyncStorage read and write succeeds. A cache entry that fails to parse is modelled as no entry.
- The storage key constant (`constants/storageKeys`) is not part of this model; the account cache is one abstract slot.
- The response type of `getAccountDetails` in services/firebase.ts is not part of this model. Its fields follow `AccountDetailsResponse` in services/bankingApi.ts.
- AccountState.AccountProvider.RefreshAccount: `console.error` and `console.warn` output is not modelled.
- AuthState.MockUser: the rest of the mock `User` object is left out; only the uid and email are kept. Those fields are constants, timestamps or stub functions.
- AuthState.JsonUnescape: only the text between the quotes of a string literal is read, not the rest of `JSON.parse`. A `\u` escape that names a UTF-16 surrogate is rejected, because model strings hold Unicode scalar values; `JSON.parse` would produce a lone surrogate. `JSON.stringify` never writes such an escape for these strings.
- AuthState.AttemptOutcome: the password length is counted in Unicode scalar values, whereas JavaScript counts UTF-16 code units. The two differ for characters outside the Basic Multilingual Plane.
- SeedScript.ToNumber: `Number()` is modelled only for decimal notation (sign, digits, one point). Hexadecimal, binary, octal, exponent and `Infinity` texts read as NaN in the model. Values are exact reals, not IEEE doubles.
- SeedScript.ParseArgs: JavaScript object-key quirks (`__proto__`) are not modelled for the parsed options. The env loader's `in` test does model the names inherited from `Object.prototype`.
- `main`, `ensureBankAccount`, `delay` and the Firebase calls of the seed script are network flow and are not modelled. So are `fs.existsSync`/`readFileSync`, which are replaced by the content parameter.
- NewTransaction.ParseCurrencyInput: `parseInt` returns an exact natural number in the model. The double precision loss beyond 2^53 is not modelled.
- `formatCurrency` (utils/currency) is not part of this model: the display is recorded as the amount it shows.
- Alerts, locale labels (`toLocaleDateString`), animation timing, bar heights, styling and `handleScroll` in app/card.tsx are presentation only.
- CardSheet.BottomSheet.Move: gesture deltas are whole points, whereas the runtime reports floating-point deltas.
- `processTransactionsForChart` (hooks/useTransactions) is not part of this model.
- MonthChart.FirstEntryIsInitialSelection: components/Dashboard/Dashboard.tsx reads the clock twice, at line 12 for the month list and at line 29 for the initial selection. The model reads it once and passes the same year and month to both. The property therefore assumes that both reads fall in the same month; a render that straddles a month boundary would select a month that is not the first entry.
