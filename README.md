# Price mask, error normalisation and authenticated query of the template admin console

This project models the three utility files of the template admin console that hold logic. It proves properties of each model in Dafny.

- **Currency mask** (`src/utils/masks.ts`, module `Masks`). `clear` keeps the ASCII digits of typed text and reads them as a base-10 number. `currency` renders that number and pads it with zeros to at least three characters. It then puts a `.` before the last two digits and passes the result to a locale formatter. The model uses exact naturals. The formatter is a function parameter.
- **Error normalisation** (`src/utils/error.ts`, module `Errors`). `parseError` picks the server's message or a fixed fallback. `formatErrorZodMessage` walks the entries of an already formatted validation error. It fills a fresh record with the first message of each field, skipping the top-level `_errors` key. The walk is a `while` loop over the entry keys.
- **Authenticated base query** (`src/redux/fetch-auth-query.ts`, module `AuthQuery`). Each request gets an `Authorization: Bearer <token>` header when a token is cached. This is the bearer scheme of section 2.1 of RFC 6750. The request goes to the API URL followed by the API's base path. A non-empty `token` response header replaces the cached token. The token store is a class with one field. The network response is an input to the query method.

`Wrappers` holds the `Option` and `Result` types.

## Model

| member | source | states |
|---|---|---|
| `Masks.Clear` | src/utils/masks.ts:1-5 | `clear` reads below 10 to the number of digits in the text, and reads 0 when the text holds no digit |
| `Masks.Value` | src/utils/masks.ts:4 | `Number` of a string of k digits is below 10^k (`Number("")` is 0) |
| `Masks.Digits` | src/utils/masks.ts:2 | the filtered text holds only the characters '0'..'9' and is no longer than the input |
| `Masks.DigitsAppend` | src/utils/masks.ts:2 | filtering works piece by piece: the digits of `a + b` are the digits of `a` followed by the digits of `b`, so order is kept |
| `Masks.DigitsPartition` | src/utils/masks.ts:2 | the kept digits and the removed non-digits together are exactly the characters of the text |
| `Masks.NonDigitsAreNonDigits` | src/utils/masks.ts:2 | every character the filter removes is a non-digit |
| `Masks.DigitsOfDigits` | src/utils/masks.ts:2 | a text made only of digits is kept whole |
| `Masks.DigitsEmpty` | src/utils/masks.ts:2 | nothing is kept if and only if the text contains no digit |
| `Masks.ClearOfDigits` | src/utils/masks.ts:1-5 | `clear` of the filtered digits equals `clear` of the text |
| `Masks.ClearIgnoresInsertion` | src/utils/masks.ts:2 | inserting a non-digit character anywhere leaves `clear` unchanged |
| `Masks.ValueAppend` | src/utils/masks.ts:4 | reading `a + b` gives the value of `a` times 10 to the length of `b`, plus the value of `b` |
| `Masks.LeadingZeros` | src/utils/masks.ts:19 | leading zeros do not change the value read |
| `Masks.ToDecimal` | src/utils/masks.ts:19 | `toString` of n is a digit string of NumDigits(n) characters, with no leading zero unless n is 0, that reads back as n |
| `Masks.ToDecimalOfValue` | src/utils/masks.ts:19 | a non-empty digit string without a leading zero is the rendering of its own value (the converse round trip) |
| `Masks.ClearToDecimal` | src/utils/masks.ts:1-19 | round trip: `clear` of the rendering of n, with or without leading zeros, is n |
| `Masks.PadStart` | src/utils/masks.ts:19 | `padStart(width, "0")` has max(width, length) characters: zeros followed by the string itself |
| `Masks.Padded` | src/utils/masks.ts:19 | the padded rendering of n is a digit string of max(3, digits of n) characters |
| `Masks.PaddedShape` | src/utils/masks.ts:19 | the padded string has max(3, digits of n) characters: zeros followed by the rendering of n; it reads as n |
| `Masks.Cents` | src/utils/masks.ts:21 | `slice(-2)` is the last two characters, in order |
| `Masks.Units` | src/utils/masks.ts:21 | `slice(0, -2)` has two characters fewer, and it followed by `slice(-2)` is the whole string |
| `Masks.Layout` | src/utils/masks.ts:19-21 | the laid-out number has one more character than the padded digits; the `.` is third from the end; digits are on both sides |
| `Masks.LayoutParts` | src/utils/masks.ts:19-21 | the laid-out number is `slice(0, -2)`, a `.` and `slice(-2)` of the padded digits, both parts made of digits |
| `Masks.LayoutSplit` | src/utils/masks.ts:21 | the part before the `.` is `slice(0, -2)` of the padded digits and the part after is `slice(-2)` |
| `Masks.LayoutValue` | src/utils/masks.ts:19-21 | at least one character before the `.` and exactly two after it; the first part reads as n / 100 and the second as n % 100 |
| `Masks.DigitsOfLayout` | src/utils/masks.ts:19-21 | filtering the laid-out number gives back the padded digits |
| `Masks.ClearLayout` | src/utils/masks.ts:1-21 | `clear` of the laid-out number is n (a statement about `clear` only: `currency` of the bare laid-out number rounds, see `CurrencyOfLayoutRounds`) |
| `Masks.ClearLayoutTyped` | src/utils/masks.ts:1-21 | typing digit d after the laid-out number makes `clear` read 10 n + d |
| `Masks.ClearIgnoresPrefix` | src/utils/masks.ts:1-5 | a digit-free prefix such as the currency sign does not change what `clear` reads |
| `Masks.ClearPrefixedTyped` | src/utils/masks.ts:1-21 | typing digit d at the end of the field text, a digit-free prefix and the laid-out number, makes `clear` read 10 n + d |
| `Masks.ClearPrefixedErased` | src/utils/masks.ts:1-21 | erasing the last character of the field text, a digit-free prefix and the laid-out number, makes `clear` read n / 10 |
| `Masks.ClearPrefixDropLast` | src/utils/masks.ts:1-5 | erasing the last character after a digit-free prefix reads the same as erasing it without the prefix |
| `Masks.ClearLayoutErased` | src/utils/masks.ts:1-21 | deleting the last character of the laid-out number makes `clear` read n / 10 |
| `Masks.Currency` | src/utils/masks.ts:14-23 | the formatter receives the layout of `clear` of the text when `Number(text)` is NaN, and of `clear` of the rounded rendering otherwise |
| `Masks.CurrencyOfDigits` | src/utils/masks.ts:14-23 | digit-only text is numeric, so the `Math.round` branch always runs; its rendering reads the same, and `currency` formats the layout of `clear(text)` |
| `Masks.CurrencyRemask` | src/utils/masks.ts:14-23 | text holding a '$' is NaN for `Number`; for the formatted field text (such as "$1,234.56"), whose digits are the padded digits of n, masking it again in that branch formats the layout of n, so no cents are lost |
| `Masks.RemaskPrefixed` | src/utils/masks.ts:2 | a digit-free prefix such as a currency sign before the laid-out number leaves exactly the padded digits to `clear` |
| `Masks.CurrencyOfPrefixed` | src/utils/masks.ts:14-23 | masking a digit-free prefix holding a '$' followed by the laid-out number, in the NaN branch that such text takes, formats the layout of n again |
| `Masks.CurrencyOfLayoutRounds` | src/utils/masks.ts:15-21 | the bare laid-out number is numeric, so `Math.round` drops its cents: `currency` formats the layout of round(n / 100) instead of n |
| `Masks.CurrencyOfLayoutExample` | src/utils/masks.ts:14-23 | for example n = 123 lays out as "1.23", which `currency` formats as "0.01" |
| `Errors.HasServerMessage` | src/utils/error.ts:4 | `err.data && err.data.msg` is falsy exactly when `data` is absent, `msg` is absent, or `msg` is "" |
| `Errors.ParseError` | src/utils/error.ts:3-9 | the result is `err.data.msg` when `data` holds a non-empty `msg`, and "unknown error: check server" otherwise; it is never empty |
| `Errors.First` | src/utils/error.ts:19 | `list[0]` is defined exactly for a non-empty list and is its first element |
| `Errors.FormatErrorZodMessage` | src/utils/error.ts:11-23 | it succeeds exactly when every key other than `_errors` holds an `_errors` array; the output keys are exactly the input keys minus `_errors`; each value is the first message of that same key's list; otherwise it names a key whose `_errors[0]` read throws |
| `AuthQuery.HasToken` | src/redux/fetch-auth-query.ts:33 | the cached token is falsy exactly when it is absent or "" |
| `AuthQuery.BaseHeaders` | src/redux/fetch-auth-query.ts:35 | missing request headers spread to an empty record; present ones are copied |
| `AuthQuery.Bearer` | src/redux/fetch-auth-query.ts:36 | the `Authorization` value is the prefix "Bearer " followed by the token |
| `AuthQuery.BearerToken` | src/redux/fetch-auth-query.ts:36 | a value parses as a bearer credential exactly when it starts with "Bearer ", and the token is whatever follows |
| `AuthQuery.AuthHeaders` | src/redux/fetch-auth-query.ts:33-38 | with a cached token, the headers are the incoming ones plus an overriding `Authorization`, every other header unchanged; without one, they equal the incoming headers |
| `AuthQuery.Prepare` | src/redux/fetch-auth-query.ts:31-39 | url, method and body pass through unchanged; the headers are the authenticated ones; with a token, the bearer credential parses back to the cached token |
| `AuthQuery.PrepareIdempotent` | src/redux/fetch-auth-query.ts:31-39 | preparing an already prepared request with the same token changes nothing |
| `AuthQuery.BaseUrl` | src/redux/fetch-auth-query.ts:41-45 | the base URL starts with the API URL and continues with `baseArgs.baseUrl` when given; otherwise it is the API URL alone |
| `AuthQuery.GetBaseQueryUrlAsWritten` | src/redux/fetch-auth-query.ts:20-24 | as written, any present `baseUrl` wins, even an empty one; only a missing one falls back to the API URL |
| `AuthQuery.GetBaseQueryUrl` | src/redux/fetch-auth-query.ts:20-24 | corrected: a non-empty `baseUrl` wins; a missing or empty one falls back to the API URL |
| `AuthQuery.EmptyBaseUrlOverridesDefault` | src/redux/fetch-auth-query.ts:20-24 | for `{ baseUrl: "" }` the code as written yields "" while the corrected reading yields the API URL |
| `AuthQuery.ComposedBaseUrlUsed` | src/redux/fetch-auth-query.ts:41-45 | inside the authenticated query both readings of `getBaseQuery` use the composed base URL |
| `AuthQuery.ResponseToken` | src/redux/fetch-auth-query.ts:47 | a response carries a token exactly when it has response headers with a non-empty `token` header, and the token is that header's value |
| `AuthQuery.Captured` | src/redux/fetch-auth-query.ts:47-49 | after a response, the cache holds the response's token if it carries one and is unchanged otherwise |
| `AuthQuery.CapturedKeepsToken` | src/redux/fetch-auth-query.ts:47-49 | a response never clears a cached token: the cache keeps a non-empty token |
| `AuthQuery.NextRequestCarriesCapturedToken` | src/redux/fetch-auth-query.ts:29-49 | a token captured from one response is sent as "Bearer " plus that token with the next request |
| `AuthQuery.TokenStore.constructor` | src/redux/fetch-auth-query.ts:29 | the store starts with whatever token was stored before |
| `AuthQuery.TokenStore.Send` | src/redux/fetch-auth-query.ts:29-45 | the request goes to the composed base URL with the request prepared from the token cached now, whose bearer credential parses back to that token; nothing is written |
| `AuthQuery.TokenStore.Receive` | src/redux/fetch-auth-query.ts:47-51 | the cache becomes `Captured` of the response, and the response is returned unmodified |
| `AuthQuery.TokenStore.FetchAuthQuery` | src/redux/fetch-auth-query.ts:26-52 | the request goes to the composed base URL with the prepared request built from the token cached before the call; the cache becomes `Captured` of the response; the response is returned unmodified |
| `AuthQuery.Overlapping` | src/redux/fetch-auth-query.ts:29-49 | two queries sent before either resolves both carry the token cached at the start; the cache ends as the two responses captured in the order they resolve |
| `AuthQuery.LastResponseWins` | src/redux/fetch-auth-query.ts:47-49 | of two responses, the token of the one that resolves last wins; the first one's survives only when the last carries none |
| `AuthQuery.LoginThenFetch` | src/redux/apis/org.ts:9 | after a login response carrying a token, a request through another API sharing the store goes to its own base URL and carries that token |

## Left out

- `transformToCurrency` (src/utils/masks.ts:7-12) calls a foreign locale formatter on a floating-point number. `Masks.Currency` takes it as the parameter `format`, applied to the laid-out string.
- The `Number(text)` / `Math.round` test at src/utils/masks.ts:15-17 is floating point. `Masks.Currency` takes its outcome as the input `numeric`: the rendered rounded number, or `None` when `Number(text)` is NaN. Lemmas relate it to digit-only text (`CurrencyOfDigits`), to the bare laid-out number (`CurrencyOfLayoutRounds`) and to the formatted field text (`CurrencyRemask`).
- `Masks.CurrencyRemask`: the formatted amount is described by its digits only. That `Intl.NumberFormat` writes exactly the padded digits of n, with the sign and separators between them, is the requirement of the lemma, together with a '$' in the text, which is what makes `Number` NaN; the formatter itself is not modelled.
- `Masks.Clear`: reads digits exactly. It does not model `Number` losing precision past 2^53.
- `Masks.ToDecimal`: does not model the exponent notation `toString` uses from 1e21 up.
- zod's `error.format()` (src/utils/error.ts:12) is a library call. Its output is the input of `FormatErrorZodMessage`: each entry is reduced to the `_errors` array it holds, if any. The nested fields below the first level are never read, so they are not modelled.
- `Errors.ParseError`: `msg` is modelled as absent or a string. A truthy non-string `msg` would be returned as-is by the source; that case is not modelled. A `data` value that is not an object with `msg` is modelled as absent `msg`.
- The `fetchBaseQuery` network call, with its `api` and `extraOptions` arguments, is I/O. Its response is an input of `FetchAuthQuery`.
- The `getToken` / `setToken` storage backend (src/redux/token.ts) is not part of this model. The cached token is the field `TokenStore.token`.
- `process.env.NEXT_PUBLIC_API_URL` is the parameter `apiUrl`. An unset variable would render as the text "undefined".
- `AuthQuery.TokenStore.FetchAuthQuery`: the source reads the token, awaits the network, then writes it; other queries may run in between. `Send` and `Receive` model the two halves and `Overlapping` models one interleaving of two queries; the scheduling of promises itself is not modelled, so other interleavings are only covered by composing the two halves by hand.
- `BaseArgs`: an explicit `baseUrl: undefined` key and a missing key are both `None`. In `getBaseQuery` the spread copies an explicit `undefined` back over the default, so that case also loses the API URL; the model does not distinguish it.
- A request given as a bare URL string is not modelled. Spreading a string would copy its characters as keys. Every endpoint in src/redux/apis passes an object.
- Request headers are modelled as a plain record with exact-case keys. A `Headers` instance or an array of pairs is not modelled. Fetch merges header names case-insensitively later, so a lower-case `authorization` header kept next to `Authorization` is not merged in the model.
- Fields of a request other than `url`, `method`, `body` and `headers` are not modelled; the source copies them unchanged like `url`.
- RTK Query endpoint definitions and the store (src/redux/apis/*.ts, src/redux/store.ts) are declarative library configuration.
- The React/MUI screens, the canvas editor, src/utils/file-to-base64.ts and src/types/*.ts are presentation, I/O or type declarations.

## Findings

| source | as written | input that shows it | evidently intended | confidence | as-written member | corrected member |
|---|---|---|---|---|---|---|
| src/redux/fetch-auth-query.ts:20-24 | `{ baseUrl: args.baseUrl \|\| API_URL, ...args }`: the spread writes back any `baseUrl` key present in `args`, so the `\|\|` default is skipped | `getBaseQuery({ baseUrl: "" })` gets base URL "" instead of the API URL (`EmptyBaseUrlOverridesDefault`) | a missing or empty `baseUrl` falls back to the API URL | low, not executed; `fetchAuthQuery` is unaffected (`ComposedBaseUrlUsed`); an explicit `baseUrl: undefined` is copied back the same way, which the model, writing both as `None`, does not show | `AuthQuery.GetBaseQueryUrlAsWritten` | `AuthQuery.GetBaseQueryUrl` |
