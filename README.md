# Session store, cookie lookup and dashboard formatting of the sales admin panel

This project models the server-side session store of a Next.js sales admin panel, and proves properties of the model.

**Session store.** Sessions live in Redis under `session:<id>` with a 24-hour time to live. The module covers:
- how a session record is built from the login data;
- the shallow merge used by an update;
- what each of the five session operations does to the table.

**Browser-side helpers.** These surround the store:
- `getCookie`, `isAuth` and `userLogin` read values out of the cookie string.
- `apiClient.get`/`post` build the request URL, with the filtered query string, and the JSON headers.
- `strPrice` prints an amount with `.` thousands separators.

**Dashboard component.** Only its data shaping is modelled:
- the nine count series of the region chart;
- the omzet value and volume parsers;
- the integer label and tooltip formatters;
- the year-by-month quantity table.

## Modules

The modules follow the program's structure:

- `Wrappers`: `Option` and `Result`.
- `JsString`: the JavaScript string built-ins the code uses:
  - `split` and `join` on one character;
  - `indexOf`;
  - `replace` of the first occurrence of a string;
  - `replace(/c/g, '')`;
  - ASCII `toLowerCase`.
- `JsNumber`:
  - integer `toString`;
  - `parseInt` without a radix, which honours `0x`, and with radix 10, including its white-space skipping and sign;
  - `|| 0`.
- `StringHelper`:
  - the regular expression `\B(?=(\d{3})+(?!\d))` as the pattern reads, position by position;
  - a reference grouping function `Group` that the pattern is proved to agree with on integer text;
  - `strPrice`.
- `Cookies`: `getCookie` as a method with its `for` loop and inner `while` loop, proved against the lookup function `CookieLookup`; `isAuth`; `userLogin`.
- `ApiClient`: the URL loop and the URL function it is proved against, the header map, and the `get`/`post` requests without `fetch`.
- `SessionManager`:
  - the record fields, the record builder and the merge;
  - the Redis commands and the session operations as functions on a table with a clock;
  - the class `SessionStore`, whose methods change the table in place and are proved equal to those functions.
- `DashboardCharts`: the count series, the parsers, the formatters and the pivot. The `yearData` loop and the table loop are methods proved against `Cell`.

**How the environment is modelled.**
- The Redis table is a map from key to (record, absolute expiry), together with the current time. A key is live while its expiry lies after the current time.
- The JSON text stored in Redis is the record itself, because parsing the text back gives the record.
- The fresh uuid of `createSession` is a parameter.
- A Redis command that throws is a `fault` parameter of each operation. The model assumes that a command that throws had no effect on the server, so a fault leaves the table unchanged.
- `document.cookie` is a parameter, and `None` stands for the server side, where there is no document.

## Model

| member | source | states |
|---|---|---|
| SessionManager.Build | src/lib/sessionManager.ts:48-72 | The built record has every `SessionData` key, and no key holds undefined. |
| SessionManager.BuildField | src/lib/sessionManager.ts:49-71 | `user_id` and `token` are copied verbatim. Every other truthy input is kept. A falsy input (undefined, null or '') becomes '' in a string field and null in a nullable one. So a string field always holds a string, and a nullable field never holds ''. |
| SessionManager.BuildIdempotent | src/lib/sessionManager.ts:48-72 | Building a record again from a built record gives the same record. |
| SessionManager.Merge | src/lib/sessionManager.ts:139 | In `{...current, ...patch}`, every field reads as the patch's value when the patch has the field, and as the current value otherwise. |
| SessionManager.MergeEmpty | src/lib/sessionManager.ts:139 | An empty patch changes nothing. |
| SessionManager.MergeIdempotent | src/lib/sessionManager.ts:139 | Applying the same patch twice equals applying it once. |
| SessionManager.MergeCompose | src/lib/sessionManager.ts:139 | Two updates in a row equal one update with the combined patch, where the later patch wins. |
| SessionManager.SessionKey | src/lib/sessionManager.ts:45 | The key is `session:` followed by the id. |
| SessionManager.SessionKeyInjective | src/lib/sessionManager.ts:45 | Different ids give different keys. |
| SessionManager.SetEx | src/lib/sessionManager.ts:75-79 | `SETEX` stores the value under the key with expiry now + ttl, so the key is live for a positive ttl. |
| SessionManager.RedisGet | src/lib/sessionManager.ts:97 | `GET` gives the value of a live key, and nothing for a missing or expired one. |
| SessionManager.Del | src/lib/sessionManager.ts:164 | `DEL` removes the key and counts 1 exactly when the key was live. |
| SessionManager.Expire | src/lib/sessionManager.ts:195 | `EXPIRE` gives a live key the expiry now + ttl and counts 1. On a missing or expired key it changes nothing and counts 0. |
| SessionManager.Read | src/lib/sessionManager.ts:93-112 | `getSession` without a fault gives the live record under `session:<id>`, or null. |
| SessionManager.Created | src/lib/sessionManager.ts:43-81 | The table after `createSession` stores the built record under `session:<id>` for 86400 seconds. |
| SessionManager.Updated | src/lib/sessionManager.ts:120-148 | A session that is not live gives false and no change. A live one gives true and stores the merge under the key for another 86400 seconds. |
| SessionManager.Deleted | src/lib/sessionManager.ts:160-171 | `deleteSession` applies `DEL` and reports whether the count is above 0. |
| SessionManager.Extended | src/lib/sessionManager.ts:183-202 | A session that is not live gives false and no change. A live one gets `EXPIRE` with 86400 seconds and reports whether its count is 1. |
| SessionManager.CreateThenRead | src/lib/sessionManager.ts:36-81 | After `createSession`: the key `session:<id>` expires at now + 86400; `getSession` returns exactly the built record; every other key is unchanged. |
| SessionManager.CreatedSessionExpires | src/lib/sessionManager.ts:36-81 | A created session reads back until 86400 seconds have passed, and reads as null from then on. |
| SessionManager.ReadOfDeadKey | src/lib/sessionManager.ts:97-101 | `getSession` is null exactly when the key is missing or expired. |
| SessionManager.UpdateDead | src/lib/sessionManager.ts:125-135 | Updating a session that is not live returns false and leaves the store unchanged. |
| SessionManager.UpdateLive | src/lib/sessionManager.ts:136-148 | Updating a live session returns true. It stores the merge of the current record with the patch, resets the expiry to now + 86400 and leaves every other key unchanged. |
| SessionManager.UpdateKeepsOtherFields | src/lib/sessionManager.ts:139 | A field the patch leaves out keeps its value across an update. |
| SessionManager.DeleteReports | src/lib/sessionManager.ts:164-171 | `deleteSession` returns true exactly when the key was live. Afterwards the session reads as null, and every other key is unchanged. |
| SessionManager.DeleteTwice | src/lib/sessionManager.ts:164-171 | A second delete of the same id returns false. |
| SessionManager.ExtendReports | src/lib/sessionManager.ts:187-202 | `extendSession` returns true exactly when the key is live. When false, it changes nothing. When true, it keeps the record, sets the expiry to now + 86400 and changes no other key. |
| SessionManager.SessionStore.constructor | src/lib/sessionManager.ts:3 | The connection starts with an empty table at the given time. |
| SessionManager.SessionStore.Tick | src/lib/sessionManager.ts:77 | A time to live counts from the moment its command runs; `Tick` moves that clock forward and keeps the table. |
| SessionManager.SessionStore.SetExCommand | src/lib/sessionManager.ts:75-79 | The table after `SETEX` is `SetEx` of the old one. |
| SessionManager.SessionStore.GetCommand | src/lib/sessionManager.ts:97 | `GET` returns the live value under the key, or nothing. |
| SessionManager.SessionStore.ExistsCommand | src/lib/sessionManager.ts:125 | `EXISTS` returns 1 for a live key and 0 otherwise. |
| SessionManager.SessionStore.DelCommand | src/lib/sessionManager.ts:164 | `DEL` removes the key and returns 1 exactly when the key was live. |
| SessionManager.SessionStore.ExpireCommand | src/lib/sessionManager.ts:195 | `EXPIRE` gives a live key a fresh expiry and returns 1. On any other key it changes nothing and returns 0. |
| SessionManager.SessionStore.CreateSession | src/lib/sessionManager.ts:43-86 | Without a fault, it stores the built record for a day and returns the id. A fault gives the error "Failed to create session" and leaves the table as it was. |
| SessionManager.SessionStore.GetSession | src/lib/sessionManager.ts:93-112 | It returns the live record under the key, and null on a fault. It has no `modifies` clause, so it changes neither the table nor any expiry. |
| SessionManager.SessionStore.UpdateSession | src/lib/sessionManager.ts:120-153 | The new table and the result are `Updated` of the old table. A fault gives false and leaves the table unchanged. |
| SessionManager.SessionStore.DeleteSession | src/lib/sessionManager.ts:160-176 | The new table and the result are `Deleted` of the old table. A fault gives false and leaves the table unchanged. |
| SessionManager.SessionStore.ExtendSession | src/lib/sessionManager.ts:183-207 | The new table and the result are `Extended` of the old table. A fault gives false and leaves the table unchanged. |
| JsString.Split | src/helpers/cookies.ts:14 | `split(';')` gives the pieces between separators, left to right, and always at least one piece. |
| JsString.ReplaceFirst | src/components/dashboard/DashboardCharts.tsx:266 | `replace('Rp. ', '')` with a string pattern replaces only the first occurrence, and returns the text unchanged when there is none. |
| JsString.RemoveChar | src/components/dashboard/DashboardCharts.tsx:266 | `replace(/\./g, '')` drops every `.` and keeps every other character in order. |
| JsString.ToLower | src/components/dashboard/DashboardCharts.tsx:743 | `toLowerCase()` keeps the length and leaves no upper-case letter. Every other character stays in place, and each upper-case letter becomes its lower-case partner. |
| JsString.ToLowerIdempotent | src/components/dashboard/DashboardCharts.tsx:743 | Lowering an already lowered name changes nothing. |
| JsString.JoinSplit | src/helpers/cookies.ts:14 | Joining the pieces of a split with the separator gives back the string. |
| JsString.SplitPiecesLackSeparator | src/helpers/cookies.ts:14 | No piece of a split contains the separator. |
| JsString.SplitJoin | src/helpers/cookies.ts:14 | Splitting a join of separator-free pieces gives back the pieces. |
| JsString.IndexOfFrom | src/helpers/cookies.ts:18 | `indexOf` finds the first occurrence at or after the start, or reports that there is none. |
| JsString.ReplaceFirstAtStart | src/components/dashboard/DashboardCharts.tsx:266 | `replace('Rp. ', '')` on a text that starts with `Rp. ` drops exactly that prefix. |
| JsString.RemoveCharRemovesAll | src/components/dashboard/DashboardCharts.tsx:266 | `replace(/\./g, '')` leaves no dot and adds nothing. |
| JsString.RemoveCharAppend | src/components/dashboard/DashboardCharts.tsx:270 | Removing dots distributes over concatenation. |
| JsNumber.DecimalString | src/helpers/stringHelper.ts:14 | The decimal text of a natural number is a non-empty run of digits. It starts with 0 only for zero, and it is one digit long exactly below 10. |
| JsNumber.DecimalLength | src/helpers/stringHelper.ts:14 | A natural number has at most three digits exactly when it is below 1000. |
| JsNumber.ParseIntOfIntToString | src/components/dashboard/DashboardCharts.tsx:141-149 | `parseInt`, with or without radix 10, gives back every integer from its `toString` text. |
| JsNumber.ParseInt | src/components/dashboard/DashboardCharts.tsx:141-149 | `parseInt(s)` skips leading white space and reads one optional sign. Without a radix, `0x` or `0X` switches to base 16; with radix 10 (lines 266 and 270) it does not. It then reads the longest run of digits, and gives NaN (None) when that run is empty. |
| JsNumber.ParseIntOrZero | src/components/dashboard/DashboardCharts.tsx:141-149 | `parseInt(...) \|\| 0`: the parsed value, with NaN and 0 both giving 0. |
| JsNumber.IntToString | src/helpers/stringHelper.ts:14 | `toString` of an integer starts with `-` exactly when the integer is negative, and every other character is a digit. |
| JsNumber.ParseIntOfLeadingInteger | src/components/dashboard/DashboardCharts.tsx:266 | Take any text made of white space, one optional sign, a non-empty run of decimal digits, and a rest that does not start with a digit. `parseInt` of that text is the value of those digits, negated when the sign is `-`. Without a radix, a lone `0` followed by `x` is the exception. |
| JsNumber.ParseIntTenIsNaN | src/components/dashboard/DashboardCharts.tsx:266 | With radix 10, `parseInt` gives NaN exactly when no decimal digit follows the leading white space and optional sign. |
| JsNumber.ParseIntWithoutDigits | src/components/dashboard/DashboardCharts.tsx:141-149 | A text without any digit parses as NaN. |
| StringHelper.LookaheadIsWholeTriples | src/helpers/stringHelper.ts:14 | `(?=(\d{3})+(?!\d))` holds exactly where the digit run that starts there is non-empty and a multiple of three long. |
| StringHelper.InsertSeparatorsOnlyInserts | src/helpers/stringHelper.ts:14 | The replacement only inserts dots: removing every dot afterwards is the same as removing them before. |
| StringHelper.GroupThousandsOfDigits | src/helpers/stringHelper.ts:14 | On a plain digit string, the replacement equals the reference grouping in threes from the right. |
| StringHelper.GroupThousandsOfInt | src/helpers/stringHelper.ts:14 | On the text of an integer, the replacement keeps the sign and groups the digits of the magnitude. |
| StringHelper.GroupRemoveSeparators | src/helpers/stringHelper.ts:14 | Taking the dots out of a grouping gives back the digits. |
| StringHelper.GroupHasSeparator | src/helpers/stringHelper.ts:14 | A grouping contains a dot exactly when there are more than three digits. |
| StringHelper.GroupPieces | src/helpers/stringHelper.ts:14 | Split at its dots, a grouping has ceil(digits / 3) groups. The first group has one to three digits, and every later group exactly three. |
| StringHelper.StrPrice | src/helpers/stringHelper.ts:6-15 | The output always begins with `Rp `. |
| StringHelper.StrPriceOfInt | src/helpers/stringHelper.ts:14 | An integer prints as `Rp `, its sign and its grouped digits. |
| StringHelper.StrPriceRemovesToText | src/helpers/stringHelper.ts:14 | Deleting every dot after `Rp ` gives the integer's own decimal text. |
| StringHelper.StrPriceSeparated | src/helpers/stringHelper.ts:14 | The output contains a dot exactly when the magnitude is at least 1000. |
| StringHelper.StrPriceOfNumericText | src/helpers/stringHelper.ts:8 | The text of an integer prices the same as the integer. |
| StringHelper.ParseFloat | src/helpers/stringHelper.ts:8 | `parseFloat` of a text gives its leading signed decimal integer, read as `parseInt(s, 10)` reads it, and NaN when there is none. |
| StringHelper.ParseFloatIsNaN | src/helpers/stringHelper.ts:8-11 | The model's integer-only `parseFloat` gives NaN exactly when no digit follows the leading white space and optional sign, as in `x5` or `abc`. A leading `.` and `Infinity` are outside the model. |
| StringHelper.StrPriceOfText | src/helpers/stringHelper.ts:8-11 | With the model's integer-only `parseFloat`, a text without a leading integer prints as exactly `Rp 0`, whatever digits come later in it. A leading `.` and `Infinity` are outside the model. |
| StringHelper.InsertSeparators | src/helpers/stringHelper.ts:14 | Applied from a position on, the replacement puts a `.` before every character where `\B(?=(\d{3})+(?!\d))` matches, and copies every character. The result is at least as long as the rest of the input. |
| StringHelper.GroupThousands | src/helpers/stringHelper.ts:14 | The whole replacement, from position 0. |
| StringHelper.InsertSeparatorsLacks | src/helpers/stringHelper.ts:14 | The replacement adds no character other than `.`. |
| StringHelper.StrPriceAmountLacksR | src/helpers/stringHelper.ts:14 | After its `Rp ` prefix, a printed integer holds no `R`. |
| Cookies.CookieLookup | src/helpers/cookies.ts:10-21 | Without a document, the lookup is undefined. Otherwise it splits the cookie string at `;` and takes the first piece that starts with `name=` after its leading spaces. It gives the rest of that piece, and undefined when no piece matches. |
| Cookies.SpacesEnd | src/helpers/cookies.ts:17 | It gives the index of the first character other than ' ' at or after the start. |
| Cookies.FirstMatch | src/helpers/cookies.ts:15-19 | It gives the index of the earliest entry that starts with `name=` after its leading spaces. No entry before that index matches. |
| Cookies.StripLeadingSpaces | src/helpers/cookies.ts:17 | The `while` loop removes exactly the leading spaces, and only ' '. |
| Cookies.GetCookie | src/helpers/cookies.ts:10-21 | The loop returns `CookieLookup`: the rest of the first matching entry after `name=`. It returns undefined when no entry matches or there is no document. |
| Cookies.IndexOfZeroIsPrefix | src/helpers/cookies.ts:18 | `indexOf(nameEQ) === 0` holds exactly when the entry starts with `nameEQ`. |
| Cookies.CookieValueLacksSemicolon | src/helpers/cookies.ts:14-18 | A found value never contains ';'. |
| Cookies.LongerNameDoesNotMatch | src/helpers/cookies.ts:13-18 | The name `token` does not match an entry `tokenx=…`. |
| Cookies.PrefixedNameDoesNotMatch | src/helpers/cookies.ts:13-18 | The name `token` does not match an entry `xtoken=…`. |
| Cookies.LongerNameFindsNothing | src/helpers/cookies.ts:10-20 | So `getCookie('token')` on a cookie string holding just `tokenx=…` gives undefined. |
| Cookies.PrefixedNameFindsNothing | src/helpers/cookies.ts:10-20 | So `getCookie('token')` on a cookie string holding just `xtoken=…` gives undefined. |
| Cookies.SingleEntry | src/helpers/cookies.ts:13-18 | `name=value` alone gives back `value`, even when `value` contains '='. |
| Cookies.EarliestEntryWins | src/helpers/cookies.ts:15-18 | When a name appears more than once, the earliest entry wins: whatever follows `name=value;`, the lookup gives `value`. |
| Cookies.IsAuth | src/helpers/cookies.ts:29 | True exactly when the `token` lookup is a non-empty string. |
| Cookies.UserLogin | src/helpers/cookies.ts:31-40 | It returns `{user_id, token, email}` exactly when the `user_id` and `token` lookups are both non-empty, and null otherwise. `email` is the lookup as found, possibly undefined. |
| ApiClient.Stringify | src/services/apiClient.ts:18 | `append` stores a string as is, an integer as its decimal text, and a boolean as `true` or `false`. |
| ApiClient.QueryString | src/services/apiClient.ts:21 | `searchParams.toString()` joins the `key=value` pairs with `&`. |
| ApiClient.Url | src/services/apiClient.ts:13-24 | The URL is `/api` + endpoint, followed by `?` and the query string when that is not empty. |
| ApiClient.QueryPairs | src/services/apiClient.ts:16-20 | The pairs are the kept params, in key order, with their values turned into text; there are never more pairs than params. The lemmas `QueryPairsAppend`, `QueryPairsAllKept` and `QueryPairsNoneKept` state what the filter keeps. |
| ApiClient.QueryPairsAppend | src/services/apiClient.ts:16-20 | Kept params appear in the record's key order. |
| ApiClient.QueryPairsAllKept | src/services/apiClient.ts:16-18 | When every value is other than undefined, null and '', every key appears, in order, with its text. Values such as 0 and false count as kept. |
| ApiClient.QueryPairsNoneKept | src/services/apiClient.ts:16-18 | When every value is undefined, null or '', there are no pairs. |
| ApiClient.QueryStringEmpty | src/services/apiClient.ts:21 | The query string is empty exactly when there are no pairs. |
| ApiClient.UrlWithoutQuery | src/services/apiClient.ts:5-23 | Without params, or when none survives the filter, the URL is exactly `/api` + endpoint. |
| ApiClient.UrlWithQuery | src/services/apiClient.ts:21-22 | Otherwise the URL is `/api` + endpoint + `?` + the non-empty query. |
| ApiClient.BuildUrl | src/services/apiClient.ts:13-24 | The `forEach` loop and the `+=` build exactly `Url(endpoint, params)`. |
| ApiClient.BuildHeaders | src/services/apiClient.ts:26-34 | `Accept` and `Content-Type` are `application/json`. `Authorization` is `Bearer <token>` exactly when the token is truthy, and is absent otherwise. |
| ApiClient.Get | src/services/apiClient.ts:8-35 | A GET request with that URL, no body, and the headers for the `token` cookie. |
| ApiClient.Post | src/services/apiClient.ts:53-70 | A POST request with URL `/api` + endpoint, the JSON body, and the headers for the `token` cookie. |
| DashboardCharts.CountSeries | src/components/dashboard/DashboardCharts.tsx:141-149 | A series has one entry per row. |
| DashboardCharts.CountSeriesAppend | src/components/dashboard/DashboardCharts.tsx:141-149 | Entry i of a series comes from row i: the series over two row lists in a row is the concatenation of their series. |
| DashboardCharts.CountSeriesEntry | src/components/dashboard/DashboardCharts.tsx:141-149 | A field holding the text of an integer gives that integer. A field without a leading integer gives 0, as `x5` does. |
| DashboardCharts.ChartSeries | src/components/dashboard/DashboardCharts.tsx:151-188 | There are nine series, each with one entry per row. |
| DashboardCharts.ChartSeriesNames | src/components/dashboard/DashboardCharts.tsx:151-188 | The series carry the legend names, in the chart's order. |
| DashboardCharts.ChartSeriesFields | src/components/dashboard/DashboardCharts.tsx:141-188 | Series k at row i is the parsed k-th field of row i, in chart order. |
| DashboardCharts.PercentBase | src/components/dashboard/DashboardCharts.tsx:210 | The percentage divisor `parseInt(total_outlet) \|\| 1` is never zero, and it is the parsed count when that is not zero. |
| DashboardCharts.FormatCountIsStrPrice | src/components/dashboard/DashboardCharts.tsx:202 | The label and tooltip formatter prints what `strPrice` prints, without `Rp `. The same holds at lines 226 and 383. |
| DashboardCharts.FormatCountGroups | src/components/dashboard/DashboardCharts.tsx:383 | The formatter prints the sign and the grouped digits of the magnitude. |
| DashboardCharts.ValueTooltip | src/components/dashboard/DashboardCharts.tsx:325 | The value tooltip begins with `Rp. `. |
| DashboardCharts.ParseOmzetValueOfTooltip | src/components/dashboard/DashboardCharts.tsx:265-267 | The value parser reads back every integer the value tooltip prints. |
| DashboardCharts.ParseVolumeOfFormatted | src/components/dashboard/DashboardCharts.tsx:269-271 | The volume parser reads back every integer the count formatter prints. |
| DashboardCharts.ParseOmzetValue | src/components/dashboard/DashboardCharts.tsx:265-267 | The value parser drops the first `Rp. `, removes every `.`, reads the rest with `parseInt(..., 10)` and turns NaN into 0. |
| DashboardCharts.ParseVolume | src/components/dashboard/DashboardCharts.tsx:269-271 | The volume parser removes every `.`, reads the rest with `parseInt(..., 10)` and turns NaN into 0. |
| DashboardCharts.FormatCount | src/components/dashboard/DashboardCharts.tsx:202 | The count formatter applies the separator replacement to `toString` of the value. |
| DashboardCharts.ParsersWithoutLeadingInteger | src/components/dashboard/DashboardCharts.tsx:265-271 | After the replacements, a text without a leading integer parses as 0 in both parsers, as `x5` and `abc5` do. |
| DashboardCharts.ParsersWithoutDigits | src/components/dashboard/DashboardCharts.tsx:265-271 | A text without any digit parses as 0 in both parsers. |
| DashboardCharts.ParseOmzetValueOfRpSpace | src/components/dashboard/DashboardCharts.tsx:266 | Only `Rp. ` with its dot is stripped. `Rp ` followed by a text without `R` keeps the `R` in front and parses as 0, so `Rp 1.000` parses as 0. |
| DashboardCharts.ParseOmzetValueOfStrPrice | src/components/dashboard/DashboardCharts.tsx:266 | The value parser reads 0 from any amount that `strPrice` prints, since `strPrice` writes `Rp ` without the dot. |
| DashboardCharts.OmzetValues | src/components/dashboard/DashboardCharts.tsx:265-267 | The value series has one entry per row. |
| DashboardCharts.OmzetVolumes | src/components/dashboard/DashboardCharts.tsx:269-271 | The volume series has one entry per row. |
| DashboardCharts.OmzetSeriesOfPrinted | src/components/dashboard/DashboardCharts.tsx:265-271 | Rows whose amounts are printed as the tooltips print them give back the printed integers. |
| DashboardCharts.Distinct | src/components/dashboard/DashboardCharts.tsx:738 | `Array.from(new Set(...))` holds the same values, each once. |
| DashboardCharts.DistinctInFirstAppearanceOrder | src/components/dashboard/DashboardCharts.tsx:738 | The distinct years come in order of first appearance. |
| DashboardCharts.Cell | src/components/dashboard/DashboardCharts.tsx:738-753 | A cell is the quantity of the last row of that year whose lower-cased month name is the column. It is `-` when there is no such row or its quantity is ''. |
| DashboardCharts.Display | src/components/dashboard/DashboardCharts.tsx:753 | `yearData[month] \|\| '-'`: the stored quantity when present and non-empty, otherwise `-`. |
| DashboardCharts.MonthColumnIgnoresCase | src/components/dashboard/DashboardCharts.tsx:743-751 | A row lands in a month's column exactly when its month name equals the column name up to case, since every column name is lower case. |
| DashboardCharts.LastEntry | src/components/dashboard/DashboardCharts.tsx:740-744 | It finds the last row of the year whose lower-cased month name is the column, or reports that there is none. |
| DashboardCharts.YearData | src/components/dashboard/DashboardCharts.tsx:739-744 | After the `forEach`, `yearData` holds a month exactly when some row of the year has that month. It holds the quantity of the last such row: later rows overwrite earlier ones. |
| DashboardCharts.MonthTable | src/components/dashboard/DashboardCharts.tsx:738-755 | The table has one row per distinct year, in order of first appearance. Each row has twelve cells, January to December. Each cell shows the last entry's quantity, or `-` when there is none or it is ''. |
| DashboardCharts.MonthTableYears | src/components/dashboard/DashboardCharts.tsx:738 | A year gets a table row exactly when some data row has that year. |
| DashboardCharts.CellOfSingleEntry | src/components/dashboard/DashboardCharts.tsx:743-753 | A month with a single non-empty entry shows that entry's quantity. |

## Left out

**JavaScript built-ins and I/O.**
- JSON: `JSON.stringify`/`JSON.parse` are taken as an identity round trip on records of strings and nulls.
- Redis: the network client, its connection handling and `console.log` are not modelled. A failing Redis command is the `fault` flag. Which command failed is not distinguished, because every failure ends the same way.
- uuid: `uuidv4()` is a parameter, and the model adds no collision check, just as the code has none.
- Concurrency: the `exists`/`get`/`setex` sequence of `updateSession` (lines 125-146) is not atomic in Redis, and neither is the `exists`/`expire` pair of `extendSession` (lines 188-200). The model runs the steps of each one after another. The `get` that finds nothing after a successful `exists` is kept as a branch, and so is an `expire` that counts 0 after a successful `exists`. The sequential table takes neither of them.
- Faults after a write: `setex`, `del` and `expire` can throw after the server has applied them, for example when the reply is lost. The model leaves the table unchanged on every fault, so such a partial failure, which would leave a written or deleted session behind a `false` or an error, is not modelled.
- Immutable identifiers: no such guarantee for `user_id`/`token` is stated, because an update can overwrite them.
- `UserLoginData` type: `sessionManager.ts` line 4 imports it from `src/context/AuthContext.tsx`, but that file declares no such type: its `User` holds only `user_id`, `token` and `email`. `LoginData` is an assumed shape for it: required `user_id` and `token`, and any of the other `SessionData` fields.
- `URLSearchParams`: percent-encoding is not modelled.
- URL query text: a value is turned into text only for strings, integers and booleans; objects and arrays are not modelled.
- `fetch`, the response check and `response.json()` are not modelled.
- `setCookie` and `removeCookie` are not modelled, because they depend on the browser's cookie jar and on `Date` arithmetic.

**Floating point.**
- StringHelper.ParseFloat: it parses only a signed decimal integer. Fractions, exponents, `Infinity` and a leading `.` are floating point and are not modelled. So `strPrice` is modelled on integer values and NaN only.
- StringHelper.ParseFloatIsNaN: it is about the model's `parseFloat`. In JavaScript, `.5` parses as 0.5 and `Infinity` as Infinity, though neither has a leading integer. The direction that holds in JavaScript too is that a text with a leading integer is not NaN.
- StringHelper.StrPriceOfText: it is about the model's `parseFloat`. In JavaScript, `strPrice('.5')` prints `Rp 0.5` and `strPrice('Infinity')` prints `Rp Infinity`. A text whose JavaScript `parseFloat` is NaN does print `Rp 0`.
- JsNumber.IntToString: integers are unbounded in the model, but a JavaScript number holds every integer exactly only up to 2^53 (`Number.MAX_SAFE_INTEGER` is 2^53 - 1). Above that, the program's value is already rounded: `(2**60).toString()` gives `1152921504606847000`. From 10^21 on, it prints in exponent notation. The model prints the exact digits.
- JsNumber.ParseInt: for a digit run whose value exceeds 2^53, JavaScript rounds the result to the nearest double; the model gives the exact value.
- StringHelper.StrPrice: inherits both bounds, through `parseFloat` and `toString`.
- DashboardCharts.FormatCount: inherits the `toString` bound.
- DashboardCharts.ParseOmzetValue: inherits the `parseInt` bound.
- DashboardCharts.ParseVolume: inherits the `parseInt` bound.
- StringHelper.StrPriceOfNumericText: it holds for the model's exact integers; in JavaScript it holds for magnitudes up to 2^53.
- DashboardCharts.CountSeriesEntry: its round trip holds for the model's exact integers; in JavaScript it holds for magnitudes up to 2^53.
- The tooltip percentages (`toFixed`, DashboardCharts.tsx lines 211-224) are not modelled, apart from their never-zero divisor.
- The M/JT/K axis formatters (lines 294-300 and 354-360) and `toLocaleString` are not modelled.

**Text handling.**
- JsString.ToLower: it lowers ASCII letters only; the rest of Unicode case mapping is left out.
- JsNumber.IsWhiteSpace: `parseInt` skips the ECMAScript white space and line terminators that are listed there. The round-trip lemmas cover texts without leading white space.

**Not modelled at all.**
- The rest of the dashboard component: React rendering, state, effects and the ApexCharts options.
- `dashboardService` and `dashboardDetailService`: thin wrappers over `apiClient`.
- `authService`, `testAuth`, `sha1` and `next.config.ts`: these hold no logic that can be modelled.
