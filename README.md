# byou translation core, in Dafny

byou is a macOS menu-bar translator. This project models its core in
Dafny and proves properties of the model:

- **`TencentTranslationManager`**: the Tencent Cloud TextTranslate client.
  - It builds and TC3-HMAC-SHA256-signs one POST request per attempt.
  - It classifies each response.
  - It retries server errors (status 500 and above, and 429) up to three
    attempts, sleeping 1 and then 2 seconds.
  - `translate` collapses every failure to `nil`.
  - `translateAndFormat` shows a placeholder that quotes the input.
- **`ConfigManager`**: the credential store kept in user defaults, with its
  defaults, its "configured" test, its validation cascade and its resets.
- **`PopoverViewController`**: the two text slots of the popover, and
  `setContent`, which splits a string at the separator "\n\n---\n\n".
- **`SettingsViewController`**: the helpers that compute something.
  - `hotkeyStringFor` and `keyCharFor` give the text of a recorded hotkey.
  - `saveConfiguration` trims whitespace before storing the credentials.
  - `NSColor(hex:)` yields integer colour channels.

Modules, one per file:

| file | module | models |
|---|---|---|
| `wrappers.dfy` | `Wrappers` | `Option`, `Result` (Swift optionals and thrown errors) |
| `encoding.dfy` | `Encoding` | `Data.hexString`, `String.utf8`, decimal rendering of `Int`, `lowercased()` on ASCII |
| `json_body.dfy` | `JsonBody` | `JSONSerialization` writing the four request parameters in ascending key order (`.sortedKeys`) |
| `calendar.dfy` | `Calendar` | `timestampToDateString` (UTC, "yyyy-MM-dd") |
| `config_manager.dfy` | `ConfigManager` | `ConfigManager` as a class over the user-defaults map |
| `tc3_signer.dfy` | `Tc3Signer` | `generateTC3Signature` and the request headers |
| `translation_client.dfy` | `TranslationClient` | `performSingleTranslation`, `isRetryableError`, `performTranslation`, `translate`, `translateAndFormat`, `TranslationError` |
| `popover.dfy` | `Popover` | `components(separatedBy:)`, `setContent`, the text slots |
| `settings.dfy` | `Settings` | trimming, `saveConfiguration`, `keyCharFor`, `hotkeyStringFor`, `NSColor(hex:)` channels |

How the model treats the outside world:

- **The outside world is passed in as parameters.**
  - `clock(i)` is the Unix time read at attempt `i`.
  - `network(i, request)` is the response attempt `i` receives.
  - SHA-256, HMAC-SHA256 and JSON string escaping are total functions,
    collected in a `Primitives` value. Every theorem about the signature
    therefore holds for any such functions, CommonCrypto's included.
- **A response body is given by what `JSONDecoder` makes of it.** The body
  is modelled as the result of decoding it with the success schema and with
  the error schema. This keeps the code's precedence visible: a body that
  decodes as both is a success.
- **Retries are a `for` loop, as in the source.** `PerformTranslation`
  returns the requests in the order sent and the sleeps in seconds. Its
  contract ties every request to `signed(i)`, the request re-signed with
  the clock's reading at attempt `i`.
- **The code's fall-through `throw TranslationError.requestFailed`** after
  the loop is proved unreachable.
- **The credential store and the popover are classes.** `ConfigStore`'s
  field is the user-defaults map. `PopoverContent` has the two slots. Their
  methods update these fields in place.
- **The popover round trip does not always hold.** Splitting
  `a + "\n\n---\n\n" + b`, where `b` holds no separator, gives back
  `(a, b)` exactly when `a + "\n\n---\n"` holds no separator
  (`Popover.SplitRoundTrip`). It therefore fails for `a = "\n\n---"`
  (`Popover.SplitRoundTripCounterexample`). `setContent` has no caller in
  the application, so this is recorded as a property rather than a defect.

Two behaviours of the code worth knowing:

- **Status check.** Success needs a status of exactly 200, not any 2xx
  (`TencentTranslationManager.swift:171`).
- **Transport errors.** An error thrown by the URL session is not a
  `TranslationError`, so `isRetryableError` returns false for it and it
  is not retried (`TencentTranslationManager.swift:206-217`).
- **Error bodies.** The error schema declares no key mapping below
  "Response" (`TencentTranslationManager.swift:248-258`), so it decodes only
  lower-case `error`, `code` and `message` keys. A 200 body in Tencent
  Cloud's capitalised `{"Response":{"Error":{"Code":…,"Message":…}}}` form
  matches neither schema and is classified `invalidResponse`
  (`TencentTranslationManager.swift:183`); `apiError` arises only for the
  lower-case form. Both are final, so `translate` returns `nil` after one
  request either way.

## Model

| member | source | states |
|---|---|---|
| Wrappers.Result.ToOption | Sources/byou/TencentTranslationManager.swift:34-40 | The optional holds a value exactly when the result is a success, and then that success's value: any thrown error becomes `nil`. |
| Encoding.Hex | Sources/byou/TencentTranslationManager.swift:220-224 | Two characters per byte, all lowercase hex digits. |
| Encoding.UnHexHex | Sources/byou/TencentTranslationManager.swift:220-224 | Reading the hex back, two digits per byte, gives back the bytes. |
| Encoding.HexInjective | Sources/byou/TencentTranslationManager.swift:220-224 | Different byte strings never render to the same hex. |
| Encoding.Utf8 | Sources/byou/TencentTranslationManager.swift:103-113 | The encoding has between one and four bytes per character. |
| Encoding.Utf8Append | Sources/byou/TencentTranslationManager.swift:103 | Encoding `"TC3" + secretKey` is encoding "TC3", then encoding the key. |
| Encoding.Utf8Ascii | Sources/byou/TencentTranslationManager.swift:107-110 | ASCII text such as "tmt" and "tc3_request" encodes to one byte per character, equal to the character code. |
| Encoding.NatToDecimal | Sources/byou/TencentTranslationManager.swift:123 | At least one digit, only digits, and no leading zero except for 0 itself. |
| Encoding.ParseNatToDecimal | Sources/byou/TencentTranslationManager.swift:98 | The decimal rendering of a timestamp reads back as that timestamp. |
| Encoding.ParseIntToDecimal | Sources/byou/TencentTranslationManager.swift:282 | The rendering of any Int, negative ones with a leading "-", is well formed and reads back as that Int. |
| Encoding.IntToDecimalInjective | Sources/byou/TencentTranslationManager.swift:282 | Distinct status codes render to distinct text. |
| Encoding.ParseFixedWidth | Sources/byou/TencentTranslationManager.swift:133 | A zero-padded field of `w` digits reads back as any number below 10^w. |
| Encoding.AsciiLower | Sources/byou/TencentTranslationManager.swift:78 | Same length; no upper-case ASCII letter remains; each upper-case letter becomes the letter 32 code points above it, and every other character is kept in place. |
| Encoding.AsciiLowerIdempotent | Sources/byou/TencentTranslationManager.swift:78 | Lower-casing an already lower-cased text changes nothing. |
| JsonBody.Insert | Sources/byou/TencentTranslationManager.swift:81 | Inserting a member with a new key into a key-sorted list keeps it strictly sorted and adds exactly that member. |
| JsonBody.SortByKey | Sources/byou/TencentTranslationManager.swift:81 | Strictly ascending keys, compared by character code, and a permutation of the members. |
| JsonBody.LessPrefix | Sources/byou/TencentTranslationManager.swift:81 | A key that is a proper prefix of another sorts first. |
| JsonBody.LessIgnoringCaseByInitial | Sources/byou/TencentTranslationManager.swift:81 | Ignoring case, keys starting with different capital letters are ordered by those letters. |
| JsonBody.LessIgnoringCasePrefix | Sources/byou/TencentTranslationManager.swift:81 | Ignoring case, a key that is a proper prefix of another sorts first. |
| JsonBody.LessTransitive | Sources/byou/TencentTranslationManager.swift:81 | The key order is transitive. |
| JsonBody.LessTotal | Sources/byou/TencentTranslationManager.swift:81 | The key order is total on distinct keys. |
| JsonBody.SortedUnique | Sources/byou/TencentTranslationManager.swift:81 | Two strictly sorted lists with the same members are equal. |
| JsonBody.SortByKeyIgnoresOrder | Sources/byou/TencentTranslationManager.swift:81 | The sorted member list depends only on which members the dictionary holds, not on its iteration order. |
| JsonBody.SerializeIgnoresOrder | Sources/byou/TencentTranslationManager.swift:81 | The body bytes are the same whatever order the dictionary iterates in. |
| Calendar.DateOfDay | Sources/byou/TencentTranslationManager.swift:129-135 | The calendar date of a day number is a real Gregorian date, and its day number is the input. |
| Calendar.DayNumberInjective | Sources/byou/TencentTranslationManager.swift:129-135 | Distinct dates have distinct day numbers. |
| Calendar.DateOfDayNumber | Sources/byou/TencentTranslationManager.swift:129-135 | Every date from 1970-01-01 on is the date of its own day number: the two are inverse. |
| Calendar.YearText | Sources/byou/TencentTranslationManager.swift:133 | "yyyy" is at least four digits. |
| Calendar.DateStringReadsBack | Sources/byou/TencentTranslationManager.swift:129-135 | Up to year 9999 the date text has ten characters, with dashes at positions 4 and 7. Its three fields read back as the UTC date of the timestamp. |
| Calendar.DateStringIdentifiesDay | Sources/byou/TencentTranslationManager.swift:129-135 | Equal date texts mean the same UTC day. |
| ConfigManager.Validate | Sources/byou/ConfigManager.swift:54-72 | Valid exactly when both values have at least 10 characters, and then there is no message. Each of the four messages is given exactly under its own condition, in the order of the guards. |
| ConfigManager.ConfigStore.Snapshot | Sources/byou/ConfigManager.swift:21-50 | A written key reads as the value stored under it; an unwritten one reads as "" for the id and key and "ap-chengdu" for the region. The store is configured exactly when non-empty values are stored under both the id key and the secret key. |
| ConfigManager.ConfigStore.SetSecretId | Sources/byou/ConfigManager.swift:25-27 | Writes only the secret-id key. The id reads back as written; the key and region are unchanged. |
| ConfigManager.ConfigStore.SetSecretKey | Sources/byou/ConfigManager.swift:34-36 | Writes only the secret-key key. The key reads back as written; the id and region are unchanged. |
| ConfigManager.ConfigStore.SetRegion | Sources/byou/ConfigManager.swift:43-45 | Writes only the region key. The region reads back as written; the id and key are unchanged. |
| ConfigManager.ConfigStore.ResetTencentCredentials | Sources/byou/ConfigManager.swift:76-80 | Afterwards the store reads as ("", "", "ap-chengdu") and is not configured. The three keys are present; every other key keeps its value. |
| ConfigManager.ConfigStore.ResetToDefaults | Sources/byou/ConfigManager.swift:82-84 | The same new state as resetting the credentials. |
| ConfigManager.FreshStoreDefaults | Sources/byou/ConfigManager.swift:21-50 | A store never written reads as empty credentials in "ap-chengdu", and is not configured. |
| Tc3Signer.Parameters | Sources/byou/TencentTranslationManager.swift:151-156 | The four parameter keys are distinct. |
| Tc3Signer.KeysAscending | Sources/byou/TencentTranslationManager.swift:151-156 | ProjectId < Source < SourceText < Target in character order. |
| Tc3Signer.KeysAscendingIgnoringCase | Sources/byou/TencentTranslationManager.swift:151-156 | The four keys ascend in the same order when case is ignored. |
| Tc3Signer.ParametersSortedOrder | Sources/byou/TencentTranslationManager.swift:151-156 | With sorted keys the members come out as ProjectId = 0, Source, SourceText, Target. |
| Tc3Signer.RequestBodyText | Sources/byou/TencentTranslationManager.swift:81 | The exact compact JSON text of the body: keys ascending, ProjectId as the number 0, and each string quoted after escaping. |
| Tc3Signer.ActionLowered | Sources/byou/TencentTranslationManager.swift:78 | "TextTranslate" lower-cased is "texttranslate". |
| Tc3Signer.CanonicalHeadersText | Sources/byou/TencentTranslationManager.swift:77-78 | The header block is the content-type, host and x-tc-action lines, each ending in a newline, with the action lower-cased. |
| Tc3Signer.CanonicalRequestText | Sources/byou/TencentTranslationManager.swift:74-91 | The canonical request is, line by line: POST, /, an empty query, the header block and its blank line, the signed header names, and the 64 lowercase hex digits of SHA-256(body). |
| Tc3Signer.CanonicalRequestCommitsToBody | Sources/byou/TencentTranslationManager.swift:81-91 | Equal canonical requests mean equal body digests. |
| Tc3Signer.StringToSignTimestamp | Sources/byou/TencentTranslationManager.swift:96-101 | The second line of the string to sign starts at offset 16 and reads back as the timestamp. |
| Tc3Signer.CredentialScopeText | Sources/byou/TencentTranslationManager.swift:94 | The scope is date + "/tmt/tc3_request". |
| Tc3Signer.Signature | Sources/byou/TencentTranslationManager.swift:113-114 | The signature is 64 lowercase hex digits. |
| Tc3Signer.SignatureChain | Sources/byou/TencentTranslationManager.swift:103-114 | The signature decodes to the fourth HMAC of the chain. Each key is the raw 32-byte output of the previous HMAC, starting from "TC3" + secretKey over the date, then "tmt", then "tc3_request". |
| Tc3Signer.AuthorizationText | Sources/byou/TencentTranslationManager.swift:116 | The Authorization value names the algorithm, secretId/scope, the signed header names and the signature. |
| Tc3Signer.Headers | Sources/byou/TencentTranslationManager.swift:118-126 | The dictionary's keys are exactly the seven header names. |
| Tc3Signer.HeaderNamesCount | Sources/byou/TencentTranslationManager.swift:118-126 | The seven header names are distinct. |
| Tc3Signer.HeadersShape | Sources/byou/TencentTranslationManager.swift:118-126 | Exactly seven headers. Four are the fixed constants; Authorization, X-TC-Timestamp and X-TC-Region are as given. |
| Tc3Signer.GenerateTc3Signature | Sources/byou/TencentTranslationManager.swift:71-127 | The signed headers have exactly the seven names. |
| Tc3Signer.SignedHeaders | Sources/byou/TencentTranslationManager.swift:71-127 | X-TC-Timestamp reads back as the timestamp that was signed, and X-TC-Region is the configured region. Authorization is built from the secret id, the timestamp's UTC date and the signature of that request's string to sign. |
| Tc3Signer.SignatureIgnoresParameterOrder | Sources/byou/TencentTranslationManager.swift:81 | The headers do not depend on the order in which the parameter dictionary is iterated. |
| TranslationClient.ErrorDescription | Sources/byou/TencentTranslationManager.swift:273-288 | An HTTP error's description starts with "HTTP error: ". |
| TranslationClient.HttpErrorDescriptionReadsBack | Sources/byou/TencentTranslationManager.swift:281-282 | The rest of an HTTP error's description reads back as its status code. |
| TranslationClient.BuildRequest | Sources/byou/TencentTranslationManager.swift:160-163 | A POST to https://tmt.tencentcloudapi.com carrying exactly the seven signed headers. |
| TranslationClient.RequestsAtTwoReadings | Sources/byou/TencentTranslationManager.swift:149-163 | Requests built at two clock readings share endpoint, method and body. The timestamp header is the reading in decimal and reads back as it, so different readings give different timestamps. |
| TranslationClient.AttemptsAreReSigned | Sources/byou/TencentTranslationManager.swift:149-163 | Every attempt POSTs the same body to the same endpoint with the seven headers. Attempt `i`'s timestamp header reads back as `clock(i)`. Attempts at the same reading are identical, and attempts at different readings carry different timestamps. |
| TranslationClient.BodySentIsBodySigned | Sources/byou/TencentTranslationManager.swift:158-163 | The body sent is the body whose digest the Authorization header signs, and it is the sorted-key JSON of the four parameters. |
| TranslationClient.Classify | Sources/byou/TencentTranslationManager.swift:165-184 | Success exactly for status 200 with a body that decodes as the success schema, and then it carries that TargetText. |
| TranslationClient.ClassifyStatusFirst | Sources/byou/TencentTranslationManager.swift:171-173 | Any status other than 200 is an HTTP error with that status, whatever the body. |
| TranslationClient.ClassifyApiError | Sources/byou/TencentTranslationManager.swift:175-182 | An API error exactly for a 200 body that fails the success schema and decodes as the error schema, with its code and message. |
| TranslationClient.ClassifyInvalidResponse | Sources/byou/TencentTranslationManager.swift:167-183 | An invalid response exactly for a non-HTTP response, or a 200 body that matches neither schema. |
| TranslationClient.ClassifyRetryable | Sources/byou/TencentTranslationManager.swift:206-217 | An attempt's outcome is retried exactly when the server answered with status 500 or above, or 429. It does not depend on the attempt number. |
| TranslationClient.ClassifyNeverPrecondition | Sources/byou/TencentTranslationManager.swift:265-271 | No attempt yields credentialsNotConfigured, textTooLong or requestFailed. |
| TranslationClient.PerformTranslation | Sources/byou/TencentTranslationManager.swift:51-69 | One to three attempts. Attempt `i` sends `signed(i)`, and every attempt before the last got a retryable failure. The outcome is the last attempt's classification. A retryable outcome means three attempts were made, and `requestFailed` is never the result. The delays are 1, 2, … seconds, one per retry. |
| TranslationClient.Translate | Sources/byou/TencentTranslationManager.swift:23-41 | Nothing is sent and the result is `nil` when the secret id or key is empty or the text is longer than 2000. Otherwise one to three requests, the freshly signed attempts, where every attempt before the last got a retryable failure. A retryable last outcome means three requests were sent. The result is the last attempt's translation, or `nil` for any failure. |
| TranslationClient.FailureMessage | Sources/byou/TencentTranslationManager.swift:47 | The placeholder is the fixed prefix, the input verbatim, and a closing quote. |
| TranslationClient.TranslateAndFormat | Sources/byou/TencentTranslationManager.swift:43-49 | The same requests as `translate`: none when unconfigured or over-long; otherwise one to three freshly signed attempts, each before the last retryable, and three when the last is retryable. The translation verbatim when the last attempt succeeded; otherwise, including when nothing is sent, the placeholder quoting the input. |
| TranslationClient.AlwaysUnavailable | Sources/byou/TencentTranslationManager.swift:51-69 | Against a server that always answers 503: three attempts, sleeps of 1 and 2 seconds, and the 503 as the outcome. |
| TranslationClient.UnconfiguredSendsNothing | Sources/byou/TencentTranslationManager.swift:24-27 | An empty stored id or key gives `nil` with no request sent. |
| TranslationClient.FirstAttemptSucceeds | Sources/byou/TencentTranslationManager.swift:55-57 | A success body on the first attempt gives its TargetText after exactly one request. |
| TranslationClient.ApiErrorIsFinal | Sources/byou/TencentTranslationManager.swift:175-182 | A 200 carrying an API error gives `nil` after exactly one request. |
| TranslationClient.OverLongTextSendsNothing | Sources/byou/TencentTranslationManager.swift:29-32 | A text of 2001 characters gives `nil` with no request sent. |
| TranslationClient.LimitLengthTextIsSent | Sources/byou/TencentTranslationManager.swift:29 | A text of exactly 2000 characters is sent when the store is configured. |
| TranslationClient.FailureQuotesInput | Sources/byou/TencentTranslationManager.swift:47 | When every attempt fails, the displayed text contains the input verbatim after the prefix. |
| Popover.IndexFrom | Sources/byou/PopoverViewController.swift:146 | The leftmost occurrence of the separator at or after a position, or none at all. |
| Popover.Components | Sources/byou/PopoverViewController.swift:146 | Joining the components with the separator gives back the string, and no component contains it. There are at least two exactly when the string contains it. |
| Popover.SplitContent | Sources/byou/PopoverViewController.swift:146-153 | Without a separator: the whole content and "". With one: the text before the leftmost separator, and the text from just after it to the next separator or the end. |
| Popover.FirstComponent | Sources/byou/PopoverViewController.swift:148 | The first component is the text before the leftmost separator, or everything. |
| Popover.SplitRoundTrip | Sources/byou/PopoverViewController.swift:143-154 | For `b` without a separator, splitting `a + separator + b` gives `(a, b)` exactly when `a + "\n\n---\n"` holds no separator. |
| Popover.SplitRoundTripPlain | Sources/byou/PopoverViewController.swift:143-154 | The round trip holds when `a` and `b` hold no separator and `a` does not end in a newline or a dash. |
| Popover.SplitRoundTripCounterexample | Sources/byou/PopoverViewController.swift:146-149 | "\n\n---" and "x" hold no separator, yet splitting "\n\n---" + separator + "x" gives ("", "---\n\nx"). |
| Popover.PopoverContent.SetOriginalText | Sources/byou/PopoverViewController.swift:135-137 | Only the original slot changes, to the given text. |
| Popover.PopoverContent.SetTranslatedText | Sources/byou/PopoverViewController.swift:139-141 | Only the translated slot changes, to the given text. |
| Popover.PopoverContent.SetContent | Sources/byou/PopoverViewController.swift:143-154 | The slots become the split of the content, and neither contains the separator. |
| Popover.PopoverContent.ClearContent | Sources/byou/PopoverViewController.swift:156-160 | Both slots become empty. |
| Settings.Trimming | Sources/byou/SettingsViewController.swift:515 | The trimmed text neither starts nor ends with a character of the trimmed set. |
| Settings.TrimmingIsSlice | Sources/byou/SettingsViewController.swift:515 | The result is the contiguous slice after the leading run, and everything removed on either side is in the set. |
| Settings.TrimmingIdempotent | Sources/byou/SettingsViewController.swift:515 | Trimming twice is trimming once. |
| Settings.TrimmingEmpty | Sources/byou/SettingsViewController.swift:515-516 | The result is empty exactly when every character is in the set. |
| Settings.TrimWhitespace | Sources/byou/SettingsViewController.swift:515-516 | The stored id or key neither starts nor ends with whitespace. |
| Settings.SaveConfiguration | Sources/byou/SettingsViewController.swift:514-521 | Writes the three keys: id and key trimmed of whitespace, the region as entered. The store is then configured exactly when both fields hold a non-whitespace character. |
| Settings.KeyLabel | Sources/byou/SettingsViewController.swift:503-510 | No listed key code is labelled "?". |
| Settings.KeyCharFor | Sources/byou/SettingsViewController.swift:502-512 | One character, which is "?" exactly when the key code is not in the table. |
| Settings.KeyCharForListed | Sources/byou/SettingsViewController.swift:503-510 | Codes 1 and 7 show S and X; codes 47 and 65 both show ".". |
| Settings.KeyCharForUnlisted | Sources/byou/SettingsViewController.swift:511 | Codes 10, 36 and 66, missing from the table, show "?". |
| Settings.GlyphsForOrdered | Sources/byou/SettingsViewController.swift:484-495 | For any combination of flags the glyphs are modifier glyphs in strictly increasing display rank. |
| Settings.GlyphsForMembers | Sources/byou/SettingsViewController.swift:484-495 | Each glyph is present exactly when its flag is set. |
| Settings.ModifierGlyphsOrdered | Sources/byou/SettingsViewController.swift:483-495 | For a raw modifier mask, each glyph appears exactly when its bit is set, at most once, in the order ⌘ ⌥ ⌃ ⇧. |
| Settings.HotkeyStringFor | Sources/byou/SettingsViewController.swift:480-500 | The modifier glyphs followed by the key's label. The label is always the last character, and what precedes it is exactly the glyphs. |
| Settings.HexValue | Sources/byou/SettingsViewController.swift:583 | The value of `n` hex digits is below 16^n. |
| Settings.ScanHex | Sources/byou/SettingsViewController.swift:583 | The scanned value is below 16^(length of the text). |
| Settings.HexValueAppend | Sources/byou/SettingsViewController.swift:583 | The value of digits `x` followed by `y` is value(x) · 16^\|y\| + value(y). |
| Settings.HexValueOfHex | Sources/byou/SettingsViewController.swift:583 | Scanning the lowercase hex of some bytes gives the number they denote, most significant first. |
| Settings.ColorChannels | Sources/byou/SettingsViewController.swift:580-594 | Every channel is at most 255. The channel values for 3, 6 and 8 digits of either case are stated by `ColorDigits3`, `ColorDigits6` and `ColorDigits8`. |
| Settings.ColorFallback | Sources/byou/SettingsViewController.swift:592-593 | A trimmed length other than 3, 6 or 8 gives (a, r, g, b) = (1, 1, 1, 0). |
| Settings.ColorRoundTrip3 | Sources/byou/SettingsViewController.swift:586-587 | "#rgb" gives each digit's value times 17, fully opaque. |
| Settings.ColorRoundTrip6 | Sources/byou/SettingsViewController.swift:588-589 | "#rrggbb" gives back the three bytes, fully opaque. |
| Settings.ColorRoundTrip8 | Sources/byou/SettingsViewController.swift:590-591 | "#aarrggbb" gives back the four bytes, alpha first. |
| Settings.HexDigitValueIgnoresCase | Sources/byou/SettingsViewController.swift:583 | An upper-case hex letter is worth the same as its lower-case form. |
| Settings.DigitsIgnoreCase | Sources/byou/SettingsViewController.swift:583 | Lower-casing hex digits keeps each a hex digit of the same value. |
| Settings.ColorDigits3 | Sources/byou/SettingsViewController.swift:580-587 | For any three hex digits of either case, "#rgb" gives each digit's value times 17, fully opaque. |
| Settings.HexValuePairs3 | Sources/byou/SettingsViewController.swift:583 | Six hex digits are worth their three pairs, most significant first. |
| Settings.HexValuePairs4 | Sources/byou/SettingsViewController.swift:583 | Eight hex digits are worth their four pairs, each pair sixteen times its first digit plus its second. |
| Settings.ColorDigits6 | Sources/byou/SettingsViewController.swift:580-589 | For any six hex digits of either case, "#rrggbb" gives each channel as the value of its two digits, fully opaque. |
| Settings.ColorDigits8 | Sources/byou/SettingsViewController.swift:580-591 | For any eight hex digits of either case, "#aarrggbb" gives each channel as the value of its two digits, alpha first. |
| Settings.ColorIgnoresCase | Sources/byou/SettingsViewController.swift:580-591 | A 3-, 6- or 8-digit colour reads the same in upper and lower case. |
| Settings.SavedStatusGreen | Sources/byou/SettingsViewController.swift:525 | "#34C759", as the app writes it, gives (255, 0x34, 0xC7, 0x59). |

## Left out

- Network I/O, `Task.sleep`, task cancellation and `async` scheduling: the network and the clock are parameters, and the sleeps are returned as a list of delays in seconds.
- SHA-256, HMAC-SHA256 and JSON string escaping are not computed. They are total functions passed in `Primitives`, with digests typed as 32 bytes.
- `JSONDecoder`: a body is given by its decoding under the two schemas, not by its bytes.
- `DebugLog` messages are not modelled.
- `DateFormatter`: the model uses the proleptic Gregorian calendar counted from 1970-01-01 with a non-negative timestamp, and ASCII digits. The Swift code sets only the UTC time zone, so the formatter follows the user's calendar and locale; a non-Gregorian calendar or a locale with other digits is not modelled. Timestamps before 1970 and years after 9999 are not modelled.
- JsonBody.SortByKey compares keys by character code. Foundation's `.sortedKeys` comparison also ignores case and reads digit runs as numbers. The four request keys contain no digits and ascend in the same order either way (`Tc3Signer.KeysAscending`, `Tc3Signer.KeysAscendingIgnoringCase`), so the request body is the same; for other keys the two orders can differ.
- `String.count` counts grapheme clusters; the model counts Unicode scalars. The two differ for every character made of several scalars: a CR LF pair, a letter with combining marks, a flag or an emoji sequence. The model counts such text as longer than Swift does, so `TranslationClient.Translate` refuses some texts of at most 2000 characters that the app sends (1000 copies of "a\r\n" is 2000 characters but 3000 scalars).
- TranslationClient.Translate reads the three credential values once per call, as `Snapshot`. The Swift code reads the shared store at each use, so a concurrent write between reads is not modelled.
- Settings.ColorChannels trims only ASCII letters and digits. Non-ASCII letters and digits, which `CharacterSet.alphanumerics` also keeps, are treated as characters to trim.
- Settings.ColorChannels does not model `scanHexInt64` overflowing 64 bits. The channels are read only for 3, 6 or 8 digits, which never overflow.
- Settings.ColorChannels returns the integer channels. The `CGFloat` division by 255 and the `NSColor` itself are left out.
- Settings.TrimWhitespace uses tab and the Unicode space separators for `CharacterSet.whitespaces`, from Unicode's tables rather than Foundation's.
- Settings.KeyLabel: the `keyMap` dictionary literal is written as a `match` over key codes. `UInt32` key codes are natural numbers.
- The rest of `SettingsViewController` is not modelled: the view layout, `updateStatus`, `testConnection`, `closeWindow`, `reloadHotkeys` and hotkey recording. These are UI, or calls into `HotkeyManager`, which is not part of this model.
- The rest of `PopoverViewController` is not modelled: the view layout and the text views, apart from the two strings they hold.
- `hmacSha256(secretKey:data:)` and `sha256Hex`: the first has no caller. The second is `Hex(sha256(Utf8(·)))`, written inline in `StringToSign`.
