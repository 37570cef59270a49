# RESTAPI web-service client and log formatters, modelled in Dafny

This project models four PHP classes of the RESTAPI application:

- `WSClient`, the client of the coreBOS/vtiger web service;
- `ErrorHandler`, a Laminas Log formatter;
- `ExceptionHandler`, a Laminas Log formatter;
- `ChromePhp`, a Laminas Log writer.

Everything is written as pure functions over immutable data, with the properties proved.

- `strings.dfy` (module `Strings`): the PHP string built-ins the classes rely on. These are `trim`, `strrpos`, `stripos`, `strtoupper`, `explode`, `implode`, `str_replace` and integer-to-string conversion.
- `values.dfy` (module `Values`): PHP values and PHP's ordered arrays. An array is an association list in insertion order with string keys. It covers assignment (`$a[$k] = $v`), `array_merge`, `isset`, `empty` and string conversion.
- `log_event.dfy` (module `LogEvent`): the timestamp step both formatters share. A `DateTime` under `timestamp` is replaced by its rendering in the configured date format.
- `wsclient.dfy` (module `WSClient`): every public operation of the client.
  - The HTTP transport is an oracle. Each operation takes the decoded server response as a parameter. It returns a `Reply`: the requests it sent, the client state afterwards, and its result.
  - `md5`, `hash` and `json_encode` are parameters too, gathered in a `Foreign` record.
  - The one-shot `cbwsOptions` array is attached to the next request that consumes it, then cleared.
- `error_handler.dfy` (module `ErrorHandler`): flattening a nested event into `name => value` replacements, and the placeholder substitution of `format`.
  - Templates are also described as a sequence of text pieces and `%name%` placeholders (`Piece`).
  - The substitution loop is proved to fill each placeholder with its replacement. The template must have no `%` outside placeholders, and a space must follow every placeholder. No flattened name may hold a space or `%`, and no flattened value may hold `%`.
  - `CrossingPlaceholder` shows how the loop goes wrong without the separation, and `PlaceholderInsideValue` how it goes wrong when a value holds a placeholder.
- `exception_handler.dfy` (module `ExceptionHandler`): the header line and the six-line-per-frame trace block, `getType` with PHP's loose `switch`, and the date-format setting.
- `chrome_php.dfy` (module `ChromePhp`): the constructor's argument checks, `getChromePhp`/`setChromePhp`, and `doWrite`.
  - `doWrite`'s `switch` is a cascade of PHP loose comparisons against the eight syslog severities of section 6.2.1 of RFC 5424. It is held to a range table (`LevelChannel`).

PHP's loose comparisons are kept as the code writes them, not corrected:

- `strrpos(...) != strlen(...) - 1` in `getWebServiceURL` and `doQuery`. A one-character URL or query without the separator gets no separator.
- `switch` in `getType`. `true` matches `"::"`.
- `switch` in `doWrite`. `null` and `false` match `EMERG`; a decimal string matches its integer.

Integers compare by PHP 8 rules: an integer never loosely equals a non-numeric string.

## Model

| member | source | states |
|---|---|---|
| Values.Put | app/src/App/Utils/WSClient.php:375 | assigning `$a[$k] = $v` makes `k` read `v`, leaves every other key's value as it was, keeps an existing key in place and appends a new one at the end |
| Values.PutUnique | app/src/App/Utils/WSClient.php:375 | assignment never creates a duplicate key |
| Values.Merge | app/vendor/laminas/laminas-log/src/Formatter/ErrorHandler.php:63 | after `array_merge($acc, $xs)` a key of `xs` reads its value in `xs` and any other key reads its value in `acc`; distinct keys stay distinct |
| Values.LookupAppend | app/vendor/laminas/laminas-log/src/Formatter/ErrorHandler.php:63 | reading a key from two arrays laid end to end finds it in the first when the first has it, else in the second |
| Values.Index | app/vendor/laminas/laminas-log/src/Formatter/ExceptionHandler.php:35-37 | `$v[$k]` on an array reads the key's value, or `null` when the key is missing; on `null`, a boolean or an integer it reads `null`; strings and objects are read the same way, where PHP throws (see Left out) |
| Values.Isset | app/src/App/Utils/WSClient.php:571 | `isset($v[$k])` holds exactly when `v` is an array whose key `k` is present with a non-null value |
| Values.Empty | app/src/App/Utils/WSClient.php:342 | PHP's `empty`: `null`, `false`, `0`, `""`, `"0"` and the empty array; its relation to the string form is stated by `Values.ToStr` |
| Values.ToStr | app/vendor/laminas/laminas-log/src/Formatter/ExceptionHandler.php:35-37 | PHP's string conversion: a string is itself, and a scalar is falsy (`empty`) exactly when its text is `""` or `"0"` |
| Strings.Trim | app/src/App/Utils/WSClient.php:235 | `trim` removes only blanks (space, tab, newline, carriage return, NUL, vertical tab) from the two ends, and what remains neither starts nor ends with one |
| Strings.TrimOfTrimmed | app/src/App/Utils/WSClient.php:258 | trimming a string with no blank at either end gives it back |
| Strings.LastIndexOf | app/src/App/Utils/WSClient.php:236 | `strrpos` with a one-character needle is "not found" exactly when the character is absent; otherwise it is the index of the last occurrence |
| Strings.LooseSuffixTest | app/src/App/Utils/WSClient.php:72 | the loose test `strrpos($s, $c) != strlen($s) - 1` holds exactly when `s` does not end in `c` and is not a one-character string without `c` |
| Strings.ContainsIgnoringCaseSuffix | app/src/App/Utils/WSClient.php:71 | `stripos` finds a string in any string that ends with it |
| Strings.Explode | app/src/App/Utils/WSClient.php:84 | `explode` yields at least one part, no part holds the separator, and there are two or more parts exactly when the separator occurs |
| Strings.JoinExplode | app/src/App/Utils/WSClient.php:84 | gluing the parts of `explode` back with the separator restores the string |
| Strings.Join | app/src/App/Utils/WSClient.php:472 | `implode`: the parts with the separator between each two; `Strings.JoinExplode` and `Strings.ExplodeJoin` state it as the inverse of `explode` |
| Strings.ExplodeJoin | app/src/App/Utils/WSClient.php:472 | exploding an `implode` of separator-free parts restores the parts |
| Strings.Upper | app/src/App/Utils/WSClient.php:582 | `strtoupper` keeps the length and upper-cases each ASCII letter, nothing else |
| Strings.ReplaceAll | app/vendor/laminas/laminas-log/src/Formatter/ErrorHandler.php:32 | `str_replace` leaves a string without the needle unchanged |
| Strings.ReplaceAllSkips | app/vendor/laminas/laminas-log/src/Formatter/ErrorHandler.php:32 | text that lacks the needle's first character passes through `str_replace` untouched, whatever follows it |
| LogEvent.Stamp | app/vendor/laminas/laminas-log/src/Formatter/ErrorHandler.php:27-29 | a `DateTime` timestamp is replaced in place by its rendering in the configured format, all other keys keep their values and the key order is kept; any other event is untouched (the same step is at lines 31-33 of ExceptionHandler.php) |
| WSClient.WebServiceUrl | app/src/App/Utils/WSClient.php:70-78 | a URL already naming `webservice.php` in any case is kept; otherwise the script is appended, with a `/` in between exactly when the URL neither ends in `/` nor has one character |
| WSClient.WebServiceUrlNamesService | app/src/App/Utils/WSClient.php:70-78 | the resulting URL always names the service script |
| WSClient.WebServiceUrlIdempotent | app/src/App/Utils/WSClient.php:70-78 | applying the URL rule twice changes nothing more |
| WSClient.OneCharacterUrlGetsNoSlash | app/src/App/Utils/WSClient.php:72 | the loose comparison appends no `/` to a one-character URL |
| WSClient.NewClient | app/src/App/Utils/WSClient.php:16-51 | a new client's URL is `getWebServiceURL` of the given URL; every credential, the server and expiry times and the last error are `false`, entity id `''`, language `en` and no options |
| WSClient.RecordId | app/src/App/Utils/WSClient.php:83-86 | the record id is missing (PHP's undefined offset reads `null`) exactly when the id has no `x`, and never contains an `x` |
| WSClient.RecordIdOfComposite | app/src/App/Utils/WSClient.php:83-86 | for a `<module>x<local>` id the record id is the local part |
| WSClient.RecordIdIsSecondSegment | app/src/App/Utils/WSClient.php:83-86 | the record id is the text right after the first `x`, up to the next `x` or the end |
| WSClient.HasError | app/src/App/Utils/WSClient.php:91-105 | a response is an error unless it is an array whose `success` is exactly `true`; the last error is then `false`, else the response's `error` when set, else the whole response; nothing else changes |
| WSClient.LastError | app/src/App/Utils/WSClient.php:103-105 | `lastError()` reads what the last checked response left: `false` after success, else its `error` or the whole response, as `WSClient.HasError` states |
| WSClient.LooseSuccessIsError | app/src/App/Utils/WSClient.php:92 | the strict `=== true` makes `"true"` and `1` count as errors |
| WSClient.FailureEnvelopeRecorded | app/src/App/Utils/WSClient.php:96 | a failure response with an `error` is reported, and that error becomes the last error |
| WSClient.SuccessEnvelopeClears | app/src/App/Utils/WSClient.php:92-94 | a success response is not an error and clears the last error |
| WSClient.Send | app/src/App/Utils/WSClient.php:356-367 | a plain operation sends one request, returns `result` on success and `false` on error, and changes only the last error |
| WSClient.SendReturnsPayload | app/src/App/Utils/WSClient.php:366 | on success the caller gets the server's `result` unchanged |
| WSClient.SendReportsError | app/src/App/Utils/WSClient.php:363-365 | on error the caller gets `false` and `lastError()` gives the server's error |
| WSClient.WithOptions | app/src/App/Utils/WSClient.php:384-387 | pending options are attached under `cbwsOptions`, all other parameters are unchanged, and no options means an unchanged request |
| WSClient.SendWithOptions | app/src/App/Utils/WSClient.php:384-392 | a consuming operation sends the request with the pending options and clears them, whatever the response; the last error becomes `false` on success and the response's error otherwise, and no other client field changes besides the cleared options |
| WSClient.Challenge | app/src/App/Utils/WSClient.php:111-126 | `getchallenge` is sent by GET; on success the server time, expiry time and token are stored; on error only the last error changes |
| WSClient.LoginAccessKey | app/src/App/Utils/WSClient.php:140 | the access key is token plus key when logging in with a password, else its `md5` |
| WSClient.Login | app/src/App/Utils/WSClient.php:131-153 | a failed challenge stops after one request; otherwise login is posted with the derived key. It succeeds exactly when both responses do. After a good challenge the client holds its time, expiry and token; a rejected login then leaves the login's error as last error and nothing else changed, a good one stores session, user id, user name and key and clears the error; options, URL, entity and language are kept |
| WSClient.PortalDigest | app/src/App/Utils/WSClient.php:162-176 | `sha256`, `sha512` and `plaintext` select their digest; any other name, `md5` included, selects `md5` |
| WSClient.LoginPortal | app/src/App/Utils/WSClient.php:158-195 | after the challenge, `loginPortal` is sent by GET with the digest of token plus password and the entity. A rejected login leaves the challenge's time, expiry and token and the login's error; a good one also takes session, user id, name, key, contact id and language from the response's `user` and clears the error; options and URL are kept |
| WSClient.LoginSession | app/src/App/Utils/WSClient.php:200-213 | after the challenge, `loginSession` is sent with the `sha512` of token plus key; the result is whether both responses succeeded. The client keeps the challenge's time, expiry and token and records the login's error or clears it; no credential, option, entity or language changes |
| WSClient.Logout | app/src/App/Utils/WSClient.php:218-228 | `logout` is posted with the session, and the server's `result` or `false` is returned; the last error becomes `false` on success and the response's error otherwise, and no other client field changes |
| WSClient.NormalizeQuery | app/src/App/Utils/WSClient.php:235-238 | the query is trimmed, and `;` is appended exactly when the trimmed text neither ends in `;` nor is one character without `;` |
| WSClient.NormalizeQueryIdempotent | app/src/App/Utils/WSClient.php:235-238 | normalising a normalised query changes nothing |
| WSClient.OneCharacterQueryGetsNoTerminator | app/src/App/Utils/WSClient.php:236 | the loose comparison leaves a one-character query without `;` |
| WSClient.BlankQueryBecomesTerminator | app/src/App/Utils/WSClient.php:235-238 | a blank query becomes `;` |
| WSClient.Query | app/src/App/Utils/WSClient.php:233-251 | `query` is sent by GET with the session and the normalised query; the result is the server's `result` or `false`; the last error becomes `false` on success and the response's error otherwise, and no other client field changes |
| WSClient.QueryWithTotal | app/src/App/Utils/WSClient.php:256-277 | on success the result is an array of exactly `result` and `totalrows`, taken from `result` and from `moreinfo.totalrows`; on error `false`; the last error becomes `false` on success and the response's error otherwise, and no other client field changes |
| WSClient.ResultColumns | app/src/App/Utils/WSClient.php:282-291 | an empty result has no columns; otherwise the columns are the keys of the first row in the row's order |
| WSClient.LastNamed | app/src/App/Utils/WSClient.php:312-314 | a module name is found for a key exactly when some name converts to that key, and the one found does |
| WSClient.KeyOf | app/src/App/Utils/WSClient.php:313 | the array key a module name becomes: its string form, except that `false` becomes `"0"` |
| WSClient.ModuleMap | app/src/App/Utils/WSClient.php:311-315 | the module map has distinct keys |
| WSClient.ModuleMapLookup | app/src/App/Utils/WSClient.php:311-315 | a key of the module map reads `['name' => n]` for the last name `n` converting to it, and is absent when no name does |
| WSClient.ModuleMapOfDistinctNames | app/src/App/Utils/WSClient.php:311-315 | for distinct string names the map's keys are the names in order |
| WSClient.ListTypes | app/src/App/Utils/WSClient.php:296-316 | `listtypes` is sent with the field type list (JSON-encoded when it is an array); on success the result is the module map of `result.types`, empty when that is not an array; on error `false`; the last error becomes `false` on success and the response's error otherwise, and no other client field changes |
| WSClient.FillOwner | app/src/App/Utils/WSClient.php:374-376 | a record without a set `assigned_user_id` gets the logged-in user's id; a record with one is unchanged; no other field changes |
| WSClient.ElementParamsCarryOwner | app/src/App/Utils/WSClient.php:378-383 | the request names the operation and module and carries the JSON of the record with its owner filled in |
| WSClient.Create | app/src/App/Utils/WSClient.php:372-393 | `create` posts the module and the owner-filled record with the pending options, clears them, and returns `result` or `false`; the last error becomes `false` on success and the response's error otherwise, and no other client field changes besides the cleared options |
| WSClient.Update | app/src/App/Utils/WSClient.php:395-416 | `update` does the same with operation `update`; the last error becomes `false` on success and the response's error otherwise, and no other client field changes besides the cleared options |
| WSClient.Revise | app/src/App/Utils/WSClient.php:418-439 | `revise` does the same with operation `revise`; the last error becomes `false` on success and the response's error otherwise, and no other client field changes besides the cleared options |
| WSClient.Upsert | app/src/App/Utils/WSClient.php:460-483 | `upsert` also sends the search fields and the comma-joined update field list, with the pending options; the last error becomes `false` on success and the response's error otherwise, and no other client field changes besides the cleared options |
| WSClient.UpsertFieldListRoundTrip | app/src/App/Utils/WSClient.php:472 | a comma-free field list survives the `implode` and the server's split |
| WSClient.ValidationContext | app/src/App/Utils/WSClient.php:335-336 | an empty `module` or `record` in the record information is filled from the arguments, a non-empty one is kept, and nothing else changes |
| WSClient.ValidateInformation | app/src/App/Utils/WSClient.php:334-351 | `ValidateInformation` posts the JSON of that context with the pending options and clears them; the last error becomes `false` on success and the response's error otherwise, and no other client field changes besides the cleared options |
| WSClient.Describe | app/src/App/Utils/WSClient.php:321-332 | `describe` is sent by GET with the module; the result is `result` or `false`; the last error becomes `false` on success and the response's error otherwise, and no other client field changes |
| WSClient.Retrieve | app/src/App/Utils/WSClient.php:356-367 | `retrieve` is sent by GET with the record id; the last error becomes `false` on success and the response's error otherwise, and no other client field changes |
| WSClient.Delete | app/src/App/Utils/WSClient.php:444-455 | `delete` is posted with the record id and takes no options; the last error becomes `false` on success and the response's error otherwise, and no other client field changes |
| WSClient.MassUpsert | app/src/App/Utils/WSClient.php:488-503 | `MassCreate` posts the JSON of the elements with the pending options and clears them; the last error becomes `false` on success and the response's error otherwise, and no other client field changes besides the cleared options |
| WSClient.MassRetrieve | app/src/App/Utils/WSClient.php:508-519 | `MassRetrieve` posts the ids and takes no options; the last error becomes `false` on success and the response's error otherwise, and no other client field changes |
| WSClient.MassUpdate | app/src/App/Utils/WSClient.php:524-539 | `MassUpdate` posts the JSON of the elements with the pending options and clears them; the last error becomes `false` on success and the response's error otherwise, and no other client field changes besides the cleared options |
| WSClient.MassDelete | app/src/App/Utils/WSClient.php:544-555 | `MassDelete` posts the ids and takes no options; the last error becomes `false` on success and the response's error otherwise, and no other client field changes |
| WSClient.GetRelatedRecords | app/src/App/Utils/WSClient.php:597-611 | `getRelatedRecords` posts record, module, related module and query parameters; the result is `result.records` or `false`; the last error becomes `false` on success and the response's error otherwise, and no other client field changes |
| WSClient.SetRelated | app/src/App/Utils/WSClient.php:618-630 | `SetRelation` posts the record id and the JSON of the ids to relate; the last error becomes `false` on success and the response's error otherwise, and no other client field changes |
| WSClient.CopyUnset | app/src/App/Utils/WSClient.php:569-575 | a caller parameter is copied exactly when its key is not already set to a non-null value; set keys keep their value, other keys are untouched, keys stay distinct |
| WSClient.InvokeVerb | app/src/App/Utils/WSClient.php:582-586 | the request is a POST exactly when the upper-cased type is `POST`, else a GET |
| WSClient.InvokeParams | app/src/App/Utils/WSClient.php:565-575 | the request names the operation; a non-null session wins over a caller `sessionName`, a null one lets the caller's through; every other parameter is the caller's; with a null session and no caller `sessionName` the request carries `sessionName => null` |
| WSClient.Invoke | app/src/App/Utils/WSClient.php:564-592 | one request is sent with those parameters, the verb chosen by the type and the pending options under `cbwsOptions`; the options are cleared and the result is `result` or `false`; the last error becomes `false` on success and the response's error otherwise, and no other client field changes besides the cleared options; with a null session and no caller `sessionName` the request carries `sessionName => null` |
| WSClient.OptionsConsumedOnce | app/src/App/Utils/WSClient.php:576-579 | options set before one invocation are not sent with the next |
| WSClient.OptionsSurviveQuery | app/src/App/Utils/WSClient.php:233-251 | a query does not consume pending options, so the next create still sends them |
| WSClient.CreateFillsOwner | app/src/App/Utils/WSClient.php:372-393 | a successful create of an ownerless record returns the server's result and sends the element type and the JSON of the record with the logged-in user as `assigned_user_id` |
| ErrorHandler.BuildFrom | app/vendor/laminas/laminas-log/src/Formatter/ErrorHandler.php:46-67 | flattening keeps the replacement keys distinct |
| ErrorHandler.Replacements | app/vendor/laminas/laminas-log/src/Formatter/ErrorHandler.php:46-67 | the replacements have distinct names, and each name holds the value of the last leaf of the event with that path |
| ErrorHandler.Leaves | app/vendor/laminas/laminas-log/src/Formatter/ErrorHandler.php:49-65 | every recorded leaf is non-null and not an array, and nested leaves are not unprintable objects or dates; their names start with the enclosing path and `[` |
| ErrorHandler.LeavesNamed | app/vendor/laminas/laminas-log/src/Formatter/ErrorHandler.php:50-60 | a recorded scalar appears under its own key at the top and as `key[index]` below; every leaf lies under the name of the entry it comes from |
| ErrorHandler.LeavesOfNamed | app/vendor/laminas/laminas-log/src/Formatter/ErrorHandler.php:50-64 | a recorded entry contributes exactly itself under its name; an array contributes only names beneath its own |
| ErrorHandler.BuildFromMatchesLeaves | app/vendor/laminas/laminas-log/src/Formatter/ErrorHandler.php:46-67 | each key of the flattened array holds the value of the last leaf with that path, or its earlier value when there is none |
| ErrorHandler.AddEntryMatchesLeaves | app/vendor/laminas/laminas-log/src/Formatter/ErrorHandler.php:50-64 | one entry of the loop adds exactly its own leaves, later ones winning |
| ErrorHandler.ReplacementsMatchLeaves | app/vendor/laminas/laminas-log/src/Formatter/ErrorHandler.php:46-67 | the replacement for a name is the last leaf of the event with that path |
| ErrorHandler.ReplacementsAreScalars | app/vendor/laminas/laminas-log/src/Formatter/ErrorHandler.php:51-61 | no replacement is `null` or an array |
| ErrorHandler.NestedValueIsNamedByPath | app/vendor/laminas/laminas-log/src/Formatter/ErrorHandler.php:50 | a nested value is named `outer[inner]` |
| ErrorHandler.UnprintableObjectDroppedWhenNested | app/vendor/laminas/laminas-log/src/Formatter/ErrorHandler.php:55-60 | an object without `__toString` is kept at top level and dropped when nested |
| ErrorHandler.LaterLeafWins | app/vendor/laminas/laminas-log/src/Formatter/ErrorHandler.php:63 | a nested leaf overwrites an earlier top-level key with the same path |
| ErrorHandler.NullSkipped | app/vendor/laminas/laminas-log/src/Formatter/ErrorHandler.php:51-53 | a `null` entry contributes nothing |
| ErrorHandler.LeavesAppend | app/vendor/laminas/laminas-log/src/Formatter/ErrorHandler.php:49-65 | the leaves of two event parts laid end to end are the leaves of each, in order |
| ErrorHandler.ReplaceEachWithoutPercent | app/vendor/laminas/laminas-log/src/Formatter/ErrorHandler.php:31-33 | a text without `%` is left alone by every replacement |
| ErrorHandler.ReplaceEach | app/vendor/laminas/laminas-log/src/Formatter/ErrorHandler.php:31-33 | the `str_replace` loop, one replacement after another on the output so far; text without `%` passes through unchanged |
| ErrorHandler.Format | app/vendor/laminas/laminas-log/src/Formatter/ErrorHandler.php:23-36 | a template without `%` is returned as it is |
| ErrorHandler.Fill | app/vendor/laminas/laminas-log/src/Formatter/ErrorHandler.php:32 | filling a placeholder name turns exactly the placeholders with that name into the text and keeps every other piece |
| ErrorHandler.GuardedNoMatch | app/vendor/laminas/laminas-log/src/Formatter/ErrorHandler.php:32 | when a space comes before the next placeholder, no plain name followed by `%` can be read from the text after a placeholder's opening `%` |
| ErrorHandler.ReplaceOne | app/vendor/laminas/laminas-log/src/Formatter/ErrorHandler.php:32 | one `str_replace` of `%k%` on a separated template fills exactly the placeholders named `k` |
| ErrorHandler.FillKeepsShape | app/vendor/laminas/laminas-log/src/Formatter/ErrorHandler.php:31-33 | filling with a `%`-free text keeps the template well formed and separated |
| ErrorHandler.ResolvePiece | app/vendor/laminas/laminas-log/src/Formatter/ErrorHandler.php:31-33 | literal text is kept; a `%name%` with no replacement stays verbatim; one with a replacement becomes the string form of a value recorded under that name |
| ErrorHandler.Resolve | app/vendor/laminas/laminas-log/src/Formatter/ErrorHandler.php:31-33 | the filled template keeps the template's shape, resolving each piece on its own |
| ErrorHandler.ReplaceEachResolves | app/vendor/laminas/laminas-log/src/Formatter/ErrorHandler.php:31-33 | when no replacement name holds a space or `%` and no replacement value holds `%`, the replacement loop on a well-formed, separated template fills each placeholder with the text of its replacement and keeps the rest |
| ErrorHandler.FormatResolves | app/vendor/laminas/laminas-log/src/Formatter/ErrorHandler.php:23-36 | when no flattened name holds a space or `%` and no flattened value holds `%`, `format` fills each placeholder of a well-formed, separated template with the text of its replacement from the stamped, flattened event; a placeholder with none stays as it is |
| ErrorHandler.DefaultPiecesWellFormed | app/vendor/laminas/laminas-log/src/Formatter/ErrorHandler.php:15 | the default template has no `%` outside its placeholder marks |
| ErrorHandler.DefaultPiecesSeparated | app/vendor/laminas/laminas-log/src/Formatter/ErrorHandler.php:15 | a space follows every placeholder of the default template |
| ErrorHandler.DefaultFormatResolves | app/vendor/laminas/laminas-log/src/Formatter/ErrorHandler.php:15-36 | when no flattened name holds a space or `%` and no flattened value holds `%`, the default template's seven placeholders are each filled with their replacement or left as they are |
| ErrorHandler.PlaceholderInsideValue | app/vendor/laminas/laminas-log/src/Formatter/ErrorHandler.php:31-33 | a value holding `%f%` is expanded by a later replacement for `f`: `%m%` with `m => %f%, f => a` gives `a`, where the placeholder reading gives `%f%` |
| ErrorHandler.CrossingPlaceholder | app/vendor/laminas/laminas-log/src/Formatter/ErrorHandler.php:31-33 | without the separation, `%m%n%k%` with `n => X` gives `%mXk%`: the text between two placeholders is read as a name |
| ExceptionHandler.SetDateTimeFormat | app/vendor/laminas/laminas-log/src/Formatter/ExceptionHandler.php:66-70 | the format read back is the string conversion of what was set |
| ExceptionHandler.GetDateTimeFormat | app/vendor/laminas/laminas-log/src/Formatter/ExceptionHandler.php:58-61 | `getDateTimeFormat` reads the stored format; `ExceptionHandler.SetThenGet` and `ExceptionHandler.LastSettingWins` state that it is the last one set |
| ExceptionHandler.SetThenGet | app/vendor/laminas/laminas-log/src/Formatter/ExceptionHandler.php:58-70 | a format that is set is the one read back |
| ExceptionHandler.LastSettingWins | app/vendor/laminas/laminas-log/src/Formatter/ExceptionHandler.php:66-70 | only the last setting counts |
| ExceptionHandler.GetType | app/vendor/laminas/laminas-log/src/Formatter/ExceptionHandler.php:78-88 | `"::"` reads `static`, `"->"` reads `method`, any other string is returned as it is, and the answer is always one of those |
| ExceptionHandler.TrueTypeIsStatic | app/vendor/laminas/laminas-log/src/Formatter/ExceptionHandler.php:80-82 | the loose `switch` takes `true` for `"::"` |
| ExceptionHandler.FrameLines | app/vendor/laminas/laminas-log/src/Formatter/ExceptionHandler.php:42-47 | a frame shows six lines in order: `File`, `Line`, `Func` and `Class` with the frame's fields as strings, `Type` with the frame's type through `getType`, and `Args` with `print_r` of the arguments |
| ExceptionHandler.Format | app/vendor/laminas/laminas-log/src/Formatter/ExceptionHandler.php:29-37 | the output starts with the timestamp and a blank; a `DateTime` is shown in the configured format |
| ExceptionHandler.HeaderStartsWithTimestamp | app/vendor/laminas/laminas-log/src/Formatter/ExceptionHandler.php:35 | the header starts with the timestamp and a blank |
| ExceptionHandler.Header | app/vendor/laminas/laminas-log/src/Formatter/ExceptionHandler.php:35-37 | the header line: the timestamp and a blank, then the rest of the header |
| ExceptionHandler.HeaderTail | app/vendor/laminas/laminas-log/src/Formatter/ExceptionHandler.php:35-37 | the header after the timestamp: priority name, priority in parentheses, message, ` in ` file and ` on line ` line |
| ExceptionHandler.HeaderIsOneLine | app/vendor/laminas/laminas-log/src/Formatter/ExceptionHandler.php:35-37 | the header holds no line break when none of the six fields it shows does |
| ExceptionHandler.FormatStamped | app/vendor/laminas/laminas-log/src/Formatter/ExceptionHandler.php:35-52 | the output starts with the header; an empty trace adds nothing; otherwise `[Trace]` on a line of its own and every frame's block follow |
| ExceptionHandler.TraceLines | app/vendor/laminas/laminas-log/src/Formatter/ExceptionHandler.php:41-48 | the trace has six lines per frame |
| ExceptionHandler.TraceLineAt | app/vendor/laminas/laminas-log/src/Formatter/ExceptionHandler.php:41-48 | line `6i + j` of the trace is line `j` of frame `i` and starts with label `j` |
| ExceptionHandler.TraceTextSplits | app/vendor/laminas/laminas-log/src/Formatter/ExceptionHandler.php:40-49 | when no field holds a line break, splitting the trace block at line breaks gives back the frames' lines in order and an empty text after the last break |
| ExceptionHandler.FrameSplits | app/vendor/laminas/laminas-log/src/Formatter/ExceptionHandler.php:42-47 | one frame's block splits into its six lines ahead of whatever follows |
| ChromePhp.Dispatch | app/vendor/laminas/laminas-log/src/Writer/ChromePhp.php:62-82 | an integer priority reaches the channel of the severity table, and so does its decimal string; any other string reaches `log`; `null`, booleans and objects reach `error`; an array reaches `log` |
| ChromePhp.LevelChannelCovers | app/vendor/laminas/laminas-log/src/Writer/ChromePhp.php:62-82 | `log` is reached exactly by priorities outside 0..7, and each other channel by its severities |
| ChromePhp.DecimalPriority | app/vendor/laminas/laminas-log/src/Writer/ChromePhp.php:62 | a severity written as a decimal string reaches the same channel as the integer |
| ChromePhp.MissingPriorityIsError | app/vendor/laminas/laminas-log/src/Writer/ChromePhp.php:62-68 | an event without a priority is sent to `error` |
| ChromePhp.GetChromePhp | app/vendor/laminas/laminas-log/src/Writer/ChromePhp.php:90-100 | a set console is returned and kept; without one, the bridge is installed and returned when available, else nothing changes and nothing is returned |
| ChromePhp.SetChromePhp | app/vendor/laminas/laminas-log/src/Writer/ChromePhp.php:108-112 | the writer logs to the given console from then on |
| ChromePhp.SetThenGet | app/vendor/laminas/laminas-log/src/Writer/ChromePhp.php:90-112 | after setting a console, getting returns it and changes nothing |
| ChromePhp.LastInstance | app/vendor/laminas/laminas-log/src/Writer/ChromePhp.php:35-41 | the `instance` value is missing exactly when no pair has that key, and otherwise it is the value of the last such pair |
| ChromePhp.Resolve | app/vendor/laminas/laminas-log/src/Writer/ChromePhp.php:35-42 | an argument that is not an array or `Traversable` is used as it is; an array or `Traversable` resolves to the value of its last `instance` key, or to `null` when it has none |
| ChromePhp.Construct | app/vendor/laminas/laminas-log/src/Writer/ChromePhp.php:33-50 | the constructor fails with `InvalidArgumentException` and its message exactly when the resolved instance is neither `null` nor a console; a console is used; `null` falls back to the bridge when it is available |
| ChromePhp.LaterInstanceWins | app/vendor/laminas/laminas-log/src/Writer/ChromePhp.php:35-37 | of two `instance` pairs a `Traversable` yields, the later is used |
| ChromePhp.NestedArrayRejected | app/vendor/laminas/laminas-log/src/Writer/ChromePhp.php:39-46 | an array whose `instance` is an array is rejected |
| ChromePhp.Write | app/vendor/laminas/laminas-log/src/Writer/ChromePhp.php:58-83 | a write without a console fails; otherwise it makes exactly one call, on that console, carrying the formatter's line, on the channel of the event's priority, after the earlier calls |
| ChromePhp.WriteAllOneCallEach | app/vendor/laminas/laminas-log/src/Writer/ChromePhp.php:58-83 | with a console, `n` events make exactly `n` calls, the `i`-th carrying event `i`'s line on its channel |

## Left out

- The HTTP transport (`HTTPClient`/`CURLHTTPClient`) is not part of this model. Each operation takes the server's decoded response as a parameter, so network failures, JSON decoding and the credential token are not modelled.
- `md5`, `hash`, `json_encode`, `print_r` and `DateTime::format` are foreign functions. They are parameters, and nothing is assumed about them.
- `version()` and `reinitalize()` are left out. The first returns a constant (`WSClient.Version`); the second only rebuilds the transport.
- The `class_exists('ChromePhp')` test is a boolean parameter (`bridgeAvailable`). The bridge's own behaviour is not part of this model.
- The `AbstractWriter` constructor options handled by `parent::__construct`, the `ChromePhp` formatter, and the `Logger` class are left out. The formatter is the parameter `format`.
- The initial `DEFAULT_DATETIME_FORMAT` comes from a class that is not part of this model. `Formatter` takes it as a field.
- `ErrorHandler.DefaultFormat` is written as its pieces (`DefaultPieces`) rendered, not as one string literal. Its text reads the same as the source constant, but no lemma proves the two strings equal, because comparing literals of that length is beyond the verifier's budget here.
- `array_merge` renumbers integer keys; the model keeps every key as a string. Flattened event keys are paths such as `extra[file]`, for which this is the same.
- Floating-point values are not modelled.
- `Values.ToStr` renders a `DateTime` as the empty string and an object without `__toString` as its `text`. PHP throws an `Error` for both. In `ErrorHandler.format` such values reach `str_replace` only at the top level of the event (other than a stamped timestamp).
- Trace frames that are not arrays, and objects inside trace fields, are read through `Index`, which gives `null`.
- `Values.Index`: PHP 8 throws a `TypeError` when a string is read at a non-numeric offset, and an `Error` when an object that is not `ArrayAccess` is read at an offset. The model reads `null` in both cases. So a response whose `result` (or `result.user`) is a string or an object is not a failure in `Challenge`, `Login`, `LoginPortal`, `LoginSession`, `QueryWithTotal`, `ListTypes` or `GetRelatedRecords`, and neither is an `extra` or a trace frame that is a string or an object in `ExceptionHandler`.
- `WSClient.ListTypes`: PHP throws "Illegal offset type" when a module name in `types` is an array or an object (a `DateTime` included). `KeyOf` keys such a name by its string form (`"Array"`, the object's text, or `""`) instead of failing.
- `ErrorHandler.FormatResolves`: the filled-template property is proved only when no flattened value holds `%` and no flattened name holds a space or `%`. Otherwise `str_replace` can expand a placeholder that an earlier replacement inserted (`PlaceholderInsideValue`). An ordinary message such as "Disk 95% full" falls outside it. For such events only the definition of the loop (`ReplaceEach`) and `ErrorHandler.Format`'s contract for `%`-free templates apply.
- `ChromePhp.Dispatch`: a string priority matches only the exact decimal rendering of a severity. Other numeric strings (`" 1"`, `"1.0"`, `"1e0"`) fall through to `log`.
- `ChromePhp.Write`: the channel is stated against the severity table only for integer priorities. `ChromePhp.Dispatch` states the other kinds.
- `WSClient.ModuleMap`: the order of the map's keys is stated only for distinct string names (`ModuleMapOfDistinctNames`, `ModuleMapOfNewName`). For other names only their lookup is stated.
- `ErrorHandler.Format`: the general contract covers only templates without `%`. The filled-template property needs a template cut into pieces and is stated by `ErrorHandler.FormatResolves`.
- `ExceptionHandler.Format`: its own contract states only the timestamp at the head of the line. The layout is stated by `ExceptionHandler.FormatStamped`.
- Loose comparisons follow PHP 8, where an integer never equals a non-numeric string. PHP 7's behaviour is not modelled.
