# OKAPI core decision logic in Dafny

This project models the sequential decision logic of five parts of OKAPI, the
OpenCaching API, and proves properties of each:

- **OAuth authorization view** (`okapi/apps/authorize`). This is the resource-owner authorization step of OAuth 1.0 (section 2.2 of RFC 5849).
  - It looks up a request token, before it checks the login.
  - It sends an anonymous user to the login page.
  - It binds the token without asking when the user has already authorized the consumer.
  - Otherwise it shows the consent form and records the answer.
  - It redirects to the consumer's callback, or to the `okapi/apps/authorized` page when there is none.
  - The redirect carries `oauth_token` and the `oauth_verifier` read from the stored token row.
  - Binding writes the user into the token row unconditionally.
  - `Authorize.AuthorizeView` holds the token table and the authorizations table.
  - `Authorize.AuthorizeView.Handle` is one request.
  - The URL builders are pure functions in `Url` and `Authorize`.
- **Database update view** (`okapi/update`).
  - `Update.GetMaxVersion` computes the highest `ver<N>` method name.
  - `Update.Migrator` holds `db_version`, `cron_nearest_event` and the mutations applied so far.
  - `Call` steps through the missing mutations. An oracle set says which mutations fail.
- **Search parameter checks** (`SearchAssistant::get_common_search_params`) and the "more" rule of `get_common_search_result`.
  - Each parameter is a function from the request's parameters to the WHERE conditions it adds, or the `InvalidParam` it raises.
  - Conditions are an abstract datatype `Search.Cond`, not SQL text.
  - `GetCommonSearchParams` runs the checks in the code's order and matches the specification function `SearchParamsSpec`.
  - Both use the corrected readings of the `status`, `min_rcmds`, `rating` and `owner_uuid` checks. The code as written is modelled beside them and compared under "## Findings".
- **Log entry services** `services/logs/entries` and `services/logs/entry`.
  - These cover parameter checks, the fetch loop, null filling, field removal and ordering.
  - Each loop is a method proved against a recursive specification function.
  - The database rows are an input sequence.
- **Attribute helper** (`AttrHelper`).
  - It builds the attribute dictionary from an abstract XML tree (`Attrs.Node`).
  - `cleanup_string` collapses white space and trims the ends.
  - The helper's static state (`attr_dict`, `last_refreshed`) and the shared cache entry are the fields of the class `Attrs.AttrHelper`.
  - `refresh_if_stale` takes the current time `now` and the download result as parameters.

The PHP semantics the code relies on are in `Php`:
- the truth value of strings ("" and "0" are false);
- `explode` and `implode` on one character;
- `strpos` of a character;
- `(int)` conversion;
- the `intval($x) != $x` integer test, with the number PHP 5 reads from the start of a string (white space, sign, digits, fraction, exponent);
- the loose `==` of two strings, for integer-form numeric strings.

The modules `Wrappers` (Option and Result), `Php` and `Url` support the five modelled parts.

## Model

| member | source | states |
|---|---|---|
| Authorize.Decide | branches/ziel/okapi/views/apps/authorize.php:44-136 | Each of the five branches, as an if-and-only-if over (token found, user logged in, standing authorization, posted value). The token is bound exactly with a standing authorization or a posted value of exactly "granted". Any other posted value denies. |
| Authorize.AuthorizeView.Lookup | branches/ziel/okapi/views/apps/authorize.php:25-40 | A token is found iff its key is in the table, its consumer exists and its user_id is NULL. A bound token is never found. |
| Authorize.LoginUrl | branches/ziel/okapi/views/apps/authorize.php:69-72 | The login redirect is `login.php?target=<t>&langpref=<lp>`. `t` holds no "&" and decodes back to `okapi/apps/authorize?oauth_token=<key>`, plus `&langpref=<lp>` exactly when lp is not loosely equal to the site language. |
| Authorize.GrantUrl | branches/ziel/okapi/views/apps/authorize.php:148-155 | With a callback, the URL is exactly three parts: the callback, then "&" if the callback has a "?" and "?" otherwise, then `oauth_token=<key>&oauth_verifier=<stored verifier>`. Its query is the callback's own query (if any) followed by those parameters. Without a callback: the `okapi/apps/authorized` URL with token, verifier and langpref. |
| Authorize.DenyUrl | branches/ziel/okapi/views/apps/authorize.php:110-116 | With a callback, the URL is exactly the callback, then "&" if the callback has a "?" and "?" otherwise, then `error=access_denied`. Otherwise: the site's `index.php`. |
| Authorize.AuthorizeView.Handle | branches/ziel/okapi/views/apps/authorize.php:16-156 | The response is the one for the decided branch. The tokens change only when binding, and then only the looked-up token gets the session user. The pair (consumer, user) is inserted only on a fresh grant. An unknown or already bound token gives the expired page. Verifiers never change. A bound token cannot be found again. |
| Authorize.ReauthorizationScenario | branches/ziel/okapi/views/apps/authorize.php:75-87 | After a user grants one token of a consumer, the next token of that consumer for that user is bound and redirected without a consent form. Replaying the first token gives the expired page. |
| Url.Separator | branches/ziel/okapi/views/apps/authorize.php:42 | The separator is "&" iff the callback already has a "?", and "?" otherwise. |
| Url.AppendParamsQuery | branches/ziel/okapi/views/apps/authorize.php:149 | Appending parameters keeps the URL as a prefix and the parameters as the suffix after one separator character. The resulting query is the URL's own query followed by "&" and the parameters, or just the parameters when the URL had no "?". |
| Url.UrlEncode | branches/ziel/okapi/views/apps/authorize.php:70 | The encoding of a byte string holds only unreserved characters, "+" and "%". |
| Url.DecodeEncode | branches/ziel/okapi/views/apps/authorize.php:70 | Decoding the urlencoded form of a byte string gives it back. |
| Update.MaxVersionIsMax | trunk/okapi/views/update.php:25-38 | The maximum version bounds the version of every method name. Unless it is 0, it is the version of one of the names. |
| Update.MaxOfIsMax | trunk/okapi/views/update.php:27-36 | The running maximum, started at 0, bounds every element. Unless it is 0, it is one of the elements. |
| Update.GetMaxVersion | trunk/okapi/views/update.php:25-38 | The loop over the method names computes MaxVersion. |
| Update.FirstFailure | trunk/okapi/views/update.php:67-79 | The first version from `from` to max whose mutation fails, or max + 1. Every version before it succeeds. |
| Update.Migrator.ApplyMutations | trunk/okapi/views/update.php:67-80 | The mutations from current + 1 up to the first failure are applied once each, in ascending order. db_version ends at the last successful one (unchanged if none succeeded). The failing version is reported. |
| Update.Migrator.Call | trunk/okapi/views/update.php:47-90 | If max < current: VersionAhead with nothing changed. If max == current: nothing applied and cron_nearest_event reset to 0. Otherwise the missing mutations run in order. A full run leaves db_version == max and resets cron_nearest_event. A failure leaves db_version at the version before it. db_version always names the last mutation applied. |
| Php.Explode | trunk/okapi/services/caches/search/searching.inc.php:41 | `explode` returns at least one piece, and no piece contains the separator. |
| Php.ImplodeExplode | branches/following-logtime/okapi/services/logs/entries.php:39 | Joining the exploded pieces with the separator gives back the string. |
| Php.ExplodeImplode | branches/following-logtime/okapi/services/logs/entries.php:39 | Exploding a join of separator-free pieces gives back the pieces. |
| Php.IntegerValue | branches/rygielski-attributes/okapi/services/attrs/attr_helper.inc.php:90 | The integer form of a numeric string, a sign and digits: an accepted value ends in a digit, is non-negative without a "-", and a plain digit string denotes its decimal value. |
| Php.IntvalMatchesMeaning | trunk/okapi/services/caches/search/searching.inc.php:226 | The integer test `intval($x) != $x` passes iff the number PHP 5 reads from the start of the string equals its intval. |
| Php.IntvalDigitsThen | trunk/okapi/services/caches/search/searching.inc.php:161 | Digits followed by anything but a digit, ".", "e" or "E" pass the integer test and convert to those digits, as "5abc" and "12 " do. |
| Php.IntvalNoNumber | trunk/okapi/services/caches/search/searching.inc.php:161 | A string that starts with no number, such as "abc", passes the integer test and converts to 0. |
| Php.IntvalRefusesFraction | trunk/okapi/services/caches/search/searching.inc.php:161 | Digits with a non-zero fraction, such as "5.5", fail the integer test. |
| Php.IntvalRefusesExponent | trunk/okapi/services/caches/search/searching.inc.php:161 | A non-zero number with a non-zero exponent, such as "1e1", fails the integer test. |
| Php.IntStringThen | trunk/okapi/services/caches/search/searching.inc.php:74 | A printed integer reads back as itself, also when a comma and more text follow it. |
| Search.LookupAll | trunk/okapi/services/caches/search/searching.inc.php:41-52 | Ids are returned iff every name is known, one per name in order. |
| Search.LookupNames | trunk/okapi/services/caches/search/searching.inc.php:41-52 | The `foreach` over the names computes LookupAll and stops at the first unknown name. |
| Search.TypeConds | trunk/okapi/services/caches/search/searching.inc.php:32-54 | A false `type` adds nothing. Otherwise it succeeds iff every listed name is a known type. It then adds one TypeIn with the names' ids in order, excluding iff the value starts with "-". |
| Search.CollectTypeConds | trunk/okapi/services/caches/search/searching.inc.php:32-54 | The type block computes TypeConds. |
| Search.StatusValue | trunk/okapi/services/caches/search/searching.inc.php:60-61 | A missing or empty `status` means "Available". |
| Search.StatusConds | trunk/okapi/services/caches/search/searching.inc.php:60-74 | Intended reading: the status filter is always added. It succeeds iff every listed status is known, and holds their ids in order. |
| Search.StatusCondsAsWritten | trunk/okapi/services/caches/search/searching.inc.php:60-74 | As written: the same errors as StatusConds, and success exactly when StatusConds succeeds, with one quoted string of the comma-joined ids. |
| Search.JoinedIdsFirst | trunk/okapi/services/caches/search/searching.inc.php:74 | The comma-joined ids, read as a number, give the first id. |
| Search.StatusAsWrittenFirstOnly | trunk/okapi/services/caches/search/searching.inc.php:74 | As written, the filter lets a status through iff it is the first listed one. The intended filter lets through every listed status. |
| Search.CollectStatusConds | trunk/okapi/services/caches/search/searching.inc.php:60-74 | The status block computes StatusConds. |
| Search.OwnerConds | trunk/okapi/services/caches/search/searching.inc.php:80-95 | Intended reading: a given `owner_uuid` fails iff the users service rejects it. Otherwise it adds the owners' ids. |
| Search.OwnerCondsAsWritten | trunk/okapi/services/caches/search/searching.inc.php:80-90 | As written: without `owner_uuid` nothing is added. With one, the call to the misspelt service "serivces/users/users" always fails. |
| Search.OwnerAsWrittenRefusesKnownOwner | trunk/okapi/services/caches/search/searching.inc.php:80-95 | For an owner the users service knows, the code as written fails, while the intended reading adds that owner's ids. |
| Search.ParseRange | trunk/okapi/services/caches/search/searching.inc.php:105-109 | An accepted range is "lo-hi" (optionally with a final newline) with 1 <= lo <= hi <= 5. |
| Search.ParseRangeText | trunk/okapi/services/caches/search/searching.inc.php:105-109 | Every well-ordered range is accepted, with or without the final newline. |
| Search.ParseRangeReversed | trunk/okapi/services/caches/search/searching.inc.php:108-109 | A range with min > max is rejected. |
| Search.RangeConds | trunk/okapi/services/caches/search/searching.inc.php:101-130 | Intended reading: fails iff a given range does not parse. For an accepted lo-hi, terrain and difficulty add between 2·lo and 2·hi, size adds between lo+1 and hi+1, and rating adds score between divisors[lo-1] and divisors[hi] together with votes > 3. The rating interval is non-empty. |
| Search.RangeCondsAsWritten | trunk/okapi/services/caches/search/searching.inc.php:101-130 | As written: the same as RangeConds, except that a rating "lo-hi" followed by a newline looks up the divisor under the key "hi\n", which is missing, so the score condition is the malformed `caches.score between <lo> and `. |
| Search.RangeCondsAsWrittenAgrees | trunk/okapi/services/caches/search/searching.inc.php:101-130 | For every parameter and value except a rating with a final newline, the code as written and the intended reading agree. |
| Search.RatingNewlineAsWritten | trunk/okapi/services/caches/search/searching.inc.php:105-126 | As written, every well-ordered rating "lo-hi\n" is accepted and gives the malformed condition `caches.score between <lo> and ` with nothing after `and`. |
| Search.RatingNewlineCorrected | trunk/okapi/services/caches/search/searching.inc.php:105-126 | Intended reading: the same rating gives the bounded score condition of "lo-hi". |
| Search.AllRangeCondsErr | trunk/okapi/services/caches/search/searching.inc.php:101-130 | Once one range parameter fails, the whole loop fails with that error. |
| Search.CollectRangeConds | trunk/okapi/services/caches/search/searching.inc.php:101-130 | The loop over the four range parameters computes AllRangeConds. |
| Search.MinRcmdsAsWrittenRejectsPercent | trunk/okapi/services/caches/search/searching.inc.php:136-153 | As written, every percentage strictly between 0% and 100% is rejected. |
| Search.MinRcmdsConds | trunk/okapi/services/caches/search/searching.inc.php:136-153 | Intended reading: "N%" is accepted iff N passes the integer test with a value in 0..100, and then adds the percentage and founds > 0 conditions. Any other value is accepted iff it passes the integer test, and then adds topratings >= its value. Errors name `min_rcmds`. |
| Search.PercentRcmdsConds | trunk/okapi/services/caches/search/searching.inc.php:139-148 | Intended reading of "N%": accepted iff N passes the integer test with a value in 0..100, adding topratings >= founds * N/100 and founds > 0. |
| Search.PlainRcmdsConds | trunk/okapi/services/caches/search/searching.inc.php:150-152 | A plain `min_rcmds` is accepted iff it passes the integer test, adding topratings >= its value. |
| Search.DecimalIntval | trunk/okapi/services/caches/search/searching.inc.php:141 | A decimal numeral passes the integer test, as its number. |
| Search.MinRcmdsAcceptsPercent | trunk/okapi/services/caches/search/searching.inc.php:138-148 | Intended reading: every percentage from 0% to 100% is accepted. |
| Search.MinFoundsConds | trunk/okapi/services/caches/search/searching.inc.php:159-164 | A given `min_founds` is accepted iff it passes the integer test, and then adds founds >= its value. |
| Search.ModifiedSinceConds | trunk/okapi/services/caches/search/searching.inc.php:170-177 | A given `modified_since` is accepted iff strtotime parses it to a non-zero timestamp. |
| Search.FoundStatusConds | trunk/okapi/services/caches/search/searching.inc.php:183-205 | A given `found_status` is accepted iff there is an access token and the value is found_only, unfound_only or either. "either" adds nothing. |
| Search.ExcludeMyOwnConds | trunk/okapi/services/caches/search/searching.inc.php:211-219 | A given `exclude_my_own` is accepted iff there is an access token and the value is "true" or "false". Only "true" adds a condition. |
| Search.LimitValue | trunk/okapi/services/caches/search/searching.inc.php:224-229 | The limit is 100 when missing or empty. Otherwise it is accepted iff it passes the integer test with a value in 1..1000, and then is that value. |
| Search.DefaultLimit | trunk/okapi/services/caches/search/searching.inc.php:225-226 | The default "100" passes the integer test, as 100. |
| Search.SearchParamsSpec | trunk/okapi/services/caches/search/searching.inc.php:24-235 | With the corrected readings of status, min_rcmds, rating and owner_uuid: an accepted request has a limit in 1..1000 and a condition list that starts with `true` and holds a status filter. found_status or exclude_my_own without a token is rejected. |
| Search.GetCommonSearchParams | trunk/okapi/services/caches/search/searching.inc.php:24-235 | The step-by-step checks, with the corrected readings of status, min_rcmds, rating and owner_uuid, compute SearchParamsSpec. |
| Search.GetCommonSearchResult | trunk/okapi/services/caches/search/searching.inc.php:251-290 | `more` holds iff more than `limit` rows match. The results are the first `limit` rows in order when there are more, and all rows otherwise. |
| LogEntries.BuildRecord | branches/following-logtime/okapi/services/logs/entries.php:77-96 | A row's record has exactly the ten valid field names as keys and carries the row's uuid. |
| LogEntries.ParseUuids | branches/following-logtime/okapi/services/logs/entries.php:32-45 | A missing `log_uuids` raises ParamMissing, and "" is the empty list. Otherwise the "|"-split list is accepted iff it has no duplicate and at most 500 entries (or limits are skipped). |
| LogEntries.FieldNames | branches/following-logtime/okapi/services/logs/entries.php:46-48 | The field list is never empty. A missing or false `fields` gives the default list date, user, type, comment. Any other value gives its "\|"-split pieces. |
| LogEntries.DefaultFieldList | branches/following-logtime/okapi/services/logs/entries.php:47-48 | The default "date\|user\|type\|comment" splits into the four names date, user, type and comment. |
| LogEntries.CheckFields | branches/following-logtime/okapi/services/logs/entries.php:49-51 | The check passes iff every requested field is a valid field name. |
| LogEntries.LastRowIsLast | branches/following-logtime/okapi/services/logs/entries.php:77-96 | The row kept for a uuid is the last row with that uuid. |
| LogEntries.FetchedLastRow | branches/following-logtime/okapi/services/logs/entries.php:77-96 | After the fetch loop, a requested uuid has an entry iff some row has it. The entry is the record of the last such row. |
| LogEntries.FetchRows | branches/following-logtime/okapi/services/logs/entries.php:77-96 | The fetch loop computes Fetched. |
| LogEntries.Filled | branches/following-logtime/okapi/services/logs/entries.php:129-131 | Null filling keeps every fetched entry and adds null for exactly the requested uuids that were not fetched. |
| LogEntries.MarkMissing | branches/following-logtime/okapi/services/logs/entries.php:129-131 | The null-filling loop computes Filled. |
| LogEntries.StripDrops | branches/following-logtime/okapi/services/logs/entries.php:135-138 | The removal loop over the valid names removes exactly the unrequested names from every entry. Null entries stay null. |
| LogEntries.RemoveUnwanted | branches/following-logtime/okapi/services/logs/entries.php:135-138 | The removal loop computes Strip. |
| LogEntries.UnsetEverywhere | branches/following-logtime/okapi/services/logs/entries.php:137-138 | The reference loop removes one field from every entry and keeps the keys. |
| LogEntries.Ordered | branches/following-logtime/okapi/services/logs/entries.php:142-144 | The output has one entry per requested uuid, in the given order. |
| LogEntries.OrderResults | branches/following-logtime/okapi/services/logs/entries.php:142-144 | The ordering loop computes Ordered. |
| LogEntries.ResultAt | branches/following-logtime/okapi/services/logs/entries.php:129-138 | The entry of a requested uuid is null iff no row has it. Otherwise it is the last such row's record without the unrequested fields. |
| LogEntries.KeptFields | branches/following-logtime/okapi/services/logs/entries.php:135-138 | With valid field names, a kept record has exactly the requested fields. |
| LogEntries.EntriesMeaning | branches/following-logtime/okapi/services/logs/entries.php:30-146 | A successful call returns one entry per requested uuid in input order. Each is null iff no row has that uuid, and otherwise the last row's record holding exactly the requested fields. |
| LogEntries.EntriesErrors | branches/following-logtime/okapi/services/logs/entries.php:32-51 | The call fails iff the uuid list is refused or a field name is invalid, whatever the rows. |
| LogEntries.Entries | branches/following-logtime/okapi/services/logs/entries.php:30-146 | The service, loop by loop, computes EntriesSpec. |
| LogEntries.Entry | okapi/services/logs/entry/WebService.php:21-35 | The call raises ParamMissing("log_uuid") iff `log_uuid` is missing or false. The internal batch request never skips limits. |
| LogEntries.EntryTooMany | okapi/services/logs/entry/WebService.php:28-30 | A `log_uuid` that splits into more than 500 pieces makes the batch service raise InvalidParam("log_uuids"), and the entry service passes that error on. |
| LogEntries.Find | okapi/services/logs/entry/WebService.php:31 | The lookup finds nothing iff no entry has the key. Otherwise it returns an entry under that key. |
| LogEntries.EntriesOfOne | okapi/services/logs/entry/WebService.php:28-30 | A uuid without "\|" is a one-entry batch call. |
| LogEntries.EntryFromBatch | okapi/services/logs/entry/WebService.php:28-33 | For a single uuid, the entry service answers with the batch service's one entry. A null entry and an empty record (both `== null` in PHP) become InvalidParam("log_uuid"); any other record is returned. |
| LogEntries.EntryFound | okapi/services/logs/entry/WebService.php:28-33 | For a uuid without "\|" and valid fields, the call succeeds iff some row has the uuid. It returns that last row's record without the unrequested fields, and otherwise raises InvalidParam("log_uuid"). |
| LogEntries.EntryWithSeparator | okapi/services/logs/entry/WebService.php:28-33 | A `log_uuid` containing "\|" is never found. |
| Attrs.Collapse | branches/rygielski-attributes/okapi/services/attrs/attr_helper.inc.php:191 | After collapsing, the only white space is single plain spaces. The result is empty iff the input is, and starts with white space iff the input does. |
| Attrs.CleanupNormalizes | branches/rygielski-attributes/okapi/services/attrs/attr_helper.inc.php:188-192 | A cleaned-up string has only single plain spaces and no white space at either end. |
| Attrs.CleanupKeepsText | branches/rygielski-attributes/okapi/services/attrs/attr_helper.inc.php:188-192 | Clean-up keeps every non-white-space character, in order. |
| Attrs.CleanupOfNormalized | branches/rygielski-attributes/okapi/services/attrs/attr_helper.inc.php:188-192 | A string already in that shape is left unchanged. |
| Attrs.CleanupIdempotent | branches/rygielski-attributes/okapi/services/attrs/attr_helper.inc.php:188-192 | Cleaning up twice is the same as cleaning up once. |
| Attrs.CollapseAfterWord | branches/rygielski-attributes/okapi/services/attrs/attr_helper.inc.php:191 | Collapsing leaves a leading word without white space unchanged. |
| Attrs.CleanupSeparatesWords | branches/rygielski-attributes/okapi/services/attrs/attr_helper.inc.php:188-192 | Two words with any non-empty run of white space between them come out joined by exactly one plain space. |
| Attrs.FilterMembers | branches/rygielski-attributes/okapi/services/attrs/attr_helper.inc.php:86 | `$node->tag` selects exactly the child elements with that tag. |
| Attrs.Schema | branches/rygielski-attributes/okapi/services/attrs/attr_helper.inc.php:65-68 | The schema is OCPL iff OC_BRANCH is "oc.pl", and OCDE otherwise. |
| Attrs.GsEquivOf | branches/rygielski-attributes/okapi/services/attrs/attr_helper.inc.php:88-92 | `inc` is 1 iff the attribute is "true" or an integer-form numeric string of value 1 (the loose `in_array` comparison), and 0 otherwise. The name is the attribute's name. |
| Php.IntegerNumeric | branches/rygielski-attributes/okapi/services/attrs/attr_helper.inc.php:90 | A string PHP 5 reads as an integer-form numeric string ends in a digit, and a plain digit string denotes its decimal value. |
| Php.LooseEqualsOne | branches/rygielski-attributes/okapi/services/attrs/attr_helper.inc.php:90 | "01", "+1" and " 1" all loosely equal "1". |
| Php.LooseEqualsNotOne | branches/rygielski-attributes/okapi/services/attrs/attr_helper.inc.php:90 | "1 " and "true" do not loosely equal "1". |
| Attrs.GsEquivsAt | branches/rygielski-attributes/okapi/services/attrs/attr_helper.inc.php:86-93 | There is one equivalent per `groundspeak` element, in document order. |
| Attrs.CollectGsEquivs | branches/rygielski-attributes/okapi/services/attrs/attr_helper.inc.php:86-93 | The groundspeak loop computes GsEquivs. |
| Attrs.InternalIdsMembers | branches/rygielski-attributes/okapi/services/attrs/attr_helper.inc.php:94-100 | An id is listed iff some `opencaching` element of the local schema carries it. |
| Attrs.InternalIdsAppend | branches/rygielski-attributes/okapi/services/attrs/attr_helper.inc.php:94-100 | The ids of consecutive element lists are concatenated in document order. |
| Attrs.CollectInternalIds | branches/rygielski-attributes/okapi/services/attrs/attr_helper.inc.php:94-100 | The opencaching loop computes InternalIds. |
| Attrs.TextsAt | branches/rygielski-attributes/okapi/services/attrs/attr_helper.inc.php:104-107 | Each element gives the pair (language, its text or cleaned-up text). |
| Attrs.SetEach | branches/rygielski-attributes/okapi/services/attrs/attr_helper.inc.php:104-107 | The per-element assignment loop computes the assignments of Texts in order. |
| Attrs.SetCaptions | branches/rygielski-attributes/okapi/services/attrs/attr_helper.inc.php:108-114 | The search loop assigns the inc and exc captions in document order. |
| Attrs.LangMaps | branches/rygielski-attributes/okapi/services/attrs/attr_helper.inc.php:101-121 | The language loop builds names, descriptions and captions as the ordered assignments of all their pairs. |
| Attrs.ApplyLastWins | branches/rygielski-attributes/okapi/services/attrs/attr_helper.inc.php:106 | Under repeated assignment, the last pair with a key decides its value. |
| Attrs.ApplyKeys | branches/rygielski-attributes/okapi/services/attrs/attr_helper.inc.php:106 | The assigned keys are exactly the old ones and those of the pairs. |
| Attrs.DescriptionsNormalized | branches/rygielski-attributes/okapi/services/attrs/attr_helper.inc.php:115-120 | Every stored description is cleaned up. |
| Attrs.BuildAttribute | branches/rygielski-attributes/okapi/services/attrs/attr_helper.inc.php:77-121 | The entry built from one `attr` element is AttributeSpec, with its id attribute as id. |
| Attrs.AddEntry | branches/rygielski-attributes/okapi/services/attrs/attr_helper.inc.php:122 | The entry is stored under its id, replacing any earlier one. |
| Attrs.BuildDict | branches/rygielski-attributes/okapi/services/attrs/attr_helper.inc.php:75-123 | The attr loop computes the ordered assignments of all (id, entry) pairs. |
| Attrs.DictOfKeys | branches/rygielski-attributes/okapi/services/attrs/attr_helper.inc.php:75-123 | The dictionary has an entry exactly for the ids of the `attr` elements. |
| Attrs.DictOfEntries | branches/rygielski-attributes/okapi/services/attrs/attr_helper.inc.php:75-123 | The entry for an id is built from the last element with that id. |
| Attrs.AttrHelper.constructor | branches/rygielski-attributes/okapi/services/attrs/attr_helper.inc.php:24-25 | A new request starts with nothing loaded and the cache as it is. |
| Attrs.AttrHelper.Loaded | branches/rygielski-attributes/okapi/services/attrs/attr_helper.inc.php:137-154 | After initialisation the state is the loaded state if there is one, otherwise the cached value, otherwise an empty dictionary refreshed at 0. |
| Attrs.AttrHelper.RefreshFromFile | branches/rygielski-attributes/okapi/services/attrs/attr_helper.inc.php:56-130 | The document's dictionary, stamped `now`, is stored in the cache and in the helper. |
| Attrs.AttrHelper.InitFromCache | branches/rygielski-attributes/okapi/services/attrs/attr_helper.inc.php:137-154 | Does nothing once loaded. Otherwise it loads what Loaded describes. |
| Attrs.AttrHelper.RefreshIfStale | branches/rygielski-attributes/okapi/services/attrs/attr_helper.inc.php:161-176 | A state more than a day old is replaced by the downloaded document's dictionary when the download succeeds. Otherwise state and cache stay as they were. The admins are mailed iff the state is still more than three days old, that is, iff it was that old and the download failed. |
| Attrs.AttrHelper.GetAttrDict | branches/rygielski-attributes/okapi/services/attrs/attr_helper.inc.php:182-186 | Returns the dictionary of the initialised state. The loaded state is unchanged, so `lastRefreshed` becomes the loaded stamp, which a later `refresh_if_stale` compares against. |

## Left out

- SQL and DDL text are not modelled. This covers every `ver<N>` body, `get_consumers_of` and all query strings. Tables are maps, sets and sequences, and mutations are opaque steps whose failure is an input set.
- Mail, printing and output buffering are left out. This covers `mail_admins`, `mail_from_okapi`, `out` and `ob_flush`. `RefreshIfStale` returns whether the admins would be mailed.
- `Okapi::execute_prerequest_cronjobs` after the update is left out. Only the reset of `cron_nearest_event` is kept.
- HTML rendering, templates and gettext set-up are left out. Pages are the two `PageKind` values.
- The network fetch, `simplexml_load_string` and `Cache::get`/`Cache::set` are left out. The document is an abstract tree, the download result is an `Option<Node>` parameter, and the cache is a field.
- An invalid document, which makes `simplexml_load_string` return false, is not modelled. The cache expiry of 30 days is not modelled either.
- A description's text stands for its inner markup. The `asxml` and `preg_replace` that strip the `<desc>` tags are not modelled.
- The clock is a parameter. `refresh_if_stale` reads `time()` twice, and the model uses one `now` for both reads.
- `cache_type_name2id`, `cache_status_name2id`, `strtotime` and the users service are maps in `Search.Lookups`. The `found_status` sub-query is the abstract condition `FoundByUser`.
- The rating boundaries are floats in the code. They are tenths here, with the same values.
- `date('c', ...)` and `logtypeid2name` are not modelled. A row carries the formatted date and the type's name.
- The image query of the log entries service (entries.php:99-125) is not modelled. `images` is always the empty list.
- `skip_limits` is a field of the batch request. The single-entry service's internal request never sets it, so the limit of 500 always applies there.
- LogEntries.Entry: for a `log_uuid` containing "|", reading `$results[$log_uuid]` (okapi/services/logs/entry/WebService.php:31) hits an undefined index. PHP then raises a notice and reads null, which gives InvalidParam("log_uuid"), and that is what the model returns. If OKAPI's error handler turns notices into exceptions, the caller gets an internal error instead. That handler is not part of this model.
- Exception messages are not modelled. Errors carry only the parameter they name.
- Php.IntvalMatches: the number PHP 5 reads from a string is modelled in its decimal forms. Hexadecimal strings such as "0x1A", which PHP 5 also reads as numbers, overflow of `intval` and float rounding in the comparison are not modelled.
- The `min_founds` and `min_rcmds` conditions carry the number MySQL reads from the quoted parameter text, not the text. For a value that passes the integer test, that number is its intval (`Php.IntvalMatchesMeaning`).
- Search.SearchParamsSpec: composes the corrected `status`, `min_rcmds`, `rating` and `owner_uuid` checks listed under "## Findings". As written, a list of statuses lets through only the first, every percentage strictly between 0% and 100% is rejected, a rating "lo-hi" with a final newline gives malformed SQL, and any `owner_uuid` fails.
- Search.GetCommonSearchParams: runs the same corrected checks as SearchParamsSpec, for the same reason.
- Attrs.GsEquivOf: the loose comparison is modelled for integer-form numeric strings only. Decimal, exponent and hexadecimal forms such as "1.0" and "1e0", which PHP also reads as 1, give 0 here.
- `OkapiServiceRunner` is not part of this model. Its refusal of a method that does not exist is the error `NoSuchMethod`, which is assumed not to be an `InvalidParam`.
- `internal_id` and the other numeric columns come from `mysql_fetch_assoc` as strings. The model stores them as integers.
- Php.NumericPrefix: hexadecimal forms and overflow of PHP's integer conversion are not modelled.
- Authorize.LoginUrl: the loose `!=` against the site language is `Php.LooseEquals`, which recognises only integer-form numeric strings. Language codes are letters, for which the loose and the exact comparison agree.
- The model has no concurrency, because each request runs alone.
- The code does not generate a verifier, does not guard the token update with a compare-and-set, and has no CSRF check. The model adds none of these.
- `services/apisrv/stats.php` and the other views are outside the modelled core.

## Findings

| source | as written | input that shows it | evidently intended | confidence | as-written member | corrected member |
|---|---|---|---|---|---|---|
| trunk/okapi/services/caches/search/searching.inc.php:146-152 | The percent branch turns N% into the float N/100 and then falls through to the integer check meant for the plain form. That check rejects every fraction, so only 0% and 100% survive, and they also add `topratings >= N/100`. | `min_rcmds=50%` | Accept every N% with N in 0..100, adding only `topratings >= founds * N/100` and `founds > 0`. | not executed | Search.MinRcmdsAsWritten, Search.MinRcmdsAsWrittenRejectsPercent | Search.MinRcmdsConds, Search.MinRcmdsAcceptsPercent |
| trunk/okapi/services/caches/search/searching.inc.php:105-126 | The pattern `/^[1-5]-[1-5]$/` lets "lo-hi" followed by a newline through, because `$` also matches before a final newline. `explode` then leaves the newline in the maximum, `$divisors["hi\n"]` is undefined, and the condition reads `caches.score between <min> and ` with no upper bound. | `rating=1-3` followed by a newline | Read the maximum as its digit, giving `caches.score between -3 and 1.4`. | not executed | Search.RangeCondsAsWritten, Search.RatingNewlineAsWritten | Search.RangeConds, Search.RatingNewlineCorrected |
| trunk/okapi/services/caches/search/searching.inc.php:84-90 | The users service is called as "serivces/users/users". No such method exists, and the runner's refusal is not an InvalidParam, so the catch does not turn it into an `owner_uuid` error. | any `owner_uuid` | Call "services/users/users" and add the owners' ids. | not executed | Search.OwnerCondsAsWritten, Search.OwnerAsWrittenRefusesKnownOwner | Search.OwnerConds |
| trunk/okapi/services/caches/search/searching.inc.php:74 | The status ids are joined with "," inside one pair of quotes, giving `caches.status in ('1,3')`. MySQL compares the integer column with that one string by reading the number it starts with, so only the first listed status matches. | `status=Available\|Archived` | One quoted value per id, `caches.status in ('1','3')`, matching every listed status. | not executed | Search.StatusCondsAsWritten, Search.StatusAsWrittenFirstOnly | Search.StatusConds |
