# Imobiliária: the listing search, chat filter and admin form, in Dafny

This project models the logic of a small real-estate site: a Node server
(`src/server.js`), its admin page (`src/public/admin/admin.js`) and its public
page (`src/public/js/app.js`). The model covers these parts:

- **The chat filter.** The server reads a Portuguese chat message and derives
  constraints from it: the category (sale or rent), the kind of property, a
  price range, and a neighbourhood and a city. It then narrows a list of
  listings with them.
  - The text is normalised for case and accents.
  - Prices are written with '.' grouping thousands and ',' as the decimal
    point, optionally followed by `mil` or `milhões`.
  - Four price phrases are tried in a fixed order.
  - A bare "de 2" reads as a band of plus or minus 15% around two million. Any
    mention of rooms or area switches that rule off.
- **The smaller server pieces:**
  - the answer cache, with a five-minute lifetime;
  - the database query built from the structured filters;
  - the mapping of schema-validation issues to one message per form field;
  - the price check made when a listing is created;
  - the HTTP Basic authentication of the admin area.
- **The admin page:**
  - the photo picker (a list of URLs and up to eight local image files, with
    duplicate, type and size checks);
  - the form's sanitising;
  - `validatePayload`, which checks eleven fields in a fixed order;
  - the handling of the messages the server sends back;
  - `truncateText`.
- **The public page:**
  - the two photo viewers, whose indices wrap around;
  - `escapeHTML` and `escapeAttr`;
  - the split of listings into a sale shelf and a rent shelf;
  - the `local` text of a chat result (`bairro - cidade`), which the page
    splits back into its two parts;
  - the chat box, whose queries become strict after the first answered one.

Modules follow the source:

| module | models |
|---|---|
| `TextNormal` | `normalizeText` |
| `PriceTokens` | `normalizePriceToken`, `parseNumericToken`, `parsePriceValue` |
| `PriceRules` | `parsePriceFilter` |
| `Intent` | `detectCategory`, `detectTipoImovel` |
| `Listings`, `MessageFilters` | `applyMessageFilters` |
| `Query` | `buildQueryFromFilters` |
| `ChatCaching` | the chat cache |
| `FieldMap` | `zodIssuesToFieldMap` and its helpers |
| `AdminCreate` | the create-time price check |
| `AdminAuth` | `adminAuth` |
| `AdminPhotos` | the admin photo handlers |
| `AdminForm` | the admin form checks |
| `TextSafety` | the shared string helpers |
| `Gallery` | the viewers |
| `Showcase` | the shelves and the `local` round trip |
| `ChatClient` | `sendChat` |
| `Strings`, `Seqs`, `Records`, `Wrappers` | the JavaScript string, array and object operations the rest relies on |

Some parts of the program need the outside world; the model takes those as
parameters:

- **The regular expressions of the four price phrases:** a `Matchers` value.
  The types of its results are the capture shapes the expressions allow.
- **The admin page:**
  - `Number()`;
  - the browser URL check inside `isValidImageUrl`.
- **The server:**
  - base64 decoding;
  - the clock of the cache.
- **The chat box:** whether a request is answered.

Prices are `real`, so the scaling by a thousand or a million and the 0.85/1.15
band are exact.

Behaviour worth knowing, each a consequence of the code as written:

- "alugar" names no category (`Intent.AlugarIsNotAKeyword`).
- `1.5 milhões` is fifteen million, because every point groups thousands
  (`PriceTokens.PointIsThousands`).
- The neighbourhood filter and the city filter both apply, one after the other.
- The keywords `locação` and `estúdio` keep their accents, so they never occur
  in normalised text. Rent is still found through `locacao`.
- A non-empty location name that normalises to the empty string makes every
  message narrow the result to that place (`MessageFilters.EmptyNormalizedNameNarrows`).
- The `local` split needs more than "neither part contains ` - `". The
  neighbourhood must also not end in ` -` (`Showcase.LocalTrailingDash`).
- The admin form sends the form data as entered, not the sanitised payload
  that was validated.
- An amount `Number` cannot read is `NaN`, which passes the area check
  (`AdminForm.UnreadableAreaPasses`).
- For a limit below 3, `truncateText` returns text longer than the limit
  (`TextSafety.TruncateTooShortLimit`).
- After a refused save, the fallback "Erro ao salvar." is never shown unless
  the server itself sends that text (`AdminForm.RefusedStatusCases`).

## Model

| member | source | states |
|---|---|---|
| TextNormal.Normalize | src/server.js:111-116 | the normalised text is no longer than the input and every character in it is one normalisation keeps |
| TextNormal.NormalizeConcat | src/server.js:111-116 | normalisation works character by character: it distributes over concatenation |
| TextNormal.NormalizeFixpoint | src/server.js:111-116 | text made only of characters normalisation keeps is already normalised |
| TextNormal.NormalizeIdempotent | src/server.js:111-116 | normalising twice is normalising once |
| TextNormal.AsciiLowerIsNormal | src/server.js:111-116 | printable ASCII without capitals is left unchanged |
| TextNormal.NeverInNormalized | src/server.js:111-116 | a keyword holding a character normalisation never outputs cannot be found in normalised text |
| TextNormal.FoldIsNormal | src/server.js:111-116 | what one character becomes is itself stable under normalisation |
| PriceTokens.NormalizePriceToken | src/server.js:118-124 | the scale is a thousand only for `mil` and a million only for `m`, `mi`, `milhao`, `milhoes` after normalisation; `mil` always gives a thousand |
| PriceTokens.Multiplier | src/server.js:138-139 | the factor of each scale: a thousand, a million or one; `ParsePriceValue` states the product |
| PriceTokens.UnitTokenScale | src/server.js:118-124 | of the unit words the expressions capture, `mil` scales by 1000, `milhoe` by 1 and every other by 1e6 |
| PriceTokens.ParseNumericToken | src/server.js:126-132 | a parsed token is never negative; the empty token is null; `ParseNumericTokenDefined` and the token lemmas below state the value |
| PriceTokens.ParseNumericTokenDefined | src/server.js:126-132 | a captured token parses exactly when it has no comma, or exactly one comma and a digit |
| PriceTokens.IntegerToken | src/server.js:126-132 | a token whose dots removed leave only digits is the value of those digits |
| PriceTokens.DecimalToken | src/server.js:126-132 | a token whose dots removed leave `a,b` is the number with integer digits a and fraction digits b |
| PriceTokens.ThousandsAndDecimals | src/server.js:126-132 | `a.b,c` is the decimal number with integer digits ab and fraction digits c |
| PriceTokens.ThousandsAndDecimalsExample | src/server.js:126-132 | "1.200,50" is 1200.5 |
| PriceTokens.PointIsThousands | src/server.js:126-141 | "1.5" is 15, and "1.5 milhoes" is fifteen million |
| PriceTokens.PointsAloneAreZero | src/server.js:126-132 | a token of points only is 0, not NaN |
| PriceTokens.TwoCommasAreNaN | src/server.js:126-132 | a token with two commas is NaN |
| PriceTokens.ParsePriceValue | src/server.js:134-141 | null exactly when the number is null; otherwise the number times the unit's scale, never negative |
| PriceTokens.MillionExample | src/server.js:134-141 | "2 mi" is two million |
| PriceTokens.FiveHundredThousand | src/server.js:134-141 | "500 mil" is 500000 |
| PriceTokens.UnscaledExample | src/server.js:134-141 | with no unit the number is unchanged |
| PriceRules.ParsePriceFilter | src/server.js:143-188 | a result has a bound, its bounds are never negative and its minimum is never above its maximum |
| PriceRules.PriceFilterOfText | src/server.js:143-188 | the four rules on normalised text, in order; `RulePrecedence` states the order and `ParsePriceFilter` the bounds |
| PriceRules.RangeRule | src/server.js:147-156 | a range match whose two prices parse gives their minimum and maximum; `RangeOrderIrrelevant` and `RulePrecedence` state it |
| PriceRules.UpToRule | src/server.js:158-164 | an upper-bound match whose price parses gives that maximum alone; stated by `RulePrecedence` |
| PriceRules.FromRule | src/server.js:166-172 | a lower-bound match whose price parses gives that minimum alone; stated by `RulePrecedence` |
| PriceRules.ShorthandValue | src/server.js:178 | a value from 1 to 20 without a unit is read as millions; stated by `ShorthandBandContainsValue` |
| PriceRules.ShorthandRule | src/server.js:174-185 | the ±15% band around a positive shorthand value, none otherwise; stated by `ShorthandBandContainsValue` |
| PriceRules.RulePrecedence | src/server.js:143-188 | range, upper bound, lower bound and shorthand are tried in that order; the first whose prices parse decides, with a range giving both bounds and the others one; a room hint alone removes the shorthand |
| PriceRules.RangeOrderIrrelevant | src/server.js:147-156 | exchanging the two prices of a range match gives the same filter |
| PriceRules.RoomHintBlocksShorthand | src/server.js:145-187 | a room or area mention only switches off the shorthand rule; a result of the first three rules is the result |
| PriceRules.ShorthandBandContainsValue | src/server.js:174-187 | when only the shorthand matches, the result is the ±15% band around the value (read as millions for 1 to 20 without unit) if the value is positive and null otherwise; the band strictly contains the value |
| PriceRules.NoNumberNoPriceFilter | src/server.js:143-188 | a message with no digit, point or comma asks for no price |
| PriceRules.NoNumberNoMatch | src/server.js:147-174 | no price expression matches text without digits, points or commas |
| PriceRules.RangeExample | src/server.js:147-156 | "de 500 mil a 800 mil" is the range 500000 to 800000 |
| PriceRules.UpToExample | src/server.js:158-164 | "ate 1.5 milhoes" has the upper bound fifteen million and no lower bound |
| PriceRules.NoRoomInitialNoHint | src/server.js:145 | text without q, s, v or m has no room hint |
| PriceRules.ShorthandExample | src/server.js:174-185 | "apto de 2" is the band 1700000 to 2300000 |
| PriceRules.RoomHintExample | src/server.js:145-187 | "3 quartos de 2" asks for no price |
| Intent.DetectCategory | src/server.js:190-199 | the category is Aluguel, Venda or none |
| Intent.CategoryKeywords | src/server.js:190-199 | Aluguel exactly when `aluguel` or `locacao` occurs; Venda exactly when neither does and `venda` or `compra` does; none exactly when no keyword occurs |
| Intent.DetectTipoImovel | src/server.js:201-208 | the kind is one of casa, apartamento, cobertura, studio, or none |
| Intent.TipoKeywords | src/server.js:201-208 | casa exactly when `casa` occurs; apartamento exactly when `casa` does not and `apartamento` or `apto` does; cobertura exactly when none of those does and `cobertura` does; studio exactly when none of the four does and `studio` does; none exactly when no keyword occurs |
| Intent.AccentedKeywordsNeverMatch | src/server.js:190-208 | `locação` and `estúdio` never occur in normalised text |
| Intent.RedundantKeywords | src/server.js:190-208 | `comprar` and `estudio` add nothing to `compra` and `studio` |
| Intent.DetectionIgnoresNormalization | src/server.js:190-208 | both detections give the same answer on the normalised message |
| Intent.AlugarIsNotAKeyword | src/server.js:190-199 | a message that normalises to "alugar" names no category |
| Intent.EmptyMessageDetectsNothing | src/server.js:190-208 | the empty message names neither a category nor a kind |
| Intent.LocacaoIsRent | src/server.js:190-199 | "Locação", in any case or accent spelling that normalises like it, is rent |
| Listings.ActivePrice | src/server.js:229-236 | a rental with a non-zero rent is judged by its rent; every other listing by its sale price |
| MessageFilters.ApplyMessageFilters | src/server.js:210-257 | the loop-based filter returns the staged filters of the criteria the message gives |
| MessageFilters.MessageFilters | src/server.js:210-257 | the staged filters of the criteria the message gives; `ApplyMessageFilters`, `StagedMembers` and `MessageFiltersIdempotent` state it |
| MessageFilters.Staged | src/server.js:216-254 | the five filters in the code's order; `StagedIsOneFilter` shows they act as one filter |
| MessageFilters.LocationMatch | src/server.js:239-254 | the first candidate name the message mentions; `LocationMatchIsFirstMention` states it |
| MessageFilters.NarrowByDetections | src/server.js:216-236 | the category, strict-kind and price stages each narrow only when their constraint is present |
| MessageFilters.NarrowToFirstMention | src/server.js:239-254 | the location loop narrows to the first mentioned name, and changes nothing when none is mentioned |
| MessageFilters.StagedIsOneFilter | src/server.js:210-257 | the stages in sequence keep exactly the listings that meet every present constraint |
| MessageFilters.LocationMatchIsFirstMention | src/server.js:239-254 | the chosen location is the first non-empty name in list order whose normalised form the message contains |
| MessageFilters.ResultIsSubsequence | src/server.js:210-257 | the result keeps the input's order and drops some listings |
| MessageFilters.StagedMembers | src/server.js:210-257 | every kept listing is from the input and meets the criteria, and every input listing that meets them is kept |
| MessageFilters.KeptListingsMatch | src/server.js:216-236 | every kept listing has the detected category, mentions the detected kind when strict, and has its active price within the bounds |
| MessageFilters.KeptListingsLocated | src/server.js:239-254 | every kept listing is at the neighbourhood and the city first mentioned, when there are any |
| MessageFilters.MatchingListingsKept | src/server.js:210-257 | a listing meeting every active constraint is kept |
| MessageFilters.StagedTwice | src/server.js:210-257 | applying the same criteria twice is applying them once |
| MessageFilters.BairroStable | src/server.js:239-248 | on the result, the neighbourhood first mentioned is still the one first mentioned |
| MessageFilters.CidadeStable | src/server.js:247-254 | the same for the city |
| MessageFilters.CriteriaStable | src/server.js:210-257 | a non-empty result gives the same criteria as the list it came from |
| MessageFilters.MessageFiltersIdempotent | src/server.js:210-257 | filtering the result again with the same message changes nothing |
| MessageFilters.NoCandidateMentioned | src/server.js:239-254 | no location is chosen when the message contains no non-empty normalised name |
| MessageFilters.EmptyMessageKeepsAll | src/server.js:210-257 | the empty message keeps every listing, given matchers that capture only written text and names that do not normalise to nothing |
| MessageFilters.CombiningMarkVanishes | src/server.js:111-116 | a lone combining mark normalises to the empty string |
| MessageFilters.EmptyNormalizedNameMentioned | src/server.js:239-254 | a first neighbourhood that normalises to nothing is mentioned by every message |
| MessageFilters.EmptyNormalizedNameNarrows | src/server.js:239-254 | then every result is confined to that neighbourhood |
| Query.BuildQueryFromFilters | src/server.js:378-391 | the step-by-step query equals the key-by-key query of the filters |
| Query.QueryOf | src/server.js:378-391 | the query key by key; `QuerySelectsFiltered` and `FalsyFiltersOmitted` state what it selects and which keys it has |
| Query.QuerySelectsFiltered | src/server.js:378-391 | the query selects exactly the documents meeting every given filter |
| Query.FalsyFiltersOmitted | src/server.js:378-391 | each of the six keys is present exactly when its filter is truthy and then holds that filter's value; `preco` has `$gte` exactly for a truthy minimum and `$lte` for a truthy maximum, holding those bounds, and is never empty |
| Query.NoFiltersSelectAll | src/server.js:378-391 | no filters give the empty query, which selects every document |
| Query.SaleUpToOneMillion | tests/smoke.test.js:101-104 | a sale up to one million maps to `{categoria: 'Venda', preco: {$lte: 1000000}}` |
| Query.ZeroBoundDropped | src/server.js:378-391 | zero bounds are falsy and leave their keys out |
| ChatCaching.Lookup | src/server.js:97-105 | a hit returns the value stored under the key |
| ChatCaching.AfterLookup | src/server.js:97-105 | a read can only remove entries, and leaves the remaining ones unchanged |
| ChatCaching.ChatCache.constructor | src/server.js:93 | the cache starts empty |
| ChatCaching.ChatCache.Get | src/server.js:97-105 | `getChatCache` returns the lookup and leaves the map after the lookup |
| ChatCaching.ChatCache.Set | src/server.js:107-109 | `setChatCache` stores the value with the current time |
| ChatCaching.Store | src/server.js:107-109 | the entry stored with the current time; `FreshHit` and `OtherKeysUnaffected` state what later reads see |
| ChatCaching.AbsentKeyMisses | src/server.js:97-99 | an absent key reads as null and changes nothing |
| ChatCaching.FreshHit | src/server.js:95-105 | within five minutes of storing, the value is returned and the entry stays |
| ChatCaching.StaleMiss | src/server.js:95-105 | after five minutes the read returns null and deletes the entry, so later reads miss |
| ChatCaching.OtherKeysUnaffected | src/server.js:93-109 | storing or reading a key leaves every other key's reads unchanged |
| ChatCaching.LookupStable | src/server.js:97-105 | two reads at the same moment agree |
| FieldMap.AdminFieldLabel | src/server.js:303-320 | every label in the table is non-empty |
| FieldMap.FieldName | src/server.js:322-325 | the field is the first path element as text, empty when there is none or it is falsy |
| FieldMap.Label | src/server.js:327-353 | the label is the table's, else the field name, else "Campo"; never empty |
| FieldMap.FriendlyMessage | src/server.js:327-353 | the message is never empty; for any label and minimum, a too_small issue on text gives the length message, one on a number the "maior que" or "maior ou igual a" message by `inclusive`, an enum issue the invalid-value message, a type or string issue the format message, and any other issue the validator's message or else "<label> invalido." |
| FieldMap.ZodIssuesToFieldMap | src/server.js:355-363 | one key per field with an issue, in order of first issue, holding the first issue's message |
| FieldMap.Record | src/server.js:357-361 | one turn of the loop: a new non-empty field receives the issue's message, any other issue is skipped; `ZodIssuesToFieldMap` states the result |
| FieldMap.ShortTitleMessage | src/server.js:327-353 | a title below 3 characters reads "Titulo deve ter pelo menos 3 caracteres." |
| FieldMap.AreaNotPositiveMessage | src/server.js:327-353 | a non-positive area reads "Area (m2) deve ser maior que 0." |
| FieldMap.UnknownFieldMessage | src/server.js:327-353 | a field outside the table is labelled by its own name |
| AdminCreate.PriceCheckMeetsRequirement | src/server.js:500-511 | the listing passes exactly when its category's price is positive; a rejection names that price's field |
| AdminCreate.OtherPriceIgnored | src/server.js:500-511 | a sale ignores the rent and a rental the sale price |
| AdminCreate.CreatePriceCheck | src/server.js:500-511 | the sale check, then the rent check; `PriceCheckMeetsRequirement` states when each refuses |
| AdminAuth.TokenOf | src/server.js:35-38 | a token exists exactly for a header starting "Basic ", and has no space |
| AdminAuth.BasicToken | src/server.js:35-38 | the token of "Basic " followed by a word without spaces is that word |
| AdminAuth.AdminAuthAsWritten | src/server.js:34-57 | the decision as the code makes it; `AsWrittenAllows`, `ColonPasswordRefused` and `TrailingTextAccepted` state what it admits |
| AdminAuth.AdminAuthDecision | src/server.js:34-57 | the decision with the credentials read at the first ':'; `DecisionAllowsExactCredentials` and `DecisionMessages` state it |
| AdminAuth.AsWrittenAllows | src/server.js:34-57 | the code admits `user:pass` and also `user:pass:` followed by anything, and nothing else |
| AdminAuth.ColonPasswordRefused | src/server.js:48-51 | when the configured password contains ':', the code refuses every request, since no ':'-piece holds a ':'; the corrected reading lets the right credentials in |
| AdminAuth.ColonPasswordExample | src/server.js:48-51 | the right credentials `user:p:q` for the password `p:q` are refused by the code and accepted by the corrected reading |
| AdminAuth.TrailingTextAccepted | src/server.js:48-51 | the code admits `user:pass:junk` |
| AdminAuth.Credentials | src/server.js:48-49 | the corrected reading splits at the first ':' and recovers the whole password |
| AdminAuth.CredentialsOfPair | src/server.js:48-49 | `user:pass` is read back as user and pass when the user has no ':' |
| AdminAuth.DecisionAllowsExactCredentials | src/server.js:34-57 | with the corrected reading, access is granted exactly to a token decoding to the configured `user:pass` |
| AdminAuth.DecisionMessages | src/server.js:43-54 | a missing token is asked for, any other refusal says the credentials are invalid |
| AdminAuth.NoHeaderChallenged | src/server.js:43-46 | without a header the request is asked to authenticate |
| AdminPhotos.FingerprintInjective | src/public/admin/admin.js:239-241 | equal fingerprints mean equal name, size and modification time, even with ':' in names |
| AdminPhotos.Fingerprint | src/public/admin/admin.js:239-241 | name, size and modification time joined by ':'; `FingerprintInjective` shows it tells files apart |
| AdminPhotos.Refusal | src/public/admin/admin.js:271-287 | a file is refused exactly when it was seen before or is not an image of at most 5 MB |
| AdminPhotos.ScreenAdmits | src/public/admin/admin.js:267-287 | admitted files were unseen and admissible, are pairwise distinct, keep their batch order, and each refused file gives one message |
| AdminPhotos.ScreenBatch | src/public/admin/admin.js:267-287 | the loop computes the screening |
| AdminPhotos.ScreenFrom | src/public/admin/admin.js:267-287 | the screening of a batch against the fingerprints seen; `ScreenAdmits` states it |
| AdminPhotos.CapAsWritten | src/public/admin/admin.js:289-301 | the slot check as written; `CapAsWrittenOverflows` states the overflow |
| AdminPhotos.Cap | src/public/admin/admin.js:289-301 | the corrected slot check; `CapKeepsLimit` states it |
| AdminPhotos.Admit | src/public/admin/admin.js:263-301 | the screening of a batch followed by the corrected cap; `AdmitKeepsFilesOk` states it |
| AdminPhotos.CapAsWrittenOverflows | src/public/admin/admin.js:289-301 | with eight files chosen the code still appends new ones, making nine or more |
| AdminPhotos.CapDiffersOnlyWhenFull | src/public/admin/admin.js:289-301 | the corrected cap and the code as written agree whenever a slot is free; with none, the code keeps the batch and the correction drops it, with the same messages |
| AdminPhotos.CapKeepsLimit | src/public/admin/admin.js:289-301 | the corrected cap keeps the first admitted files up to the free slots, never exceeding eight, and adds one message when it drops some |
| AdminPhotos.AdmitKeepsFilesOk | src/public/admin/admin.js:263-301 | after a batch the chosen files are still admissible, distinct and at most eight |
| AdminPhotos.FirstMessage | src/public/admin/admin.js:303-306 | only the first collected message is shown |
| AdminPhotos.RemoveKeepsFilesOk | src/public/admin/admin.js:73-78 | removing a file keeps the chosen files valid |
| AdminPhotos.UrlOutcomeCases | src/public/admin/admin.js:243-261 | a URL is added exactly when its trimmed text is non-empty, valid and new; blank text is ignored; others are refused with their message |
| AdminPhotos.UrlOutcomeOf | src/public/admin/admin.js:243-261 | the outcome of the add-URL button; `UrlOutcomeCases` states it |
| AdminPhotos.PhotoPicker.constructor | src/public/admin/admin.js:27-28 | both lists start empty |
| AdminPhotos.PhotoPicker.ChangeFiles | src/public/admin/admin.js:263-310 | with the corrected cap `Cap`: the admitted files are appended after the chosen ones, the URLs stay, the first message is shown, and the picker stays valid with at most eight files; with a free slot this is the code as written (`CapDiffersOnlyWhenFull`) |
| AdminPhotos.PhotoPicker.AddUrl | src/public/admin/admin.js:243-261 | the outcome is as `UrlOutcomeOf` says and the URL is appended only when added; the list stays duplicate-free |
| AdminPhotos.PhotoPicker.RemoveUrl | src/public/admin/admin.js:56-60 | the URL at the index is removed and the rest keep their order |
| AdminPhotos.PhotoPicker.RemoveFile | src/public/admin/admin.js:73-78 | the file at the index is removed and the picker stays valid |
| AdminPhotos.PhotoPicker.Clear | src/public/admin/admin.js:319-328 | both lists become empty |
| AdminForm.ValidatePayload | src/public/admin/admin.js:405-464 | the error object is the report of the failing fields in the order the code checks them |
| AdminForm.Verdict | src/public/admin/admin.js:405-448 | the message each field receives, if any; `TextFieldsChecked`, `AmountsFollowCategory`, `CountCases` and `ValidationMessages` state it |
| AdminForm.FotosVerdict | src/public/admin/admin.js:450-461 | the photos' message, the last failing check winning; `FotosCases` states it |
| AdminForm.CheckTexts | src/public/admin/admin.js:408-422 | the four text checks append their fields' messages in order |
| AdminForm.CheckAmounts | src/public/admin/admin.js:424-435 | the price, rent and area checks append their fields' messages in order |
| AdminForm.CheckCounts | src/public/admin/admin.js:437-448 | the three count checks append their fields' messages in order |
| AdminForm.CheckFotos | src/public/admin/admin.js:450-461 | the four photo checks leave `fotos` holding the last failing check's message |
| AdminForm.ValidationMessages | src/public/admin/admin.js:405-464 | each field's key reads as that field's message, absent when it passes |
| AdminForm.VerdictMessagesNonEmpty | src/public/admin/admin.js:405-464 | every message is non-empty, hence truthy |
| AdminForm.LengthCheckCases | src/public/admin/admin.js:408-422 | a required text passes exactly when it is long enough; empty gets the "Informe" message and short the length message |
| AdminForm.TextFieldsChecked | src/public/admin/admin.js:408-422 | each of the four texts fails exactly when it is shorter than its minimum after trimming |
| AdminForm.AmountsFollowCategory | src/public/admin/admin.js:424-432 | the sale price is checked only for a sale and the rent only for a rental, and a missing one is asked for |
| AdminForm.UnreadableAreaPasses | src/public/admin/admin.js:434-435 | an area `Number` reads as NaN passes |
| AdminForm.CountCases | src/public/admin/admin.js:437-448 | an empty bedroom count is missing, empty suites or parking pass, and a count absent from the payload is refused |
| AdminForm.FotosCases | src/public/admin/admin.js:450-461 | the photos pass exactly when every URL is valid and the files are at most eight images within 5 MB |
| AdminForm.PickerPasses | src/public/admin/admin.js:450-461 | the state the corrected photo picker keeps always passes the photo checks; the picker as written can hold nine files, which fail the check at lines 450-452 |
| AdminForm.Sanitized | src/public/admin/admin.js:545-559 | the keys are unchanged, unlisted keys keep their values, and each listed key holds `SanitizeInput` of its value, so it has no angle bracket; with `SanitizeKeepsOthers`, only the brackets go |
| AdminForm.SanitizePayload | src/public/admin/admin.js:545-559 | the loop over the listed keys computes the sanitised payload |
| AdminForm.SanitizedIdempotent | src/public/admin/admin.js:545-563 | sanitising a sanitised payload changes nothing |
| AdminForm.NormalizeServerFieldErrors | src/public/admin/admin.js:531-538 | the server's fields with a truthy message, in their order |
| AdminForm.NormalizedGet | src/public/admin/admin.js:531-538 | each field reads as the server's message when that is truthy and is absent otherwise |
| AdminForm.NormalizeIdempotent | src/public/admin/admin.js:531-538 | normalising twice is normalising once |
| AdminForm.FirstValidationMessage | src/public/admin/admin.js:540-543 | the message shown is never empty |
| AdminForm.FirstValidationMessageCases | src/public/admin/admin.js:540-543 | it is the first truthy message when there is one |
| AdminForm.FirstValidationMessageFallback | src/public/admin/admin.js:540-543 | it is the request to review the fields exactly when no message is truthy |
| AdminForm.NormalizeKeepsFirstMessage | src/public/admin/admin.js:531-543 | dropping falsy messages does not change which message is shown |
| AdminForm.ReportEmpty | src/public/admin/admin.js:341-346 | the error object is empty exactly when no field fails |
| AdminForm.ReportFirstMessage | src/public/admin/admin.js:540-543 | a non-empty report shows the message of the first failing field |
| AdminForm.ValidationOutcome | src/public/admin/admin.js:341-346 | after validation the object is empty exactly when no field fails, otherwise the status is the first failing field's message in check order |
| AdminForm.Submit | src/public/admin/admin.js:336-353 | the form is sent exactly when no field of the sanitised payload fails, with the form data as entered as its body; otherwise the report and its first message are shown |
| AdminForm.RefusedStatusCases | src/public/admin/admin.js:357-361 | the status is the server's error text, else the first server message; the save failure text only appears when the server sends it |
| AdminForm.RefusedStatus | src/public/admin/admin.js:357-361 | the status after a refused save; `RefusedStatusCases` states it |
| TextSafety.SanitizeInput | src/public/admin/admin.js:561-563 | the result has no angle bracket and is no longer than the input |
| TextSafety.SanitizeKeepsOthers | src/public/js/app.js:335-337 | sanitising deletes exactly the angle brackets and keeps every other character in order |
| TextSafety.SanitizeFixpoint | src/public/admin/admin.js:561-563 | text is unchanged exactly when it has no angle bracket |
| TextSafety.SanitizeIdempotent | src/public/admin/admin.js:561-563 | sanitising twice is sanitising once |
| TextSafety.EscapeHTMLIsPerChar | src/public/js/app.js:367-374 | the five passes, ampersand first, escape each character exactly once |
| TextSafety.EscapeHTML | src/public/js/app.js:367-374 | the five replacements in turn; `EscapeHTMLIsPerChar`, `EscapedTextIsInert` and `EscapeRoundTrip` state it |
| TextSafety.EscapeAttrIsPerChar | src/public/js/app.js:376-378 | the same with the backtick |
| TextSafety.EscapeAttr | src/public/js/app.js:376-378 | `escapeHTML` and then the backtick; `EscapeAttrIsPerChar` states it |
| TextSafety.EscapedTextIsInert | src/public/js/app.js:367-378 | escaped text has no `<`, `>`, `"` or `'`, and attribute text no backtick either |
| TextSafety.EscapeRoundTrip | src/public/js/app.js:367-378 | reading escaped text back as entities gives the original |
| TextSafety.TruncateText | src/public/admin/admin.js:211-215 | text that fits is returned unchanged |
| TextSafety.TruncateBounds | src/public/admin/admin.js:211-215 | for a limit of 3 or more the result fits, and a cut text is its first limit−3 characters and "..." |
| TextSafety.TruncateTooShortLimit | src/public/admin/admin.js:211-215 | below 3 the result exceeds the limit |
| ChatClient.ChatText | src/public/js/app.js:225 | the sent text has at most 1000 characters and no angle bracket, and is the sanitised trimmed text when that fits, otherwise exactly its first 1000 characters |
| ChatClient.ChatTextEmpty | src/public/js/app.js:225-226 | nothing is sent exactly when the trimmed text is only angle brackets |
| ChatClient.RequestFor | src/public/js/app.js:225-231 | a request exists exactly for a non-empty text, and is strict exactly after an answered query |
| ChatClient.ChatSession.constructor | src/public/js/app.js:222 | the page starts with no query made |
| ChatClient.ChatSession.Type | src/public/js/app.js:225 | the box holds what the user typed, and the counter is unchanged |
| ChatClient.ChatSession.SendChat | src/public/js/app.js:224-271 | sends the request for the box; only an answered request increments the counter and clears the box |
| ChatClient.StrictAfterFirstAnswer | src/public/js/app.js:222-231 | over a run of sends, a request is non-strict exactly when no earlier one was answered |
| Gallery.WrapInRange | src/public/js/app.js:199-210 | with photos, the clamp lands on a photo and leaves a valid index alone |
| Gallery.Wrap | src/public/js/app.js:199-210 | the clamp of both viewers; `WrapInRange` and `WrapSteps` state it |
| Gallery.WrapSteps | src/public/js/app.js:212-220 | a step from a valid index is next or previous modulo the count |
| Gallery.WrapStepsInverse | src/public/js/app.js:212-220 | a step forward then back, or back then forward, returns to the same photo |
| Gallery.Viewer.constructor | src/public/js/app.js:21-25 | both viewers start with no photos at index 0 |
| Gallery.Viewer.OpenModal | src/public/js/app.js:67-72 | both viewers take the property's photos and the property viewer starts at the first |
| Gallery.Viewer.UpdatePropertyImage | src/public/js/app.js:174-184 | the property index is clamped, and nothing changes without photos |
| Gallery.Viewer.PropertyPrevious | src/public/js/app.js:135-138 | the property viewer moves back one, the last before the first |
| Gallery.Viewer.PropertyNext | src/public/js/app.js:139-142 | the property viewer moves on one, the first after the last |
| Gallery.Viewer.OpenImageModal | src/public/js/app.js:186-192 | with photos, the image modal opens at the clamped index |
| Gallery.Viewer.UpdateImageModal | src/public/js/app.js:199-210 | the image index is clamped, and nothing changes without photos |
| Gallery.Viewer.GoToPreviousImage | src/public/js/app.js:212-215 | from a valid index, the previous photo, the last before the first |
| Gallery.Viewer.GoToNextImage | src/public/js/app.js:217-220 | from a valid index, the next photo, the first after the last |
| Showcase.RenderShelves | src/public/js/app.js:298-333 | the notice replaces the shelves exactly for an empty list |
| Showcase.ShelvesPartition | src/public/js/app.js:307-308 | each shelf holds exactly its category's listings in order; none is on both, and other categories are on neither |
| Showcase.ShelvesCount | src/public/js/app.js:307-308 | a list of sales and rentals only fills both shelves exactly |
| Showcase.LocalRoundTrip | src/public/js/app.js:255-258 | splitting `bairro - cidade` recovers both when neither contains " - " and the neighbourhood does not end in " -" |
| Showcase.LocalTrailingDash | src/public/js/app.js:255-258 | a neighbourhood ending in " -" loses that ending to the city |
| Showcase.Local | src/server.js:401 | `bairro - cidade`; `LocalRoundTrip` states when it splits back |
| Showcase.LocalParts | src/public/js/app.js:255-258 | the two parts of the split; `LocalRoundTrip` and `LocalTrailingDash` state it |

## Left out

- I/O and framework plumbing are not modelled: Express, its middleware and routes, the database model and its queries, and the upload storage. So are `seedIfEmpty` and `start`, the DOM rendering and event wiring, `fetch`, and focus and CSS changes.
- Regular-expression matching of the four price phrases is a parameter (`PriceRules.Matchers`), constrained only by the shapes of its captures. The room-hint expression is modelled exactly.
- TextNormal.Normalize: case mapping and canonical decomposition are modelled for ASCII and the Latin-1 letters only. Every other character is kept as it is.
- `Number()` on general strings is a parameter on the admin page. For the price tokens it is modelled exactly, on strings of digits and points.
- Floating point is left out. Prices are exact `real` numbers.
- Base64 decoding is a parameter of `AdminAuth`. The browser URL parser inside `isValidImageUrl` is a parameter of `AdminPhotos.PhotoPicker`. `Date.now()` is the `now` parameter of the cache.
- ChatCaching.ChatCache: keys are strings. Building the key with `JSON.stringify` is left out.
- The zod schemas themselves are left out. Only the mapping of their issues to messages is modelled.
- AdminForm.Payload: the payload holds the form's text entries only. `String(value)` of a `File` entry is left out.
- AdminForm.Sanitized: the model does not capture that `sanitizePayload` mutates the same `payload` object in place. It defines the result as a new value.
- Records.Fields: an object is an association list in insertion order. JavaScript's ordering of integer-like keys before the other keys is left out, since every key here is a field name.
- AdminForm.NormalizeServerFieldErrors: server field values are strings. Non-string values are left out.
- The canvas animation, `toLocaleString` price formatting, `formatFileSize` and `normalizePreviewSrc` are presentation only and are left out.
- The markup of cards and photo previews, the delete panel, `toggleCamposCategoria` and `toggleMode` are DOM only and are left out.
- ChatClient: the transcript and the mapping of chat results to listing cards are left out, except the `local` split.
- ChatClient.ChatSession.SendChat: a request that fails is modelled by `answered == false`. Its exception is not modelled. Each send is modelled as one atomic step, so overlapping sends are not modelled: `sendChat` is asynchronous and increments the counter only after both `await`s, so a second Enter or click during the first request also sends a non-strict request. `StrictAfterFirstAnswer` holds for sends made one at a time.
- AdminPhotos.PhotoPicker.ChangeFiles: the handler uses the corrected cap `Cap`, not the code as written (`CapAsWritten`). With eight files already chosen, the code appends the new batch anyway, giving nine or more files, which `validatePayload` then refuses. So `PhotoPicker.Valid`'s bound of eight files and `AdminForm.PickerPasses` hold of the corrected picker, not of the code.
- String lengths are counted in characters. They agree with JavaScript's UTF-16 `length` only within the Basic Multilingual Plane.

## Findings

| source | as written | input that shows it | evidently intended | confidence | as-written member | corrected member |
|---|---|---|---|---|---|---|
| src/server.js:48-49 | the decoded credentials are split at every ':', taking the first two pieces as user and password | password `p:q`, user `admin`: the right credentials `admin:p:q` are refused; with password `p`, the text `admin:p:x` is accepted | the user name ends at the first ':' and the password is the rest (section 2 of RFC 7617) | not executed | AdminAuth.ColonPasswordRefused, AdminAuth.ColonPasswordExample, AdminAuth.TrailingTextAccepted (on `AdminAuthAsWritten`) | AdminAuth.DecisionAllowsExactCredentials (on `AdminAuthDecision`) |
| src/public/admin/admin.js:289-301 | with no free slot the limit message is reported, but the admitted files are still appended | eight files chosen, then one more valid image | nothing is added when the limit is reached, as the message says | not executed | AdminPhotos.CapAsWrittenOverflows (on `CapAsWritten`), AdminPhotos.CapDiffersOnlyWhenFull | AdminPhotos.CapKeepsLimit, AdminPhotos.AdmitKeepsFilesOk (on `Cap`), AdminPhotos.PhotoPicker.ChangeFiles, AdminForm.PickerPasses |
