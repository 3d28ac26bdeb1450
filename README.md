# ATLAS-Backend core, modelled in Dafny

ATLAS-Backend is a private server for Fortnite clients, written in TypeScript. It also runs an interactive console for editing the server's hotfix files. This project models its sequential core and proves properties about it:

- **Profile operation engine** (`src/routes/mcp.ts`): the POST profile endpoint, modelled as the class `Mcp.ProfileService`, which owns the profile cache.
  - The load step: the cache, else the stored profile, else the template, else the empty profile.
  - The defaults filled in on the working copy, and the templateId index loop.
  - The operation switch: SetAffiliateName, both banner operations, EquipBattleRoyaleCustomization, SetCosmeticLockerSlot, PutModularCosmeticLoadout and the no-op names.
  - The `fullProfileUpdate` fallback, the response envelope and the cache write-back.
  - Both public QueryProfile endpoints. Routes are matched in registration order, so a POST to `/:accountId/public/QueryProfile` is caught by the POST route `/:accountId/:type/:operation` registered first (mcp.ts:13-14), and only the GET public endpoint is reachable; `Query` models the handler at mcp.ts:555 as written.
  - Handlers that loop (`findIndex`, the variant loop, the hole-filling loop, the slot fill) are methods with loop invariants. Each is proved equal to the operation functions of `McpOps`, and the properties are proved about those functions in `McpFacts`.
- **Hotfix console** (`src/index.ts`): modelled as the class `HotfixConsole.Console`. It holds DefaultGame.ini, curves.json, the backup file of the CurveTable toggle, and the status-line state.
  - One method per menu action: the Straight Bloom toggle, the CurveTable import merge, add/update, delete, add custom, clear all, and the toggle that comments CurveTable lines out and restores them.
  - The operations on the INI text are specified in `CurveTables`, `IniLines` and `StraightBloom`.
  - The next-id rule, the status timestamp (`StatusClock`) and the Arena leaderboard (`Leaderboard`).
- **Hotfix serving** (`src/routes/cloudstorage.ts`):
  - the season-6 table-line filter;
  - the build-keyed playlist replacement;
  - the raw-text cache (the class `CloudStorage.HotfixServer`);
  - the per-season client settings file.
- **Arena events** (`src/routes/events.ts`): the S13 to S<season> rewrite of events, windows and templates; the player's teams, tokens and Hype; and the score report that stores `arena_hype`.
- **Matchmaking** (`src/routes/matchmaking.ts`): bucket-id pieces, the account behind a token, the custom-key ticket type, and the per-account build id table (the class `Matchmaking.Matchmaker`).
- **Client version** (`src/utils/handlers/getVersion.ts`): season, build, changelist and lobby read from the user-agent.
- **Update check** (`src/utils/checkforupdate.ts`): the dotted version comparison `isNewerVersion`.
- **Ranked tracks** (`src/routes/habanero.ts`): the season 24.40 gate and its two records.

## Modelling choices

**JavaScript values**
- JSON values are `Json.Value`: undefined, null, booleans, integers, strings, arrays and objects.
- A JavaScript TypeError (reading a property of null or undefined, writing to a primitive, calling a missing method) is a `None` result. It ends the request with status 500.
- Loose equality `==`, truthiness, `Number`, `parseInt` (with radix 10 and with no radix), `parseFloat` and `String` are written out on these values.
- Decimals are exact (`Numbers.Decimal`); NaN is `None`.

**Inputs instead of effects**
- File contents, the clock, the timezone name, `uuidv4()`, `JSON.parse` of pasted loadout data, JWT verification and signing, and prompt answers are parameters.
- A file that cannot be read or parsed is `None`.

**Regular expressions**
- Each pattern of the console is a predicate on one line of the `'\n'`-separated text.
- The lazy CurveTable pattern `^\+CurveTable=(.+?);RowUpdate;(.+?);(\d+);(.+)$` is `CurveTables.ParseRow`, a shortest-first search.

**JavaScript object order**
- Iteration order is left open. The templateId index and `defaultCurvesByKey` are built by methods that take keys in any order. They promise only what holds for every order.

## Model

| member | source | states |
|---|---|---|
| Mcp.ProfileService.constructor | src/routes/mcp.ts:9-10 | The profile cache starts empty. |
| Mcp.ProfileService.Operate | src/routes/mcp.ts:13-552 | The response and the new cache are those of one whole POST request (load, defaults, index loop, dispatch, fallback, envelope, write-back); a request whose index loop succeeds uses a template index in the sense of `IsTemplateIndex`. |
| Mcp.ProfileService.Query | src/routes/mcp.ts:555-654 | A public QueryProfile answers and caches exactly what `QueryPublic` says. |
| Mcp.BuildTemplateIndex | src/routes/mcp.ts:79-86 | The index loop fails exactly when some item's truthy templateId is not a string; otherwise its keys are exactly the lower-cased templateIds, each mapped to an item carrying it. |
| Mcp.FindChannelIndex | src/routes/mcp.ts:276-281 | The `findIndex` loop returns the first entry whose channel loosely equals the wanted one, or -1, or fails where reading a channel throws. |
| Mcp.UpsertVariants | src/routes/mcp.ts:266-292 | The loop over `variantUpdates` computes the upsert of every entry in order. |
| Mcp.FillHoles | src/routes/mcp.ts:251-255 | Null and undefined elements become "" and all others are kept. |
| Mcp.FillSlots | src/routes/mcp.ts:243-247 | The fresh array has exactly `count` copies of the item. |
| Mcp.EquipSlotOp | src/routes/mcp.ts:166-262 | The `slotName` switch of Equip with its loops computes `EquipSlot`. |
| Mcp.VariantsUpdateOp | src/routes/mcp.ts:264-300 | Creating the item when missing, the variant loop and the `itemAttrChanged` record compute `VariantsUpdate`. |
| Mcp.EquipOp | src/routes/mcp.ts:162-303 | EquipBattleRoyaleCustomization computes `Equip`. |
| Mcp.LockerSlotOp | src/routes/mcp.ts:304-462 | SetCosmeticLockerSlot with its variant loop computes `LockerSlot`. |
| Mcp.DispatchOp | src/routes/mcp.ts:90-522 | The operation switch computes `Dispatch` for every operation name. |
| McpFacts.BumpRule | src/routes/mcp.ts:90-522 | A successful operation moves `rvn` and `commandRevision` by exactly one for the bumping operations and leaves both alone for all others. |
| McpFacts.StatOpsBump | src/routes/mcp.ts:107-302 | SetAffiliateName, both banner operations and Equip bump both counters by one. |
| McpFacts.OtherOpsBump | src/routes/mcp.ts:304-522 | Every other name bumps only for SetCosmeticLockerSlot with its guard, and otherwise changes no counter. |
| McpFacts.EquipBumps | src/routes/mcp.ts:162-302 | Equip bumps both counters once, whatever the slot name. |
| McpFacts.LockerBumps | src/routes/mcp.ts:304-461 | The locker operation bumps when category, lockerItem and itemToSlot are all truthy; otherwise it changes nothing and records nothing. |
| McpFacts.PutModularKeepsCounters | src/routes/mcp.ts:465-522 | PutModularCosmeticLoadout never moves the counters. |
| McpFacts.ActiveKeepsChannel | src/routes/mcp.ts:288-290 | Writing `active` on a variant object keeps its channel. |
| McpFacts.MatchIsObject | src/routes/mcp.ts:276-281 | Only an object can match a truthy channel. |
| McpFacts.UpsertOneEffect | src/routes/mcp.ts:276-291 | One upsert either appends `{channel, active, owned}` when no entry matches, or sets `active` on the first matching entry and keeps every other entry. |
| McpFacts.UpsertOneDistinct | src/routes/mcp.ts:276-291 | One upsert keeps the channels of the variants array pairwise distinct. |
| McpFacts.UpsertFromDistinct | src/routes/mcp.ts:266-292 | The whole loop keeps channels distinct, starting from distinct channels or no array. |
| McpFacts.Kept | src/routes/mcp.ts:272-274 | No entry kept is one that the three `continue` tests skip, and none are added. |
| McpFacts.SkippedEntriesIgnored | src/routes/mcp.ts:271-274 | The loop over all entries equals the loop over the kept entries: skipped entries have no effect. |
| McpFacts.EquipSimpleSlot | src/routes/mcp.ts:168-237 | A simple slot sets exactly its `favorite_*` attribute to the item, keeps the items and records one `statModified`. |
| McpFacts.EquipFillAll | src/routes/mcp.ts:238-247 | Index -1 of Dance or ItemWrap gives a list of 6 or 7 copies of the item, with "" standing for a null item. |
| McpFacts.SlotListSets | src/routes/mcp.ts:248-255 | Writing index n sets exactly position n, keeps every other non-null element, extends the list to n+1 when needed and leaves no hole. |
| McpFacts.EquipSetsIndex | src/routes/mcp.ts:238-260 | Equip with any other index of Dance or ItemWrap stores that filled list as the favourite attribute. |
| McpFacts.LockerDanceRange | src/routes/mcp.ts:410-422 | Dance writes only slot indices 0 to 5; any other index leaves items and attributes alone. |
| McpFacts.LockerWrapRange | src/routes/mcp.ts:423-449 | ItemWrap writes only slot indices 0 to 7; any other index leaves items and attributes alone. |
| McpFacts.LockerWrapMinusOne | src/routes/mcp.ts:424-446 | The -1 fill branch sits under the `>= 0` test, so -1 leaves the locker and favourites alone. |
| McpFacts.FavoriteLookup | src/routes/mcp.ts:311 | The favourite found through the index built at lines 79-86 is the id of an item whose templateId lower-cases to the lower-cased item name, when one exists; otherwise it is "". |
| McpFacts.LockerSimpleCategory | src/routes/mcp.ts:354-409 | A simple category stores `[itemToSlot]` in its slot's items and the given favourite in its `favorite_*` attribute. |
| McpFacts.PutModularItems | src/routes/mcp.ts:467-505 | A new loadout item is added, under the fresh id, exactly when the loadout type has no preset yet; otherwise the item ids stay the same. |
| McpFacts.PutModularCreates | src/routes/mcp.ts:477-511 | For a loadout type without a preset the item under the fresh id is `{templateId: loadoutType, attributes: <parsed loadout data>, quantity: 1}`, and the `itemAdded` record of that item is among the changes. |
| McpFacts.PutModularPresets | src/routes/mcp.ts:477-505 | For a loadout type without a preset, its preset maps `presetId` to the fresh id (in an object of presets only that key changes) and the `statModified` record of the presets is among the changes; a type with a preset leaves the presets unchanged. |
| McpFacts.LoadoutDataWritten | src/routes/mcp.ts:508-517 | Writing the parsed data into an existing item replaces its `attributes`, keeps the other items, and records `itemAttrChanged` with the data's `slots`. |
| McpFacts.PutModularNoSecondItem | src/routes/mcp.ts:477-505 | A repeated request for the same loadout type adds no further item, whatever id it draws. |
| McpFacts.ServeEnvelope | src/routes/mcp.ts:524-541 | A successful response carries the loaded `rvn` as base (`BaseRevision`, line 88), base plus bump as revision, the bumped command revision, and the recorded changes or a single `fullProfileUpdate` (QueryProfile or no change). It also carries the constants of the envelope. |
| McpFacts.ServeCache | src/routes/mcp.ts:37-72 | A request touches only its own cache key. Without a body or profile id nothing changes; a failing handler leaves what the load step cached; a success caches the JSON clone of the result (the write-back at line 544). |
| McpFacts.LoadedDocIsJson | src/routes/mcp.ts:71 | The working copy of a request, cloned at line 41 or 71, is a JSON document. |
| McpFacts.QueryProfileStable | src/routes/mcp.ts:524-544 | A second QueryProfile answers the same and leaves the cache as the first one left it, whatever the files now hold. |
| McpFacts.FirstQueryOfNewAccount | src/routes/mcp.ts:52-68 | The first QueryProfile of an account without a stored profile or template answers and caches the empty profile at revision 0. |
| McpFacts.QueryPublicFacts | src/routes/mcp.ts:555-654 | The public query at most caches the stored profile of an uncached key. It answers exactly when the profile id is non-empty, with one `fullProfileUpdate` and base = revision = `rvn || 0`. |
| McpOps.Filled | src/routes/mcp.ts:251-255 | After the hole-filling loop no element is null or undefined and every other element is unchanged. |
| McpOps.FindChannel | src/routes/mcp.ts:276-281 | A position found is the first whose channel loosely equals the wanted one; -1 means no entry matches; a crash means some entry is null or undefined. |
| McpOps.WriteLoadoutData | src/routes/mcp.ts:507-518 | Writing the parsed loadout data keeps the set of item ids, and a missing item is left alone. |
| Profiles.Normalize | src/routes/mcp.ts:73-77 | The defaults: missing or falsy counters become 0, and missing `items`, `stats` and `stats.attributes` become empty. |
| Profiles.NormalizeToProfile | src/routes/mcp.ts:73-77 | Storing a working copy and filling in its defaults gives the working copy back. |
| Profiles.ToProfileNormalize | src/routes/mcp.ts:73-77 | A stored profile with every part present is unchanged by the defaults. |
| Profiles.NormalizeIdempotent | src/routes/mcp.ts:73-77 | Filling in the defaults twice is the same as once. |
| Profiles.EmptyProfileNormal | src/routes/mcp.ts:58-63 | The empty profile already has all its defaults. |
| Profiles.CloneProfileFacts | src/routes/mcp.ts:544 | A clone through `JSON.stringify` (also at lines 41 and 71) is JSON, a clone of JSON is the same profile, and cloning twice is cloning once. |
| Json.GetPut | src/routes/mcp.ts:109-121 | A property written is the one read back. |
| Json.GetPutOther | src/routes/mcp.ts:109-121 | Writing one key of an object keeps every other key. |
| Json.PutPathThenGet | src/routes/mcp.ts:354-409 | A write along a path of objects succeeds, and reading the path gives the value written. |
| Json.LooseEqSymmetric | src/routes/mcp.ts:280 | The channel comparison `==` is symmetric. |
| Json.LooseEqNum | src/routes/mcp.ts:243 | A value loosely equal to a number converts to that number. |
| Json.NonNegativeNotMinusOne | src/routes/mcp.ts:424-436 | No value is both `>= 0` and `== -1`: the reason the ItemWrap fill is unreachable. |
| Json.CloneIsJson | src/routes/mcp.ts:71 | The clone of a defined value is JSON (also at line 41). |
| Json.CloneOfJson | src/routes/mcp.ts:71 | Cloning JSON changes nothing (also at line 41). |
| Json.CloneIdempotent | src/routes/mcp.ts:544 | A second clone changes nothing. |
| HotfixConsole.Console.constructor | src/index.ts:17-19 | The console starts over the files as they are, with an empty status and no refresh pending. |
| HotfixConsole.Console.SetStatusMessage | src/index.ts:22-49 | The status becomes the message with a grey timestamp. The last displayed message and the refresh flag change only when the message differs from the last displayed one. |
| HotfixConsole.Console.ConsumeRefresh | src/index.ts:1078-1082 | A pending refresh is reported once and cleared. |
| HotfixConsole.Console.ToggleStraightBloom | src/index.ts:150-206 | Switches the sniper lines off when any occurs, otherwise on, with the matching status. An unreadable sniper.json leaves the file and reports the failure. |
| HotfixConsole.Console.ImportOne | src/index.ts:313-399 | One match changes the files and counters exactly as `ImportRow` says. |
| HotfixConsole.Console.ImportCurveTables | src/index.ts:209-443 | No files, a cancelled selection, no matches or a declined confirmation change nothing and set their status. A confirmed import runs `ImportAll` over the matches with some valid key index and reports its counts. |
| HotfixConsole.Console.AddOrUpdateCurve | src/index.ts:925-975 | Refused while CurveTables are off (the check at lines 685-688); a cancelled value prompt changes nothing; otherwise the files become `AddOrUpdate` and the status says so. |
| HotfixConsole.Console.DeleteCurveTable | src/index.ts:903-924 | Refused while CurveTables are off (lines 685-688); otherwise the files become `DeleteCurve` with the removed or not-found status. |
| HotfixConsole.Console.AddCustomCurve | src/index.ts:750-815 | Refused while CurveTables are off (lines 685-688); cancelled prompts change nothing; an unparsable paste reports the format error; otherwise the custom curve is added. |
| HotfixConsole.Console.ClearCurves | src/index.ts:832-867 | Refused while CurveTables are off (lines 685-688); only a "Y" answer, in either case, clears, and anything else reports "Cancelled.". |
| HotfixConsole.Console.ToggleAllModifications | src/index.ts:987-1033 | With a backup, the recorded lines are restored and the backup is removed. Without one, every active CurveTable line is commented out and the backup records them. |
| HotfixConsole.RestoreLines | src/index.ts:1000-1004 | The restore loop computes `RestoreAll` of the recorded lines. |
| HotfixConsole.CommentOut | src/index.ts:1011-1024 | The disable loop yields `DisabledText` of the file and records `Recorded`, the active lines. |
| HotfixConsole.NextCurveId | src/index.ts:788-789 | The maximum taken one id at a time gives `NextId`, the same rule as at lines 377-378. |
| HotfixConsole.BoundsGiveNext | src/index.ts:377-378 | A bound of the numeric ids that is 0 or attained determines the next id. |
| HotfixConsole.TakeId | src/index.ts:377 | Folding one more id into the maximum keeps it the maximum of the ids seen. |
| HotfixConsole.BuildIndex | src/index.ts:307-310 | `defaultCurvesByKey` maps every key of curves.json to an id whose curve has that key. |
| HotfixConsole.ImportNewRow | src/index.ts:369-397 | An unknown key without a line adds the imported curve under the next id, and its line after "[AssetHotfix]". |
| HotfixConsole.CountParts | src/index.ts:406-411 | At most four parts, and none when every counter is 0. |
| StatusClock.DisplayHour | src/index.ts:29-30 | The hour shown is between 1 and 12. |
| StatusClock.Meridiem | src/index.ts:28 | The suffix is "AM" or "PM"; `ClockFace` says which. |
| StatusClock.ClockFace | src/index.ts:25-30 | The hour shown is 12 exactly at midnight and noon, and the suffix is AM exactly before noon. |
| StatusClock.ClockRoundTrip | src/index.ts:25-30 | The shown hour and its suffix give back the 24-hour hour. |
| StatusClock.TwoDigits | src/index.ts:26-27 | Minutes and seconds are two digits that read back as the number. |
| StatusClock.Timestamp | src/index.ts:37 | The timestamp starts with the shown hour, before its first ':'. |
| StatusClock.StatusLine | src/index.ts:39 | The stored status starts with the message. |
| StraightBloom.Toggled | src/index.ts:160-200 | The switch goes on exactly when no sniper line occurs in the text. |
| StraightBloom.Toggle | src/index.ts:160-200 | The method with the two scans computes `Toggled`. |
| StraightBloom.AnySniperLine | src/index.ts:160 | The `some` scan returns true exactly when some sniper line occurs in the text. |
| StraightBloom.RemoveEach | src/index.ts:164-166 | The `forEach` loop leaves the text with every sniper line removed in turn, as `RemoveLines` says. |
| StraightBloom.EnableAfterComment | src/index.ts:172-196 | The two scans and the splice compute `Enabled`: the sniper lines go after the first "# Straight Bloom" below the last "[AssetHotfix]", or the text is kept. |
| StraightBloom.FindLastHotfix | src/index.ts:176-181 | The backward scan finds the last trimmed "[AssetHotfix]" line, or -1. |
| StraightBloom.FindBloomComment | src/index.ts:186-191 | The forward scan finds the first trimmed "# Straight Bloom" line from the given one on, or -1. |
| StraightBloom.BelowLastMarks | src/index.ts:176-191 | The line found is a comment line below the last header, with no comment line between. -1 means there is no header, or no comment below the last one. |
| StraightBloom.EnabledLines | src/index.ts:171-198 | Switching on puts the sniper lines, in order, right after the comment line found; without both markers the text is unchanged. |
| StraightBloom.EnabledHasLines | src/index.ts:160-198 | After switching on with both markers present, the next switch finds the lines and switches off. |
| StraightBloom.Disabled | src/index.ts:163-168 | Switching off leaves no two '\n' side by side. |
| StraightBloom.CollapseNewlines | src/index.ts:168 | The first character is kept, no two '\n' are left adjacent, and the characters other than '\n' are kept in order. |
| StraightBloom.CollapseRun | src/index.ts:168 | Shortening a run of '\n' by one does not change the result; with `CollapseKeeps` this fixes the result of every text, each run of '\n' ending up as one. |
| StraightBloom.CollapseRunOf | src/index.ts:168 | A run of any n >= 1 '\n' between two texts collapses exactly as a single '\n' there. |
| StraightBloom.CollapseKeeps | src/index.ts:168 | Text with no doubled '\n' is left as it is. |
| StraightBloom.CollapseIdempotent | src/index.ts:168 | Collapsing twice is collapsing once. |
| StraightBloom.RemoveSoleLine | src/index.ts:164-166 | A sniper line that is a whole line followed by another line, and occurs nowhere else, is removed with its '\n'. |
| StraightBloom.RemoveLineVia | src/index.ts:165 | The second `replace` finds nothing once the first took the line. |
| StraightBloom.Spliced | src/index.ts:195-196 | `splice` adds exactly one line per sniper line; `EnabledLines` says where they go. |
| StraightBloom.SplicedSplit | src/index.ts:195-196 | The joined spliced lines split back into exactly those lines. |
| CurveTables.ParseRow | src/index.ts:261-262 | A line accepted by the pattern is the text of a well-formed record. |
| CurveTables.RowParses | src/index.ts:261-262 | The text of every well-formed record is accepted by the pattern. |
| CurveTables.RowRoundTrip | src/index.ts:261-262 | A record without ';' in its path and key is read back from its own text. |
| CurveTables.Matches | src/index.ts:262 | Every match is a well-formed record whose text is a line of the file, and there are no more matches than lines. |
| CurveTables.RowLineMatches | src/index.ts:320-336 | A record's own text is a key line for its key and an exact line for its value. |
| CurveTables.MaxId | src/index.ts:377 | The maximum is at least 0, bounds every id that `parseInt(k)` (no radix, so `0x` is hexadecimal) reads as a number, and is 0 or the value of one of them. |
| CurveTables.HexIdRaisesMax | src/index.ts:377-378 | An id "0x" followed by hexadecimal digits raises the maximum to at least their base-16 value, and the next id reads as more than it. |
| CurveTables.MaxIdUnique | src/index.ts:377 | A bound of the numeric ids that is 0 or attained equals the maximum. |
| CurveTables.IdAfter | src/index.ts:378 | `String(m + 1)` reads back through `parseInt` as m + 1. |
| CurveTables.NextIdFresh | src/index.ts:377-378 | The new id is not taken, and as a number it is greater than every numeric id (the same rule at lines 788-789). |
| CurveTables.SpaceCaps | src/index.ts:373 | Only spaces are added, and text without capitals is unchanged. |
| CurveTables.LastPiece | src/index.ts:372 | The last '.'-piece has no '.', and a key without '.' is its own last piece. |
| CurveTables.ImportedCurve | src/index.ts:381-388 | The new entry is custom, not deleted, and has the match's key. |
| CurveTables.ClearDeleted | src/index.ts:965-970 | Only the chosen curve loses its deleted state, and no other entry changes (the same at lines 352-356). |
| CurveTables.UpdateLines | src/index.ts:336-341 | Every line for the key, and only such a line, becomes the imported line (the same at lines 361-366 for custom keys). |
| CurveTables.UpdateKeyLines | src/index.ts:340-341 | The line list of the updated text is exactly that replacement. |
| CurveTables.EnableKnown | src/index.ts:342-357 | Enabling a known key keeps the curve ids and every other curve, and reports an insert exactly when "[AssetHotfix]" occurs. |
| CurveTables.AddNew | src/index.ts:377-397 | A new curve goes under the next id, and every old curve is kept; the line is inserted after "[AssetHotfix]", reported exactly when there is one. |
| CurveTables.ImportRow | src/index.ts:313-399 | Each counter only grows, and at most one rises per match. An exact duplicate is skipped with nothing changed. No curve is removed, and a curve not found by key is unchanged. |
| CurveTables.ImportAll | src/index.ts:313-399 | Importing the matches in order raises the counters by at most one per match and removes no curve. |
| CurveTables.ImportWrites | src/index.ts:336-397 | A match that is not a duplicate and has a line for its key, or an "[AssetHotfix]", leaves its exact line in the text. |
| CurveTables.ImportThenSkip | src/index.ts:320-328 | A match once written is skipped as a duplicate when imported again. |
| CurveTables.UpdateWritesLine | src/index.ts:336-341 | After an update the text holds the record's own line. |
| CurveTables.InsertWritesLine | src/index.ts:344-349 | After an insert the text holds the record's own line. |
| CurveTables.Recorded | src/index.ts:1016-1025 | The backup records exactly the active CurveTable lines. |
| CurveTables.DisableLeavesNoneActive | src/index.ts:1016-1025 | The disabled text has as many lines, none of them active; each active line gets a ';' in front and every other line is unchanged. |
| CurveTables.DisableStep | src/index.ts:1019-1023 | One round of the loop comments out exactly the lines equal to the next active match. |
| CurveTables.DisableAll | src/index.ts:1016-1025 | Once every active line has been handled, the loop has produced the disabled text. |
| CurveTables.RestoreUndoesDisable | src/index.ts:995-1028 | Restoring what the disable recorded gives the text back, for text holding no ";+CurveTable=". |
| CurveTables.RestoreFrom | src/index.ts:1000-1004 | Restoring the recorded lines below lines already back brings back every commented line in turn. |
| CurveTables.FirstZero | src/index.ts:905-911 | The stored line is the first line for the key at index 0, and there is none exactly when no line is. |
| CurveTables.DeleteCurve | src/index.ts:903-924 | Deleting removes no curve and changes no other curve, and without a match changes nothing. |
| CurveTables.DeleteRemovesLines | src/index.ts:903-924 | A delete happens exactly when a line for the key at index 0 exists. The curve is marked deleted with that first line stored and the text becomes `DeleteText`; no such line remains and no new line appears; every other non-blank line before the last is kept. |
| CurveTables.DeleteTextLines | src/index.ts:915 | The lines left are the old lines in their order, less the key's index-0 lines and the blank lines, with the last line kept (emptied when it was for the key). |
| CurveTables.ClearAll | src/index.ts:847-863 | A clear happens exactly for a "Y" answer in either case, and otherwise nothing changes. |
| CurveTables.ClearRemovesAll | src/index.ts:847-860 | After a clear the text is `ClearText`: no line is a CurveTable line, no new line appears, every other non-blank line before the last is kept, and no custom curve is left. |
| CurveTables.ClearTextLines | src/index.ts:849-850 | The lines left are the old lines in their order, less the CurveTable lines and the blank lines, with the last line kept (emptied when it was a CurveTable line). |
| CurveTables.NewValue | src/index.ts:927-945 | A static curve writes its static value. Otherwise the value entered is written, and an empty or cancelled prompt writes nothing. |
| CurveTables.AddOrUpdate | src/index.ts:925-975 | A cancelled prompt changes nothing; otherwise the curve loses its deleted state and the other curves are kept. |
| CurveTables.ZeroMatchStart | src/index.ts:949-952 | The match found starts at a "+CurveTable=" that is followed somewhere by the key at index 0, or is -1. |
| CurveTables.UpdateZeroLines | src/index.ts:950-954 | Every matching line keeps its text before the match and ends in the new curve line; other lines are unchanged. |
| CurveTables.CurveLineWritten | src/index.ts:952-962 | With a line for the key those lines are replaced. Otherwise the new line is inserted when "[AssetHotfix]" exists, and the text is unchanged when it does not. |
| CurveTables.AddCustom | src/index.ts:750-815 | Cancelled exactly when a prompt was cancelled or a name is empty; invalid only for an unparsable paste. Otherwise the new id is fresh, the old curves are kept and the line is inserted after "[AssetHotfix]". |
| CurveTables.CustomLineRoundTrip | src/index.ts:777-811 | A custom curve added from a pasted index-0 line writes that same line again under action 1, and the pasted line is in the text when "[AssetHotfix]" exists. |
| CurveTables.PrefixBlanked | src/index.ts:849 | Every CurveTable line becomes empty and every other line is kept. |
| CurveTables.ClearCustom | src/index.ts:853-856 | Exactly the custom curves are deleted. |
| IniLines.DropBlankLines | src/index.ts:850 | Blank lines other than the last are dropped: every other line before the last is kept, the last line stays last and no line is added (also at line 915). |
| IniLines.DropBlankLinesInOrder | src/index.ts:850 | The result is exactly the non-blank lines before the last, in their order, followed by the last line. |
| IniLines.HotfixInsertPoint | src/index.ts:344-346 | The insert point lies just after the '\n' that ends the line of the first "[AssetHotfix]". |
| IniLines.InsertAfterHotfix | src/index.ts:344-347 | The new line and a '\n' go in at the insert point, reported exactly when "[AssetHotfix]" occurs; otherwise the text is unchanged. |
| IniLines.InsertAfterMarkerLine | src/index.ts:344-347 | When "[AssetHotfix]" is on a line that does not end the text, the new line becomes the line right after it. |
| IniLines.InsertedIsLine | src/index.ts:344-347 | The inserted line is a line of the new text. |
| IniLines.FirstInLine | src/index.ts:1002 | The first occurrence of a one-line pattern is in the first line holding it (also at line 344). |
| IniLines.ReplaceFirstLine | src/index.ts:1002 | Replacing the first occurrence of a pattern that is a whole line, with no earlier line holding it, replaces exactly that line. |
| Leaderboard.Collect | src/index.ts:470-500 | The scan of the folder listing pushes one entry per listed account. |
| Leaderboard.Collected | src/index.ts:472-500 | The entries are exactly those of readable directories other than "host" in any case, and no entry is the host's. |
| Leaderboard.ArenaPoints | src/index.ts:487 | The points are the truthy `arena_hype` or 0. |
| Leaderboard.Insert | src/index.ts:503 | Inserting keeps every entry, as often as it occurs. |
| Leaderboard.InsertDescending | src/index.ts:503 | Inserting into a descending list keeps it descending. |
| Leaderboard.SortDescending | src/index.ts:503 | The sort orders entries by points, highest first. |
| Leaderboard.SortPermutes | src/index.ts:503 | The sort is a permutation of the entries. |
| Leaderboard.InsertStable | src/index.ts:503 | An inserted entry goes before the entries with its own points. |
| Leaderboard.SortStable | src/index.ts:503 | The sort is stable: entries with equal points keep their input order. |
| Leaderboard.LeaderboardOrder | src/index.ts:472-503 | The board is descending, a permutation of the collected entries, holds every listed account and only those, and never the host. |
| Leaderboard.NameCell | src/index.ts:516-521 | The name cell is exactly 35 characters. |
| Leaderboard.NameCellShape | src/index.ts:516-521 | A name of at most 35 characters is shown whole and padded with spaces; a longer one is its first 32 characters and "...". |
| Leaderboard.UnknownName | src/index.ts:516 | An empty name shows as "Unknown". |
| Leaderboard.RankCell | src/index.ts:513 | The rank is right-aligned in at least 4 characters and ends in the rank number. |
| Leaderboard.PointsCell | src/index.ts:523 | The points are right-aligned in at least 12 characters and end in the points text. |
| Leaderboard.RowLine | src/index.ts:526-531 | A row starts with the rank's colour and the rank. |
| Leaderboard.RenderRows | src/index.ts:512-532 | There is one row per entry, each rendered at its own index. |
| Leaderboard.ShowLeaderboard | src/index.ts:466-535 | The board is the sorted collection; an empty board prints the no-players line and otherwise each entry gets its row in sorted order. |
| CloudStorage.DropTableLinesIdempotent | src/routes/cloudstorage.ts:100-110 | Dropping the table lines a second time changes nothing. |
| CloudStorage.DropTableLinesNone | src/routes/cloudstorage.ts:100-110 | A file without table lines passes the filter unchanged. |
| CloudStorage.PlaylistFor | src/routes/cloudstorage.ts:113-163 | The playlist is that of the first table entry whose build equals the client's build as a number. |
| CloudStorage.ReplacementFor | src/routes/cloudstorage.ts:113-164 | Every replacement equals its find string except that `bEnabled=false` becomes `bEnabled=true`, and a NaN build has none. |
| CloudStorage.OtherFilesRaw | src/routes/cloudstorage.ts:100-112 | Every file other than DefaultGame.ini is served as stored. |
| CloudStorage.LateUnlistedRaw | src/routes/cloudstorage.ts:100-169 | After season 6, or for a NaN season, a build outside the table is served raw. |
| CloudStorage.ListedBuildFirstOnly | src/routes/cloudstorage.ts:163-169 | For a listed build only the first disabled entry is enabled, and the text around it is kept. |
| CloudStorage.HotfixServer.constructor | src/routes/cloudstorage.ts:8 | The cache starts empty. |
| CloudStorage.HotfixServer.SystemFile | src/routes/cloudstorage.ts:79-177 | A cached file is served from the cache without a read. A read fills the cache with the raw text, and the filter and replacement apply only to the answer. A failed read caches nothing. |
| CloudStorage.SettingsFile | src/routes/cloudstorage.ts:194-197 | The settings file name starts with "ClientSettings-"; the same name is used for upload (line 253) and download (line 292). |
| CloudStorage.SettingsFilePerSeason | src/routes/cloudstorage.ts:194-197 | Different seasons use different files. |
| CloudStorage.ListedLength | src/routes/cloudstorage.ts:200-212 | The listed length is between the byte count and twice it, and equals the byte count exactly when every byte is below 0x80. |
| CloudStorage.ListSettings | src/routes/cloudstorage.ts:179-230 | The list holds one entry, named ClientSettings.Sav for the account, exactly when the season's file exists, and none otherwise. |
| CloudStorage.PutSettings | src/routes/cloudstorage.ts:232-274 | Only "clientsettings.sav" in any case is accepted, and only the season's file changes; any other name changes nothing. |
| CloudStorage.GetSettings | src/routes/cloudstorage.ts:276-301 | A download finds a file exactly when the season's file exists. |
| CloudStorage.PutThenGet | src/routes/cloudstorage.ts:232-301 | An accepted upload is what that season downloads and lists next. |
| CloudStorage.RejectedPutKeeps | src/routes/cloudstorage.ts:245-247 | A rejected upload changes nothing any season downloads. |
| Events.ReseasonThirteen | src/routes/events.ts:50-82 | For a season 13 client the rewrite changes nothing. |
| Events.ReseasonWithoutMarker | src/routes/events.ts:50-82 | Text without "S13" is kept for every season. |
| Events.ReseasonField | src/routes/events.ts:49-60 | A string field is rewritten; a missing or non-string field is kept. |
| Events.ReseasonTokens | src/routes/events.ts:61-70 | The token list of an array field is rewritten token by token, keeping its length. A token that is not a string fails the download, and a non-array field is kept. |
| Events.ReseasonWindow | src/routes/events.ts:53-72 | A rewritten window is an object with exactly the keys of the window it spreads. |
| Events.ReseasonEvent | src/routes/events.ts:47-75 | Only a defined, non-null event can be rewritten; `null` or `undefined` fails the download. |
| Events.ReseasonTemplate | src/routes/events.ts:76-85 | A rewritten template is an object with exactly the keys of the template it spreads. |
| Events.MapAll | src/routes/events.ts:47 | `map` keeps length and order, and one failure fails the whole map (also at line 79). |
| Events.WindowThirteen | src/routes/events.ts:53-72 | At season 13 a window whose token lists hold only strings is copied unchanged. |
| Events.EventThirteen | src/routes/events.ts:47-75 | At season 13 a JSON event with such windows is its own rewrite. |
| Events.ArenaHype | src/routes/events.ts:28-44 | The Hype is 0 unless saving is on; when it is on, it is the profile's truthy `arena_hype` or 0. |
| Events.HypeFromProfile | src/routes/events.ts:31-39 | A saving server reports the stored Hype when it is truthy. |
| Events.TeamKeyInjective | src/routes/events.ts:99-108 | Different divisions have different team keys. |
| Events.Teams | src/routes/events.ts:98-109 | The teams of divisions 1 to n: n keys, each mapped to the player alone. |
| Events.PlayerTeams | src/routes/events.ts:88-113 | The player owns exactly ten teams, Division1 to Division10, and one Division1 token. |
| Events.DownloadContents | src/routes/events.ts:47-115 | A successful download holds the events and templates rewritten one for one, in order, and the player record. |
| Events.DownloadFails | src/routes/events.ts:11-121 | A download answers `[]` exactly when a file is unusable or an event cannot be rewritten. |
| Events.LoadedProfile | src/routes/events.ts:150-160 | The report updates the account's profile, else the template with the account id set. |
| Events.WithHype | src/routes/events.ts:162-167 | Only an object or array profile can take the Hype; writing into a primitive fails. |
| Events.WithHypeWrites | src/routes/events.ts:162-167 | When `stats` and `stats.attributes` are falsy or objects, the Hype lands at `stats.attributes.arena_hype`, `stats` is the only key added or changed, and every other key is kept. |
| Events.ReportScore | src/routes/events.ts:124-185 | Success is exactly status 200, and a profile is written only in a successful report. |
| Events.ReportFails | src/routes/events.ts:124-185 | `{success: false}` with status 500 exactly when the body or config cannot be read, or saving is on with a truthy body whose `finalScores` is null, so reading `Hype` throws. |
| Events.WrittenOnlyWhenReported | src/routes/events.ts:136-139 | A profile is written only when saving is on, the body is truthy, `finalScores` is an object and its `Hype` is defined. |
| Events.ReportStoresHype | src/routes/events.ts:139-180 | The reported Hype is what the write stores, and the request succeeds whether or not the write does. |
| Matchmaking.BucketPiece | src/routes/matchmaking.ts:20-21 | No piece of the bucket id holds a ':'. |
| Matchmaking.BuildOf | src/routes/matchmaking.ts:35 | The build id is the first ':'-piece, which always exists. |
| Matchmaking.BucketFields | src/routes/matchmaking.ts:18-21 | A bucket built from colon-free pieces yields its build, region and playlist as pieces 0, 2 and 3. |
| Matchmaking.AccountOf | src/routes/matchmaking.ts:25-32 | The account used is always truthy; `DefaultAccount` says which it is (the same at lines 70-77). |
| Matchmaking.DefaultAccount | src/routes/matchmaking.ts:26-32 | The account is "default" exactly when there is no token, verification fails or the claim is falsy. |
| Matchmaking.StoredBuild | src/routes/matchmaking.ts:80 | The build id reported is never empty, and is "0" for an account with nothing stored. |
| Matchmaking.StoreThenLookup | src/routes/matchmaking.ts:35 | After storing a build for an account, its lookup yields that build and every other lookup is as before. |
| Matchmaking.TicketClaims | src/routes/matchmaking.ts:38-49 | The type is "custom" exactly when a custom key is given and "normal" otherwise; the key, bucket and account are put in unchanged. |
| Matchmaking.TicketAnswer | src/routes/matchmaking.ts:50-56 | The payload piece of the answer holds no '.'; `TicketPayload` says which piece it is. |
| Matchmaking.TicketPayload | src/routes/matchmaking.ts:50-54 | The payload handed out is the signed token's header, everything before its first '.'. |
| Matchmaking.Matchmaker.constructor | src/routes/matchmaking.ts:7 | The build id table starts empty. |
| Matchmaking.Matchmaker.RequestTicket | src/routes/matchmaking.ts:17-57 | A ticket without a bucket id throws and stores nothing. Otherwise it stores the build for the account, overwriting an earlier one, and answers the signed ticket. |
| Matchmaking.Matchmaker.SessionBuild | src/routes/matchmaking.ts:63-80 | The session reports the account's stored build id, or "0", as its `buildUniqueId` (line 140). |
| GameVersion.DefaultsWithoutRelease | src/utils/handlers/getVersion.ts:13-54 | Without a user-agent, or without "Release-" in it, the version is season 0, build 0, changelist "0" and an empty lobby. |
| GameVersion.ChangelistClean | src/utils/handlers/getVersion.ts:18-19 | The changelist never holds a '-', a space or a comma. |
| GameVersion.LobbyNamesSeason | src/utils/handlers/getVersion.ts:30 | The lobby is "LobbySeason" followed by the season. |
| GameVersion.ReleaseNumbers | src/utils/handlers/getVersion.ts:21-30 | For a release `major.minor.patch` of digits, the season is major and the build is major.(minor followed by patch). |
| GameVersion.DigitParts | src/utils/handlers/getVersion.ts:26-28 | The version read from three digit pieces. |
| GameVersion.FractionBuild | src/utils/handlers/getVersion.ts:28 | `parseFloat` of `major.minorpatch` has major as integer part and the concatenated digits as fraction. |
| UpdateCheck.IsNewerVersion | src/utils/checkforupdate.ts:27-40 | Splitting, reading and the loop give `Newer`. |
| UpdateCheck.NewerParts | src/utils/checkforupdate.ts:31-39 | The loop with its early returns over the read pieces computes `NewerFrom` from index 0. |
| UpdateCheck.NotNewerThanItself | src/utils/checkforupdate.ts:27-40 | A version is never newer than itself. |
| UpdateCheck.Asymmetric | src/utils/checkforupdate.ts:27-40 | For versions made of numbers, at most one of two versions is newer than the other. |
| UpdateCheck.ComparedAsNumbers | src/utils/checkforupdate.ts:28-36 | With the same first piece, `m.p` is newer than `m.q` exactly when p reads as the larger number, so "1.10" is newer than "1.9". |
| UpdateCheck.MissingPieces | src/utils/checkforupdate.ts:31-39 | Missing pieces of `current` count as 0 and only `latest` is scanned, so "1.0.1" is newer than "1.0" and "1.0" is not newer than "1.0.1". |
| UpdateCheck.NonNumericBothNewer | src/utils/checkforupdate.ts:28-36 | With a non-numeric piece both versions can be newer than each other, so the numeric precondition of `Asymmetric` is needed. |
| Habanero.RankedTracks | src/routes/habanero.ts:14-37 | The two records are ranked-zb then ranked-br, both carrying the path's account id. |
| Habanero.TrackProgress | src/routes/habanero.ts:5-38 | The answer is either no records or exactly the two ranked tracks. |
| Habanero.EarlySeasons | src/routes/habanero.ts:10-12 | Seasons before 24 get no tracks. |
| Habanero.SeasonTwentyFour | src/routes/habanero.ts:10 | In season 24 a build below 24.4 gets none; from 24.4 on, or for a NaN build, it gets both. |
| Habanero.LaterSeasons | src/routes/habanero.ts:10 | Seasons after 24 get both tracks whatever the build. |
| Habanero.NaNSeasonPasses | src/routes/habanero.ts:10 | A season that is not a number passes the gate. |
| Habanero.NoReleaseNoTracks | src/routes/habanero.ts:5-10 | A client without "Release-" in its user-agent reads as season 0 and gets no tracks. |
| Numbers.ParseInt | src/utils/handlers/getVersion.ts:27 | `parseInt(s, 10)` is NaN exactly when no digit follows the leading white space and sign. |
| Numbers.ParseIntAuto | src/index.ts:377 | `parseInt(s)` without a radix: after `0x` or `0X` following the sign it is NaN exactly when no hexadecimal digit follows; otherwise it reads as `parseInt(s, 10)`. |
| Numbers.ParseIntAutoDigits | src/index.ts:377 | Decimal digits alone read the same with and without a radix, as their value. |
| Numbers.ParseIntHex | src/index.ts:377 | `0x` followed by hexadecimal digits and then a non-hexadecimal character reads as those digits in base 16. |
| Numbers.HexTen | src/index.ts:377 | Without a radix "0x10" is 16; with radix 10 it is 0. |
| Numbers.EmptyHex | src/index.ts:377 | Without a radix "0x" is NaN; with radix 10 it is 0. |
| Numbers.ParseFloatDigits | src/utils/handlers/getVersion.ts:28 | `parseFloat` of digits, a dot and digits is that decimal. |
| Numbers.NumberOf | src/utils/checkforupdate.ts:28-29 | `Number(s)` of a blank text is 0. |
| Numbers.NumberOfPrefixed | src/utils/checkforupdate.ts:28-29 | After a `0x`, `0o` or `0b` prefix (either case), `Number(s)` is a number exactly when one or more digits of that radix, and nothing else, follow, and then it is their value. |
| Numbers.NumberOfHexDigits | src/utils/checkforupdate.ts:28-29 | `0x` followed by hexadecimal digits alone is their value in base 16. |
| Numbers.NumberOfHex | src/utils/checkforupdate.ts:28-29 | `Number("0x10")` is 16 and `Number("0x")` is NaN. |
| Numbers.Trichotomy | src/routes/habanero.ts:10 | Exactly one of `<`, `===` and `>` holds between two decimals. |
| Text.JoinSplit | src/index.ts:172-196 | Joining the pieces of a text gives the text back. |
| Text.SplitJoin | src/index.ts:172-196 | Splitting joined separator-free pieces gives the pieces back. |
| Text.ReplaceFirst | src/index.ts:165 | `replace` with a string changes only the first occurrence. |
| Text.ReplaceAllSelf | src/routes/events.ts:50 | `replace(/S13/g, "S13")` changes nothing. |

## Left out

- HTTP serving, routing and the WebSocket matchmaker (Hono/Bun): transport only.
- The cloud storage file listings (`/system`, `/system/config`) and every SHA-1/SHA-256 hash: foreign hashing over directory listings.
- The constant matchmaking endpoints (waiting room, findPlayer, join, the session fields other than `buildUniqueId`): they answer fixed records.
- File system effects (reads, writes, `mkdir`, `unlink`, the async write at mcp.ts:545): contents are inputs and outputs. A failed write is not modelled, and events.ts writing profiles past the mcp cache is not modelled.
- Concurrency: each request is one atomic step, so interleavings between the cache read at mcp.ts:40-72 and the write at mcp.ts:544 are not modelled.
- The clock, the timezone name, `uuidv4`, JWT sign and verify, and `JSON.parse` of pasted data: parameters.
- Floating point: numbers are exact decimals and JSON numbers are integers, so fractional Hype or points, and rounding in `parseFloat` or `b.points - a.points`, are not modelled.
- Leaderboard.Score: points that are not a number sort as 0; JavaScript's NaN comparator results are not modelled.
- JavaScript regular expression engine semantics: the patterns are line predicates. CR line ends, and `$` sequences in replacement strings (`fullLine` containing "$&"), are not modelled.
- JavaScript object iteration order: the key index of curves.json and the templateId index are any index a loop order could produce.
- Arrays given named properties (`arr.foo = x`) keep only their elements, which is what `JSON.stringify` keeps. Reads of such a property later in the same request are not modelled.
- The console's menus, prompts, screen output, logo and the listing action (CurveTable action 3), and the arena-settings menu (src/index.ts:560-639): UI.
- The import's file-deletion prompts and their "(File deleted)" / "(File kept)" suffix (src/index.ts:412-435): UI and file removal.
- The `error.message` of a failed console action (src/index.ts:206, 440, 981, 1031) is a parameter where a status is modelled; the import's and the modify menu's outer failure paths are not modelled.
- Prompt validators (a valid curve id, a paste starting with "+CurveTable=", Y/N answers) are preconditions of the console methods, not modelled errors.
- The numeric validation of the value prompt of action 1: any entered text is taken.
- StraightBloom.Disabled: states that no '\n' is left doubled, not the exact text after removal; the exact removal is proved for a sniper line that occurs once as a whole line followed by another line (`RemoveSoleLine`).
- IniLines.InsertAfterMarkerLine: covers "[AssetHotfix]" on a line that does not end the text; on the last line without '\n' the source inserts at position 0, as `HotfixInsertPoint` models.
- CurveTables.RestoreUndoesDisable: requires that the text holds no ";+CurveTable="; otherwise the restore can strip the ';' of a line that was commented out before the disable, e.g. "x;+CurveTable=a;RowUpdate;b\n+CurveTable=a;RowUpdate;b".
- CurveTables.CustomLineRoundTrip: the round trip holds for a pasted line at index 0 only, as action 1 always writes index 0.
- UpdateCheck.Asymmetric: requires every piece to be a number; `NonNumericBothNewer` shows why.
- The update check network call and its date formatting (src/index.ts:1123-1177, checkforupdate.ts:6-24): network I/O.
- The logger and the ua-debug log appends of getVersion: console and log output only.
- The console status messages posted from matchmaking.ts (lines 36, 65 and 81): console output only.
- Stored profiles and templates are assumed to have the shape `Profiles.Profile` gives them: `rvn` and `commandRevision` numbers, `stats` an object. Three shapes the source accepts or crashes on are therefore not modelled:
  - a truthy string `rvn` such as "5", which `profile.rvn += 1` turns into "51" (mcp.ts:123);
  - a `stats` that is a string, on which the write at mcp.ts:76 throws in strict code;
  - a stored file holding `null`, which is cached at mcp.ts:47 and then throws at mcp.ts:73, on that request and on every later one for the same key.
- Mcp.VariantsUpdateOp: `profile.items` is a map of its own keys. An `itemToSlot` naming a property every object inherits ("constructor", "toString", "hasOwnProperty" and the other Object.prototype names) makes `profile.items[itemToSlotID]` (src/routes/mcp.ts:267) truthy in JavaScript, so no item is created and reading `.attributes.variants` throws (lines 276-279 and 297); the model creates the item and succeeds. `McpOps.ItemAt` reads every client-chosen item id the same way, such as `profile.items[loadoutID]` at line 508.
- Matchmaking.StoredBuild: `buildUniqueId` is a map of its own keys. For an account id naming an inherited property, `buildUniqueId[accountId] || "0"` (src/routes/matchmaking.ts:80) is a function, which `c.json` leaves out, where the model answers "0"; storing under "__proto__" (line 35) is ignored by JavaScript, where the model stores it as a key.
- Text.Lower: lower-cases ASCII letters only. `toLowerCase` also maps other letters ("É" to "é"), so templateId keys (mcp.ts:84), `FavoriteId` (mcp.ts:311), the host-account filter of the leaderboard and the settings file name differ from the source for such text.
- Leaderboard.NameCell: counts characters, while `.length`, `substring` and the `repeat` padding (src/index.ts:516-521) count UTF-16 code units, so names with characters outside the Basic Multilingual Plane are cut and padded differently. That holds for every length and index the model takes on text.
- Numbers.NumberOf: the literal "Infinity" (with or without a sign) reads as NaN, as `Decimal` has no infinite value; `parseFloat` likewise.
