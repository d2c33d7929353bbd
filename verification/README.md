# Queue-Bot legacy migration and display-channel table, in Dafny

This project models two parts of Queue-Bot, a Discord bot that manages queues of members.

**The legacy migration** (`src/db/legacy-migration/migrate.ts`) imports a CSV export of the
bot's earlier database:

- `loadExportData` appends the data lines of each export file to the collection its file
  name selects.
- `convertAndInsert` walks the legacy guilds inside one transaction. For each guild that
  still resolves on Discord it inserts the guild. For each queue channel of the guild that
  still resolves it inserts a queue:
  - the queue name is the channel's name; on a name conflict the loop retries with " (1)"
    to " (4)";
  - the legacy flags are translated into the current schema's values;
  - the queue's voice link, displays, members, schedules, access lists, priority entries
    and admins follow, in that order.

**The `display_channels` table** (`src/utilities/tables/DisplayChannelTable.ts`) is a class
over one table:

- `initTable` creates the table;
- `storeDisplayChannel` records a display message;
- `unstoreDisplayChannel` deletes a queue's rows and tries to delete their messages;
- `addEmbedId` migrates the legacy `embed_ids` column to `embed_id`.

How each part is modelled:

- **Migration as a specification.** Module `MigrationSpec` states the migration's effect as
  functions of three things: the legacy collections, the live guilds and channels, and the
  store's records before the run. The methods of module `Migration` are the source's
  loops. Each method is proved to leave the store as those functions say.
- **Migration properties.** Module `MigrationProps` proves what the migration guarantees:
  - every inserted record refers only to rows inserted before it;
  - queue names stay unique per guild;
  - earlier rows are kept;
  - unresolved guilds and channels add nothing;
  - the naming, voice-link and priority rules hold.
- **Display table.** `DisplayChannels.DisplayChannelTable` is a class with the table's
  schema flags and rows. Each method is proved against a specification function.
  `DisplayChannelProps` proves the properties of those functions.

Two behaviours of the code are easy to miss:

- **All five names taken.** The naming loop swallows every failure (the empty `catch` at
  migrate.ts:200-202), so `queue` can stay `undefined`. The first later `queue.id` read
  (migrate.ts:208, 216, and the loops after them) then throws a `TypeError`, and the
  transaction rolls the whole run back.
  - The model does this (`ExhaustedNamingAborts`).
  - Only when nothing reads `queue.id` does the loop go on. In that case it inserts just
    the guild's admins (`QueueIdUnusedLeavesAdmins`).
- **Flags the code never matches.** Legacy `msg_mode` and access-list `type` fields are CSV
  text. The code compares them with `=== 1`, `=== 2`, `=== 0` against numbers, so those
  comparisons never hold. As a result:
  - the display update type is always `New` (`Translate.CellTranslations`);
  - no blacklist or whitelist entry is ever migrated (`MigrationSpec.AccessListsNeverSelected`).

## Model

| member | source | states |
|---|---|---|
| Js.CellIsText | src/db/legacy-migration/migrate.ts:80-86 | A parsed CSV line yields text for a column it has and `undefined` otherwise, never a number or boolean |
| Js.NatToString | src/db/legacy-migration/migrate.ts:173 | The decimal text of the attempt counter is non-empty, made of digits, one digit exactly below 10 |
| Js.NatToStringInjective | src/db/legacy-migration/migrate.ts:173 | Different counters render to different texts |
| Translate.LogScopeOf | src/db/legacy-migration/migrate.ts:164 | Log scope is `All` exactly when `logging_channel_level` is truthy, unset exactly when it is not |
| Translate.DisplayButtonsOf | src/db/legacy-migration/migrate.ts:180 | Buttons are shown to nobody exactly when `hide_button` is truthy, to all otherwise |
| Translate.DisplayUpdateTypeOf | src/db/legacy-migration/migrate.ts:181 | `Edit` iff `msg_mode` is the number 1, `Replace` iff the number 2, `New` iff neither |
| Translate.MemberDisplayTypeOf | src/db/legacy-migration/migrate.ts:184 | Plain text iff `disable_mentions` is truthy, mentions iff not |
| Translate.NotificationsToggleOf | src/db/legacy-migration/migrate.ts:185 | Notifications are on iff `disable_notifications` is falsy |
| Translate.TimestampTypeOf | src/db/legacy-migration/migrate.ts:190-195 | Each of "date", "time", "date+time", "relative" maps to its own mode, in both directions; every other value maps to `Off` |
| Translate.ColorOf | src/db/legacy-migration/migrate.ts:179 | The colour enumeration's member named by the value's property key, else the table default; never anything else |
| Translate.MemberPriorityOf | src/db/legacy-migration/migrate.ts:230 | A member's priority order is 5 iff `is_priority` is truthy, unset iff not |
| Translate.CellTranslations | src/db/legacy-migration/migrate.ts:180-181 | On a CSV cell the update type is always `New`, and hiding buttons and member priority hold exactly for non-empty text |
| Translate.TimestampTypesDistinct | src/db/legacy-migration/migrate.ts:190-195 | The four recognised timestamp texts give four different modes, none `Off` |
| TimeZones.FirstMatch | src/db/legacy-migration/migrate.ts:139-142 | `find`'s index: a zone whose offset equals offset×60 with no earlier such zone, or none iff no zone matches |
| TimeZones.ZoneForOffset | src/db/legacy-migration/migrate.ts:136-143 | The name of the first zone whose UTC offset is offset×60 minutes, `undefined` iff no zone matches |
| TimeZones.NaNOffsetSelectsNothing | src/db/legacy-migration/migrate.ts:140-141 | An offset that converts to `NaN` selects no zone |
| TimeZones.LaterZonesIrrelevant | src/db/legacy-migration/migrate.ts:137-142 | Zones listed after a match never change the chosen zone |
| Store.Store.Insert | src/db/legacy-migration/migrate.ts:161-165 | A non-queue insert appends exactly that record |
| Store.Store.InsertQueue | src/db/legacy-migration/migrate.ts:175-197 | The insert succeeds iff the (guild, name) pair is free, appending the queue with its position as id; otherwise nothing changes |
| Store.InsertQueueKeepsNamesUnique | src/db/legacy-migration/migrate.ts:171-203 | A successful queue insert keeps queue names unique within each guild |
| QueueNaming.Candidate | src/db/legacy-migration/migrate.ts:173 | Attempt 0 tries the channel name; later attempts try that name extended by a suffix |
| QueueNaming.CandidatesDistinct | src/db/legacy-migration/migrate.ts:172-173 | Different attempts never try the same name |
| QueueNaming.FirstFreeAttempt | src/db/legacy-migration/migrate.ts:172-203 | The first attempt below 5 whose name is free, all earlier ones taken; none iff all five are taken |
| QueueNaming.FreeBaseNameWins | src/db/legacy-migration/migrate.ts:172-198 | A free channel name is accepted at the first attempt |
| QueueNaming.InsertQueueWithRetry | src/db/legacy-migration/migrate.ts:171-203 | The loop inserts the queue under the first free candidate after that many attempts, or inserts nothing after five; a throwing field build swallows all five |
| ExportLoader.CollectionFor | src/db/legacy-migration/migrate.ts:88-116 | A file name selects a collection only if it is that collection's file name; otherwise no collection has that name |
| ExportLoader.FileNameRecognised | src/db/legacy-migration/migrate.ts:88-116 | Each collection's file name selects exactly that collection |
| ExportLoader.SelectsExactly | src/db/legacy-migration/migrate.ts:88-116 | A name selects a collection iff it equals that collection's file name |
| ExportLoader.RowsFor | src/db/legacy-migration/migrate.ts:87-118 | A line reaches a collection iff it is a line of some file named for that collection |
| ExportLoader.RowsForUnnamed | src/db/legacy-migration/migrate.ts:80-121 | A collection no file is named for receives no lines |
| ExportLoader.RowsForNamed | src/db/legacy-migration/migrate.ts:80-121 | With distinct file names a collection receives exactly its own file's lines, whatever order the files finish in |
| ExportLoader.RowsForStep | src/db/legacy-migration/migrate.ts:87-118 | Handling one more file extends a collection by that file's lines exactly when the file is named for it |
| ExportLoader.LegacyExport.constructor | src/db/legacy-migration/migrate.ts:33-41 | All nine collections start empty |
| ExportLoader.LegacyExport.AppendFile | src/db/legacy-migration/migrate.ts:87-118 | One file's lines are appended to the collection whose file name it carries; every other collection is unchanged |
| ExportLoader.LegacyExport.LoadExportData | src/db/legacy-migration/migrate.ts:78-121 | Every collection ends as before plus the lines of the files named for it, in file order |
| MigrationSpec.QueuesOf | src/db/legacy-migration/migrate.ts:167 | The queue rows of a guild are exactly the legacy queue rows with its `guild_id` |
| MigrationSpec.DisplaysOf | src/db/legacy-migration/migrate.ts:213 | A queue's displays are exactly the display rows with its `queue_channel_id` |
| MigrationSpec.MembersOf | src/db/legacy-migration/migrate.ts:222 | A queue's members are exactly the member rows whose `channel_id` is its channel |
| MigrationSpec.SchedulesOf | src/db/legacy-migration/migrate.ts:234 | A queue's schedules are exactly the schedule rows with its `queue_channel_id` |
| MigrationSpec.AccessListOf | src/db/legacy-migration/migrate.ts:245-254 | A queue's black/white list entries are exactly the rows of its channel whose `type` is the number 0 / 1 |
| MigrationSpec.PrioritiesOf | src/db/legacy-migration/migrate.ts:263 | A guild's priority entries are exactly the priority rows with its `guild_id` |
| MigrationSpec.AdminsOf | src/db/legacy-migration/migrate.ts:273 | A guild's admins are exactly the admin rows with its `guild_id` |
| MigrationSpec.AccessListsNeverSelected | src/db/legacy-migration/migrate.ts:245-261 | Because cells are text, the `type === 0` and `type === 1` filters select nothing |
| MigrationSpec.QueueSettingsOf | src/db/legacy-migration/migrate.ts:175-197 | The queue fields build iff all three `BigInt` conversions succeed, and carry the converted counts |
| MigrationSpec.GuildRecordOf | src/db/legacy-migration/migrate.ts:161-165 | The guild record carries the legacy guild's id and log channel; its log scope is `All` exactly when `logging_channel_level` is truthy, unset otherwise |
| MigrationSpec.MemberRecordOf | src/db/legacy-migration/migrate.ts:223-231 | A member record builds iff both timestamps convert; it then belongs to the guild and queue, carries the member's id, message and converted times, and has priority order 5 iff `is_priority` is truthy |
| MigrationSpec.ScheduleRecordOf | src/db/legacy-migration/migrate.ts:235-242 | A schedule record carries the command, cron text and queue channel; its time zone is unset iff no zone matches the offset, and otherwise names a matching zone |
| MigrationSpec.DependentRecords | src/db/legacy-migration/migrate.ts:205-279 | The records after a queue build iff every member's timestamps convert, and then there is one record per voice link and per selected display, member, schedule, access-list, priority and admin row |
| MigrationSpec.UsesQueueId | src/db/legacy-migration/migrate.ts:205-271 | When the loop reads no `queue.id`, the channel is not voice-based and the queue has no display, member, schedule or priority row |
| MigrationSpec.QueueStep | src/db/legacy-migration/migrate.ts:168-279 | A queue row whose channel does not resolve leaves the records as they were; only a resolved one can throw |
| MigrationSpec.QueueStepExtends | src/db/legacy-migration/migrate.ts:168-279 | A queue row that does not throw only appends to the records |
| MigrationSpec.ConvertQueues | src/db/legacy-migration/migrate.ts:167-280 | A guild's queue rows, handled in order until one throws, only append to the records |
| MigrationSpec.GuildStep | src/db/legacy-migration/migrate.ts:152-280 | An unresolved guild leaves the records as they were; a resolved one that does not throw appends its guild record first, then only appends |
| MigrationSpec.ConvertGuilds | src/db/legacy-migration/migrate.ts:151-281 | The guild rows, handled in order until one throws, only append to the records |
| MigrationSpec.Conversion | src/db/legacy-migration/migrate.ts:151-281 | A conversion of the legacy guild collection that does not throw only appends to the records |
| MigrationSpec.ConvertQueuesThrownPersists | src/db/legacy-migration/migrate.ts:167-280 | Once a queue row throws, the guild's remaining queue rows cannot change the outcome |
| MigrationSpec.ConvertGuildsThrownPersists | src/db/legacy-migration/migrate.ts:151-281 | Once a guild row throws, the remaining guild rows cannot change the outcome |
| Migration.InsertEach | src/db/legacy-migration/migrate.ts:213-220 | A dependent-row loop appends one record per selected row, in order |
| Migration.InsertMembers | src/db/legacy-migration/migrate.ts:222-232 | The member loop succeeds iff every member's timestamps convert, and then appends their records in order |
| Migration.InsertTrailing | src/db/legacy-migration/migrate.ts:234-279 | Appends the schedule, blacklist, whitelist, priority and admin records in the loop's order |
| Migration.InsertDependents | src/db/legacy-migration/migrate.ts:205-279 | Everything after a queue insert: succeeds iff the members convert, then the store gains exactly the dependent records |
| Migration.ConvertQueue | src/db/legacy-migration/migrate.ts:168-279 | One queue row leaves the store as the queue step says, or reports the exception it throws |
| Migration.AbandonQueue | src/db/legacy-migration/migrate.ts:205-279 | With no queue created, a TypeError escapes iff the loop reads `queue.id`, changing nothing; otherwise only the guild's admins are inserted |
| Migration.ConvertQueueRows | src/db/legacy-migration/migrate.ts:167-280 | The queue loop of a guild follows the queue fold, stopping at the first exception |
| Migration.ConvertGuild | src/db/legacy-migration/migrate.ts:152-280 | An unresolved guild changes nothing; a resolved one gets its guild record, then its queues |
| Migration.ConvertGuildRows | src/db/legacy-migration/migrate.ts:151-281 | The guild loop over the legacy guild rows follows the guild fold, stopping at the first exception |
| Migration.ConvertAndInsert | src/db/legacy-migration/migrate.ts:145-286 | On success the store holds the conversion's result; on an exception the transaction rolls back and the store is unchanged |
| Migration.Migrate | src/db/legacy-migration/migrate.ts:73-76 | Loads the export files into the collections, then converts from the loaded collections |
| MigrationProps.InsertQueueKeepsConsistent | src/db/legacy-migration/migrate.ts:175-197 | Inserting a queue with a free name into a guild already present keeps the store consistent |
| MigrationProps.DependentsAttached | src/db/legacy-migration/migrate.ts:205-279 | Every record inserted after a queue belongs to its guild, and carries that queue's id when it has one |
| MigrationProps.QueueStepKeepsConsistent | src/db/legacy-migration/migrate.ts:168-279 | A queue row that does not throw keeps the store consistent and only appends |
| MigrationProps.NamedQueueKeepsConsistent | src/db/legacy-migration/migrate.ts:175-279 | A queue inserted under a free name, followed by its dependent rows, keeps the store consistent and only appends |
| MigrationProps.ConvertQueuesKeepsConsistent | src/db/legacy-migration/migrate.ts:167-280 | A guild's queue loop keeps the store consistent and only appends |
| MigrationProps.GuildStepKeepsConsistent | src/db/legacy-migration/migrate.ts:152-280 | A guild row keeps the store consistent and only appends |
| MigrationProps.ConvertGuildsKeepsConsistent | src/db/legacy-migration/migrate.ts:151-281 | The guild loop keeps the store consistent and only appends |
| MigrationProps.ConversionKeepsConsistent | src/db/legacy-migration/migrate.ts:145-286 | A conversion that does not throw keeps the store's rows and adds only records whose guild and queue are already there; queue names stay unique per guild |
| MigrationProps.UnresolvedChannelsAddNothing | src/db/legacy-migration/migrate.ts:168-169 | Queue rows whose channel does not resolve add nothing |
| MigrationProps.UnresolvedGuildsAddNothing | src/db/legacy-migration/migrate.ts:157-158 | Guild rows that do not resolve add nothing |
| MigrationProps.UnresolvedChannelsSkipped | src/db/legacy-migration/migrate.ts:167-169 | Converting a guild's queue rows gives the same outcome as converting only those whose channel resolves, wherever the others stand |
| MigrationProps.UnresolvedGuildsSkipped | src/db/legacy-migration/migrate.ts:151-158 | Converting the guild rows gives the same outcome as converting only those that resolve, wherever the others stand |
| MigrationProps.NoResolvedGuildNoInserts | src/db/legacy-migration/migrate.ts:151-158 | If no legacy guild resolves, the conversion leaves the store as it was |
| MigrationProps.ExhaustedNamingAborts | src/db/legacy-migration/migrate.ts:171-211 | When all five names are taken the queue step throws a TypeError if anything reads `queue.id`, and otherwise inserts only the guild's admins |
| MigrationProps.SecondQueueGetsSuffix | src/db/legacy-migration/migrate.ts:172-173 | A queue whose channel name is taken but whose " (1)" name is free gets the " (1)" name |
| MigrationProps.QueueIdUnusedLeavesAdmins | src/db/legacy-migration/migrate.ts:205-279 | When the loop reads no `queue.id`, a queue's dependent records are just the guild's admins |
| MigrationProps.VoiceLinkIffVoiceBased | src/db/legacy-migration/migrate.ts:205-211 | A queue gets a voice link iff its source channel is voice-based, and that link names the queue and the channel |
| MigrationProps.PriorityRanks | src/db/legacy-migration/migrate.ts:222-271 | Prioritized subjects get rank 5, and a member gets priority order 5 iff its `is_priority` is truthy |
| MigrationProps.GuildRowsRepeatPerQueue | src/db/legacy-migration/migrate.ts:263-279 | The records after each queue end with the guild's priority rows, tied to that queue, and then the guild's admins, one per row |
| DisplayChannels.StoreSpec | src/utilities/tables/DisplayChannelTable.ts:37-50 | Storing keeps the schema and either keeps the rows or appends exactly the new row; it appends iff a message id was obtained and the table has an `embed_id` column; a well-formed table stays well-formed |
| DisplayChannels.Removed | src/utilities/tables/DisplayChannelTable.ts:67-76 | The selected rows are exactly the table's rows of the queue, and of the display channel when one is given |
| DisplayChannels.UnstoreSpec | src/utilities/tables/DisplayChannelTable.ts:67-78 | After the delete a row remains iff it was there and not selected |
| DisplayChannels.DeleteRequests | src/utilities/tables/DisplayChannelTable.ts:85-88 | One deletion request per row, in row order, naming the row's display channel and message id |
| DisplayChannels.ChatPlatform.DeleteMessage | src/utilities/tables/DisplayChannelTable.ts:86-92 | Every call is recorded as a request; a deletion removes only the named message, and a failed one changes nothing |
| DisplayChannels.DeleteMessages | src/utilities/tables/DisplayChannelTable.ts:85-93 | Issues one deletion request per row, in order, whatever becomes of each; only the rows' messages can disappear |
| DisplayChannels.CopyFirstIds | src/utilities/tables/DisplayChannelTable.ts:109-114 | The per-row updates keep the number of rows |
| DisplayChannels.AddEmbedIdSpec | src/utilities/tables/DisplayChannelTable.ts:105-117 | The migration keeps the table's presence and row count; `embed_ids` survives only if nothing changed; a well-formed table stays well-formed |
| DisplayChannels.InitSpec | src/utilities/tables/DisplayChannelTable.ts:9-24 | Afterwards the table exists, `embed_ids` remains only beside `embed_id`, a missing table has no rows and an existing one keeps its row count; well-formedness is kept |
| DisplayChannels.DisplayChannelTable.constructor | src/utilities/tables/DisplayChannelTable.ts:5 | The table object reflects the database's current schema and rows, which must be well-formed |
| DisplayChannels.DisplayChannelTable.InitTable | src/utilities/tables/DisplayChannelTable.ts:9-24 | Creates the table when missing, then runs the column migration; the table stays well-formed |
| DisplayChannels.DisplayChannelTable.StoreDisplayChannel | src/utilities/tables/DisplayChannelTable.ts:32-51 | A row is added iff the send yielded a message id and the table accepts it; a failed send adds nothing |
| DisplayChannels.DisplayChannelTable.UnstoreDisplayChannel | src/utilities/tables/DisplayChannelTable.ts:59-94 | Deletes the selected rows; when asked, issues exactly one deletion request per selected row, in order, and only their messages can disappear; otherwise it issues none |
| DisplayChannels.DisplayChannelTable.AddEmbedId | src/utilities/tables/DisplayChannelTable.ts:105-117 | With `embed_ids` present, adds `embed_id`, copies first ids and drops `embed_ids`; otherwise nothing changes |
| DisplayChannelProps.StoreThenUnstore | src/utilities/tables/DisplayChannelTable.ts:32-78 | Storing then unstoring a (queue, display) pair is unstoring alone, and no row of the pair is left |
| DisplayChannelProps.UnstorePartitions | src/utilities/tables/DisplayChannelTable.ts:67-78 | The selected rows and the remaining rows together are the original rows, counted with multiplicity |
| DisplayChannelProps.UnstoreKeepsOtherQueues | src/utilities/tables/DisplayChannelTable.ts:67-78 | Other queues' rows are kept unchanged and in order |
| DisplayChannelProps.UnstoreAllOfQueue | src/utilities/tables/DisplayChannelTable.ts:75-77 | Without a display filter every row of the queue is selected and none remains |
| DisplayChannelProps.UnstoreIdempotent | src/utilities/tables/DisplayChannelTable.ts:67-78 | A second unstore selects nothing and changes nothing |
| DisplayChannelProps.CopyFirstIdsKeepsPairs | src/utilities/tables/DisplayChannelTable.ts:109-114 | The per-row updates never change a row's queue, display channel or legacy ids |
| DisplayChannelProps.CopyFirstIdsOnlyFirstIds | src/utilities/tables/DisplayChannelTable.ts:109-114 | Whatever the pairs, each row's `embed_id` is either untouched or the first legacy id of some row |
| DisplayChannelProps.CopyFirstIdsOwnId | src/utilities/tables/DisplayChannelTable.ts:109-114 | With unique pairs, after the first n updates those rows carry their own first legacy id and the rest are untouched |
| DisplayChannelProps.AddEmbedIdCopiesFirstId | src/utilities/tables/DisplayChannelTable.ts:105-117 | With unique pairs every row ends with its own first legacy id as `embed_id`, its channels kept and `embed_ids` dropped |
| DisplayChannelProps.AddEmbedIdKeepsRows | src/utilities/tables/DisplayChannelTable.ts:105-117 | The migration keeps every row, its order and its channels |
| DisplayChannelProps.AddEmbedIdIdempotent | src/utilities/tables/DisplayChannelTable.ts:105-116 | A second run of the migration changes nothing |
| DisplayChannelProps.InitTableEffect | src/utilities/tables/DisplayChannelTable.ts:9-24 | A missing table is created empty with an `embed_id` column; an up-to-date table is untouched; a second run changes nothing |

## Left out

- `checkForMigration` (migrate.ts:43-71) is not modelled: it reads the environment, prompts on stdin and copies the database file.
- The directory listing, file streams and CSV parsing are not modelled. Each export file arrives already parsed, as a name and its lines. A stream error (which rejects the load) is not modelled.
- `Promise.all` is not modelled as concurrent. The files are handled one at a time. `ExportLoader.RowsForNamed` shows that the order does not matter when file names are distinct.
- Logging is not modelled, nor the progress lines (`console.log`).
- The Discord fetches are not modelled as calls. `CLIENT.guilds.fetch`, `getGuild` and `channels.fetch` become a map from ids to guilds and channels that either resolves or does not. A fetch that rejects is not modelled.
- Library calls are parameters of `Env`:
  - `moment.tz` names and offsets;
  - the `Color` enumeration and the default colour;
  - `BigInt` of a cell;
  - `new Date(...).getTime()`;
  - the number conversion in `offset * 60`.
- JavaScript numbers are integers, and an offset is a real. Floating-point rounding is not modelled.
- `get(Color, key)` looks a key up directly. Dotted lodash paths are not modelled.
- `store.ts` is not part of this model. The store is a log of records:
  - a queue's id is its position in the log;
  - every insert but a queue's succeeds;
  - a queue insert fails only on a taken (guild, name) pair.
- `client.ts` and `node.listeners.ts` are not part of this model.
- Knex, SQL and the transaction are not modelled as such. A rolled-back transaction restores the store's records.
- Migration.InsertMembers: a member whose timestamps fail to convert is modelled as throwing a `RangeError`. Which JavaScript error is thrown is not distinguished further.
- DisplayChannels.DisplayChannelTable.InitTable: `initTable` does not await the existence check before running `addEmbedId`. The model runs them in sequence. A failing `createTable` is not modelled.
- DisplayChannels.DisplayChannelTable.AddEmbedId: the per-row updates are not awaited before the column is dropped. The model applies all of them first.
- DisplayChannels.DisplayChannelTable.AddEmbedId: `embed_ids` is modelled as a list of ids. A first id that is absent leaves the row's `embed_id` NULL.
- The auto-increment `id` column of `display_channels` is not modelled.
- DisplayChannels.DisplayChannelTable.StoreDisplayChannel: an insert or query refused by a missing table or column is modelled as an `ok == false` result with no change. It is not modelled as a rejected promise.
- DisplayChannels.DisplayChannelTable.UnstoreDisplayChannel: the same applies to a refused query.
- DisplayChannels.ChatPlatform.DeleteMessage: the fetch and delete of a message is an oracle that may or may not succeed. Which channels and messages exist on Discord is not modelled further.
