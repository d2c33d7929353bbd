/**
  The conversion loop of the legacy migration as the source runs it
  (src/db/legacy-migration/migrate.ts:73-76, 145-286): nested loops issuing
  inserts into the store, inside one transaction. Each method is proved to
  leave the store as the matching function of module MigrationSpec says.
 */
module Migration {
  import opened Wrappers
  import opened Js
  import opened Seqs
  import opened Store
  import opened QueueNaming
  import opened ExportLoader
  import opened MigrationSpec

  lemma AppendAssoc(a: seq<Record>, b: seq<Record>, c: seq<Record>)
    ensures (a + b) + c == a + (b + c)
  {
  }

  /** `for (const x of selected) store.insertX(...)`: one insert per selected row, in order. */
  method InsertEach(store: Store, rows: seq<CsvRow>, toRecord: CsvRow -> Record)
    requires forall i :: 0 <= i < |rows| ==> !toRecord(rows[i]).QueueRecord?
    modifies store
    ensures store.records == old(store.records) + MapSeq(toRecord, rows)
  {
    ghost var start := store.records;
    for i := 0 to |rows|
      invariant store.records == start + MapSeq(toRecord, rows[..i])
    {
      store.Insert(toRecord(rows[i]));
      assert MapSeq(toRecord, rows[..i + 1]) == MapSeq(toRecord, rows[..i]) + [toRecord(rows[i])];
    }
    assert rows[..|rows|] == rows;
  }

  /** The member loop; stops with `false` at the first member whose timestamps throw. */
  method InsertMembers(store: Store, env: Env, gid: Value, qid: nat, rows: seq<CsvRow>) returns (ok: bool)
    modifies store
    ensures ok <==> MapAll(MemberRecordFn(env, gid, qid), rows).Some?
    ensures ok ==> store.records == old(store.records) + MapAll(MemberRecordFn(env, gid, qid), rows).value
  {
    ghost var f := MemberRecordFn(env, gid, qid);
    ghost var start := store.records;
    for i := 0 to |rows|
      invariant MapAll(f, rows[..i]).Some?
      invariant store.records == start + MapAll(f, rows[..i]).value
    {
      var joinTime := env.epochMillis(Cell(rows[i], "display_time"));
      var positionTime := env.epochMillis(Cell(rows[i], "created_at"));
      if joinTime.None? || positionTime.None? {
        assert f(rows[i]).None?;
        return false;
      }
      var r := MemberRecord(gid, qid, Cell(rows[i], "member_id"), Cell(rows[i], "personal_message"),
                            joinTime.value, positionTime.value, Translate.MemberPriorityOf(Cell(rows[i], "is_priority")));
      store.Insert(r);
      assert rows[..i + 1][..i] == rows[..i];
    }
    assert rows[..|rows|] == rows;
    return true;
  }

  /** The inserts after a queue's members. */
  method InsertTrailing(store: Store, env: Env, t: LegacyTables, g: CsvRow, q: CsvRow, qid: nat)
    modifies store
    ensures store.records == old(store.records) + TrailingRecords(env, t, g, q, qid)
  {
    var gid := Cell(g, "guild_id");
    ghost var start := store.records;
    InsertEach(store, SchedulesOf(t, q), ScheduleRecordFn(env, gid, qid, q));
    ghost var acc := MapSeq(ScheduleRecordFn(env, gid, qid, q), SchedulesOf(t, q));
    InsertEach(store, AccessListOf(t, q, 0), BlacklistedRecordFn(gid, qid));
    AppendAssoc(start, acc, MapSeq(BlacklistedRecordFn(gid, qid), AccessListOf(t, q, 0)));
    acc := acc + MapSeq(BlacklistedRecordFn(gid, qid), AccessListOf(t, q, 0));
    InsertEach(store, AccessListOf(t, q, 1), WhitelistedRecordFn(gid, qid));
    AppendAssoc(start, acc, MapSeq(WhitelistedRecordFn(gid, qid), AccessListOf(t, q, 1)));
    acc := acc + MapSeq(WhitelistedRecordFn(gid, qid), AccessListOf(t, q, 1));
    InsertEach(store, PrioritiesOf(t, g), PrioritizedRecordFn(gid, qid));
    AppendAssoc(start, acc, MapSeq(PrioritizedRecordFn(gid, qid), PrioritiesOf(t, g)));
    acc := acc + MapSeq(PrioritizedRecordFn(gid, qid), PrioritiesOf(t, g));
    InsertEach(store, AdminsOf(t, g), AdminRecordFn(gid));
    AppendAssoc(start, acc, AdminRecordsOf(t, g));
  }

  /**
    The inserts that follow a queue's insert, in the source's order; `false`
    when a member's timestamps throw.
   */
  method InsertDependents(store: Store, env: Env, t: LegacyTables, g: CsvRow, q: CsvRow, ch: Channel, qid: nat)
    returns (ok: bool)
    modifies store
    ensures ok <==> DependentRecords(env, t, g, q, ch, qid).Some?
    ensures ok ==> store.records == old(store.records) + DependentRecords(env, t, g, q, ch, qid).value
  {
    var gid := Cell(g, "guild_id");
    ghost var start := store.records;
    if ch.isVoiceBased {
      store.Insert(VoiceRecord(gid, qid, Cell(q, "queue_channel_id")));
    } else {
      assert start + [] == start;
    }
    InsertEach(store, DisplaysOf(t, q), DisplayRecordFn(gid, qid));
    AppendAssoc(start, VoiceRecordsOf(gid, q, ch, qid), MapSeq(DisplayRecordFn(gid, qid), DisplaysOf(t, q)));
    ghost var leading := LeadingRecords(t, gid, q, ch, qid);
    ok := InsertMembers(store, env, gid, qid, MembersOf(t, q));
    if !ok {
      DependentRecordsSplit(env, t, g, q, ch, qid);
      return;
    }
    ghost var members := MapAll(MemberRecordFn(env, gid, qid), MembersOf(t, q)).value;
    AppendAssoc(start, leading, members);
    InsertTrailing(store, env, t, g, q, qid);
    AppendAssoc(start, leading + members, TrailingRecords(env, t, g, q, qid));
    DependentRecordsSplit(env, t, g, q, ch, qid);
  }

  /** One legacy queue row of a resolved guild; returns the exception that escapes, if any. */
  method ConvertQueue(store: Store, env: Env, guild: Guild, t: LegacyTables, g: CsvRow, q: CsvRow)
    returns (error: Option<Error>)
    modifies store
    ensures QueueStep(env, guild, t, g, q, old(store.records))
            == if error.None? then Ok(store.records) else Thrown(error.value)
  {
    var channelId := Cell(q, "queue_channel_id");
    if channelId !in guild.channels {
      return None;
    }
    var ch := guild.channels[channelId];
    var gid := Cell(g, "guild_id");
    ghost var before := store.records;
    ghost var attempt := QueueAttempt(env, g, q, ch, before);
    var queueId, attempts := InsertQueueWithRetry(store, gid, ch.name, QueueSettingsOf(env, g, q));
    if queueId.None? {
      assert attempt.None?;
      error := AbandonQueue(store, t, g, q, ch);
      return;
    }
    assert attempt.Some? && queueId.value == |before|;
    assert store.records == before + [QueueRecord(|before|, gid, Candidate(ch.name, attempt.value), QueueSettingsOf(env, g, q).value)];
    var ok := InsertDependents(store, env, t, g, q, ch, queueId.value);
    error := if ok then None else Some(RangeError);
  }

  /** After five failed names: the first `queue.id` read throws; without one, only the admins are inserted. */
  method AbandonQueue(store: Store, t: LegacyTables, g: CsvRow, q: CsvRow, ch: Channel) returns (error: Option<Error>)
    modifies store
    ensures error.Some? <==> UsesQueueId(t, g, q, ch)
    ensures error.Some? ==> error.value == TypeError && store.records == old(store.records)
    ensures error.None? ==> store.records == old(store.records) + AdminRecordsOf(t, g)
  {
    if UsesQueueId(t, g, q, ch) {
      return Some(TypeError);
    }
    InsertEach(store, AdminsOf(t, g), AdminRecordFn(Cell(g, "guild_id")));
    return None;
  }

  /** The queue loop of a resolved guild: its queue rows in turn, until one throws. */
  method ConvertQueueRows(store: Store, env: Env, guild: Guild, t: LegacyTables, g: CsvRow, queues: seq<CsvRow>)
    returns (error: Option<Error>)
    modifies store
    ensures ConvertQueues(env, guild, t, g, queues, old(store.records))
            == if error.None? then Ok(store.records) else Thrown(error.value)
  {
    ghost var start := store.records;
    for i := 0 to |queues|
      invariant ConvertQueues(env, guild, t, g, queues[..i], start) == Ok(store.records)
    {
      assert queues[..i + 1][..i] == queues[..i];
      error := ConvertQueue(store, env, guild, t, g, queues[i]);
      if error.Some? {
        ConvertQueuesThrownPersists(env, guild, t, g, queues, i + 1, start, error.value);
        return;
      }
    }
    assert queues[..|queues|] == queues;
    return None;
  }

  /** One legacy guild row: skipped when the guild does not resolve. */
  method ConvertGuild(store: Store, env: Env, platform: Platform, t: LegacyTables, g: CsvRow)
    returns (error: Option<Error>)
    modifies store
    ensures GuildStep(env, platform, t, g, old(store.records))
            == if error.None? then Ok(store.records) else Thrown(error.value)
  {
    var gid := Cell(g, "guild_id");
    if gid !in platform {
      return None;
    }
    store.Insert(GuildRecordOf(g));
    error := ConvertQueueRows(store, env, platform[gid], t, g, QueuesOf(t, g));
  }

  /** The body of the transaction: the legacy guild rows in turn, until one throws. */
  method ConvertGuildRows(store: Store, env: Env, platform: Platform, t: LegacyTables, guilds: seq<CsvRow>)
    returns (error: Option<Error>)
    modifies store
    ensures ConvertGuilds(env, platform, t, guilds, old(store.records))
            == if error.None? then Ok(store.records) else Thrown(error.value)
  {
    ghost var start := store.records;
    for i := 0 to |guilds|
      invariant ConvertGuilds(env, platform, t, guilds[..i], start) == Ok(store.records)
    {
      assert guilds[..i + 1][..i] == guilds[..i];
      error := ConvertGuild(store, env, platform, t, guilds[i]);
      if error.Some? {
        ConvertGuildsThrownPersists(env, platform, t, guilds, i + 1, start, error.value);
        return;
      }
    }
    assert guilds[..|guilds|] == guilds;
    return None;
  }

  /**
    `convertAndInsert`: the conversion inside one transaction. When an
    exception escapes, the transaction rolls back and the store is as before.
   */
  method ConvertAndInsert(store: Store, env: Env, platform: Platform, t: LegacyTables)
    returns (error: Option<Error>)
    modifies store
    ensures error.None? ==> Conversion(env, platform, t, old(store.records)) == Ok(store.records)
    ensures error.Some? ==> Conversion(env, platform, t, old(store.records)) == Thrown(error.value)
                            && store.records == old(store.records)
  {
    var snapshot := store.records;
    error := ConvertGuildRows(store, env, platform, t, t.queueGuilds);
    if error.Some? {
      store.records := snapshot;
    }
  }

  /** `migrate`: load the export files, then convert the collections they filled. */
  method Migrate(legacy: LegacyExport, files: seq<ExportFile>, store: Store, env: Env, platform: Platform)
    returns (error: Option<Error>)
    modifies legacy, store
    ensures forall c :: legacy.Tables().Get(c) == old(legacy.Tables().Get(c)) + RowsFor(files, c)
    ensures error.None? ==> Conversion(env, platform, legacy.Tables(), old(store.records)) == Ok(store.records)
    ensures error.Some? ==> Conversion(env, platform, legacy.Tables(), old(store.records)) == Thrown(error.value)
                            && store.records == old(store.records)
  {
    legacy.LoadExportData(files);
    error := ConvertAndInsert(store, env, platform, legacy.Tables());
  }
}
