/**
  What the conversion of module MigrationSpec guarantees about the store:
  every record it adds refers only to rows inserted before it (its guild,
  and its queue, whose id is that queue's position), queue names stay unique
  per guild, the store's earlier rows are kept, guilds and channels that do
  not resolve add nothing, and the naming and priority rules of the loop.
 */
module MigrationProps {
  import opened Wrappers
  import opened Js
  import opened Seqs
  import Translate
  import opened Store
  import opened QueueNaming
  import opened ExportLoader
  import opened MigrationSpec

  // ----- Referential consistency of the record log -----

  /** The records that carry a queue id. */
  predicate HasQueueRef(x: Record)
  {
    x.VoiceRecord? || x.DisplayRecord? || x.MemberRecord? || x.ScheduleRecord?
    || x.BlacklistedRecord? || x.WhitelistedRecord? || x.PrioritizedRecord?
  }

  /** Whether `before` holds the guild `gid`. */
  predicate HasGuild(before: seq<Record>, gid: Value)
  {
    exists j :: 0 <= j < |before| && before[j].GuildRecord? && before[j].guildId == gid
  }

  /**
    Record `x`, inserted right after `before`, refers only to rows of
    `before`: a queue's id is its position, every row but a guild belongs to
    a guild already present, and a row with a queue id names a queue of the
    same guild that is already present.
   */
  predicate RefersBack(before: seq<Record>, x: Record)
  {
    (x.QueueRecord? ==> x.id == |before|)
    && (!x.GuildRecord? ==> HasGuild(before, x.guildId))
    && (HasQueueRef(x) ==> x.queueId < |before| && before[x.queueId].QueueRecord?
                           && before[x.queueId].guildId == x.guildId)
  }

  /** Every record refers back to earlier rows, and no guild has two queues of one name. */
  predicate Consistent(recs: seq<Record>)
  {
    (forall i :: 0 <= i < |recs| ==> RefersBack(recs[..i], recs[i])) && QueueNamesUnique(recs)
  }

  /** A dependent row of the queue `qid` of guild `gid`. */
  predicate Attached(x: Record, gid: Value, qid: nat)
  {
    !x.GuildRecord? && !x.QueueRecord? && x.guildId == gid && (HasQueueRef(x) ==> x.queueId == qid)
  }

  lemma HasGuildPrefix(a: seq<Record>, b: seq<Record>, gid: Value)
    requires a <= b && HasGuild(a, gid)
    ensures HasGuild(b, gid)
  {
    var j :| 0 <= j < |a| && a[j].GuildRecord? && a[j].guildId == gid;
    assert b[j] == a[j];
  }

  /** A non-queue row that refers back to a log still does once more rows follow. */
  lemma RefersBackExtends(a: seq<Record>, b: seq<Record>, x: Record)
    requires !x.QueueRecord? && RefersBack(a, x)
    ensures RefersBack(a + b, x)
  {
    if !x.GuildRecord? {
      HasGuildPrefix(a, a + b, x.guildId);
    }
    if HasQueueRef(x) {
      assert (a + b)[x.queueId] == a[x.queueId];
    }
  }

  /** Appending rows that are not queues and refer back to `base` keeps the log consistent. */
  lemma AppendKeepsConsistent(base: seq<Record>, extra: seq<Record>)
    requires Consistent(base)
    requires forall x :: x in extra ==> !x.QueueRecord? && RefersBack(base, x)
    ensures Consistent(base + extra) && base <= base + extra
  {
    var r := base + extra;
    forall i | 0 <= i < |r|
      ensures RefersBack(r[..i], r[i])
    {
      if i < |base| {
        assert r[..i] == base[..i];
      } else {
        var k := i - |base|;
        assert r[i] == extra[k];
        assert r[..i] == base + extra[..k];
        RefersBackExtends(base, extra[..k], r[i]);
      }
    }
    forall i, j | 0 <= i < j < |r| && r[i].QueueRecord? && r[j].QueueRecord? && r[i].guildId == r[j].guildId
      ensures r[i].name != r[j].name
    {
      assert r[j] == base[j];
    }
  }

  /** A queue inserted under a free name into a guild already present keeps the log consistent. */
  lemma InsertQueueKeepsConsistent(recs: seq<Record>, gid: Value, name: string, settings: QueueSettings)
    requires Consistent(recs) && HasGuild(recs, gid) && !NameTaken(recs, gid, name)
    ensures Consistent(recs + [QueueRecord(|recs|, gid, name, settings)])
  {
    var r := recs + [QueueRecord(|recs|, gid, name, settings)];
    InsertQueueKeepsNamesUnique(recs, |recs|, gid, name, settings);
    forall i | 0 <= i < |r|
      ensures RefersBack(r[..i], r[i])
    {
      if i < |recs| {
        assert r[..i] == recs[..i];
      } else {
        assert r[..i] == recs;
      }
    }
  }

  /** An attached row refers back to any log holding its guild and its queue. */
  lemma AttachedRefersBack(base: seq<Record>, x: Record, gid: Value, qid: nat)
    requires Attached(x, gid, qid) && HasGuild(base, gid)
    requires qid < |base| && base[qid].QueueRecord? && base[qid].guildId == gid
    ensures RefersBack(base, x)
  {
  }

  /** The display records of a queue, in the order of the legacy display rows. */
  lemma DisplaysAttached(t: LegacyTables, gid: Value, q: CsvRow, qid: nat)
    ensures forall x :: x in MapSeq(DisplayRecordFn(gid, qid), DisplaysOf(t, q)) ==> x.DisplayRecord? && Attached(x, gid, qid)
  {
    var displays := MapSeq(DisplayRecordFn(gid, qid), DisplaysOf(t, q));
    forall x | x in displays
      ensures x.DisplayRecord? && Attached(x, gid, qid)
    {
      var i :| 0 <= i < |displays| && displays[i] == x;
    }
  }

  lemma LeadingAttached(t: LegacyTables, gid: Value, q: CsvRow, ch: Channel, qid: nat)
    ensures forall x :: x in LeadingRecords(t, gid, q, ch, qid) ==> Attached(x, gid, qid) && !x.PrioritizedRecord?
  {
    DisplaysAttached(t, gid, q, qid);
  }

  /** Member records, with the priority order their `is_priority` text gives them. */
  lemma MembersAttached(env: Env, gid: Value, qid: nat, rows: seq<CsvRow>)
    requires MapAll(MemberRecordFn(env, gid, qid), rows).Some?
    ensures forall x :: x in MapAll(MemberRecordFn(env, gid, qid), rows).value ==> x.MemberRecord? && Attached(x, gid, qid)
    ensures forall m :: m in rows ==> MemberRecordOf(env, gid, qid, m).Some?
  {
    var members := MapAll(MemberRecordFn(env, gid, qid), rows).value;
    forall x | x in members
      ensures x.MemberRecord? && Attached(x, gid, qid)
    {
      var i :| 0 <= i < |members| && members[i] == x;
      assert MemberRecordFn(env, gid, qid)(rows[i]).Some?;
    }
    forall m | m in rows
      ensures MemberRecordOf(env, gid, qid, m).Some?
    {
      var i :| 0 <= i < |rows| && rows[i] == m;
      assert MemberRecordFn(env, gid, qid)(rows[i]).Some?;
    }
  }

  /** What every record inserted after a queue's members satisfies. */
  predicate TrailingShape(x: Record, gid: Value, qid: nat)
  {
    Attached(x, gid, qid) && !x.VoiceRecord? && (x.PrioritizedRecord? ==> x.rank == Translate.PriorityOrder)
  }

  lemma MappedShape(f: CsvRow -> Record, rows: seq<CsvRow>, gid: Value, qid: nat)
    requires forall r :: TrailingShape(f(r), gid, qid)
    ensures forall x :: x in MapSeq(f, rows) ==> TrailingShape(x, gid, qid)
  {
    var mapped := MapSeq(f, rows);
    forall x | x in mapped
      ensures TrailingShape(x, gid, qid)
    {
      var i :| 0 <= i < |mapped| && mapped[i] == x;
      assert x == f(rows[i]);
    }
  }

  /** The per-row builders of the trailing inserts all give rows of the right shape. */
  lemma TrailingBuildersShape(env: Env, gid: Value, qid: nat, q: CsvRow)
    ensures forall r :: TrailingShape(ScheduleRecordFn(env, gid, qid, q)(r), gid, qid)
    ensures forall r :: TrailingShape(BlacklistedRecordFn(gid, qid)(r), gid, qid)
    ensures forall r :: TrailingShape(WhitelistedRecordFn(gid, qid)(r), gid, qid)
    ensures forall r :: TrailingShape(PrioritizedRecordFn(gid, qid)(r), gid, qid)
    ensures forall r :: TrailingShape(AdminRecordFn(gid)(r), gid, qid)
  {
  }

  lemma TrailingAttached(env: Env, t: LegacyTables, g: CsvRow, q: CsvRow, qid: nat)
    ensures forall x :: x in TrailingRecords(env, t, g, q, qid) ==> TrailingShape(x, Cell(g, "guild_id"), qid)
  {
    var gid := Cell(g, "guild_id");
    TrailingBuildersShape(env, gid, qid, q);
    var schedules := MapSeq(ScheduleRecordFn(env, gid, qid, q), SchedulesOf(t, q));
    var black := MapSeq(BlacklistedRecordFn(gid, qid), AccessListOf(t, q, 0));
    var white := MapSeq(WhitelistedRecordFn(gid, qid), AccessListOf(t, q, 1));
    var prio := MapSeq(PrioritizedRecordFn(gid, qid), PrioritiesOf(t, g));
    var admins := AdminRecordsOf(t, g);
    MappedShape(ScheduleRecordFn(env, gid, qid, q), SchedulesOf(t, q), gid, qid);
    MappedShape(BlacklistedRecordFn(gid, qid), AccessListOf(t, q, 0), gid, qid);
    MappedShape(WhitelistedRecordFn(gid, qid), AccessListOf(t, q, 1), gid, qid);
    MappedShape(PrioritizedRecordFn(gid, qid), PrioritiesOf(t, g), gid, qid);
    MappedShape(AdminRecordFn(gid), AdminsOf(t, g), gid, qid);
    assert TrailingRecords(env, t, g, q, qid) == schedules + black + white + prio + admins;
  }

  /** Every row inserted after a queue belongs to that queue's guild and, when it has a queue id, to that queue. */
  lemma DependentsAttached(env: Env, t: LegacyTables, g: CsvRow, q: CsvRow, ch: Channel, qid: nat)
    requires DependentRecords(env, t, g, q, ch, qid).Some?
    ensures forall x :: x in DependentRecords(env, t, g, q, ch, qid).value ==> Attached(x, Cell(g, "guild_id"), qid)
  {
    var gid := Cell(g, "guild_id");
    DependentRecordsSplit(env, t, g, q, ch, qid);
    LeadingAttached(t, gid, q, ch, qid);
    MembersAttached(env, gid, qid, MembersOf(t, q));
    TrailingAttached(env, t, g, q, qid);
  }

  /** An admin row of the guild refers back to any log holding the guild. */
  lemma AdminsReferBack(t: LegacyTables, g: CsvRow, recs: seq<Record>)
    requires HasGuild(recs, Cell(g, "guild_id"))
    ensures forall x :: x in AdminRecordsOf(t, g) ==> !x.QueueRecord? && RefersBack(recs, x)
  {
    var admins := AdminRecordsOf(t, g);
    forall x | x in admins
      ensures !x.QueueRecord? && RefersBack(recs, x)
    {
      var i :| 0 <= i < |admins| && admins[i] == x;
    }
  }

  /** One queue row keeps the log consistent and only appends to it. */
  lemma QueueStepKeepsConsistent(env: Env, guild: Guild, t: LegacyTables, g: CsvRow, q: CsvRow,
                                 recs: seq<Record>, r: seq<Record>)
    requires Consistent(recs) && HasGuild(recs, Cell(g, "guild_id"))
    requires QueueStep(env, guild, t, g, q, recs) == Ok(r)
    ensures Consistent(r) && recs <= r
  {
    var channelId := Cell(q, "queue_channel_id");
    if channelId in guild.channels {
      var ch := guild.channels[channelId];
      var gid := Cell(g, "guild_id");
      match QueueAttempt(env, g, q, ch, recs)
      case Some(k) =>
        NamedQueueKeepsConsistent(env, t, g, q, ch, recs, Candidate(ch.name, k), QueueSettingsOf(env, g, q).value);
      case None =>
        AdminsReferBack(t, g, recs);
        AppendKeepsConsistent(recs, AdminRecordsOf(t, g));
    }
  }

  /** A queue inserted under a free name, followed by its dependent rows, keeps the log consistent. */
  lemma NamedQueueKeepsConsistent(env: Env, t: LegacyTables, g: CsvRow, q: CsvRow, ch: Channel,
                                  recs: seq<Record>, name: string, settings: QueueSettings)
    requires Consistent(recs) && HasGuild(recs, Cell(g, "guild_id")) && !NameTaken(recs, Cell(g, "guild_id"), name)
    requires DependentRecords(env, t, g, q, ch, |recs|).Some?
    ensures var r := recs + [QueueRecord(|recs|, Cell(g, "guild_id"), name, settings)]
                     + DependentRecords(env, t, g, q, ch, |recs|).value;
            Consistent(r) && recs <= r
  {
    var gid := Cell(g, "guild_id");
    var qid := |recs|;
    var withQueue := recs + [QueueRecord(qid, gid, name, settings)];
    InsertQueueKeepsConsistent(recs, gid, name, settings);
    HasGuildPrefix(recs, withQueue, gid);
    var deps := DependentRecords(env, t, g, q, ch, qid).value;
    DependentsAttached(env, t, g, q, ch, qid);
    forall x | x in deps
      ensures !x.QueueRecord? && RefersBack(withQueue, x)
    {
      AttachedRefersBack(withQueue, x, gid, qid);
    }
    AppendKeepsConsistent(withQueue, deps);
    assert (withQueue + deps)[..|recs|] == recs;
  }

  /** The queue loop of a resolved guild keeps the log consistent and only appends to it. */
  lemma {:induction false} ConvertQueuesKeepsConsistent(env: Env, guild: Guild, t: LegacyTables, g: CsvRow,
                                                        qs: seq<CsvRow>, recs: seq<Record>, r: seq<Record>)
    requires Consistent(recs) && HasGuild(recs, Cell(g, "guild_id"))
    requires ConvertQueues(env, guild, t, g, qs, recs) == Ok(r)
    ensures Consistent(r) && recs <= r
    decreases |qs|
  {
    if qs != [] {
      var init := qs[..|qs| - 1];
      var mid := ConvertQueues(env, guild, t, g, init, recs).records;
      ConvertQueuesKeepsConsistent(env, guild, t, g, init, recs, mid);
      HasGuildPrefix(recs, mid, Cell(g, "guild_id"));
      QueueStepKeepsConsistent(env, guild, t, g, qs[|qs| - 1], mid, r);
    }
  }

  /** One guild row keeps the log consistent and only appends to it. */
  lemma GuildStepKeepsConsistent(env: Env, platform: Platform, t: LegacyTables, g: CsvRow,
                                 recs: seq<Record>, r: seq<Record>)
    requires Consistent(recs)
    requires GuildStep(env, platform, t, g, recs) == Ok(r)
    ensures Consistent(r) && recs <= r
  {
    var gid := Cell(g, "guild_id");
    if gid in platform {
      var base := recs + [GuildRecordOf(g)];
      AppendKeepsConsistent(recs, [GuildRecordOf(g)]);
      assert base[|recs|].GuildRecord?;
      ConvertQueuesKeepsConsistent(env, platform[gid], t, g, QueuesOf(t, g), base, r);
    }
  }

  lemma {:induction false} ConvertGuildsKeepsConsistent(env: Env, platform: Platform, t: LegacyTables,
                                                        gs: seq<CsvRow>, recs: seq<Record>, r: seq<Record>)
    requires Consistent(recs)
    requires ConvertGuilds(env, platform, t, gs, recs) == Ok(r)
    ensures Consistent(r) && recs <= r
    decreases |gs|
  {
    if gs != [] {
      var init := gs[..|gs| - 1];
      var mid := ConvertGuilds(env, platform, t, init, recs).records;
      ConvertGuildsKeepsConsistent(env, platform, t, init, recs, mid);
      GuildStepKeepsConsistent(env, platform, t, gs[|gs| - 1], mid, r);
    }
  }

  /**
    A successful conversion keeps every row the store held and adds only rows
    that refer back to their guild and queue, with queue names still unique
    per guild.
   */
  lemma ConversionKeepsConsistent(env: Env, platform: Platform, t: LegacyTables, recs: seq<Record>, r: seq<Record>)
    requires Consistent(recs)
    requires Conversion(env, platform, t, recs) == Ok(r)
    ensures Consistent(r) && recs <= r
  {
    ConvertGuildsKeepsConsistent(env, platform, t, t.queueGuilds, recs, r);
  }

  // ----- Rows that add nothing -----

  /** Queue rows whose channel the guild does not have are skipped: the store is unchanged. */
  lemma {:induction false} UnresolvedChannelsAddNothing(env: Env, guild: Guild, t: LegacyTables, g: CsvRow,
                                                        qs: seq<CsvRow>, recs: seq<Record>)
    requires forall q :: q in qs ==> Cell(q, "queue_channel_id") !in guild.channels
    ensures ConvertQueues(env, guild, t, g, qs, recs) == Ok(recs)
    decreases |qs|
  {
    if qs != [] {
      assert qs[|qs| - 1] in qs;
      var init := qs[..|qs| - 1];
      assert forall q :: q in init ==> q in qs;
      UnresolvedChannelsAddNothing(env, guild, t, g, init, recs);
    }
  }

  lemma {:induction false} UnresolvedGuildsAddNothing(env: Env, platform: Platform, t: LegacyTables,
                                                      gs: seq<CsvRow>, recs: seq<Record>)
    requires forall g :: g in gs ==> Cell(g, "guild_id") !in platform
    ensures ConvertGuilds(env, platform, t, gs, recs) == Ok(recs)
    decreases |gs|
  {
    if gs != [] {
      assert gs[|gs| - 1] in gs;
      var init := gs[..|gs| - 1];
      assert forall g :: g in init ==> g in gs;
      UnresolvedGuildsAddNothing(env, platform, t, init, recs);
    }
  }

  /** The queue rows whose channel the guild has. */
  function ResolvedQueue(guild: Guild): CsvRow -> bool
  {
    q => Cell(q, "queue_channel_id") in guild.channels
  }

  /** The guild rows the platform has. */
  function ResolvedGuild(platform: Platform): CsvRow -> bool
  {
    g => Cell(g, "guild_id") in platform
  }

  /** One more queue row: the rows before it, then its step unless they threw. */
  lemma ConvertQueuesAppend(env: Env, guild: Guild, t: LegacyTables, g: CsvRow,
                            init: seq<CsvRow>, last: CsvRow, recs: seq<Record>)
    ensures ConvertQueues(env, guild, t, g, init + [last], recs)
            == match ConvertQueues(env, guild, t, g, init, recs)
               case Thrown(e) => Thrown(e)
               case Ok(r) => QueueStep(env, guild, t, g, last, r)
  {
    assert (init + [last])[..|init|] == init;
  }

  /** Converting a guild's queue rows is converting only those whose channel resolves: the others are skipped wherever they stand. */
  lemma {:induction false} UnresolvedChannelsSkipped(env: Env, guild: Guild, t: LegacyTables, g: CsvRow,
                                                     qs: seq<CsvRow>, recs: seq<Record>)
    ensures ConvertQueues(env, guild, t, g, qs, recs)
            == ConvertQueues(env, guild, t, g, Filter(ResolvedQueue(guild), qs), recs)
    decreases |qs|
  {
    if qs != [] {
      var init, last := qs[..|qs| - 1], qs[|qs| - 1];
      assert qs == init + [last];
      UnresolvedChannelsSkipped(env, guild, t, g, init, recs);
      ConvertQueuesAppend(env, guild, t, g, init, last, recs);
      var kept := Filter(ResolvedQueue(guild), init);
      if ResolvedQueue(guild)(last) {
        FilterKeeps(ResolvedQueue(guild), init, last);
        ConvertQueuesAppend(env, guild, t, g, kept, last, recs);
      } else {
        FilterSkips(ResolvedQueue(guild), init, last);
      }
    }
  }

  /** One more guild row: the rows before it, then its step unless they threw. */
  lemma ConvertGuildsAppend(env: Env, platform: Platform, t: LegacyTables,
                            init: seq<CsvRow>, last: CsvRow, recs: seq<Record>)
    ensures ConvertGuilds(env, platform, t, init + [last], recs)
            == match ConvertGuilds(env, platform, t, init, recs)
               case Thrown(e) => Thrown(e)
               case Ok(r) => GuildStep(env, platform, t, last, r)
  {
    assert (init + [last])[..|init|] == init;
  }

  /** Converting the legacy guild rows is converting only those the platform has: the others are skipped wherever they stand. */
  lemma {:induction false} UnresolvedGuildsSkipped(env: Env, platform: Platform, t: LegacyTables,
                                                   gs: seq<CsvRow>, recs: seq<Record>)
    ensures ConvertGuilds(env, platform, t, gs, recs)
            == ConvertGuilds(env, platform, t, Filter(ResolvedGuild(platform), gs), recs)
    decreases |gs|
  {
    if gs != [] {
      var init, last := gs[..|gs| - 1], gs[|gs| - 1];
      assert gs == init + [last];
      UnresolvedGuildsSkipped(env, platform, t, init, recs);
      ConvertGuildsAppend(env, platform, t, init, last, recs);
      var kept := Filter(ResolvedGuild(platform), init);
      if ResolvedGuild(platform)(last) {
        FilterKeeps(ResolvedGuild(platform), init, last);
        ConvertGuildsAppend(env, platform, t, kept, last, recs);
      } else {
        FilterSkips(ResolvedGuild(platform), init, last);
      }
    }
  }

  /** When no legacy guild resolves on the platform, the conversion leaves the store as it was. */
  lemma NoResolvedGuildNoInserts(env: Env, platform: Platform, t: LegacyTables, recs: seq<Record>)
    requires forall g :: g in t.queueGuilds ==> Cell(g, "guild_id") !in platform
    ensures Conversion(env, platform, t, recs) == Ok(recs)
  {
    UnresolvedGuildsAddNothing(env, platform, t, t.queueGuilds, recs);
  }

  // ----- The queue row in detail -----

  /**
    When all five names collide (or the queue's fields cannot be built), the
    queue is `undefined`: the first `queue.id` read throws, and with nothing
    that reads it only the guild's admins are inserted.
   */
  lemma ExhaustedNamingAborts(env: Env, guild: Guild, t: LegacyTables, g: CsvRow, q: CsvRow, recs: seq<Record>)
    requires Cell(q, "queue_channel_id") in guild.channels
    requires forall k :: 0 <= k < MaxAttempts ==>
               NameTaken(recs, Cell(g, "guild_id"), Candidate(guild.channels[Cell(q, "queue_channel_id")].name, k))
    ensures var ch := guild.channels[Cell(q, "queue_channel_id")];
            QueueStep(env, guild, t, g, q, recs)
            == if UsesQueueId(t, g, q, ch) then Thrown(TypeError) else Ok(recs + AdminRecordsOf(t, g))
  {
    var ch := guild.channels[Cell(q, "queue_channel_id")];
    assert FirstFreeAttempt(recs, Cell(g, "guild_id"), ch.name, 0).None?;
    assert QueueAttempt(env, g, q, ch, recs).None?;
  }

  /** A queue whose channel name is taken in its guild, but not with the suffix " (1)", gets that suffix. */
  lemma SecondQueueGetsSuffix(recs: seq<Record>, gid: Value, base: string)
    requires NameTaken(recs, gid, base) && !NameTaken(recs, gid, base + " (1)")
    ensures FirstFreeAttempt(recs, gid, base, 0) == Some(1)
    ensures Candidate(base, 1) == base + " (1)"
  {
    assert NatToString(1) == "1";
  }

  /**
    A queue row whose loop never reads `queue.id` would add only the guild's
    admins: what the row adds when the queue is `undefined` and nothing throws.
   */
  lemma QueueIdUnusedLeavesAdmins(env: Env, t: LegacyTables, g: CsvRow, q: CsvRow, ch: Channel, qid: nat)
    requires !UsesQueueId(t, g, q, ch)
    ensures DependentRecords(env, t, g, q, ch, qid) == Some(AdminRecordsOf(t, g))
  {
    AccessListsNeverSelected(t, q, 0);
    AccessListsNeverSelected(t, q, 1);
    DependentRecordsSplit(env, t, g, q, ch, qid);
    var gid := Cell(g, "guild_id");
    assert MapAll(MemberRecordFn(env, gid, qid), MembersOf(t, q)) == Some([]);
    assert LeadingRecords(t, gid, q, ch, qid) == [];
    assert TrailingRecords(env, t, g, q, qid) == [] + [] + [] + [] + AdminRecordsOf(t, g);
    assert LeadingRecords(t, gid, q, ch, qid) + [] + TrailingRecords(env, t, g, q, qid) == AdminRecordsOf(t, g);
  }

  /** A queue gets a voice link exactly when its source channel is voice-based, and the link names that queue and channel. */
  lemma VoiceLinkIffVoiceBased(env: Env, t: LegacyTables, g: CsvRow, q: CsvRow, ch: Channel, qid: nat)
    requires DependentRecords(env, t, g, q, ch, qid).Some?
    ensures forall x :: (x in DependentRecords(env, t, g, q, ch, qid).value && x.VoiceRecord?)
                        <==> ch.isVoiceBased && x == VoiceRecord(Cell(g, "guild_id"), qid, Cell(q, "queue_channel_id"))
  {
    var gid := Cell(g, "guild_id");
    DependentRecordsSplit(env, t, g, q, ch, qid);
    var displays := MapSeq(DisplayRecordFn(gid, qid), DisplaysOf(t, q));
    var members := MapAll(MemberRecordFn(env, gid, qid), MembersOf(t, q)).value;
    var trailing := TrailingRecords(env, t, g, q, qid);
    DisplaysAttached(t, gid, q, qid);
    MembersAttached(env, gid, qid, MembersOf(t, q));
    TrailingAttached(env, t, g, q, qid);
    var rest := displays + members + trailing;
    assert NoVoice(rest) by {
      NoVoiceAppend(displays, members);
      NoVoiceAppend(displays + members, trailing);
    }
    VoiceThenRest(VoiceRecordsOf(gid, q, ch, qid), displays, members, trailing);
  }

  /** A sequence holding no voice link. */
  predicate NoVoice(s: seq<Record>)
  {
    forall x :: x in s ==> !x.VoiceRecord?
  }

  lemma NoVoiceAppend(a: seq<Record>, b: seq<Record>)
    requires NoVoice(a) && NoVoice(b)
    ensures NoVoice(a + b)
  {
  }

  /** The voice links of `v + d + m + t` are those of `v` when the rest holds none. */
  lemma VoiceThenRest(v: seq<Record>, d: seq<Record>, m: seq<Record>, t: seq<Record>)
    requires NoVoice(d + m + t)
    ensures forall x :: (x in v + d + m + t && x.VoiceRecord?) <==> (x in v && x.VoiceRecord?)
  {
    assert v + d + m + t == v + (d + m + t);
  }

  /**
    Priority entries are migrated with rank 5, and a member is given priority
    order 5 exactly when its legacy `is_priority` text is non-empty.
   */
  lemma PriorityRanks(env: Env, t: LegacyTables, g: CsvRow, q: CsvRow, ch: Channel, qid: nat)
    requires DependentRecords(env, t, g, q, ch, qid).Some?
    ensures forall x :: (x in DependentRecords(env, t, g, q, ch, qid).value && x.PrioritizedRecord?)
                        ==> x.rank == Translate.PriorityOrder
    ensures forall m :: m in MembersOf(t, q) ==>
              MemberRecordOf(env, Cell(g, "guild_id"), qid, m).Some?
              && MemberRecordOf(env, Cell(g, "guild_id"), qid, m).value.priorityOrder
                 == if Truthy(Cell(m, "is_priority")) then Some(Translate.PriorityOrder) else None
  {
    var gid := Cell(g, "guild_id");
    DependentRecordsSplit(env, t, g, q, ch, qid);
    LeadingAttached(t, gid, q, ch, qid);
    MembersAttached(env, gid, qid, MembersOf(t, q));
    TrailingAttached(env, t, g, q, qid);
  }

  /**
    A guild's priority and admin rows are inserted again after every queue of
    the guild: the records that follow a queue end with one prioritized
    record per priority row of the guild, tied to that queue, and then one
    admin record per admin row of the guild.
   */
  lemma GuildRowsRepeatPerQueue(env: Env, t: LegacyTables, g: CsvRow, q: CsvRow, ch: Channel, qid: nat)
    requires DependentRecords(env, t, g, q, ch, qid).Some?
    ensures var deps := DependentRecords(env, t, g, q, ch, qid).value;
            var tail := MapSeq(PrioritizedRecordFn(Cell(g, "guild_id"), qid), PrioritiesOf(t, g)) + AdminRecordsOf(t, g);
            |tail| == |PrioritiesOf(t, g)| + |AdminsOf(t, g)| && |tail| <= |deps| && deps[|deps| - |tail|..] == tail
  {
    var gid := Cell(g, "guild_id");
    DependentRecordsSplit(env, t, g, q, ch, qid);
    var deps := DependentRecords(env, t, g, q, ch, qid).value;
    var tail := MapSeq(PrioritizedRecordFn(gid, qid), PrioritiesOf(t, g)) + AdminRecordsOf(t, g);
    var head := LeadingRecords(t, gid, q, ch, qid) + MapAll(MemberRecordFn(env, gid, qid), MembersOf(t, q)).value
                + MapSeq(ScheduleRecordFn(env, gid, qid, q), SchedulesOf(t, q))
                + MapSeq(BlacklistedRecordFn(gid, qid), AccessListOf(t, q, 0))
                + MapSeq(WhitelistedRecordFn(gid, qid), AccessListOf(t, q, 1));
    Regroup(LeadingRecords(t, gid, q, ch, qid) + MapAll(MemberRecordFn(env, gid, qid), MembersOf(t, q)).value,
            MapSeq(ScheduleRecordFn(env, gid, qid, q), SchedulesOf(t, q)),
            MapSeq(BlacklistedRecordFn(gid, qid), AccessListOf(t, q, 0)),
            MapSeq(WhitelistedRecordFn(gid, qid), AccessListOf(t, q, 1)),
            MapSeq(PrioritizedRecordFn(gid, qid), PrioritiesOf(t, g)),
            AdminRecordsOf(t, g));
    assert deps == head + tail;
    assert deps[|deps| - |tail|..] == tail;
  }

  lemma Regroup(a: seq<Record>, b: seq<Record>, c: seq<Record>, d: seq<Record>, e: seq<Record>, f: seq<Record>)
    ensures a + ((((b + c) + d) + e) + f) == (((a + b) + c) + d) + (e + f)
  {
  }
}
