/**
  What `convertAndInsert` (src/db/legacy-migration/migrate.ts:145-286) does to
  the store, stated as functions of the legacy collections, the remote
  platform and the store's records before the run. The methods of module
  Migration are proved to follow these functions.
 */
module MigrationSpec {
  import opened Wrappers
  import opened Js
  import opened Seqs
  import Translate
  import opened TimeZones
  import opened Store
  import opened QueueNaming
  import opened ExportLoader

  /** The library behaviour the conversion relies on. */
  datatype Env = Env(
    /** `moment.tz.names()` in order, each with its current UTC offset */
    zones: seq<Zone>,
    /** the `Color` enumeration: member name to colour */
    colors: map<string, string>,
    /** `QUEUE_TABLE.color.default` */
    defaultColor: string,
    /** `BigInt(v)`, `None` when it throws */
    bigInt: Value -> Option<int>,
    /** `BigInt(new Date(v).getTime())`, `None` when it throws (an unparsable date) */
    epochMillis: Value -> Option<int>,
    /** the number `v` converts to in `v * 60`, `None` for `NaN` */
    toNumber: Value -> Option<real>)

  /** A channel of a live guild: its name and whether it is voice-based. */
  datatype Channel = Channel(name: string, isVoiceBased: bool)

  /** A live guild: the channels a fetch by id finds. */
  datatype Guild = Guild(channels: map<Value, Channel>)

  /** The guilds a fetch by legacy guild id finds on the remote platform. */
  type Platform = map<Value, Guild>

  /** The exceptions that escape the conversion loop. */
  datatype Error =
    | TypeError   // `queue.id` read while `queue` is `undefined`
    | RangeError  // `BigInt` of an invalid member timestamp

  /** The store's records after a run, or the exception that ended it. */
  datatype Outcome = Ok(records: seq<Record>) | Thrown(error: Error)

  // ----- Selection of dependent legacy rows (loose `==` on two cells is value equality) -----

  /** Queue channels of a legacy guild, by `guild_id`. */
  function QueuesOf(t: LegacyTables, g: CsvRow): (r: seq<CsvRow>)
    ensures forall x :: x in r <==> x in t.queueChannels && Cell(x, "guild_id") == Cell(g, "guild_id")
  {
    Filter(x => Cell(x, "guild_id") == Cell(g, "guild_id"), t.queueChannels)
  }

  /** Display channels of a legacy queue, by `queue_channel_id`. */
  function DisplaysOf(t: LegacyTables, q: CsvRow): (r: seq<CsvRow>)
    ensures forall x :: x in r <==> x in t.displayChannels && Cell(x, "queue_channel_id") == Cell(q, "queue_channel_id")
  {
    Filter(x => Cell(x, "queue_channel_id") == Cell(q, "queue_channel_id"), t.displayChannels)
  }

  /** Members of a legacy queue, by their `channel_id`. */
  function MembersOf(t: LegacyTables, q: CsvRow): (r: seq<CsvRow>)
    ensures forall x :: x in r <==> x in t.queueMembers && Cell(x, "channel_id") == Cell(q, "queue_channel_id")
  {
    Filter(x => Cell(x, "channel_id") == Cell(q, "queue_channel_id"), t.queueMembers)
  }

  /** Schedules of a legacy queue, by `queue_channel_id`. */
  function SchedulesOf(t: LegacyTables, q: CsvRow): (r: seq<CsvRow>)
    ensures forall x :: x in r <==> x in t.schedules && Cell(x, "queue_channel_id") == Cell(q, "queue_channel_id")
  {
    Filter(x => Cell(x, "queue_channel_id") == Cell(q, "queue_channel_id"), t.schedules)
  }

  /** Access-list entries of a legacy queue whose `type` is exactly the number `kind` (0 black, 1 white). */
  function AccessListOf(t: LegacyTables, q: CsvRow, kind: int): (r: seq<CsvRow>)
    ensures forall x :: x in r <==> x in t.blackWhiteList && Cell(x, "queue_channel_id") == Cell(q, "queue_channel_id")
                                    && Cell(x, "type") == Num(kind)
  {
    Filter(x => Cell(x, "queue_channel_id") == Cell(q, "queue_channel_id") && Cell(x, "type") == Num(kind), t.blackWhiteList)
  }

  /** Priority entries of a legacy guild, by `guild_id`. */
  function PrioritiesOf(t: LegacyTables, g: CsvRow): (r: seq<CsvRow>)
    ensures forall x :: x in r <==> x in t.priority && Cell(x, "guild_id") == Cell(g, "guild_id")
  {
    Filter(x => Cell(x, "guild_id") == Cell(g, "guild_id"), t.priority)
  }

  /** Admin permissions of a legacy guild, by `guild_id`. */
  function AdminsOf(t: LegacyTables, g: CsvRow): (r: seq<CsvRow>)
    ensures forall x :: x in r <==> x in t.adminPermission && Cell(x, "guild_id") == Cell(g, "guild_id")
  {
    Filter(x => Cell(x, "guild_id") == Cell(g, "guild_id"), t.adminPermission)
  }

  /** Access-list rows come from CSV cells, which are text: `type === 0` and `type === 1` never hold. */
  lemma AccessListsNeverSelected(t: LegacyTables, q: CsvRow, kind: int)
    ensures AccessListOf(t, q, kind) == []
  {
    if AccessListOf(t, q, kind) != [] {
      var x := AccessListOf(t, q, kind)[0];
      CellIsText(x, "type");
    }
  }

  // ----- Records built from legacy rows -----

  /** `insertGuild` for a resolved legacy guild. */
  function GuildRecordOf(g: CsvRow): (r: Record)
    ensures r.GuildRecord? && r.guildId == Cell(g, "guild_id") && r.logChannelId == Cell(g, "logging_channel_id")
    ensures r.logScope.Some? <==> Truthy(Cell(g, "logging_channel_level"))
    ensures r.logScope.Some? ==> r.logScope.value == Translate.All
  {
    GuildRecord(Cell(g, "guild_id"), Cell(g, "logging_channel_id"),
                Translate.LogScopeOf(Cell(g, "logging_channel_level")))
  }

  /**
    The fields of `insertQueue` other than the name; `None` when building them
    throws, which happens exactly when one of the three `BigInt` conversions does.
   */
  function QueueSettingsOf(env: Env, g: CsvRow, q: CsvRow): (r: Option<QueueSettings>)
    ensures r.Some? <==> env.bigInt(Cell(q, "pull_num")).Some? && env.bigInt(Cell(q, "grace_period")).Some?
                         && env.bigInt(Cell(q, "max_members")).Some?
    ensures r.Some? ==> r.value.pullBatchSize == env.bigInt(Cell(q, "pull_num")).value
                        && r.value.rejoinGracePeriod == env.bigInt(Cell(q, "grace_period")).value
                        && r.value.size == env.bigInt(Cell(q, "max_members")).value
  {
    var pull := env.bigInt(Cell(q, "pull_num"));
    var grace := env.bigInt(Cell(q, "grace_period"));
    var size := env.bigInt(Cell(q, "max_members"));
    if pull.None? || grace.None? || size.None? then None
    else Some(QueueSettings(
      autopullToggle := Cell(q, "auto_fill"),
      color := Translate.ColorOf(env.colors, env.defaultColor, Cell(q, "color")),
      displayButtons := Translate.DisplayButtonsOf(Cell(q, "hide_button")),
      displayUpdateType := Translate.DisplayUpdateTypeOf(Cell(g, "msg_mode")),
      header := Cell(q, "header"),
      lockToggle := Cell(q, "is_locked"),
      memberDisplayType := Translate.MemberDisplayTypeOf(Cell(g, "disable_mentions")),
      notificationsToggle := Translate.NotificationsToggleOf(Cell(g, "disable_notifications")),
      pullBatchSize := pull.value,
      rejoinGracePeriod := grace.value,
      roleInQueueId := Cell(q, "role_id"),
      size := size.value,
      timestampType := Translate.TimestampTypeOf(Cell(g, "timestamps")),
      voiceDestinationChannelId := Cell(q, "target_channel_id")))
  }

  function VoiceRecordsOf(gid: Value, q: CsvRow, ch: Channel, qid: nat): seq<Record>
  {
    if ch.isVoiceBased then [VoiceRecord(gid, qid, Cell(q, "queue_channel_id"))] else []
  }

  function DisplayRecordOf(gid: Value, qid: nat, d: CsvRow): Record
  {
    DisplayRecord(gid, qid, Cell(d, "display_channel_id"), Cell(d, "message_id"))
  }

  /** `insertMember`'s record; `None` when a timestamp conversion throws. */
  function MemberRecordOf(env: Env, gid: Value, qid: nat, m: CsvRow): (r: Option<Record>)
    ensures r.Some? <==> env.epochMillis(Cell(m, "display_time")).Some? && env.epochMillis(Cell(m, "created_at")).Some?
    ensures r.Some? ==> r.value.MemberRecord? && r.value.guildId == gid && r.value.queueId == qid
                        && r.value.userId == Cell(m, "member_id") && r.value.message == Cell(m, "personal_message")
                        && r.value.joinTime == env.epochMillis(Cell(m, "display_time")).value
                        && r.value.positionTime == env.epochMillis(Cell(m, "created_at")).value
    ensures r.Some? ==> (r.value.priorityOrder == Some(Translate.PriorityOrder) <==> Truthy(Cell(m, "is_priority")))
                        && (r.value.priorityOrder == None <==> !Truthy(Cell(m, "is_priority")))
  {
    var joinTime := env.epochMillis(Cell(m, "display_time"));
    var positionTime := env.epochMillis(Cell(m, "created_at"));
    if joinTime.None? || positionTime.None? then None
    else Some(MemberRecord(gid, qid, Cell(m, "member_id"), Cell(m, "personal_message"),
                           joinTime.value, positionTime.value, Translate.MemberPriorityOf(Cell(m, "is_priority"))))
  }

  function ScheduleRecordOf(env: Env, gid: Value, qid: nat, q: CsvRow, s: CsvRow): (r: Record)
    ensures r.ScheduleRecord? && r.guildId == gid && r.queueId == qid && r.command == Cell(s, "command")
            && r.cron == Cell(s, "schedule") && r.messageChannelId == Cell(q, "queue_channel_id")
    ensures r.timezone.None? <==> forall j :: 0 <= j < |env.zones| ==> !Matches(env.zones[j], env.toNumber(Cell(s, "utc_offset")))
    ensures r.timezone.Some? ==> exists i :: 0 <= i < |env.zones| && env.zones[i].name == r.timezone.value
                                             && Matches(env.zones[i], env.toNumber(Cell(s, "utc_offset")))
  {
    ScheduleRecord(gid, qid, Cell(s, "command"), Cell(s, "schedule"),
                   ZoneForOffset(env.zones, env.toNumber(Cell(s, "utc_offset"))), Cell(q, "queue_channel_id"))
  }

  function BlacklistedRecordOf(gid: Value, qid: nat, b: CsvRow): Record
  {
    BlacklistedRecord(gid, qid, Cell(b, "role_member_id"), Cell(b, "is_role"))
  }

  function WhitelistedRecordOf(gid: Value, qid: nat, w: CsvRow): Record
  {
    WhitelistedRecord(gid, qid, Cell(w, "role_member_id"), Cell(w, "is_role"))
  }

  function PrioritizedRecordOf(gid: Value, qid: nat, p: CsvRow): Record
  {
    PrioritizedRecord(gid, qid, Cell(p, "role_member_id"), Cell(p, "is_role"), Translate.PriorityOrder)
  }

  function AdminRecordOf(gid: Value, a: CsvRow): Record
  {
    AdminRecord(gid, Cell(a, "role_member_id"), Cell(a, "is_role"))
  }

  /** The per-row record builders as the conversion loops apply them. */
  function DisplayRecordFn(gid: Value, qid: nat): CsvRow -> Record { d => DisplayRecordOf(gid, qid, d) }
  function MemberRecordFn(env: Env, gid: Value, qid: nat): CsvRow -> Option<Record> { m => MemberRecordOf(env, gid, qid, m) }
  function ScheduleRecordFn(env: Env, gid: Value, qid: nat, q: CsvRow): CsvRow -> Record { s => ScheduleRecordOf(env, gid, qid, q, s) }
  function BlacklistedRecordFn(gid: Value, qid: nat): CsvRow -> Record { b => BlacklistedRecordOf(gid, qid, b) }
  function WhitelistedRecordFn(gid: Value, qid: nat): CsvRow -> Record { w => WhitelistedRecordOf(gid, qid, w) }
  function PrioritizedRecordFn(gid: Value, qid: nat): CsvRow -> Record { p => PrioritizedRecordOf(gid, qid, p) }
  function AdminRecordFn(gid: Value): CsvRow -> Record { a => AdminRecordOf(gid, a) }

  function AdminRecordsOf(t: LegacyTables, g: CsvRow): seq<Record>
  {
    MapSeq(AdminRecordFn(Cell(g, "guild_id")), AdminsOf(t, g))
  }

  /** The records inserted before a queue's members: its voice link, then its displays. */
  function LeadingRecords(t: LegacyTables, gid: Value, q: CsvRow, ch: Channel, qid: nat): seq<Record>
  {
    VoiceRecordsOf(gid, q, ch, qid) + MapSeq(DisplayRecordFn(gid, qid), DisplaysOf(t, q))
  }

  /** The records inserted after a queue's members: schedules, access lists, priorities, admins. */
  function TrailingRecords(env: Env, t: LegacyTables, g: CsvRow, q: CsvRow, qid: nat): seq<Record>
  {
    var gid := Cell(g, "guild_id");
    MapSeq(ScheduleRecordFn(env, gid, qid, q), SchedulesOf(t, q))
    + MapSeq(BlacklistedRecordFn(gid, qid), AccessListOf(t, q, 0))
    + MapSeq(WhitelistedRecordFn(gid, qid), AccessListOf(t, q, 1))
    + MapSeq(PrioritizedRecordFn(gid, qid), PrioritiesOf(t, g))
    + AdminRecordsOf(t, g)
  }

  /**
    Everything inserted after a queue, in the loop's order: the voice link,
    displays, members, schedules, blacklist, whitelist, the guild's priority
    entries, the guild's admins. `None` when a member's timestamps throw.
   */
  function DependentRecords(env: Env, t: LegacyTables, g: CsvRow, q: CsvRow, ch: Channel, qid: nat): (r: Option<seq<Record>>)
    ensures r.Some? <==> forall m :: m in MembersOf(t, q) ==> MemberRecordOf(env, Cell(g, "guild_id"), qid, m).Some?
    ensures r.Some? ==> |r.value| == (if ch.isVoiceBased then 1 else 0) + |DisplaysOf(t, q)| + |MembersOf(t, q)|
                                     + |SchedulesOf(t, q)| + |AccessListOf(t, q, 0)| + |AccessListOf(t, q, 1)|
                                     + |PrioritiesOf(t, g)| + |AdminsOf(t, g)|
  {
    var gid := Cell(g, "guild_id");
    match MapAll(MemberRecordFn(env, gid, qid), MembersOf(t, q))
    case None => None
    case Some(members) => Some(LeadingRecords(t, gid, q, ch, qid) + members + TrailingRecords(env, t, g, q, qid))
  }

  /** The dependent records split at the member inserts. */
  lemma DependentRecordsSplit(env: Env, t: LegacyTables, g: CsvRow, q: CsvRow, ch: Channel, qid: nat)
    ensures DependentRecords(env, t, g, q, ch, qid).Some?
            <==> MapAll(MemberRecordFn(env, Cell(g, "guild_id"), qid), MembersOf(t, q)).Some?
    ensures DependentRecords(env, t, g, q, ch, qid).Some? ==>
              DependentRecords(env, t, g, q, ch, qid).value
              == LeadingRecords(t, Cell(g, "guild_id"), q, ch, qid)
                 + MapAll(MemberRecordFn(env, Cell(g, "guild_id"), qid), MembersOf(t, q)).value
                 + TrailingRecords(env, t, g, q, qid)
  {
  }

  /** Whether the loop reaches a `queue.id` for this queue: a voice link or any selected row but the admins. */
  predicate UsesQueueId(t: LegacyTables, g: CsvRow, q: CsvRow, ch: Channel)
    ensures !UsesQueueId(t, g, q, ch) ==>
              !ch.isVoiceBased && DisplaysOf(t, q) == [] && MembersOf(t, q) == [] && SchedulesOf(t, q) == []
              && PrioritiesOf(t, g) == []
  {
    ch.isVoiceBased || |DisplaysOf(t, q)| > 0 || |MembersOf(t, q)| > 0 || |SchedulesOf(t, q)| > 0
    || |AccessListOf(t, q, 0)| > 0 || |AccessListOf(t, q, 1)| > 0 || |PrioritiesOf(t, g)| > 0
  }

  /** The attempt of the naming loop whose insert succeeds, if any. */
  function QueueAttempt(env: Env, g: CsvRow, q: CsvRow, ch: Channel, recs: seq<Record>): Option<nat>
  {
    if QueueSettingsOf(env, g, q).None? then None
    else FirstFreeAttempt(recs, Cell(g, "guild_id"), ch.name, 0)
  }

  // ----- The loops -----

  /** One legacy queue row of a resolved guild (migrate.ts:168-279). */
  function QueueStep(env: Env, guild: Guild, t: LegacyTables, g: CsvRow, q: CsvRow, recs: seq<Record>): (r: Outcome)
    ensures Cell(q, "queue_channel_id") !in guild.channels ==> r == Ok(recs)
    ensures r.Thrown? ==> Cell(q, "queue_channel_id") in guild.channels
  {
    var channelId := Cell(q, "queue_channel_id");
    if channelId !in guild.channels then Ok(recs)
    else
      var ch := guild.channels[channelId];
      var gid := Cell(g, "guild_id");
      match QueueAttempt(env, g, q, ch, recs)
      case Some(k) =>
        var qid := |recs|;
        var withQueue := recs + [QueueRecord(qid, gid, Candidate(ch.name, k), QueueSettingsOf(env, g, q).value)];
        (match DependentRecords(env, t, g, q, ch, qid)
         case None => Thrown(RangeError)
         case Some(deps) => Ok(withQueue + deps))
      case None =>
        if UsesQueueId(t, g, q, ch) then Thrown(TypeError) else Ok(recs + AdminRecordsOf(t, g))
  }

  /** A queue row that does not throw only appends to the records. */
  lemma QueueStepExtends(env: Env, guild: Guild, t: LegacyTables, g: CsvRow, q: CsvRow, recs: seq<Record>)
    ensures QueueStep(env, guild, t, g, q, recs).Ok? ==> recs <= QueueStep(env, guild, t, g, q, recs).records
  {
  }

  /** The queue rows `qs` of a resolved guild, handled in order until one throws. */
  function ConvertQueues(env: Env, guild: Guild, t: LegacyTables, g: CsvRow, qs: seq<CsvRow>, recs: seq<Record>): (r: Outcome)
    ensures r.Ok? ==> recs <= r.records
    decreases |qs|
  {
    if qs == [] then Ok(recs)
    else
      match ConvertQueues(env, guild, t, g, qs[..|qs| - 1], recs)
      case Thrown(e) => Thrown(e)
      case Ok(r) => QueueStepExtends(env, guild, t, g, qs[|qs| - 1], r); QueueStep(env, guild, t, g, qs[|qs| - 1], r)
  }

  /** One legacy guild row (migrate.ts:152-280): skipped when the guild does not resolve. */
  function GuildStep(env: Env, platform: Platform, t: LegacyTables, g: CsvRow, recs: seq<Record>): (r: Outcome)
    ensures r.Ok? ==> recs <= r.records
    ensures Cell(g, "guild_id") !in platform ==> r == Ok(recs)
    ensures Cell(g, "guild_id") in platform && r.Ok? ==> |recs| < |r.records| && r.records[|recs|] == GuildRecordOf(g)
  {
    var gid := Cell(g, "guild_id");
    if gid !in platform then Ok(recs)
    else ConvertQueues(env, platform[gid], t, g, QueuesOf(t, g), recs + [GuildRecordOf(g)])
  }

  /** The guild rows `gs`, handled in order until one throws. */
  function ConvertGuilds(env: Env, platform: Platform, t: LegacyTables, gs: seq<CsvRow>, recs: seq<Record>): (r: Outcome)
    ensures r.Ok? ==> recs <= r.records
    decreases |gs|
  {
    if gs == [] then Ok(recs)
    else
      match ConvertGuilds(env, platform, t, gs[..|gs| - 1], recs)
      case Thrown(e) => Thrown(e)
      case Ok(r) => GuildStep(env, platform, t, gs[|gs| - 1], r)
  }

  /** The whole conversion loop over the legacy guild collection. */
  function Conversion(env: Env, platform: Platform, t: LegacyTables, recs: seq<Record>): (r: Outcome)
    ensures r.Ok? ==> recs <= r.records
  {
    ConvertGuilds(env, platform, t, t.queueGuilds, recs)
  }

  /** Once a queue row throws, the rest of the guild's queue rows change nothing. */
  lemma {:induction false} ConvertQueuesThrownPersists(env: Env, guild: Guild, t: LegacyTables, g: CsvRow,
                                                        qs: seq<CsvRow>, n: nat, recs: seq<Record>, e: Error)
    requires n <= |qs| && ConvertQueues(env, guild, t, g, qs[..n], recs) == Thrown(e)
    ensures ConvertQueues(env, guild, t, g, qs, recs) == Thrown(e)
    decreases |qs| - n
  {
    if n < |qs| {
      assert qs[..n + 1][..n] == qs[..n];
      ConvertQueuesThrownPersists(env, guild, t, g, qs, n + 1, recs, e);
    } else {
      assert qs[..n] == qs;
    }
  }

  /** Once a guild row throws, the remaining guild rows change nothing. */
  lemma {:induction false} ConvertGuildsThrownPersists(env: Env, platform: Platform, t: LegacyTables,
                                                        gs: seq<CsvRow>, n: nat, recs: seq<Record>, e: Error)
    requires n <= |gs| && ConvertGuilds(env, platform, t, gs[..n], recs) == Thrown(e)
    ensures ConvertGuilds(env, platform, t, gs, recs) == Thrown(e)
    decreases |gs| - n
  {
    if n < |gs| {
      assert gs[..n + 1][..n] == gs[..n];
      ConvertGuildsThrownPersists(env, platform, t, gs, n + 1, recs, e);
    } else {
      assert gs[..n] == gs;
    }
  }
}
