/**
  The persisted store the migration writes into, seen as the ordered log of
  the records inserted into it. Each target entity of the current schema is
  one kind of record; a queue's id is its position in the log. The store
  rejects a queue whose (guild, name) pair is already taken.
 */
module Store {
  import opened Wrappers
  import opened Js
  import Translate

  /** The configuration a queue is inserted with, besides its guild and name. */
  datatype QueueSettings = QueueSettings(
    autopullToggle: Value,
    color: string,
    displayButtons: Translate.Scope,
    displayUpdateType: Translate.DisplayUpdateType,
    header: Value,
    lockToggle: Value,
    memberDisplayType: Translate.MemberDisplayType,
    notificationsToggle: bool,
    pullBatchSize: int,
    rejoinGracePeriod: int,
    roleInQueueId: Value,
    size: int,
    timestampType: Translate.TimestampType,
    voiceDestinationChannelId: Value)

  /** One inserted row of the current schema. */
  datatype Record =
    | GuildRecord(guildId: Value, logChannelId: Value, logScope: Option<Translate.Scope>)
    | QueueRecord(id: nat, guildId: Value, name: string, settings: QueueSettings)
    | VoiceRecord(guildId: Value, queueId: nat, sourceChannelId: Value)
    | DisplayRecord(guildId: Value, queueId: nat, displayChannelId: Value, lastMessageId: Value)
    | MemberRecord(guildId: Value, queueId: nat, userId: Value, message: Value,
                   joinTime: int, positionTime: int, priorityOrder: Option<int>)
    | ScheduleRecord(guildId: Value, queueId: nat, command: Value, cron: Value,
                     timezone: Option<string>, messageChannelId: Value)
    | BlacklistedRecord(guildId: Value, queueId: nat, subjectId: Value, isRole: Value)
    | WhitelistedRecord(guildId: Value, queueId: nat, subjectId: Value, isRole: Value)
    | PrioritizedRecord(guildId: Value, queueId: nat, subjectId: Value, isRole: Value, rank: int)
    | AdminRecord(guildId: Value, subjectId: Value, isRole: Value)

  /** Whether the store already holds a queue of that guild with that name. */
  predicate NameTaken(records: seq<Record>, guildId: Value, name: string)
  {
    exists i :: 0 <= i < |records| && records[i].QueueRecord?
                && records[i].guildId == guildId && records[i].name == name
  }

  /** No two queues of one guild share a name. */
  predicate QueueNamesUnique(records: seq<Record>)
  {
    forall i, j ::
      (0 <= i < j < |records| && records[i].QueueRecord? && records[j].QueueRecord?
       && records[i].guildId == records[j].guildId) ==> records[i].name != records[j].name
  }

  class Store {
    var records: seq<Record>

    constructor (initial: seq<Record>)
      ensures records == initial
    {
      records := initial;
    }

    /** Inserts a record of any kind but a queue; these inserts always succeed. */
    method Insert(r: Record)
      requires !r.QueueRecord?
      modifies this
      ensures records == old(records) + [r]
    {
      records := records + [r];
    }

    /** Inserts a queue, or fails without change when its (guild, name) pair is taken. */
    method InsertQueue(guildId: Value, name: string, settings: QueueSettings) returns (id: Option<nat>)
      modifies this
      ensures id.Some? <==> !NameTaken(old(records), guildId, name)
      ensures id.Some? ==> id.value == |old(records)|
                           && records == old(records) + [QueueRecord(id.value, guildId, name, settings)]
      ensures id.None? ==> records == old(records)
    {
      if NameTaken(records, guildId, name) {
        id := None;
      } else {
        id := Some(|records|);
        records := records + [QueueRecord(|records|, guildId, name, settings)];
      }
    }
  }

  /** A successful queue insert keeps queue names unique. */
  lemma InsertQueueKeepsNamesUnique(records: seq<Record>, id: nat, guildId: Value, name: string, settings: QueueSettings)
    requires QueueNamesUnique(records)
    requires !NameTaken(records, guildId, name)
    ensures QueueNamesUnique(records + [QueueRecord(id, guildId, name, settings)])
  {
    var r := records + [QueueRecord(id, guildId, name, settings)];
    forall i, j | 0 <= i < j < |r| && r[i].QueueRecord? && r[j].QueueRecord? && r[i].guildId == r[j].guildId
      ensures r[i].name != r[j].name
    {
      if j == |records| {
        assert records[i] == r[i];
      }
    }
  }
}
