/**
  The `display_channels` table (src/utilities/tables/DisplayChannelTable.ts):
  one row per message that a display channel shows for a queue, with the
  operations that create the table, store a row after sending a display
  message, remove a queue's rows (deleting their messages remotely) and
  migrate the legacy `embed_ids` column to `embed_id`.
 */
module DisplayChannels {
  import opened Wrappers
  import opened Seqs

  /**
    One row. `embedId` is the `embed_id` column (`None` for SQL NULL);
    `embedIds` is the legacy `embed_ids` column, empty when that column is absent.
   */
  datatype DisplayRow = DisplayRow(
    queueChannelId: string,
    displayChannelId: string,
    embedId: Option<string>,
    embedIds: seq<string>)

  /** The table's schema and contents at one moment. */
  datatype TableState = TableState(
    present: bool,
    hasEmbedIdColumn: bool,
    hasEmbedIdsColumn: bool,
    rows: seq<DisplayRow>)

  /** A missing table has no columns and no rows; a missing column holds no values. */
  predicate Valid(s: TableState)
  {
    (!s.present ==> s.rows == [] && !s.hasEmbedIdColumn && !s.hasEmbedIdsColumn)
    && (!s.hasEmbedIdColumn ==> forall r :: r in s.rows ==> r.embedId.None?)
    && (!s.hasEmbedIdsColumn ==> forall r :: r in s.rows ==> r.embedIds == [])
  }

  /** A JavaScript string that is truthy: present and non-empty. */
  predicate Given(v: Option<string>)
  {
    v.Some? && v.value != ""
  }

  // ----- storeDisplayChannel -----

  /** Whether the insert is issued: the send produced a message id. */
  predicate Stores(sent: Option<string>)
  {
    Given(sent)
  }

  /** Whether the issued insert is refused: the table or its `embed_id` column is missing. */
  predicate StoreRejects(s: TableState, sent: Option<string>)
  {
    Stores(sent) && !(s.present && s.hasEmbedIdColumn)
  }

  /**
    The table after `storeDisplayChannel`, where `sent` is the id of the sent
    message (`None` when the send failed).
   */
  function StoreSpec(s: TableState, queueChannelId: string, displayChannelId: string, sent: Option<string>): (r: TableState)
    ensures r.present == s.present && r.hasEmbedIdColumn == s.hasEmbedIdColumn && r.hasEmbedIdsColumn == s.hasEmbedIdsColumn
    ensures r.rows == s.rows || r.rows == s.rows + [DisplayRow(queueChannelId, displayChannelId, sent, [])]
    ensures |r.rows| == |s.rows| + 1 <==> Given(sent) && s.present && s.hasEmbedIdColumn
    ensures Valid(s) ==> Valid(r)
  {
    if Stores(sent) && !StoreRejects(s, sent)
    then s.(rows := s.rows + [DisplayRow(queueChannelId, displayChannelId, sent, [])])
    else s
  }

  // ----- unstoreDisplayChannel -----

  /**
    The `where` clauses of the select and the delete: the queue channel, and
    the display channel when one is given.
   */
  predicate Matches(r: DisplayRow, queueChannelId: string, displayFilter: Option<string>)
  {
    r.queueChannelId == queueChannelId && (Given(displayFilter) ==> r.displayChannelId == displayFilter.value)
  }

  function Selected(queueChannelId: string, displayFilter: Option<string>): DisplayRow -> bool
  {
    r => Matches(r, queueChannelId, displayFilter)
  }

  function Unselected(queueChannelId: string, displayFilter: Option<string>): DisplayRow -> bool
  {
    r => !Matches(r, queueChannelId, displayFilter)
  }

  /** The rows the select returns, in table order; a missing table returns nothing (the query rejects). */
  function Removed(s: TableState, queueChannelId: string, displayFilter: Option<string>): (r: seq<DisplayRow>)
    ensures forall x :: x in r <==> s.present && x in s.rows && Matches(x, queueChannelId, displayFilter)
  {
    if s.present then Filter(Selected(queueChannelId, displayFilter), s.rows) else []
  }

  /** The table after the delete: every row the select returned is gone, every other row stays. */
  function UnstoreSpec(s: TableState, queueChannelId: string, displayFilter: Option<string>): (r: TableState)
    ensures forall x :: x in r.rows <==> x in s.rows && !(s.present && Matches(x, queueChannelId, displayFilter))
  {
    if s.present then s.(rows := Filter(Unselected(queueChannelId, displayFilter), s.rows)) else s
  }

  /** The remote messages a list of rows refers to, as (display channel, message id) pairs. */
  function MessagesOf(rows: seq<DisplayRow>): set<(string, string)>
  {
    set r | r in rows && r.embedId.Some? :: (r.displayChannelId, r.embedId.value)
  }

  lemma MessagesOfAppend(rows: seq<DisplayRow>, row: DisplayRow)
    ensures MessagesOf(rows + [row])
            == MessagesOf(rows) + (if row.embedId.Some? then {(row.displayChannelId, row.embedId.value)} else {})
  {
    var extended := rows + [row];
    assert forall r :: r in extended <==> r in rows || r == row;
    if row.embedId.Some? {
      assert (row.displayChannelId, row.embedId.value) in MessagesOf(extended);
    }
  }

  // ----- addEmbedId -----

  /** The `update`: every row of the pair gets the given message id as its `embed_id`. */
  function SetEmbedId(rows: seq<DisplayRow>, displayChannelId: string, queueChannelId: string, id: string): (r: seq<DisplayRow>)
    ensures |r| == |rows|
  {
    seq(|rows|, i requires 0 <= i < |rows| =>
      if rows[i].displayChannelId == displayChannelId && rows[i].queueChannelId == queueChannelId
      then rows[i].(embedId := Some(id)) else rows[i])
  }

  /** The updates issued for the rows of `snapshot`, in order, applied to `rows`. */
  function CopyFirstIds(rows: seq<DisplayRow>, snapshot: seq<DisplayRow>): (r: seq<DisplayRow>)
    ensures |r| == |rows|
    decreases |snapshot|
  {
    if snapshot == [] then rows
    else
      var done := CopyFirstIds(rows, snapshot[..|snapshot| - 1]);
      var last := snapshot[|snapshot| - 1];
      if |last.embedIds| > 0 then SetEmbedId(done, last.displayChannelId, last.queueChannelId, last.embedIds[0])
      else done
  }

  /** The updates for the first `i + 1` rows of `snapshot` are those for the first `i`, then row `i`'s. */
  lemma CopyFirstIdsStep(rows: seq<DisplayRow>, snapshot: seq<DisplayRow>, i: nat)
    requires i < |snapshot|
    ensures CopyFirstIds(rows, snapshot[..i + 1])
            == var row := snapshot[i];
               if |row.embedIds| > 0
               then SetEmbedId(CopyFirstIds(rows, snapshot[..i]), row.displayChannelId, row.queueChannelId, row.embedIds[0])
               else CopyFirstIds(rows, snapshot[..i])
  {
    assert snapshot[..i + 1][..i] == snapshot[..i];
  }

  /** Dropping the `embed_ids` column. */
  function DropEmbedIds(rows: seq<DisplayRow>): (r: seq<DisplayRow>)
    ensures |r| == |rows|
    ensures forall x :: x in r ==> x.embedIds == []
  {
    seq(|rows|, i requires 0 <= i < |rows| => rows[i].(embedIds := []))
  }

  /** Whether `addEmbedId` migrates: `embed_ids` exists and adding `embed_id` succeeds. */
  predicate Migrates(s: TableState)
  {
    s.present && s.hasEmbedIdsColumn && !s.hasEmbedIdColumn
  }

  /**
    The table after `addEmbedId`. With an `embed_ids` column the `embed_id`
    column is added (it fails, changing nothing, when it exists already),
    every row's first legacy id is copied to the rows of its (display, queue)
    pair, and `embed_ids` is dropped. Without it nothing happens.
   */
  function AddEmbedIdSpec(s: TableState): (r: TableState)
    ensures r.present == s.present && |r.rows| == |s.rows|
    ensures r.hasEmbedIdsColumn ==> r == s
    ensures Valid(s) ==> Valid(r)
  {
    if Migrates(s)
    then TableState(true, true, false, DropEmbedIds(CopyFirstIds(s.rows, s.rows)))
    else s
  }

  // ----- initTable -----

  /** The table `createTable` makes: no rows, an `embed_id` column and no `embed_ids` column. */
  const CreatedTable := TableState(true, true, false, [])

  /** The table after `initTable`: created when missing, then `addEmbedId`. */
  function InitSpec(s: TableState): (r: TableState)
    ensures r.present
    ensures r.hasEmbedIdsColumn ==> r.hasEmbedIdColumn
    ensures |r.rows| == if s.present then |s.rows| else 0
    ensures Valid(s) ==> Valid(r)
  {
    AddEmbedIdSpec(if s.present then s else CreatedTable)
  }

  /** A request to delete a display channel's message, as the cleanup issues it. */
  function DeleteRequestOf(r: DisplayRow): (string, Option<string>)
  {
    (r.displayChannelId, r.embedId)
  }

  /** The deletion requests issued for a list of rows, one per row, in order. */
  function DeleteRequests(rows: seq<DisplayRow>): (r: seq<(string, Option<string>)>)
    ensures |r| == |rows|
    ensures forall i :: 0 <= i < |rows| ==> r[i] == (rows[i].displayChannelId, rows[i].embedId)
  {
    MapSeq(DeleteRequestOf, rows)
  }

  /** Requests the deletion of every row's message, in order, whatever becomes of each request. */
  method DeleteMessages(platform: ChatPlatform, rows: seq<DisplayRow>)
    modifies platform
    ensures platform.requests == old(platform.requests) + DeleteRequests(rows)
    ensures platform.messages <= old(platform.messages)
    ensures old(platform.messages) - platform.messages <= MessagesOf(rows)
  {
    for i := 0 to |rows|
      invariant platform.requests == old(platform.requests) + DeleteRequests(rows[..i])
      invariant platform.messages <= old(platform.messages)
      invariant old(platform.messages) - platform.messages <= MessagesOf(rows[..i])
    {
      var row := rows[i];
      var _ := platform.DeleteMessage(row.displayChannelId, row.embedId);
      assert rows[..i + 1] == rows[..i] + [row];
      MessagesOfAppend(rows[..i], row);
      assert DeleteRequests(rows[..i] + [row]) == DeleteRequests(rows[..i]) + [DeleteRequestOf(row)];
    }
    assert rows[..|rows|] == rows;
  }

  /** The chat platform's messages, as far as the cleanup of removed rows can see them. */
  class ChatPlatform {
    var messages: set<(string, string)>
    /** Every deletion requested so far, in order. */
    ghost var requests: seq<(string, Option<string>)>

    /**
      Fetch a display channel's message and delete it. Whether that succeeds
      (the channel and message exist, the bot may delete it) is the platform's
      decision; a row without a message id never names a message.
     */
    method DeleteMessage(displayChannelId: string, embedId: Option<string>) returns (deleted: bool)
      modifies this
      ensures requests == old(requests) + [(displayChannelId, embedId)]
      ensures deleted ==> embedId.Some? && messages == old(messages) - {(displayChannelId, embedId.value)}
      ensures !deleted ==> messages == old(messages)
    {
      requests := requests + [(displayChannelId, embedId)];
      if embedId.None? {
        return false;
      }
      var outcome: bool :| true;
      deleted := outcome;
      if deleted {
        messages := messages - {(displayChannelId, embedId.value)};
      }
    }
  }

  /** The persisted `display_channels` table. */
  class DisplayChannelTable {
    var present: bool
    var hasEmbedIdColumn: bool
    var hasEmbedIdsColumn: bool
    var rows: seq<DisplayRow>

    function State(): TableState
      reads this
    {
      TableState(present, hasEmbedIdColumn, hasEmbedIdsColumn, rows)
    }

    /** A database whose schema may already hold the table, in any valid shape. */
    constructor (initial: TableState)
      requires Valid(initial)
      ensures State() == initial
    {
      present, hasEmbedIdColumn, hasEmbedIdsColumn, rows :=
        initial.present, initial.hasEmbedIdColumn, initial.hasEmbedIdsColumn, initial.rows;
    }

    /** `initTable`: create the table when it is missing, then bring its columns up to date. */
    method InitTable()
      requires Valid(State())
      modifies this
      ensures Valid(State())
      ensures State() == InitSpec(old(State()))
    {
      if !present {
        present, hasEmbedIdColumn, hasEmbedIdsColumn, rows := true, true, false, [];
      }
      AddEmbedId();
    }

    /**
      `storeDisplayChannel`: `sent` is the id of the message sent to the
      display channel, `None` when the send failed. Returns `false` when the
      insert is refused.
     */
    method StoreDisplayChannel(queueChannelId: string, displayChannelId: string, sent: Option<string>)
      returns (ok: bool)
      requires Valid(State())
      modifies this
      ensures Valid(State())
      ensures ok <==> !StoreRejects(old(State()), sent)
      ensures State() == StoreSpec(old(State()), queueChannelId, displayChannelId, sent)
    {
      ok := true;
      if Given(sent) {
        if !present || !hasEmbedIdColumn {
          return false;
        }
        rows := rows + [DisplayRow(queueChannelId, displayChannelId, sent, [])];
      }
    }

    /**
      `unstoreDisplayChannel`: select and delete the matching rows, then, when
      `deleteOldDisplayMsg`, try to delete each selected row's message,
      ignoring every failure. Returns `false` when the queries are refused
      (the table is missing) and the rows whose message deletion was attempted.
     */
    method UnstoreDisplayChannel(platform: ChatPlatform, queueChannelId: string, displayFilter: Option<string>,
                                 deleteOldDisplayMsg: bool)
      returns (ok: bool, attempted: seq<DisplayRow>)
      requires Valid(State())
      modifies this, platform
      ensures Valid(State())
      ensures ok == old(present)
      ensures State() == UnstoreSpec(old(State()), queueChannelId, displayFilter)
      ensures attempted == if deleteOldDisplayMsg then Removed(old(State()), queueChannelId, displayFilter) else []
      ensures platform.requests == old(platform.requests) + DeleteRequests(attempted)
      ensures platform.messages <= old(platform.messages)
      ensures old(platform.messages) - platform.messages <= MessagesOf(attempted)
    {
      attempted := [];
      if !present {
        return false, [];
      }
      ok := true;
      var stored := Filter(Selected(queueChannelId, displayFilter), rows);
      rows := Filter(Unselected(queueChannelId, displayFilter), rows);
      if !deleteOldDisplayMsg {
        return;
      }
      DeleteMessages(platform, stored);
      attempted := stored;
    }

    /** `addEmbedId`: the one-time migration of `embed_ids` to `embed_id`. */
    method AddEmbedId()
      requires Valid(State())
      modifies this
      ensures Valid(State())
      ensures State() == AddEmbedIdSpec(old(State()))
    {
      if !present || !hasEmbedIdsColumn {
        return;
      }
      if hasEmbedIdColumn {
        return;
      }
      hasEmbedIdColumn := true;
      var snapshot := rows;
      for i := 0 to |snapshot|
        invariant present && hasEmbedIdColumn && hasEmbedIdsColumn
        invariant rows == CopyFirstIds(snapshot, snapshot[..i])
      {
        var row := snapshot[i];
        CopyFirstIdsStep(snapshot, snapshot, i);
        if |row.embedIds| > 0 {
          rows := SetEmbedId(rows, row.displayChannelId, row.queueChannelId, row.embedIds[0]);
        }
      }
      assert snapshot[..|snapshot|] == snapshot;
      rows := DropEmbedIds(rows);
      hasEmbedIdsColumn := false;
    }
  }
}
