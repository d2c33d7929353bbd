/**
  What the operations of the `display_channels` table guarantee, stated on
  the functions of module DisplayChannels that their methods are proved to
  follow.
 */
module DisplayChannelProps {
  import opened Wrappers
  import opened Seqs
  import opened DisplayChannels

  // ----- storeDisplayChannel and unstoreDisplayChannel -----

  /**
    Storing a row for a (queue, display) pair and then unstoring that pair is
    the same as unstoring it alone: no row of the pair is left.
   */
  lemma StoreThenUnstore(s: TableState, queueChannelId: string, displayChannelId: string, sent: Option<string>)
    ensures UnstoreSpec(StoreSpec(s, queueChannelId, displayChannelId, sent), queueChannelId, Some(displayChannelId))
            == UnstoreSpec(s, queueChannelId, Some(displayChannelId))
    ensures forall r :: r in UnstoreSpec(s, queueChannelId, Some(displayChannelId)).rows && s.present ==>
              !(r.queueChannelId == queueChannelId && r.displayChannelId == displayChannelId)
  {
    var stored := StoreSpec(s, queueChannelId, displayChannelId, sent);
    if stored != s {
      var row := DisplayRow(queueChannelId, displayChannelId, sent, []);
      assert stored.rows == s.rows + [row];
      FilterSkips(Unselected(queueChannelId, Some(displayChannelId)), s.rows, row);
    }
  }

  /** Unstoring splits the table: every row is either selected for removal or kept, never both. */
  lemma UnstorePartitions(s: TableState, queueChannelId: string, displayFilter: Option<string>)
    ensures multiset(Removed(s, queueChannelId, displayFilter)) + multiset(UnstoreSpec(s, queueChannelId, displayFilter).rows)
            == multiset(s.rows)
  {
    FilterCounts(Selected(queueChannelId, displayFilter), Unselected(queueChannelId, displayFilter), s.rows);
  }

  /** The rows of one queue, in table order. */
  function RowsOfQueue(queueChannelId: string): DisplayRow -> bool
  {
    (r: DisplayRow) => r.queueChannelId == queueChannelId
  }

  function RowsOfOtherQueues(queueChannelId: string): DisplayRow -> bool
  {
    (r: DisplayRow) => r.queueChannelId != queueChannelId
  }

  /** Unstoring a queue's rows leaves every other queue's rows as they were, in the same order. */
  lemma UnstoreKeepsOtherQueues(s: TableState, queueChannelId: string, displayFilter: Option<string>)
    ensures Filter(RowsOfOtherQueues(queueChannelId), UnstoreSpec(s, queueChannelId, displayFilter).rows)
            == Filter(RowsOfOtherQueues(queueChannelId), s.rows)
  {
    if s.present {
      FilterFilter(RowsOfOtherQueues(queueChannelId), Unselected(queueChannelId, displayFilter), s.rows);
    }
  }

  /** Without a display filter, unstoring removes all of the queue's rows. */
  lemma UnstoreAllOfQueue(s: TableState, queueChannelId: string, displayFilter: Option<string>)
    requires s.present && !Given(displayFilter)
    ensures Removed(s, queueChannelId, displayFilter) == Filter(RowsOfQueue(queueChannelId), s.rows)
    ensures Filter(RowsOfQueue(queueChannelId), UnstoreSpec(s, queueChannelId, displayFilter).rows) == []
  {
    FilterSame(Selected(queueChannelId, displayFilter), RowsOfQueue(queueChannelId), s.rows);
    var kept := UnstoreSpec(s, queueChannelId, displayFilter).rows;
    if Filter(RowsOfQueue(queueChannelId), kept) != [] {
      var x := Filter(RowsOfQueue(queueChannelId), kept)[0];
      assert x in kept;
    }
  }

  /** Filtering by two predicates that agree everywhere gives the same rows. */
  lemma {:induction false} FilterSame(p: DisplayRow -> bool, q: DisplayRow -> bool, s: seq<DisplayRow>)
    requires forall x :: p(x) == q(x)
    ensures Filter(p, s) == Filter(q, s)
    decreases |s|
  {
    if s != [] {
      FilterSame(p, q, s[..|s| - 1]);
    }
  }

  /** Unstoring twice removes nothing more. */
  lemma UnstoreIdempotent(s: TableState, queueChannelId: string, displayFilter: Option<string>)
    ensures UnstoreSpec(UnstoreSpec(s, queueChannelId, displayFilter), queueChannelId, displayFilter)
            == UnstoreSpec(s, queueChannelId, displayFilter)
    ensures Removed(UnstoreSpec(s, queueChannelId, displayFilter), queueChannelId, displayFilter) == []
  {
    var once := UnstoreSpec(s, queueChannelId, displayFilter);
    if s.present {
      var u := Unselected(queueChannelId, displayFilter);
      FilterFilter(u, u, s.rows);
      FilterNone(Selected(queueChannelId, displayFilter), once.rows);
    }
  }

  // ----- addEmbedId -----

  /** The first legacy id of a row, if it has one. */
  function FirstId(ids: seq<string>): Option<string>
  {
    if |ids| > 0 then Some(ids[0]) else None
  }

  /** No two rows share a (display channel, queue channel) pair. */
  predicate UniquePairs(rows: seq<DisplayRow>)
  {
    forall i, j :: 0 <= i < j < |rows| ==>
      rows[i].displayChannelId != rows[j].displayChannelId || rows[i].queueChannelId != rows[j].queueChannelId
  }

  /** The updates never change which queue and display channel a row belongs to. */
  lemma {:induction false} CopyFirstIdsKeepsPairs(rows: seq<DisplayRow>, snapshot: seq<DisplayRow>)
    ensures forall i :: 0 <= i < |rows| ==>
              CopyFirstIds(rows, snapshot)[i].queueChannelId == rows[i].queueChannelId
              && CopyFirstIds(rows, snapshot)[i].displayChannelId == rows[i].displayChannelId
              && CopyFirstIds(rows, snapshot)[i].embedIds == rows[i].embedIds
    decreases |snapshot|
  {
    if snapshot != [] {
      CopyFirstIdsKeepsPairs(rows, snapshot[..|snapshot| - 1]);
    }
  }

  /** The first legacy ids of the rows that have one. */
  function FirstIdsOf(snapshot: seq<DisplayRow>): set<string>
  {
    set x | x in snapshot && |x.embedIds| > 0 :: x.embedIds[0]
  }

  /** Whatever the pairs, a row's `embed_id` is either untouched or the first legacy id of some row. */
  lemma {:induction false} CopyFirstIdsOnlyFirstIds(rows: seq<DisplayRow>, snapshot: seq<DisplayRow>)
    ensures forall i :: 0 <= i < |rows| ==>
              CopyFirstIds(rows, snapshot)[i].embedId == rows[i].embedId
              || (CopyFirstIds(rows, snapshot)[i].embedId.Some?
                  && CopyFirstIds(rows, snapshot)[i].embedId.value in FirstIdsOf(snapshot))
    decreases |snapshot|
  {
    if snapshot != [] {
      var init, last := snapshot[..|snapshot| - 1], snapshot[|snapshot| - 1];
      CopyFirstIdsOnlyFirstIds(rows, init);
      assert snapshot == init + [last];
      assert FirstIdsOf(init) <= FirstIdsOf(snapshot);
      if |last.embedIds| > 0 {
        assert last.embedIds[0] in FirstIdsOf(snapshot);
      }
    }
  }

  /**
    With unique pairs, after the updates issued for the first `n` rows, those
    rows carry their own first legacy id and the others are untouched.
   */
  lemma {:induction false} CopyFirstIdsOwnId(rows: seq<DisplayRow>, n: nat)
    requires n <= |rows| && UniquePairs(rows)
    requires forall r :: r in rows ==> r.embedId.None?
    ensures forall i :: 0 <= i < |rows| ==>
              CopyFirstIds(rows, rows[..n])[i] == if i < n then rows[i].(embedId := FirstId(rows[i].embedIds)) else rows[i]
    decreases n
  {
    if n > 0 {
      CopyFirstIdsStep(rows, rows, n - 1);
      CopyFirstIdsOwnId(rows, n - 1);
      assert rows[n - 1] in rows;
      OwnIdStep(rows, CopyFirstIds(rows, rows[..n - 1]), n);
    } else {
      forall i | 0 <= i < |rows| ensures rows[i].embedId.None? {
        assert rows[i] in rows;
      }
    }
  }

  /** The update for row `n - 1` gives it its own first id and, the pairs being unique, touches no other row. */
  lemma OwnIdStep(rows: seq<DisplayRow>, done: seq<DisplayRow>, n: nat)
    requires 0 < n <= |rows| == |done| && UniquePairs(rows) && rows[n - 1].embedId.None?
    requires forall i :: 0 <= i < |rows| ==>
               done[i] == if i < n - 1 then rows[i].(embedId := FirstId(rows[i].embedIds)) else rows[i]
    ensures var row := rows[n - 1];
            var next := if |row.embedIds| > 0
                        then SetEmbedId(done, row.displayChannelId, row.queueChannelId, row.embedIds[0])
                        else done;
            forall i :: 0 <= i < |rows| ==>
              next[i] == if i < n then rows[i].(embedId := FirstId(rows[i].embedIds)) else rows[i]
  {
    var row := rows[n - 1];
    forall i | 0 <= i < |rows| && i != n - 1
      ensures done[i].displayChannelId != row.displayChannelId || done[i].queueChannelId != row.queueChannelId
    {
    }
  }

  /**
    Migrating a table whose rows have unique (display, queue) pairs gives every
    row its own first legacy id as `embed_id` (NULL when its list is empty),
    keeps its other columns, and drops `embed_ids`.
   */
  lemma AddEmbedIdCopiesFirstId(s: TableState)
    requires Valid(s) && Migrates(s) && UniquePairs(s.rows)
    ensures AddEmbedIdSpec(s).present && AddEmbedIdSpec(s).hasEmbedIdColumn && !AddEmbedIdSpec(s).hasEmbedIdsColumn
    ensures |AddEmbedIdSpec(s).rows| == |s.rows|
    ensures forall i :: 0 <= i < |s.rows| ==>
              AddEmbedIdSpec(s).rows[i] == DisplayRow(s.rows[i].queueChannelId, s.rows[i].displayChannelId,
                                                      FirstId(s.rows[i].embedIds), [])
  {
    CopyFirstIdsOwnId(s.rows, |s.rows|);
    assert s.rows[..|s.rows|] == s.rows;
  }

  /** Whatever the pairs, the migration keeps the rows, their order and their channels. */
  lemma AddEmbedIdKeepsRows(s: TableState)
    ensures |AddEmbedIdSpec(s).rows| == |s.rows|
    ensures forall i :: 0 <= i < |s.rows| ==>
              AddEmbedIdSpec(s).rows[i].queueChannelId == s.rows[i].queueChannelId
              && AddEmbedIdSpec(s).rows[i].displayChannelId == s.rows[i].displayChannelId
  {
    CopyFirstIdsKeepsPairs(s.rows, s.rows);
  }

  /** Running the migration a second time changes nothing. */
  lemma AddEmbedIdIdempotent(s: TableState)
    ensures AddEmbedIdSpec(AddEmbedIdSpec(s)) == AddEmbedIdSpec(s)
    ensures !AddEmbedIdSpec(s).hasEmbedIdsColumn || AddEmbedIdSpec(s) == s
  {
  }

  // ----- initTable -----

  /**
    `initTable` creates an empty table with an `embed_id` column when none
    exists, leaves an up-to-date table untouched, and a second run changes
    nothing.
   */
  lemma InitTableEffect(s: TableState)
    requires Valid(s)
    ensures !s.present ==> InitSpec(s) == CreatedTable
    ensures s.present && !s.hasEmbedIdsColumn ==> InitSpec(s) == s
    ensures InitSpec(InitSpec(s)) == InitSpec(s)
  {
    AddEmbedIdIdempotent(if s.present then s else CreatedTable);
  }
}
