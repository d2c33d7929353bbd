/**
  The bounded rename-on-conflict loop that inserts a migrated queue
  (src/db/legacy-migration/migrate.ts:171-203): attempt 0 uses the source
  channel's name, attempt i uses the name followed by " (i)", at most five
  attempts are made and the first successful insert ends the loop.
 */
module QueueNaming {
  import opened Wrappers
  import opened Js
  import opened Store

  const MaxAttempts: nat := 5

  /** The name tried at a given attempt. */
  function Candidate(base: string, attempt: nat): (name: string)
    ensures attempt == 0 ==> name == base
    ensures attempt > 0 ==> |name| > |base| + 3 && name[..|base|] == base
  {
    if attempt == 0 then base else base + " (" + NatToString(attempt) + ")"
  }

  /** Different attempts never try the same name. */
  lemma CandidatesDistinct(base: string, i: nat, j: nat)
    requires i != j
    ensures Candidate(base, i) != Candidate(base, j)
  {
    if i > 0 && j > 0 && Candidate(base, i) == Candidate(base, j) {
      var si, sj := NatToString(i), NatToString(j);
      var ci, cj := Candidate(base, i), Candidate(base, j);
      assert |si| == |sj|;
      assert si == ci[|base| + 2..|ci| - 1];
      assert sj == cj[|base| + 2..|cj| - 1];
      NatToStringInjective(i, j);
    }
  }

  /**
    The attempt, from `from` on, whose name is free in the store: the first
    such one below `MaxAttempts`, or `None` when every remaining attempt collides.
   */
  function FirstFreeAttempt(records: seq<Record>, guildId: Value, base: string, from: nat): (r: Option<nat>)
    ensures r.Some? ==> from <= r.value < MaxAttempts && !NameTaken(records, guildId, Candidate(base, r.value))
    ensures r.Some? ==> forall k :: from <= k < r.value ==> NameTaken(records, guildId, Candidate(base, k))
    ensures r.None? <==> forall k :: from <= k < MaxAttempts ==> NameTaken(records, guildId, Candidate(base, k))
    decreases MaxAttempts - from
  {
    if from >= MaxAttempts then None
    else if !NameTaken(records, guildId, Candidate(base, from)) then Some(from)
    else FirstFreeAttempt(records, guildId, base, from + 1)
  }

  /** A store that does not yet hold the base name accepts it at the first attempt. */
  lemma FreeBaseNameWins(records: seq<Record>, guildId: Value, base: string)
    requires !NameTaken(records, guildId, base)
    ensures FirstFreeAttempt(records, guildId, base, 0) == Some(0)
  {
  }

  /**
    The naming loop. `settings` is `None` when building the queue's fields
    throws (a `BigInt` conversion of a malformed count): the `catch` then
    swallows every attempt. Returns the new queue's id and the number of
    loop iterations run.
   */
  method InsertQueueWithRetry(store: Store, guildId: Value, base: string, settings: Option<QueueSettings>)
    returns (queueId: Option<nat>, attempts: nat)
    modifies store
    ensures attempts <= MaxAttempts
    ensures settings.None? ==> queueId.None? && store.records == old(store.records) && attempts == MaxAttempts
    ensures settings.Some? ==>
      match FirstFreeAttempt(old(store.records), guildId, base, 0)
      case Some(k) =>
        queueId == Some(|old(store.records)|) && attempts == k + 1
        && store.records == old(store.records) + [QueueRecord(|old(store.records)|, guildId, Candidate(base, k), settings.value)]
      case None =>
        queueId.None? && attempts == MaxAttempts && store.records == old(store.records)
  {
    queueId := None;
    attempts := 0;
    ghost var start := store.records;
    var i := 0;
    while i < MaxAttempts
      invariant 0 <= i <= MaxAttempts
      invariant attempts == i
      invariant queueId.None? && store.records == start
      invariant settings.Some? ==> FirstFreeAttempt(start, guildId, base, 0) == FirstFreeAttempt(start, guildId, base, i)
    {
      var name := Candidate(base, i);
      attempts := attempts + 1;
      if settings.Some? {
        queueId := store.InsertQueue(guildId, name, settings.value);
        if queueId.Some? {
          assert FirstFreeAttempt(start, guildId, base, i) == Some(i);
          return;
        }
        assert FirstFreeAttempt(start, guildId, base, i) == FirstFreeAttempt(start, guildId, base, i + 1);
      }
      i := i + 1;
    }
    assert settings.Some? ==> FirstFreeAttempt(start, guildId, base, i) == None;
  }
}
