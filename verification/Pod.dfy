/** A cluster node's object: what it does with an append request, and how a leader's thread counts. */
module Pods {
  import opened RingBuffers
  import opened RaftLogs
  import opened Replication
  import opened ReplicationRuns

  lemma NobodyYet(next: seq<int>, f: nat)
    requires f < |next|
    ensures LevelWith(next, f, 0) == {}
  {
  }

  class Pod {
    const log: RaftLog
    // The other nodes' nextindex_.
    const next: array<int>

    ghost predicate Valid()
      reads this, log, log.queue, log.queue.data
    {
      log.Valid()
    }

    constructor (log: RaftLog, next: array<int>)
      requires log.Valid()
      ensures this.log == log && this.next == next && Valid()
    {
      this.log, this.next := log, next;
    }

    method AppendEntries(entries: seq<LogEntry>, leaderCommit: nat) returns (code: int)
      requires Valid() && !log.stopped
      modifies log`index, log`commited, log.queue`head, log.queue.data
      ensures Valid() && log.State().given == old(log.State()).given
      ensures if |entries| == 1 then
                && (log.State().log, code == 0) == UpdateRaftLog(old(log.State()).log, entries[0], leaderCommit)
                && (code == 0 || code == -2)
              else log.State() == old(log.State()) && code == -3
    {
      if |entries| != 1 {
        return -3;
      }
      var entry := entries[0];
      if entry.index != log.index + 1 {
        if leaderCommit < log.index && leaderCommit > log.commited {
          log.Reset(log.commited);
        }
        if entry.index != log.index + 1 {
          return -2;
        }
        var ok := log.PutEntry(entry);
      } else {
        var ok := log.PutEntry(entry);
      }
      return 0;
    }

    /** Takes the leader's commit index over, then the entry, if there is one. */
    method SolveAppend(commitedIndex: nat, entries: seq<LogEntry>) returns (code: int)
      requires Valid() && !log.stopped
      modifies log`index, log`commited, log.queue`head, log.queue.data
      ensures Valid() && log.State().given == old(log.State()).given
      ensures var was := old(log.State()).log;
              && (entries == [] ==>
                    log.State().log == Replication.SolveAppend(was, Beat(0, commitedIndex)).0 && code == 0)
              && (|entries| == 1 ==>
                    && (log.State().log, code == 0) ==
                       UpdateRaftLog(UpdateCommit(was, commitedIndex), entries[0], commitedIndex)
                    && (code == 0 || code == -2))
              && (|entries| == 1 && commitedIndex == 0 ==>
                    (log.State().log, code == 0) == Replication.SolveAppend(was, Entry(0, entries[0])))
              && (|entries| > 1 ==> code == -3 && log.State().log == UpdateCommit(was, commitedIndex))
      ensures entries == [] ==> log.commited == Max(old(log.commited), Min(log.index, commitedIndex))
      ensures log.commited >= Max(old(log.commited), Min(old(log.index), commitedIndex))
    {
      log.AdvanceCommit(commitedIndex);
      if entries != [] {
        code := AppendEntries(entries, commitedIndex);
        return;
      }
      return 0;
    }

    /** A follower's thread after a success: counts itself, the leader and whoever got as far. */
    method CountAndAdvance(f: nat)
      requires Valid() && f < next.Length
      modifies log`commited
      ensures Valid() && log.State().given == old(log.State()).given
      ensures log.State().log ==
              if Enough(2 + |LevelWith(next[..], f, next.Length)|, next.Length - 1) then
                UpdateCommit(old(log.State()).log, AsSize(next[f]))
              else old(log.State()).log
    {
      hide LevelWith;
      ghost var level := next[..];
      var sum := 2;
      NobodyYet(level, f);
      for o := 0 to next.Length
        invariant sum == 2 + |LevelWith(level, f, o)| && Valid() && log.State() == old(log.State())
      {
        LevelStep(level, f, o);
        if o != f && next[o] >= next[f] {
          sum := sum + 1;
        }
      }
      if sum >= (sum + (next.Length - 1) + 1) / 2 {
        log.AdvanceCommit(AsSize(next[f]));
      }
      assert next[..] == level;
    }

    /** One round of a client's wait: whether enough followers' next index is past the entry's. */
    method IsAcknowledged(idx: nat) returns (done: bool)
      ensures done == Acknowledged(next[..], idx)
    {
      var sum := 1;
      ghost var past: set<nat> := {};
      for o := 0 to next.Length
        invariant past == set i: nat | i < o && AsSize(next[i]) > idx
        invariant sum == 1 + |past|
      {
        if AsSize(next[o]) > idx {
          sum := sum + 1;
          past := past + {o};
        }
      }
      assert past == PastIt(next[..], idx);
      done := sum > (1 + next.Length + 1) / 2;
    }
  }
}
