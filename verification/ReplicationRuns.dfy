/** Runs of the replication: how one state is reached from another, and that puts get through. */
module ReplicationRuns {
  import opened Keys
  import opened RingBuffers
  import opened RaftLogs
  import opened Replication

  ghost predicate Reached(s: System, run: seq<Action>, end: System) {
    IsRun(s, run) && After(s, run) == end
  }

  lemma {:induction false} OneMore(s: System, run: seq<Action>, mid: System, a: Action)
    requires Reached(s, run, mid) && WellFormed(mid) && Enabled(mid, a)
    ensures Reached(s, run + [a], Next(mid, a))
    decreases |run|
  {
    if run == [] {
      assert IsRun(Next(mid, a), []) && [a][1..] == [];
    } else {
      OneMore(Next(s, run[0]), run[1..], mid, a);
      assert (run + [a])[1..] == run[1..] + [a];
    }
  }

  predicate Moves(s: System, a: Action, t: System) {
    WellFormed(s) && Enabled(s, a) && Next(s, a) == t
  }

  ghost predicate Reachable(s: System, t: System) {
    exists run :: Reached(s, run, t)
  }

  lemma Onward(s: System, t: System, a: Action, u: System)
    requires Reachable(s, t) && Moves(t, a, u)
    ensures Reachable(s, u)
  {
    var run :| Reached(s, run, t);
    OneMore(s, run, t, a);
  }

  lemma AtStart(s: System)
    requires WellFormed(s)
    ensures Reachable(s, s)
  {
    assert Reached(s, [], s);
  }

  // ---------- counting down until logs meet ----------

  function Sent(s: System, f: nat): LogEntry
    requires WellFormed(s) && f < |s.followers| && s.leader.log.start < s.next[f] + 1 <= Index(s.leader.log)
  {
    var i := s.next[f] + 1;
    EntryAt(s.leader.log, i).(index := i, commited := s.leader.log.commited)
  }

  lemma SendMoves(s: System, f: nat)
    requires WellFormed(s) && f < |s.followers| && s.leader.log.start < s.next[f] + 1 <= Index(s.leader.log)
    requires s.phase[f].Sending?
    ensures Moves(s, Send(f), s.(requests := s.requests + {Entry(f, Sent(s, f))}))
  {
  }

  lemma RejectMoves(s: System, f: nat, e: LogEntry)
    requires WellFormed(s) && f < |s.followers| && Entry(f, e) in s.requests && e.index != Index(s.followers[f].log) + 1
    ensures Moves(s, Deliver(Entry(f, e)), s.(replies := s.replies + {Reply(f, e.index, false)}))
  {
    NeverCut(s.followers[f].log, f, e);
    assert s.followers[f := s.followers[f]] == s.followers;
  }

  lemma BackMoves(s: System, f: nat, i: nat)
    requires WellFormed(s) && f < |s.followers| && Reply(f, i, false) in s.replies && i == s.next[f] + 1
    requires s.phase[f].Sending?
    ensures Moves(s, TakeReply(Reply(f, i, false)), s.(next := s.next[f := s.next[f] - 1]))
  {
  }

  /** t is s but for the network and f's next index. */
  ghost predicate CountedDown(s: System, t: System, f: nat, next: int) {
    && WellFormed(s) && f < |s.followers|
    && t == System(s.leader, s.followers, s.next[f := next], s.phase, t.requests, t.replies)
  }

  /** One entry sent and turned down. */
  lemma Rejected(s0: System, s: System, f: nat) returns (t: System)
    requires Reachable(s0, s) && WellFormed(s) && f < |s.followers| && s.phase[f].Sending?
    requires s.leader.log.start < s.next[f] + 1 <= Index(s.leader.log) && s.next[f] != Index(s.followers[f].log)
    ensures Reachable(s0, t) && CountedDown(s, t, f, s.next[f] - 1)
  {
    hide Reachable, Moves;
    var e := Sent(s, f);
    var sent := s.(requests := s.requests + {Entry(f, e)});
    var answered := sent.(replies := s.replies + {Reply(f, e.index, false)});
    t := answered.(next := s.next[f := s.next[f] - 1]);
    SendMoves(s, f);
    RejectMoves(sent, f, e);
    BackMoves(answered, f, e.index);
    Onward(s0, s, Send(f), sent);
    Onward(s0, sent, Deliver(Entry(f, e)), answered);
    Onward(s0, answered, TakeReply(Reply(f, e.index, false)), t);
  }

  /** As long as the follower's log does not end just there, next is counted down. */
  lemma {:induction false} CountsDown(s0: System, s: System, f: nat, to: int) returns (t: System)
    requires Reachable(s0, s) && WellFormed(s) && f < |s.followers| && s.phase[f].Sending?
    requires s.leader.log.start - 1 <= to <= s.next[f] < Index(s.leader.log)
    requires !(to < Index(s.followers[f].log) <= s.next[f])
    ensures Reachable(s0, t) && CountedDown(s, t, f, to)
    decreases s.next[f] - to
  {
    hide Reachable;
    if s.next[f] == to {
      t := s;
      assert s.next[f := to] == s.next;
    } else {
      var mid := Rejected(s0, s, f);
      t := CountsDown(s0, mid, f, to);
      assert s.next[f := s.next[f] - 1][f := to] == s.next[f := to];
    }
  }

  lemma AcceptMoves(s: System, f: nat, e: LogEntry)
    requires WellFormed(s) && f < |s.followers| && Entry(f, e) in s.requests && e.index == Index(s.followers[f].log) + 1
    ensures Moves(s, Deliver(Entry(f, e)),
                  s.(followers := s.followers[f := s.followers[f].(log := Append(s.followers[f].log, e))],
                     replies := s.replies + {Reply(f, e.index, true)}))
  {
    NeverCut(s.followers[f].log, f, e);
  }

  /** t is s but that f has taken the entry after its last one, stamped with the leader's commit index. */
  ghost predicate TookOne(s: System, t: System, f: nat) {
    && WellFormed(s) && f < |s.followers| && WellFormed(t) && t.leader == s.leader
    && s.leader.log.start <= Index(s.followers[f].log) < Index(s.leader.log)
    && var l := s.followers[f].log;
       var e := EntryAt(s.leader.log, Index(l) + 1).(index := Index(l) + 1, commited := s.leader.log.commited);
       t.followers == s.followers[f := s.followers[f].(log := Append(l, e))]
  }

  /** A follower that is behind gets its next entry in the end. */
  lemma CatchesUp(s0: System, s: System, f: nat) returns (t: System)
    requires Reachable(s0, s) && WellFormed(s) && f < |s.followers| && s.phase[f].Sending?
    requires s.leader.log.start <= Index(s.followers[f].log) <= s.next[f] < Index(s.leader.log)
    ensures Reachable(s0, t) && TookOne(s, t, f)
  {
    hide Reachable, Moves;
    var mid := CountsDown(s0, s, f, Index(s.followers[f].log));
    var e := Sent(mid, f);
    var sent := mid.(requests := mid.requests + {Entry(f, e)});
    SendMoves(mid, f);
    AcceptMoves(sent, f, e);
    t := sent.(followers := s.followers[f := s.followers[f].(log := Append(s.followers[f].log, e))],
               replies := mid.replies + {Reply(f, e.index, true)});
    Onward(s0, mid, Send(f), sent);
    Onward(s0, sent, Deliver(Entry(f, e)), t);
  }

  // ---------- counting ----------

  /** Of the first k followers, those other than f that have got at least as far. */
  function LevelWith(next: seq<int>, f: nat, k: nat): set<nat>
    requires f < |next| && k <= |next|
  {
    if k == 0 then {}
    else if k - 1 == f || next[k - 1] < next[f] then LevelWith(next, f, k - 1)
    else LevelWith(next, f, k - 1) + {k - 1}
  }

  lemma {:induction false} LevelBelow(next: seq<int>, f: nat, k: nat, o: nat)
    requires f < |next| && k <= |next| && o in LevelWith(next, f, k)
    ensures o < k
  {
    if o in LevelWith(next, f, k - 1) {
      LevelBelow(next, f, k - 1, o);
    }
  }

  lemma CountOneMore(os: set<nat>, o: nat)
    requires o !in os
    ensures |os + {o}| == |os| + 1
  {
  }

  lemma LevelStep(next: seq<int>, f: nat, o: nat)
    requires f < |next| && o < |next|
    ensures |LevelWith(next, f, o + 1)| == |LevelWith(next, f, o)| + if o != f && next[o] >= next[f] then 1 else 0
  {
    if o in LevelWith(next, f, o) {
      LevelBelow(next, f, o, o);
    }
    CountOneMore(LevelWith(next, f, o), o);
  }

  lemma {:induction false} AllLevelCount(next: seq<int>, f: nat, k: nat)
    requires f < |next| && k <= |next| && forall o :: 0 <= o < |next| ==> next[o] >= next[f]
    ensures |LevelWith(next, f, k)| == if f < k then k - 1 else k
  {
    if k > 0 {
      AllLevelCount(next, f, k - 1);
      LevelStep(next, f, k - 1);
    }
  }

  /** f's thread has looked at the first k followers. */
  function CountedUpTo(s: System, f: nat, target: nat, k: nat): System
    requires f < |s.next| == |s.phase| && k <= |s.next|
  {
    s.(phase := s.phase[f := Counting(target, k, LevelWith(s.next, f, k))])
  }

  lemma LookMoves(s: System, f: nat, target: nat, k: nat)
    requires WellFormed(s) && f < |s.followers| && k < |s.followers|
    ensures Moves(CountedUpTo(s, f, target, k), Look(f), CountedUpTo(s, f, target, k + 1))
  {
    var now := CountedUpTo(s, f, target, k);
    var more: set<nat> := if k != f && s.next[k] >= s.next[f] then {k} else {};
    assert LevelWith(s.next, f, k + 1) == LevelWith(s.next, f, k) + more;
    assert Next(now, Look(f)).phase == now.phase[f := Counting(target, k + 1, LevelWith(s.next, f, k + 1))];
    assert now.phase[f := Counting(target, k + 1, LevelWith(s.next, f, k + 1))]
        == CountedUpTo(s, f, target, k + 1).phase;
  }

  lemma {:induction false} LooksAround(s0: System, s: System, f: nat, target: nat, k: nat)
    requires WellFormed(s) && f < |s.followers| && k <= |s.followers|
    requires Reachable(s0, CountedUpTo(s, f, target, 0))
    ensures Reachable(s0, CountedUpTo(s, f, target, k))
    decreases k
  {
    hide Reachable, Moves, CountedUpTo;
    if k > 0 {
      LooksAround(s0, s, f, target, k - 1);
      LookMoves(s, f, target, k - 1);
      Onward(s0, CountedUpTo(s, f, target, k - 1), Look(f), CountedUpTo(s, f, target, k));
    }
  }

  /** t is s with f's thread sending again, and the commit index moved to the target or not. */
  ghost predicate Concluded(s: System, t: System, f: nat, target: nat)
    requires WellFormed(s) && f < |s.followers|
  {
    && t == s.(leader := t.leader, phase := s.phase[f := Sending])
    && (t.leader == s.leader || t.leader == s.leader.(log := UpdateCommit(s.leader.log, target)))
    && ((forall o :: 0 <= o < |s.next| ==> s.next[o] >= s.next[f]) ==>
          t.leader == s.leader.(log := UpdateCommit(s.leader.log, target)))
  }

  /** Having looked around, the thread concludes; with everybody level, by moving the commit index. */
  lemma ConcludeMoves(s: System, f: nat, target: nat) returns (t: System)
    requires WellFormed(s) && f < |s.followers|
    ensures Moves(CountedUpTo(s, f, target, |s.followers|), Conclude(f), t) && Concluded(s, t, f, target)
  {
    var all := CountedUpTo(s, f, target, |s.followers|);
    t := Next(all, Conclude(f));
    assert all.phase[f := Sending] == s.phase[f := Sending];
    if forall o :: 0 <= o < |s.next| ==> s.next[o] >= s.next[f] {
      AllLevelCount(s.next, f, |s.followers|);
      EnoughExact(2 + |LevelWith(s.next, f, |s.followers|)|, |s.followers| - 1);
    }
  }

  lemma OkMoves(s: System, f: nat, i: nat)
    requires WellFormed(s) && f < |s.followers| && Reply(f, i, true) in s.replies && i == s.next[f] + 1
    requires s.phase[f].Sending?
    ensures Moves(s, TakeReply(Reply(f, i, true)), CountedUpTo(s.(next := s.next[f := i]), f, i, 0))
  {
  }

  // ---------- one follower takes what is sent ----------

  /** t is s but that f has taken the entry sent, and the leader has counted who else got that far. */
  ghost predicate Shipped(s: System, t: System, f: nat) {
    && WellFormed(s) && f < |s.followers| && s.leader.log.start < s.next[f] + 1 <= Index(s.leader.log)
    && s.leader.log.commited <= t.leader.log.commited <= Max(s.leader.log.commited, (s.next[f] + 1) as nat)
    && t == System(s.leader.(log := s.leader.log.(commited := t.leader.log.commited)),
                   s.followers[f := s.followers[f].(log := Append(s.followers[f].log, Sent(s, f)))],
                   s.next[f := s.next[f] + 1], s.phase, t.requests, t.replies)
    && ((forall o :: 0 <= o < |s.next| && o != f ==> s.next[o] > s.next[f]) ==>
          t.leader.log.commited >= s.next[f] + 1)
  }

  lemma Ships(s0: System, s: System, f: nat) returns (t: System)
    requires Reachable(s0, s) && WellFormed(s) && f < |s.followers| && s.phase[f].Sending?
    requires s.leader.log.start <= Index(s.followers[f].log) == s.next[f] < Index(s.leader.log)
    ensures Reachable(s0, t) && Shipped(s, t, f)
  {
    hide Reachable, Moves;
    var e, n := Sent(s, f), |s.followers|;
    var sent := s.(requests := s.requests + {Entry(f, e)});
    var accepted := sent.(followers := s.followers[f := s.followers[f].(log := Append(s.followers[f].log, e))],
                          replies := s.replies + {Reply(f, e.index, true)});
    var taken := accepted.(next := s.next[f := e.index as int]);
    SendMoves(s, f);
    AcceptMoves(sent, f, e);
    OkMoves(accepted, f, e.index);
    Onward(s0, s, Send(f), sent);
    Onward(s0, sent, Deliver(Entry(f, e)), accepted);
    Onward(s0, accepted, TakeReply(Reply(f, e.index, true)), CountedUpTo(taken, f, e.index, 0));
    LooksAround(s0, taken, f, e.index, n);
    t := ConcludeMoves(taken, f, e.index);
    Onward(s0, CountedUpTo(taken, f, e.index, n), Conclude(f), t);
    assert s.phase[f := Sending] == s.phase;
  }

  // ---------- everybody takes the one entry that is new ----------

  /** The node's log has one entry more, with this pair; nothing else has changed but the commit index. */
  ghost predicate Gained(was: Node, now: Node, p: Pair) {
    && now.given == was.given && now.log.start == was.log.start && now.log.lastAppend == was.log.lastAppend
    && was.log.commited <= now.log.commited <= Index(now.log)
    && Index(now.log) == Index(was.log) + 1 && was.log.held <= now.log.held
    && PairAt(now.log, Index(now.log)) == p
  }

  /** Of all followers, none of which held the leader's last entry, the first k have taken it. */
  ghost predicate TakenBy(s: System, t: System, k: nat, p: Pair) {
    && WellFormed(s) && WellFormed(t) && |t.followers| == |s.followers| && k <= |s.followers| && t.phase == s.phase
    && t.leader == s.leader.(log := s.leader.log.(commited := t.leader.log.commited))
    && s.leader.log.commited <= t.leader.log.commited <= Index(s.leader.log)
    && (k > 0 && k == |s.followers| ==> t.leader.log.commited == Index(s.leader.log))
    && forall f :: 0 <= f < |s.followers| ==>
         if f < k then Gained(s.followers[f], t.followers[f], p) && t.next[f] == s.next[f] + 1
         else t.followers[f] == s.followers[f] && t.next[f] == s.next[f]
  }

  /** All threads send, all logs end just before the leader's last entry, and there is room everywhere. */
  ghost predicate OneBehind(s: System) {
    && WellFormed(s) && s.leader.log.held != [] && s.leader.log.commited <= Index(s.leader.log)
    && forall f :: 0 <= f < |s.followers| ==>
         && s.phase[f].Sending? && HasRoom(s.followers[f].log.held)
         && s.followers[f].log.commited <= Index(s.followers[f].log) == s.next[f] == Index(s.leader.log) - 1
  }

  lemma SentGained(s: System, t: System, f: nat)
    requires Shipped(s, t, f) && HasRoom(s.followers[f].log.held) && s.leader.log.commited <= Index(s.leader.log)
    requires s.followers[f].log.commited <= Index(s.followers[f].log) == s.next[f] == Index(s.leader.log) - 1
    ensures Gained(s.followers[f], t.followers[f], PairAt(s.leader.log, Index(s.leader.log)))
  {
  }

  lemma {:induction false} AllTake(s0: System, s: System, k: nat) returns (t: System)
    requires Reachable(s0, s) && OneBehind(s) && k <= |s.followers|
    ensures Reachable(s0, t) && TakenBy(s, t, k, PairAt(s.leader.log, Index(s.leader.log)))
    decreases k
  {
    hide Reachable, Gained;
    if k == 0 {
      t := s;
    } else {
      var mid := AllTake(s0, s, k - 1);
      var f := k - 1;
      t := Ships(s0, mid, f);
      SentGained(mid, t, f);
    }
  }

  // ---------- and replays it ----------

  lemma BeatMoves(s: System, f: nat)
    requires WellFormed(s) && f < |s.followers|
    ensures Moves(s, HeartBeat(f), s.(requests := s.requests + {Beat(f, s.leader.log.commited)}))
  {
  }

  /** A heartbeat brings a follower that holds everything commited up to the leader's commit index. */
  lemma BeatCommits(s: System, f: nat, c: nat)
    requires WellFormed(s) && f < |s.followers| && Beat(f, c) in s.requests
    requires s.followers[f].log.commited <= c <= Index(s.followers[f].log)
    ensures var n := s.followers[f].(log := s.followers[f].log.(commited := c));
            Moves(s, Deliver(Beat(f, c)), s.(followers := s.followers[f := n]))
  {
  }

  /** From any state a follower that holds what its leader has commited can come to know that it is commited. */
  lemma HeartBeatsThrough(s0: System, s: System, f: nat) returns (t: System)
    requires Reachable(s0, s) && WellFormed(s) && f < |s.followers|
    requires s.followers[f].log.commited <= s.leader.log.commited <= Index(s.followers[f].log)
    ensures var l := s.followers[f].log.(commited := s.leader.log.commited);
            && Reachable(s0, t)
            && t == s.(followers := s.followers[f := s.followers[f].(log := l)], requests := t.requests)
  {
    hide Reachable, Moves;
    var c := s.leader.log.commited;
    var beaten := s.(requests := s.requests + {Beat(f, c)});
    t := beaten.(followers := s.followers[f := s.followers[f].(log := s.followers[f].log.(commited := c))]);
    BeatMoves(s, f);
    BeatCommits(beaten, f, c);
    Onward(s0, s, HeartBeat(f), beaten);
    Onward(s0, beaten, Deliver(Beat(f, c)), t);
  }

  /** Everything is commited and replayed. */
  predicate Done(n: Node) {
    n.log.lastAppend == n.log.commited == Index(n.log) == |n.given|
  }

  /** As much as the node before, and one pair more. */
  ghost predicate Served(was: Node, now: Node, p: Pair) {
    Done(now) && now.given == was.given + [p] && |now.log.held| == |was.log.held| + 1
  }

  lemma ReplayMoves(s: System, f: nat, slot: Pair)
    requires WellFormed(s) && f < |s.followers| && CanReplay(s.followers[f])
    ensures Moves(s, ReplayFollower(f, slot), s.(followers := s.followers[f := GiveNext(s.followers[f], slot)]))
  {
  }

  lemma Finishes(s0: System, s: System, f: nat, was: Node, p: Pair) returns (t: System)
    requires Reachable(s0, s) && WellFormed(s) && f < |s.followers| && Done(was) && Gained(was, s.followers[f], p)
    requires s.leader.log.commited == Index(s.followers[f].log)
    ensures Reachable(s0, t) && |t.followers| == |s.followers| && Served(was, t.followers[f], p)
    ensures t == s.(followers := s.followers[f := t.followers[f]], requests := t.requests)
    ensures Index(t.followers[f].log) == Index(s.followers[f].log)
  {
    hide Reachable, Moves;
    var mid := HeartBeatsThrough(s0, s, f);
    var n := GiveNext(mid.followers[f], p);
    t := mid.(followers := mid.followers[f := n]);
    ReplayMoves(mid, f, p);
    Onward(s0, mid, ReplayFollower(f, p), t);
    assert s.followers[f := mid.followers[f]][f := n] == s.followers[f := n];
  }

  /** The first k followers are done with the entry, the others have taken it. */
  ghost predicate ServedBy(s: System, t: System, k: nat, p: Pair) {
    && WellFormed(s) && WellFormed(t) && |t.followers| == |s.followers| && k <= |s.followers| && t.phase == s.phase
    && t.leader == s.leader.(log := s.leader.log.(commited := Index(s.leader.log)))
    && forall f :: 0 <= f < |s.followers| ==>
         && t.next[f] == s.next[f] + 1 && Index(t.followers[f].log) == Index(s.followers[f].log) + 1
         && if f < k then Served(s.followers[f], t.followers[f], p) else Gained(s.followers[f], t.followers[f], p)
  }

  lemma {:induction false} AllFinish(s0: System, s: System, taken: System, k: nat, p: Pair) returns (t: System)
    requires Reachable(s0, taken) && OneBehind(s) && s.followers != [] && TakenBy(s, taken, |s.followers|, p)
    requires k <= |s.followers| && forall f :: 0 <= f < |s.followers| ==> Done(s.followers[f])
    ensures Reachable(s0, t) && ServedBy(s, t, k, p)
    decreases k
  {
    hide Reachable;
    if k == 0 {
      t := taken;
    } else {
      var mid := AllFinish(s0, s, taken, k - 1, p);
      t := Finishes(s0, mid, k - 1, s.followers[k - 1], p);
    }
  }

  // ---------- puts get through ----------

  /** Nothing is under way: all threads send, and all nodes hold, have commited and have replayed as much. */
  ghost predicate Settled(s: System) {
    && WellFormed(s) && s.followers != [] && Done(s.leader)
    && forall f :: 0 <= f < |s.followers| ==>
         && s.phase[f].Sending? && Done(s.followers[f])
         && Index(s.followers[f].log) == Index(s.leader.log) == s.next[f]
  }

  ghost predicate RoomFor(s: System, k: nat) {
    && |s.leader.log.held| + k < RING_SIZE
    && forall f :: 0 <= f < |s.followers| ==> |s.followers[f].log.held| + k < RING_SIZE
  }

  lemma PutMoves(s: System, key: Key, value: Value, term: int)
    requires WellFormed(s)
    ensures Moves(s, ClientPut(key, value, term),
                  s.(leader := s.leader.(log := Append(s.leader.log, LocalEntry(s.leader.log, key, value, term)))))
  {
  }

  lemma LeaderReplayMoves(s: System, slot: Pair)
    requires WellFormed(s) && CanReplay(s.leader)
    ensures Moves(s, ReplayLeader(slot), s.(leader := GiveNext(s.leader, slot)))
  {
  }

  /** All nodes have given their DBs what they had before and then the pairs. */
  ghost predicate AllServed(s: System, t: System, pairs: seq<Pair>) {
    && |t.followers| == |s.followers| && t.leader.given == s.leader.given + pairs
    && forall f :: 0 <= f < |s.followers| ==> t.followers[f].given == s.followers[f].given + pairs
  }

  lemma PutIsServed(s0: System, s: System, key: Key, value: Value, term: int, k: nat) returns (t: System)
    requires Reachable(s0, s) && Settled(s) && RoomFor(s, k + 1)
    ensures Reachable(s0, t) && Settled(t) && RoomFor(t, k) && AllServed(s, t, [(key, value)])
  {
    hide Reachable, Moves;
    var p := (key, value);
    var put := s.(leader := s.leader.(log := Append(s.leader.log, LocalEntry(s.leader.log, key, value, term))));
    PutMoves(s, key, value, term);
    Onward(s0, s, ClientPut(key, value, term), put);
    var taken := AllTake(s0, put, |s.followers|);
    assert PairAt(put.leader.log, Index(put.leader.log)) == p;
    var finished := AllFinish(s0, put, taken, |s.followers|, p);
    LeaderReplayMoves(finished, p);
    t := finished.(leader := GiveNext(finished.leader, p));
    Onward(s0, finished, ReplayLeader(p), t);
  }

  /**
   * From a settled state, whatever the size of the cluster, puts can all get through: replicated, commited and given to
   * the DB of every node, in order.
   */
  lemma {:induction false} PutsAreServed(s0: System, s: System, puts: seq<Pair>, term: int) returns (t: System)
    requires Reachable(s0, s) && Settled(s) && RoomFor(s, |puts|)
    ensures Reachable(s0, t) && Settled(t) && AllServed(s, t, puts)
    decreases |puts|
  {
    hide Reachable, Settled;
    t := s;
    if puts != [] {
      var mid := PutIsServed(s0, s, puts[0].0, puts[0].1, term, |puts| - 1);
      t := PutsAreServed(s0, mid, puts[1..], term);
      assert [puts[0]] + puts[1..] == puts;
    }
  }

  function Blank(): Node {
    Node(Log(0, [], 0, 0), [])
  }

  /** A leader and n followers that have never held anything. */
  function FreshCluster(n: nat): System {
    System(Blank(), seq(n, _ => Blank()), seq(n, _ => 0), seq(n, _ => Sending), {}, {})
  }

  /** In a new cluster any puts, fewer than the ring has slots, can get through to every node. */
  lemma FreshClusterServes(n: nat, puts: seq<Pair>, term: int) returns (t: System)
    requires n >= 1 && |puts| < RING_SIZE
    ensures Elected(FreshCluster(n)) && Reachable(FreshCluster(n), t) && |t.followers| == n
    ensures t.leader.given == puts && forall f :: 0 <= f < n ==> t.followers[f].given == puts
  {
    var s := FreshCluster(n);
    AtStart(s);
    t := PutsAreServed(s, s, puts, term);
    assert [] + puts == puts;
  }
}
