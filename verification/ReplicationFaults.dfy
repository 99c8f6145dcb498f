/** Runs of the replication on which the code falls short, and exactly when it does. */
module ReplicationFaults {
  import opened Keys
  import opened RingBuffers
  import opened RaftLogs
  import opened Replication
  import opened ReplicationRuns

  // ---------- a follower that holds more than the next index ----------

  /** The leader's thread looks for the follower's last entry at or below top, and nothing on the way is any other. */
  ghost predicate Ahead(s: System, f: nat, l: Log, top: int) {
    && WellFormed(s) && f < |s.followers| && s.next[f] <= top < Index(l)
    && s.followers[f].log.start == l.start && s.followers[f].log.held == l.held
    && (forall req :: req in s.requests && req.Entry? && req.to == f ==> req.entry.index <= top + 1)
    && (forall r :: r in s.replies && r.from == f ==> !r.ok)
  }

  lemma StaysAhead(s: System, a: Action, f: nat, l: Log, top: int)
    requires Ahead(s, f, l, top) && Enabled(s, a)
    ensures Ahead(Next(s, a), f, l, top)
  {
  }

  lemma {:induction false} AlwaysAhead(s: System, run: seq<Action>, f: nat, l: Log, top: int)
    requires Ahead(s, f, l, top) && IsRun(s, run)
    ensures Ahead(After(s, run), f, l, top)
    decreases |run|
  {
    hide Ahead, Next, Enabled;
    if run != [] {
      StaysAhead(s, run[0], f, l, top);
      AlwaysAhead(Next(s, run[0]), run[1..], f, l, top);
    }
  }

  /** A follower that holds anything beyond the commit index of a new leader never gets another entry from it. */
  lemma AheadNeverGrows(s: System, run: seq<Action>, f: nat)
    requires Elected(s) && IsRun(s, run) && f < |s.followers| && s.next[f] < Index(s.followers[f].log)
    ensures Ahead(After(s, run), f, s.followers[f].log, s.next[f])
  {
    AlwaysAhead(s, run, f, s.followers[f].log, s.next[f]);
  }

  /** The log cannot grow: its ring is full, or the leader does not go back as far. */
  ghost predicate Barred(s: System, f: nat, l: Log) {
    && LogInv(s) && f < |s.followers| && s.followers[f].log.start == l.start && s.followers[f].log.held == l.held
    && (!HasRoom(l.held) || Index(l) < s.leader.log.start)
  }

  lemma StaysBarred(s: System, a: Action, f: nat, l: Log)
    requires Barred(s, f, l) && Enabled(s, a)
    ensures Barred(Next(s, a), f, l)
  {
    hide Agrees, Numbered;
    NextGrows(s, a);
    NextKeepsLogs(s, a);
    if a.Deliver? && a.req.Entry? && a.req.to == f {
      NeverCut(s.followers[f].log, f, a.req.entry);
      assert RequestOk(s.leader.log, a.req);
    }
  }

  lemma {:induction false} AlwaysBarred(s: System, run: seq<Action>, f: nat, l: Log)
    requires Barred(s, f, l) && IsRun(s, run)
    ensures Barred(After(s, run), f, l)
    decreases |run|
  {
    hide Barred, Next, Enabled;
    if run != [] {
      StaysBarred(s, run[0], f, l);
      AlwaysBarred(Next(s, run[0]), run[1..], f, l);
    }
  }

  ghost predicate GetsMore(s: System, f: nat) {
    exists t :: Reachable(s, t) && f < |s.followers| && f < |t.followers|
                && Index(s.followers[f].log) < Index(t.followers[f].log)
  }

  lemma NeverMore(s: System, f: nat, t: System)
    requires Elected(s) && f < |s.followers| && Reachable(s, t) && f < |t.followers|
    requires var l := s.followers[f].log;
             s.next[f] < Index(l) || !HasRoom(l.held) || Index(l) < s.leader.log.start
    ensures Index(t.followers[f].log) == Index(s.followers[f].log)
  {
    var run :| Reached(s, run, t);
    if s.next[f] < Index(s.followers[f].log) {
      AheadNeverGrows(s, run, f);
    } else {
      AlwaysBarred(s, run, f, s.followers[f].log);
    }
  }

  /**
   * With something to send, a follower can get an entry exactly when its log has room and ends where the leader's
   * thread will look: not before the leader's log begins, nor beyond the next index.
   */
  lemma GetsMoreExact(s: System, f: nat)
    requires Elected(s) && f < |s.followers| && s.next[f] < Index(s.leader.log)
    ensures var l := s.followers[f].log;
            GetsMore(s, f) <==> s.leader.log.start <= Index(l) <= s.next[f] && HasRoom(l.held)
  {
    var l := s.followers[f].log;
    if s.leader.log.start <= Index(l) <= s.next[f] && HasRoom(l.held) {
      AtStart(s);
      var t := CatchesUp(s, s, f);
      assert Index(l) < Index(t.followers[f].log);
    } else if GetsMore(s, f) {
      var t :| Reachable(s, t) && f < |t.followers| && Index(l) < Index(t.followers[f].log);
      NeverMore(s, f, t);
    }
  }

  /** From there the thread counts next down until it names no entry of the leader's any more. */
  lemma AheadFallsBelow(s: System, f: nat) returns (t: System)
    requires Elected(s) && f < |s.followers| && s.leader.log.start - 1 <= s.next[f] < Index(s.followers[f].log)
    ensures Reachable(s, t) && CountedDown(s, t, f, s.leader.log.start - 1)
  {
    AtStart(s);
    assert Agrees(s.leader.log, s.followers[f].log);
    t := CountsDown(s, s, f, s.leader.log.start - 1);
  }

  // ---------- a thread that is stopped below zero ----------

  lemma StopMoves(s: System, f: nat)
    requires WellFormed(s) && f < |s.followers| && s.phase[f].Sending? && s.next[f] < Index(s.leader.log)
    ensures Moves(s, StopSending(f), CountedUpTo(s, f, AsSize(s.next[f]), 0))
  {
  }

  /** A thread stopped with its next index below zero commits all that its leader has, whatever the followers hold. */
  lemma StopCommitsAll(s: System, f: nat) returns (t: System)
    requires Elected(s) && f < |s.followers| && s.leader.log.start == 0 && s.next[f] < Index(s.followers[f].log)
    requires Index(s.leader.log) < TWO64
    ensures Reachable(s, t) && t.followers == s.followers
    ensures t.leader == s.leader.(log := s.leader.log.(commited := Index(s.leader.log)))
  {
    assert Agrees(s.leader.log, s.followers[f].log);
    var low := AheadFallsBelow(s, f);
    var target := AsSize(-1);
    assert forall o :: 0 <= o < |s.followers| ==> low.next[o] >= -1;
    hide Reachable, Moves, Elected, LogInv;
    StopMoves(low, f);
    Onward(s, low, StopSending(f), CountedUpTo(low, f, target, 0));
    LooksAround(s, low, f, target, |s.followers|);
    t := ConcludeMoves(low, f, target);
    Onward(s, CountedUpTo(low, f, target, |s.followers|), Conclude(f), t);
  }

  /** A full ring accepts the next entry without taking it, and the leader commits what nobody else holds. */
  lemma FullRingCommits(s: System) returns (t: System)
    requires Elected(s) && |s.followers| == 1 && !HasRoom(s.followers[0].log.held)
    requires s.leader.log.start <= Index(s.followers[0].log) == s.next[0] < Index(s.leader.log)
    ensures Reachable(s, t) && t.followers == s.followers
    ensures t.leader.log.commited == Index(s.followers[0].log) + 1
  {
    var l, e := s.followers[0].log, Sent(s, 0);
    var sent := s.(requests := s.requests + {Entry(0, e)});
    var answered := sent.(replies := s.replies + {Reply(0, e.index, true)});
    var taken := answered.(next := s.next[0 := e.index as int]);
    AtStart(s);
    SendMoves(s, 0);
    AcceptMoves(sent, 0, e);
    assert s.followers[0 := s.followers[0].(log := Append(l, e))] == s.followers;
    OkMoves(answered, 0, e.index);
    hide Reachable, Moves, Elected;
    Onward(s, s, Send(0), sent);
    Onward(s, sent, Deliver(Entry(0, e)), answered);
    Onward(s, answered, TakeReply(Reply(0, e.index, true)), CountedUpTo(taken, 0, e.index, 0));
    LooksAround(s, taken, 0, e.index, 1);
    t := ConcludeMoves(taken, 0, e.index);
    Onward(s, CountedUpTo(taken, 0, e.index, 1), Conclude(0), t);
  }

  /** With one such follower as the only other node, puts return that nobody else holds. */
  lemma AcknowledgedUnheld(s: System, idx: nat) returns (t: System)
    requires Elected(s) && |s.followers| == 1 && s.leader.log.start == 0 && s.next[0] < Index(s.followers[0].log)
    requires idx < TWO64 - 1
    ensures Reachable(s, t) && t.followers == s.followers && Acknowledged(t.next, idx)
  {
    t := AheadFallsBelow(s, 0);
    assert PastIt(t.next, idx) == {0};
  }

  // ---------- a follower that lags behind ----------

  /** A follower two or more entries behind a new leader's commit index comes to count what it does not hold. */
  lemma LaggardCommitsUnheld(s: System, f: nat) returns (t: System)
    requires Elected(s) && f < |s.followers| && s.leader.log.commited < Index(s.leader.log)
    requires s.leader.log.start <= Index(s.followers[f].log) && HasRoom(s.followers[f].log.held)
    requires Index(s.followers[f].log) + 1 < s.leader.log.commited
    ensures Reachable(s, t) && TookOne(s, t, f)
    ensures Index(t.followers[f].log) == Index(s.followers[f].log) + 1 < t.followers[f].log.commited
  {
    AtStart(s);
    assert Agrees(s.leader.log, s.followers[f].log);
    t := CatchesUp(s, s, f);
  }

  /** The replay thread goes on, whatever the slots have in them. */
  lemma {:induction false} GivesOn(s0: System, s: System, f: nat, upTo: nat, slot: Pair) returns (t: System)
    requires Reachable(s0, s) && WellFormed(s) && f < |s.followers|
    requires |s.followers[f].given| == s.followers[f].log.lastAppend
    requires s.followers[f].log.lastAppend < upTo <= s.followers[f].log.commited
    ensures Reachable(s0, t) && WellFormed(t) && t.leader == s.leader && |t.followers| == |s.followers|
    ensures s.followers[f].given < t.followers[f].given && |t.followers[f].given| == upTo
    ensures t.followers[f].given[upTo - 1] == PairOr(s.followers[f].log, upTo, slot)
    decreases upTo - s.followers[f].log.lastAppend
  {
    hide Reachable;
    var n := s.followers[f];
    var next := s.(followers := s.followers[f := GiveNext(n, slot)]);
    assert Moves(s, ReplayFollower(f, slot), next);
    Onward(s0, s, ReplayFollower(f, slot), next);
    t := next;
    if n.log.lastAppend + 1 < upTo {
      t := GivesOn(s0, next, f, upTo, slot);
    }
  }

  /**
   * From there it gives its DB whatever the slot behind its log has in it, in place of an entry that the leader has
   * commited; and what is given stays given.
   */
  lemma LaggardGivesSlot(s: System, f: nat, slot: Pair) returns (t: System)
    requires Elected(s) && f < |s.followers| && s.leader.log.commited < Index(s.leader.log)
    requires s.leader.log.start <= Index(s.followers[f].log) && HasRoom(s.followers[f].log.held)
    requires Index(s.followers[f].log) + 1 < s.leader.log.commited
    requires Within(s.followers[f].log) && |s.followers[f].given| == s.followers[f].log.lastAppend
    ensures var i := Index(s.followers[f].log) + 2;
            && Reachable(s, t) && t.leader == s.leader && f < |t.followers|
            && s.leader.log.start < i <= s.leader.log.commited
            && |t.followers[f].given| == i && t.followers[f].given[i - 1] == slot
            && forall run :: IsRun(t, run) ==>
                 f < |After(t, run).followers| && t.followers[f].given <= After(t, run).followers[f].given
  {
    assert Agrees(s.leader.log, s.followers[f].log);
    var mid := LaggardCommitsUnheld(s, f);
    var i := Index(s.followers[f].log) + 2;
    t := GivesOn(s, mid, f, i, slot);
    forall run | IsRun(t, run)
      ensures f < |After(t, run).followers| && t.followers[f].given <= After(t, run).followers[f].given
    {
      RunGrows(t, run);
    }
  }

  // ---------- such states exist ----------

  /** A leader with three entries, commited as far as given, and one follower. */
  function Led(commited: nat, first: seq<LogEntry>): System {
    var log := [LogEntry(1, [1], [], 1, 0), LogEntry(2, [2], [], 1, 0), LogEntry(3, [3], [], 1, 0)];
    System(Node(Log(0, log, commited, 0), []), [Node(Log(0, first, 0, 0), [])], [commited], [Sending], {}, {})
  }

  function Plain(n: nat): (es: seq<LogEntry>)
    ensures |es| == n
  {
    seq(n, i requires 0 <= i < n => LogEntry(i + 1, [1], [], 1, 0))
  }

  /** A leader that has started again, and a follower that never has and whose ring is full. */
  lemma FullRingExists()
    ensures exists s: System ::
      && Elected(s) && |s.followers| == 1 && !HasRoom(s.followers[0].log.held)
      && s.leader.log.start <= Index(s.followers[0].log) == s.next[0] < Index(s.leader.log)
  {
    var c := RING_SIZE - 1;
    var leader := Node(Log(c, [LogEntry(RING_SIZE, [1], [], 1, 0)], c, c), []);
    var s := System(leader, [Node(Log(0, Plain(c), c, c), [])], [c], [Sending], {}, {});
    assert Elected(s);
  }

  /** One election leaves a follower behind, another one ahead. */
  lemma BehindAndAhead()
    ensures exists s: System ::
      && Elected(s) && s.leader.log.commited < Index(s.leader.log) && |s.followers| == 1
      && s.leader.log.start <= Index(s.followers[0].log) && HasRoom(s.followers[0].log.held)
      && Index(s.followers[0].log) + 1 < s.leader.log.commited
      && Within(s.followers[0].log) && |s.followers[0].given| == s.followers[0].log.lastAppend
    ensures exists s: System ::
      && Elected(s) && |s.followers| == 1 && s.leader.log.start == 0
      && s.next[0] < Index(s.followers[0].log) < Index(s.leader.log) < TWO64
  {
    assert Elected(Led(2, []));
    assert Elected(Led(0, [LogEntry(1, [1], [], 1, 0)]));
  }

  // ---------- four nodes ----------

  function Fresh(): Node {
    Node(Log(0, [], 0, 0), [])
  }

  const FIRST := LogEntry(1, [1], [], 1, 0)

  /** Three followers, of which only the first may have got the one entry. */
  function Four(led: Node, first: Node, next: int, phase: Phase, requests: set<Request>, replies: set<Reply>): System {
    System(led, [first, Fresh(), Fresh()], [next, 0, 0], [phase, Sending, Sending], requests, replies)
  }

  function Started(): System {
    Four(Fresh(), Fresh(), 0, Sending, {}, {})
  }

  function Stored(commited: nat): Node {
    Node(Log(0, [FIRST], commited, 0), [])
  }

  function Accepted(phase: Phase): System {
    Four(Stored(0), Stored(0), 1, phase, {Entry(0, FIRST)}, {Reply(0, 1, true)})
  }

  lemma FourNodesPut()
    ensures Moves(Started(), ClientPut([1], [], 1), Four(Stored(0), Fresh(), 0, Sending, {}, {}))
  {
    assert Fresh().log.held + [FIRST] == [FIRST];
  }

  lemma FourNodesSend()
    ensures Moves(Four(Stored(0), Fresh(), 0, Sending, {}, {}), Send(0),
                  Four(Stored(0), Fresh(), 0, Sending, {Entry(0, FIRST)}, {}))
  {
  }

  lemma FourNodesDeliver()
    ensures Moves(Four(Stored(0), Fresh(), 0, Sending, {Entry(0, FIRST)}, {}), Deliver(Entry(0, FIRST)),
                  Four(Stored(0), Stored(0), 0, Sending, {Entry(0, FIRST)}, {Reply(0, 1, true)}))
  {
    var s := Four(Stored(0), Fresh(), 0, Sending, {Entry(0, FIRST)}, {});
    assert Fresh().log.held + [FIRST] == [FIRST];
    assert s.followers[0 := Stored(0)] == [Stored(0), Fresh(), Fresh()];
    assert s.replies + {Reply(0, 1, true)} == {Reply(0, 1, true)};
  }

  lemma FourNodesReply()
    ensures Moves(Four(Stored(0), Stored(0), 0, Sending, {Entry(0, FIRST)}, {Reply(0, 1, true)}),
                  TakeReply(Reply(0, 1, true)), Accepted(Counting(1, 0, {})))
  {
    var s := Four(Stored(0), Stored(0), 0, Sending, {Entry(0, FIRST)}, {Reply(0, 1, true)});
    assert s.next[0 := 1] == [1, 0, 0];
    assert s.phase[0 := Counting(1, 0, {})] == [Counting(1, 0, {}), Sending, Sending];
  }

  lemma FourNodesAccept()
    ensures Reachable(Started(), Accepted(Counting(1, 0, {})))
  {
    assert Reached(Started(), [], Started());
    FourNodesPut();
    FourNodesSend();
    FourNodesDeliver();
    FourNodesReply();
    hide *;
    var s := Started();
    Onward(s, s, ClientPut([1], [], 1), Four(Stored(0), Fresh(), 0, Sending, {}, {}));
    Onward(s, Four(Stored(0), Fresh(), 0, Sending, {}, {}), Send(0),
           Four(Stored(0), Fresh(), 0, Sending, {Entry(0, FIRST)}, {}));
    Onward(s, Four(Stored(0), Fresh(), 0, Sending, {Entry(0, FIRST)}, {}), Deliver(Entry(0, FIRST)),
           Four(Stored(0), Stored(0), 0, Sending, {Entry(0, FIRST)}, {Reply(0, 1, true)}));
    Onward(s, Four(Stored(0), Stored(0), 0, Sending, {Entry(0, FIRST)}, {Reply(0, 1, true)}),
           TakeReply(Reply(0, 1, true)), Accepted(Counting(1, 0, {})));
  }

  lemma NobodyElse(k: nat)
    requires k < 3
    ensures Moves(Accepted(Counting(1, k, {})), Look(0), Accepted(Counting(1, k + 1, {})))
  {
    var s, none: set<nat> := Accepted(Counting(1, k, {})), {};
    assert none + none == none;
    assert Next(s, Look(0)).phase == [Counting(1, k + 1, {}), Sending, Sending];
  }

  lemma {:induction false} FourNodesCount(k: nat)
    requires k <= 3
    ensures Reachable(Started(), Accepted(Counting(1, k, {})))
  {
    if k == 0 {
      FourNodesAccept();
    } else {
      FourNodesCount(k - 1);
      NobodyElse(k - 1);
      hide *;
      Onward(Started(), Accepted(Counting(1, k - 1, {})), Look(0), Accepted(Counting(1, k, {})));
    }
  }

  function Concluded(): System {
    Accepted(Sending).(leader := Stored(1))
  }

  lemma FourNodesConclude()
    ensures Moves(Accepted(Counting(1, 3, {})), Conclude(0), Concluded())
  {
    assert Accepted(Counting(1, 3, {})).phase[0 := Sending] == [Sending, Sending, Sending];
  }

  /** In a cluster of four an entry becomes commited although two of the nodes do not hold it. */
  lemma FourNodesCommitWithTwo()
    ensures exists s: System, end: System ::
      && Elected(s) && Reachable(s, end) && |end.followers| == 3
      && s.leader.log.commited < end.leader.log.commited
      && Index(end.followers[1].log) < end.leader.log.commited && Index(end.followers[2].log) < end.leader.log.commited
  {
    FourNodesCount(3);
    FourNodesConclude();
    Onward(Started(), Accepted(Counting(1, 3, {})), Conclude(0), Concluded());
    hide Reachable, Moves;
    assert Elected(Started());
  }
}
