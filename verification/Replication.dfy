/**
 * Log replication within one leader's reign, as steps of the leader's threads, the followers and the network.
 * Requests and replies stay in the network for good: any of them may be delivered late, again or never.
 */
module Replication {
  import opened Keys
  import opened RingBuffers
  import opened RaftLogs

  datatype Request =
    | Entry(to: nat, entry: LogEntry)
    | Beat(to: nat, commit: nat)

  datatype Reply = Reply(from: nat, index: nat, ok: bool)

  /** What a follower's thread on the leader does: send and wait, or count who else got as far as target. */
  datatype Phase = Sending | Counting(target: nat, looked: nat, counted: set<nat>)

  datatype System = System(
    leader: Node, followers: seq<Node>,
    next: seq<int>, phase: seq<Phase>,
    requests: set<Request>, replies: set<Reply>)

  // ---------- a follower's side ----------

  /** Takes an entry only at its own place; leaderCommit is the request's commited_index. */
  function UpdateRaftLog(l: Log, e: LogEntry, leaderCommit: nat): (Log, bool) {
    if e.index == Index(l) + 1 then (Append(l, e), true)
    else
      var cut := if l.commited < leaderCommit < Index(l) then ResetTo(l, l.commited) else l;
      if e.index == Index(cut) + 1 then (Append(cut, e), true) else (cut, false)
  }

  /** Requests with an entry carry no commited_index, that is 0; heartbeats carry nothing else. */
  function SolveAppend(l: Log, req: Request): (Log, bool) {
    match req
    case Entry(_, e) => UpdateRaftLog(UpdateCommit(l, 0), e, 0)
    case Beat(_, c) => (UpdateCommit(l, c), true)
  }

  /** Without a commited_index nothing is ever cut off. */
  lemma NeverCut(l: Log, to: nat, e: LogEntry)
    ensures SolveAppend(l, Entry(to, e)) == if e.index == Index(l) + 1 then (Append(l, e), true) else (l, false)
  {
  }

  /** A heartbeat raises the commit index as far as it says and the log goes, and does nothing else. */
  lemma HeartBeatExact(l: Log, to: nat, c: nat)
    ensures var (l', ok) := SolveAppend(l, Beat(to, c));
            && ok && l' == l.(commited := l'.commited) && l.commited <= l'.commited
            && (c <= Index(l) ==> c <= l'.commited) && (c > Index(l) ==> Index(l) <= l'.commited)
            && (l'.commited > l.commited ==> l'.commited <= c && l'.commited <= Index(l))
  {
  }

  /** Where an entry is not next and the request's commit index is news, the log is cut to what is commited first. */
  lemma UpdateRaftLogExact(l: Log, e: LogEntry, leaderCommit: nat)
    requires Within(l)
    ensures var (l', ok) := UpdateRaftLog(l, e, leaderCommit);
            var cuts := e.index != Index(l) + 1 && l.commited < leaderCommit < Index(l);
            var kept := if cuts then l.held[..l.commited - l.start] else l.held;
            && (ok <==> e.index == l.start + |kept| + 1)
            && l'.start == l.start && l'.lastAppend == l.lastAppend
            && l'.held == (if ok && HasRoom(kept) then kept + [e] else kept)
            && l'.commited == if ok && HasRoom(kept) && e.commited > l.commited then e.commited else l.commited
  {
  }

  /** An accepted entry is held exactly when the ring had room: a full one turns it away, and says that all is well. */
  lemma AcceptedExact(l: Log, req: Request)
    requires req.Entry? && SolveAppend(l, req).1
    ensures req.entry.index <= Index(SolveAppend(l, req).0) <==> HasRoom(l.held)
  {
  }

  /** A follower keeps to what it holds exactly when the stamp of what it takes reaches no further than the entry. */
  lemma SolveAppendExact(l: Log, req: Request)
    requires Within(l)
    ensures Within(SolveAppend(l, req).0) <==>
            (req.Entry? && req.entry.index == Index(l) + 1 && HasRoom(l.held) ==> req.entry.commited <= req.entry.index)
  {
  }

  // ---------- the steps ----------

  datatype Action =
    | ClientPut(key: Key, value: Value, term: int)
    | Send(f: nat)
    | HeartBeat(f: nat)
    | Deliver(req: Request)
    | TakeReply(reply: Reply)
    | StopSending(f: nat)
    | Look(f: nat)
    | Conclude(f: nat)
    | ReplayLeader(slot: Pair)
    | ReplayFollower(f: nat, slot: Pair)

  /** The replay thread looks at the commit index only, never at how far its log reaches. */
  predicate CanReplay(n: Node) {
    n.log.lastAppend < n.log.commited
  }

  predicate WellFormed(s: System) {
    |s.next| == |s.phase| == |s.followers|
  }

  predicate Enabled(s: System, a: Action)
    requires WellFormed(s)
  {
    match a
    case ClientPut(_, _, _) => true
    case Send(f) =>
      f < |s.followers| && s.phase[f].Sending? && s.leader.log.start < s.next[f] + 1 <= Index(s.leader.log)
    case HeartBeat(f) => f < |s.followers|
    case Deliver(req) => req in s.requests && req.to < |s.followers|
    case TakeReply(r) =>
      r in s.replies && r.from < |s.followers| && s.phase[r.from].Sending? && r.index == s.next[r.from] + 1
    case StopSending(f) => f < |s.followers| && s.phase[f].Sending? && s.next[f] < Index(s.leader.log)
    case Look(f) => f < |s.followers| && s.phase[f].Counting? && s.phase[f].looked < |s.followers|
    case Conclude(f) => f < |s.followers| && s.phase[f].Counting? && s.phase[f].looked == |s.followers|
    case ReplayLeader(_) => CanReplay(s.leader)
    case ReplayFollower(f, _) => f < |s.followers| && CanReplay(s.followers[f])
  }

  function EntryAt(l: Log, i: int): LogEntry
    requires l.start < i <= Index(l)
  {
    l.held[i - l.start - 1]
  }

  /** The rule for advancing: sum counts the leader, the follower itself and those counted, m all the others. */
  predicate Enough(sum: nat, m: nat) {
    sum >= (sum + m + 1) / 2
  }

  const TWO64: int := 0x1_0000_0000_0000_0000

  /** A signed 64-bit number where an unsigned one is asked for. */
  function AsSize(n: int): (r: nat)
    ensures 0 <= n ==> r == n
  {
    if n < 0 then n % TWO64 else n
  }

  function Next(s: System, a: Action): System
    requires WellFormed(s) && Enabled(s, a)
  {
    var leader := s.leader.log;
    match a
    case ClientPut(k, v, t) => s.(leader := s.leader.(log := Append(leader, LocalEntry(leader, k, v, t))))
    case Send(f) =>
      var i := s.next[f] + 1;
      s.(requests := s.requests + {Entry(f, EntryAt(leader, i).(index := i, commited := leader.commited))})
    case HeartBeat(f) => s.(requests := s.requests + {Beat(f, leader.commited)})
    case Deliver(req) =>
      var (l, ok) := SolveAppend(s.followers[req.to].log, req);
      s.(followers := s.followers[req.to := s.followers[req.to].(log := l)],
         replies := if req.Entry? then s.replies + {Reply(req.to, req.entry.index, ok)} else s.replies)
    case TakeReply(r) =>
      var next := if r.ok then s.next[r.from] + 1 else s.next[r.from] - 1;
      s.(next := s.next[r.from := next],
         phase := if r.ok then s.phase[r.from := Counting(r.index, 0, {})] else s.phase)
    case StopSending(f) =>
      s.(phase := s.phase[f := Counting(AsSize(s.next[f]), 0, {})])
    case Look(f) =>
      var Counting(target, o, counted) := s.phase[f];
      var more := if o != f && s.next[o] >= s.next[f] then {o} else {};
      s.(phase := s.phase[f := Counting(target, o + 1, counted + more)])
    case Conclude(f) =>
      var Counting(target, _, counted) := s.phase[f];
      var advanced := if Enough(2 + |counted|, |s.followers| - 1) then UpdateCommit(leader, target) else leader;
      s.(leader := s.leader.(log := advanced), phase := s.phase[f := Sending])
    case ReplayLeader(slot) => s.(leader := GiveNext(s.leader, slot))
    case ReplayFollower(f, slot) => s.(followers := s.followers[f := GiveNext(s.followers[f], slot)])
  }

  ghost predicate IsRun(s: System, run: seq<Action>)
    decreases |run|
  {
    WellFormed(s) && (run == [] || (Enabled(s, run[0]) && IsRun(Next(s, run[0]), run[1..])))
  }

  ghost function After(s: System, run: seq<Action>): System
    requires IsRun(s, run)
    decreases |run|
  {
    if run == [] then s else After(Next(s, run[0]), run[1..])
  }

  // ---------- the logs: what every step keeps ----------

  predicate SameEntry(a: LogEntry, b: LogEntry) {
    a.(commited := 0) == b.(commited := 0)
  }

  /** As far as the leader's log goes back, the log holds nothing but the leader's entries at their places. */
  ghost predicate Agrees(leader: Log, l: Log) {
    && Index(l) <= Index(leader)
    && forall i :: l.start < i <= Index(l) && leader.start < i ==> SameEntry(EntryAt(l, i), EntryAt(leader, i))
  }

  /** The leader's entries are numbered, and it has less than a full ring of them. */
  ghost predicate Numbered(leader: Log) {
    && |leader.held| < RING_SIZE
    && forall i :: leader.start < i <= Index(leader) ==> EntryAt(leader, i).index == i
  }

  ghost predicate RequestOk(leader: Log, req: Request) {
    req.Entry? ==>
      leader.start < req.entry.index <= Index(leader) && SameEntry(req.entry, EntryAt(leader, req.entry.index))
  }

  ghost predicate LogInv(s: System) {
    && WellFormed(s) && Numbered(s.leader.log)
    && (forall f :: 0 <= f < |s.followers| ==> Agrees(s.leader.log, s.followers[f].log))
    && (forall req :: req in s.requests ==> RequestOk(s.leader.log, req))
  }

  /** An election has just been won: the logs agree, nothing is under way, and next starts at the commit index. */
  ghost predicate Elected(s: System) {
    && LogInv(s) && s.requests == {} && s.replies == {}
    && forall f :: 0 <= f < |s.followers| ==> s.next[f] == s.leader.log.commited && s.phase[f].Sending?
  }

  ghost predicate Grows(was: Log, now: Log) {
    was.start == now.start && was.held <= now.held && was.commited <= now.commited
  }

  lemma EntryKept(was: Log, now: Log, i: nat)
    requires Grows(was, now) && was.start < i <= Index(was)
    ensures EntryAt(now, i) == EntryAt(was, i)
  {
  }

  lemma AgreesGrows(was: Log, now: Log, l: Log)
    requires Agrees(was, l) && Grows(was, now)
    ensures Agrees(now, l)
  {
    forall i | l.start < i <= Index(l) && now.start < i ensures SameEntry(EntryAt(l, i), EntryAt(now, i)) {
      EntryKept(was, now, i);
    }
  }

  /** A delivered request leaves the follower with the leader's entries only; with room, success means it holds it. */
  lemma SolveAppendAgrees(leader: Log, l: Log, req: Request)
    requires Agrees(leader, l) && RequestOk(leader, req) && Numbered(leader)
    ensures var (l', ok) := SolveAppend(l, req);
            && Agrees(leader, l') && Index(l) <= Index(l')
            && (req.Entry? && ok && HasRoom(l.held) ==> req.entry.index <= Index(l'))
  {
    var (l', ok) := SolveAppend(l, req);
    if req.Entry? && ok && HasRoom(l.held) {
      assert l'.held == l.held + [req.entry];
      forall i | l'.start < i <= Index(l') && leader.start < i
        ensures SameEntry(EntryAt(l', i), EntryAt(leader, i))
      {
        assert i <= Index(l) ==> EntryAt(l', i) == EntryAt(l, i);
      }
    }
  }

  /** What is given to a DB stays given, logs keep their start, and the leader's log and commit index only grow. */
  lemma NextGrows(s: System, a: Action)
    requires WellFormed(s) && Enabled(s, a)
    ensures |Next(s, a).followers| == |s.followers| && WellFormed(Next(s, a))
    ensures Grows(s.leader.log, Next(s, a).leader.log) && s.leader.given <= Next(s, a).leader.given
    ensures forall f :: 0 <= f < |s.followers| ==>
              && Next(s, a).followers[f].log.start == s.followers[f].log.start
              && s.followers[f].given <= Next(s, a).followers[f].given
  {
  }

  lemma {:induction false} RunGrows(s: System, run: seq<Action>)
    requires IsRun(s, run)
    ensures |After(s, run).followers| == |s.followers| && Grows(s.leader.log, After(s, run).leader.log)
    ensures forall f :: 0 <= f < |s.followers| ==>
              && After(s, run).followers[f].log.start == s.followers[f].log.start
              && s.followers[f].given <= After(s, run).followers[f].given
    decreases |run|
  {
    if run != [] {
      NextGrows(s, run[0]);
      RunGrows(Next(s, run[0]), run[1..]);
    }
  }

  lemma PutNumbered(l: Log, key: Key, value: Value, term: int)
    requires Numbered(l)
    ensures Numbered(Append(l, LocalEntry(l, key, value, term)))
  {
    var l' := Append(l, LocalEntry(l, key, value, term));
    forall i | l'.start < i <= Index(l') ensures EntryAt(l', i).index == i {
      assert i <= Index(l) ==> EntryAt(l', i) == EntryAt(l, i);
    }
  }

  lemma NumberedKept(s: System, a: Action)
    requires LogInv(s) && Enabled(s, a)
    ensures Numbered(Next(s, a).leader.log)
  {
    if a.ClientPut? {
      PutNumbered(s.leader.log, a.key, a.value, a.term);
    } else {
      var now := Next(s, a).leader.log;
      forall i | now.start < i <= Index(now) ensures EntryAt(now, i).index == i {
        assert EntryAt(now, i) == EntryAt(s.leader.log, i);
      }
    }
  }

  lemma RequestsKept(s: System, a: Action, req: Request)
    requires LogInv(s) && Enabled(s, a) && req in Next(s, a).requests
    ensures RequestOk(Next(s, a).leader.log, req)
  {
    NextGrows(s, a);
    if req.Entry? && req in s.requests {
      EntryKept(s.leader.log, Next(s, a).leader.log, req.entry.index);
    } else if a.Send? && req.Entry? {
      assert EntryAt(s.leader.log, s.next[a.f] + 1).index == s.next[a.f] + 1;
    }
  }

  lemma LogKept(s: System, a: Action, f: nat)
    requires LogInv(s) && Enabled(s, a) && f < |s.followers|
    ensures Agrees(Next(s, a).leader.log, Next(s, a).followers[f].log)
    ensures Index(s.followers[f].log) <= Index(Next(s, a).followers[f].log)
  {
    NextGrows(s, a);
    AgreesGrows(s.leader.log, Next(s, a).leader.log, s.followers[f].log);
    if a.Deliver? {
      SolveAppendAgrees(s.leader.log, s.followers[f].log, a.req);
    }
  }

  lemma NextKeepsLogs(s: System, a: Action)
    requires LogInv(s) && Enabled(s, a)
    ensures LogInv(Next(s, a))
    ensures forall f :: 0 <= f < |s.followers| ==> Index(s.followers[f].log) <= Index(Next(s, a).followers[f].log)
  {
    hide Agrees, Numbered, RequestOk, Next, Enabled;
    var s' := Next(s, a);
    NextGrows(s, a);
    NumberedKept(s, a);
    forall f | 0 <= f < |s.followers|
      ensures Agrees(s'.leader.log, s'.followers[f].log) && Index(s.followers[f].log) <= Index(s'.followers[f].log)
    {
      LogKept(s, a, f);
    }
    forall req | req in s'.requests ensures RequestOk(s'.leader.log, req) {
      RequestsKept(s, a, req);
    }
  }

  lemma {:induction false} RunKeepsLogs(s: System, run: seq<Action>)
    requires LogInv(s) && IsRun(s, run)
    ensures LogInv(After(s, run))
    decreases |run|
  {
    if run != [] {
      NextKeepsLogs(s, run[0]);
      RunKeepsLogs(Next(s, run[0]), run[1..]);
    }
  }

  /** The pairs that clients put, in order. */
  function ClientPairs(run: seq<Action>): seq<Pair>
    decreases |run|
  {
    if run == [] then []
    else if run[0].ClientPut? then [(run[0].key, run[0].value)] + ClientPairs(run[1..])
    else ClientPairs(run[1..])
  }

  /** The first n of them. */
  function Front<T>(s: seq<T>, n: nat): seq<T> {
    if n <= |s| then s[..n] else s
  }

  lemma PutHeld(l: Log, key: Key, value: Value, term: int)
    ensures Pairs(Append(l, LocalEntry(l, key, value, term)).held) ==
            if HasRoom(l.held) then Pairs(l.held) + [(key, value)] else Pairs(l.held)
  {
  }

  lemma HeldByLeader(s: System, a: Action)
    requires WellFormed(s) && Enabled(s, a)
    ensures Pairs(Next(s, a).leader.log.held) ==
            if a.ClientPut? && HasRoom(s.leader.log.held) then Pairs(s.leader.log.held) + [(a.key, a.value)]
            else Pairs(s.leader.log.held)
  {
    hide Pairs;
    if a.ClientPut? {
      PutHeld(s.leader.log, a.key, a.value, a.term);
    }
  }

  lemma FrontMore(held: seq<Pair>, p: Pair, rest: seq<Pair>, room: nat)
    ensures room > 0 ==> held + Front([p] + rest, room) == (held + [p]) + Front(rest, room - 1)
    ensures held + Front(rest, 0) == held
  {
    if room > 0 {
      assert Front([p] + rest, room) == [p] + Front(rest, room - 1);
    }
  }

  lemma NoFront(held: seq<Pair>, room: nat)
    ensures held + Front([], room) == held
  {
  }

  /** Over every run the leader's log holds what it held before and what clients put, in order, until it is full. */
  lemma {:induction false} LeaderHoldsPuts(s: System, run: seq<Action>)
    requires IsRun(s, run) && |s.leader.log.held| < RING_SIZE
    ensures Pairs(After(s, run).leader.log.held) ==
            Pairs(s.leader.log.held) + Front(ClientPairs(run), RING_SIZE - 1 - |s.leader.log.held|)
    decreases |run|
  {
    hide Next, Enabled, Pairs, Front;
    var held := Pairs(s.leader.log.held);
    if run == [] {
      NoFront(held, RING_SIZE - 1 - |held|);
    } else {
      HeldByLeader(s, run[0]);
      LeaderHoldsPuts(Next(s, run[0]), run[1..]);
      if run[0].ClientPut? {
        var p, rest := (run[0].key, run[0].value), ClientPairs(run[1..]);
        FrontMore(held, p, rest, RING_SIZE - 1 - |held|);
        FrontMore(held, p, [p] + rest, 0);
      }
    }
  }

  function Unstamped(es: seq<LogEntry>): (r: seq<LogEntry>)
    ensures |r| == |es|
    ensures forall i :: 0 <= i < |es| ==> r[i] == es[i].(commited := 0)
  {
    seq(|es|, i requires 0 <= i < |es| => es[i].(commited := 0))
  }

  /** Logs that start alike are one a prefix of the other, but for the stamps. */
  lemma AgreesIsPrefix(leader: Log, l: Log)
    requires Agrees(leader, l) && l.start == leader.start
    ensures Unstamped(l.held) <= Unstamped(leader.held)
  {
    forall i | 0 <= i < |l.held| ensures Unstamped(l.held)[i] == Unstamped(leader.held)[i] {
      assert SameEntry(EntryAt(l, leader.start + i + 1), EntryAt(leader, leader.start + i + 1));
    }
  }

  /**
   * Whatever is lost, repeated or late, and whatever is replayed from where, every follower's log stays a prefix of
   * the leader's, which only grows.
   */
  lemma LogsStayPrefixes(s: System, run: seq<Action>)
    requires Elected(s) && IsRun(s, run)
    ensures var end := After(s, run);
            && s.leader.log.held <= end.leader.log.held && |end.followers| == |s.followers|
            && forall f :: 0 <= f < |end.followers| ==>
                 && Agrees(end.leader.log, end.followers[f].log)
                 && (s.followers[f].log.start == s.leader.log.start ==>
                       Unstamped(end.followers[f].log.held) <= Unstamped(end.leader.log.held))
  {
    var end := After(s, run);
    RunKeepsLogs(s, run);
    RunGrows(s, run);
    forall f | 0 <= f < |end.followers| && s.followers[f].log.start == s.leader.log.start
      ensures Unstamped(end.followers[f].log.held) <= Unstamped(end.leader.log.held)
    {
      AgreesIsPrefix(end.leader.log, end.followers[f].log);
    }
  }

  // ---------- the commit index: what counting means ----------

  ghost predicate ReplyOk(followers: seq<Node>, r: Reply) {
    r.from < |followers| && (r.ok ==> r.index <= Index(followers[r.from].log))
  }

  /** What is known to have arrived, beyond what was commited at the election. */
  ghost predicate Reaches(commit0: nat, n: Node, i: int) {
    i <= commit0 || i <= Index(n.log)
  }

  ghost predicate PhaseOk(s: System, f: nat, phase: Phase, commit0: nat)
    requires WellFormed(s) && f < |s.followers|
  {
    phase.Counting? ==>
      && phase.target == s.next[f] && f !in phase.counted
      && forall o :: o in phase.counted ==> o < |s.followers| && Reaches(commit0, s.followers[o], phase.target)
  }

  /** Holds the leader's log up to index c. */
  ghost predicate Backs(leader: Log, n: Node, c: nat) {
    Agrees(leader, n.log) && c <= Index(n.log)
  }

  ghost predicate BackedBy(s: System, backers: set<nat>, c: nat) {
    forall o :: o in backers ==> o < |s.followers| && Backs(s.leader.log, s.followers[o], c)
  }

  /** With the leader, at least 2 and at least as many nodes as there are others hold the log up to c. */
  ghost predicate Backed(s: System, c: nat) {
    exists backers: set<nat> ::
      BackedBy(s, backers, c) && 1 + |backers| >= 2 && 1 + |backers| >= |s.followers| - 1
  }

  ghost predicate ThreadOk(s: System, f: nat, commit0: nat)
    requires WellFormed(s) && f < |s.followers|
  {
    Reaches(commit0, s.followers[f], s.next[f]) && PhaseOk(s, f, s.phase[f], commit0)
  }

  ghost predicate CommitOk(s: System, commit0: nat) {
    && commit0 <= s.leader.log.commited
    && (commit0 < s.leader.log.commited ==>
          s.leader.log.commited <= Index(s.leader.log) && Backed(s, s.leader.log.commited))
  }

  ghost predicate CountInv(s: System, commit0: nat) {
    && WellFormed(s) && LogInv(s) && CommitOk(s, commit0)
    && (forall f :: 0 <= f < |s.followers| ==> ThreadOk(s, f, commit0))
    && (forall r :: r in s.replies ==> ReplyOk(s.followers, r))
  }

  lemma ElectedCounts(s: System)
    requires Elected(s)
    ensures CountInv(s, s.leader.log.commited)
  {
  }

  /** No thread is stopped with its next index below zero, and no entry is accepted by a full ring. */
  predicate Sound(s: System, a: Action)
    requires WellFormed(s)
  {
    && (a.StopSending? && a.f < |s.followers| ==> s.next[a.f] >= 0)
    && (a.Deliver? && a.req.Entry? && a.req.to < |s.followers| ==>
          var l := s.followers[a.req.to].log;
          a.req.entry.index == Index(l) + 1 ==> HasRoom(l.held))
  }

  lemma BackedKept(s: System, a: Action, c: nat)
    requires LogInv(s) && Enabled(s, a) && Backed(s, c)
    ensures Backed(Next(s, a), c)
  {
    hide Next, Enabled, Agrees;
    NextGrows(s, a);
    NextKeepsLogs(s, a);
    var backers: set<nat> :| BackedBy(s, backers, c) && 1 + |backers| >= 2 && 1 + |backers| >= |s.followers| - 1;
    assert BackedBy(Next(s, a), backers, c);
  }

  /** The counted followers hold the log up to the counting thread's target. */
  lemma CountedBack(s: System, f: nat, commit0: nat)
    requires CountInv(s, commit0) && f < |s.followers| && s.phase[f].Counting? && commit0 < s.phase[f].target
    requires 2 + |s.phase[f].counted| >= |s.followers| - 1
    ensures Backed(s, s.phase[f].target) && s.phase[f].target <= Index(s.leader.log)
  {
    hide Numbered, RequestOk, CommitOk;
    var Counting(target, _, counted) := s.phase[f];
    assert ThreadOk(s, f, commit0);
    assert BackedBy(s, counted + {f}, target);
    assert |counted + {f}| == |counted| + 1;
  }

  /** The commit index moves only past what the counted followers hold. */
  lemma CommitKept(s: System, a: Action, commit0: nat)
    requires CountInv(s, commit0) && Enabled(s, a)
    ensures CommitOk(Next(s, a), commit0)
  {
    hide LogInv, ThreadOk, ReplyOk, Backed;
    var s' := Next(s, a);
    NextGrows(s, a);
    var c := s'.leader.log.commited;
    if c != s.leader.log.commited {
      assert a.Conclude? && c <= s.phase[a.f].target;
      CountedBack(s, a.f, commit0);
    }
    if commit0 < c {
      BackedKept(s, a, c);
    }
  }

  lemma RepliesKept(s: System, a: Action, commit0: nat, r: Reply)
    requires CountInv(s, commit0) && Enabled(s, a) && Sound(s, a) && r in Next(s, a).replies
    ensures ReplyOk(Next(s, a).followers, r)
  {
    hide CommitOk, ThreadOk, Agrees, Numbered;
    NextGrows(s, a);
    NextKeepsLogs(s, a);
    if r in s.replies {
      assert ReplyOk(s.followers, r);
    } else {
      assert RequestOk(s.leader.log, a.req);
      SolveAppendAgrees(s.leader.log, s.followers[r.from].log, a.req);
    }
  }

  lemma ThreadKept(s: System, a: Action, f: nat, commit0: nat)
    requires CountInv(s, commit0) && Enabled(s, a) && Sound(s, a) && f < |s.followers|
    ensures |Next(s, a).followers| == |s.followers| && WellFormed(Next(s, a)) && ThreadOk(Next(s, a), f, commit0)
  {
    hide CommitOk, Agrees, Numbered, RequestOk;
    NextGrows(s, a);
    NextKeepsLogs(s, a);
    assert ThreadOk(s, f, commit0);
    match a
    case TakeReply(r) =>
      assert ReplyOk(s.followers, r);
    case Look(g) =>
      assert ThreadOk(s, s.phase[g].looked, commit0);
    case _ =>
  }

  lemma NextKeepsCounts(s: System, a: Action, commit0: nat)
    requires CountInv(s, commit0) && Enabled(s, a) && Sound(s, a)
    ensures CountInv(Next(s, a), commit0)
  {
    hide LogInv, CommitOk, ThreadOk, ReplyOk, Next, Enabled;
    var s' := Next(s, a);
    NextGrows(s, a);
    NextKeepsLogs(s, a);
    CommitKept(s, a, commit0);
    forall f | 0 <= f < |s.followers| ensures ThreadOk(s', f, commit0) {
      ThreadKept(s, a, f, commit0);
    }
    forall r | r in s'.replies ensures ReplyOk(s'.followers, r) {
      RepliesKept(s, a, commit0, r);
    }
  }

  /** Every step of the run is sound. */
  ghost predicate SoundRun(s: System, run: seq<Action>)
    requires IsRun(s, run)
    decreases |run|
  {
    run != [] ==> Sound(s, run[0]) && SoundRun(Next(s, run[0]), run[1..])
  }

  lemma {:induction false} RunKeepsCounts(s: System, run: seq<Action>, commit0: nat)
    requires CountInv(s, commit0) && IsRun(s, run) && SoundRun(s, run)
    ensures CountInv(After(s, run), commit0)
    decreases |run|
  {
    if run != [] {
      NextKeepsCounts(s, run[0], commit0);
      RunKeepsCounts(Next(s, run[0]), run[1..], commit0);
    }
  }

  /** A commit index beyond the one at the election is backed by enough logs that hold everything up to it. */
  lemma CommitIsBacked(s: System, run: seq<Action>)
    requires Elected(s) && IsRun(s, run) && SoundRun(s, run)
    ensures var c := After(s, run).leader.log.commited;
            c == s.leader.log.commited ||
            (s.leader.log.commited < c <= Index(After(s, run).leader.log) && Backed(After(s, run), c))
  {
    ElectedCounts(s);
    RunKeepsCounts(s, run, s.leader.log.commited);
  }

  /** The rule asks for as many logs as there are others. */
  lemma EnoughExact(sum: nat, m: nat)
    ensures Enough(sum, m) <==> sum >= m
  {
    var half := (sum + m + 1) / 2;
    assert 2 * half <= sum + m + 1 <= 2 * half + 1;
  }

  /** Two logs and as many as there are others are more than half of all nodes, unless there are four nodes. */
  lemma MajorityExact(m: nat)
    ensures 2 * Max(2, m) > m + 2 <==> m != 2
  {
  }

  /** Save in a cluster of four, a strict majority of the nodes holds what has been commited. */
  lemma CommitHasMajority(s: System, run: seq<Action>)
    requires Elected(s) && IsRun(s, run) && SoundRun(s, run) && |s.followers| != 3
    requires s.leader.log.commited < After(s, run).leader.log.commited
    ensures var end := After(s, run);
            exists backers: set<nat> ::
              BackedBy(end, backers, end.leader.log.commited) && 2 * (1 + |backers|) > 1 + |end.followers|
  {
    CommitIsBacked(s, run);
    RunGrows(s, run);
    var end := After(s, run);
    var backers: set<nat> :|
      BackedBy(end, backers, end.leader.log.commited) && 1 + |backers| >= 2 && 1 + |backers| >= |end.followers| - 1;
  }

  /** A step keeps what counting means exactly when it is sound. */
  lemma CountsExact(s: System, a: Action, commit0: nat)
    requires CountInv(s, commit0) && Enabled(s, a)
    ensures CountInv(Next(s, a), commit0) <==> Sound(s, a)
  {
    hide LogInv, CommitOk;
    var s' := Next(s, a);
    if Sound(s, a) {
      NextKeepsCounts(s, a, commit0);
    } else if a.StopSending? {
      assert !ThreadOk(s', a.f, commit0);
    } else {
      var r := Reply(a.req.to, a.req.entry.index, true);
      AcceptedExact(s.followers[a.req.to].log, a.req);
      assert r in s'.replies && !ReplyOk(s'.followers, r);
    }
  }

  // ---------- what a client is told ----------

  /** The followers whose next index, read as unsigned, is beyond that of the client's entry. */
  function PastIt(next: seq<int>, idx: nat): (fs: set<nat>)
    ensures forall f: nat :: f in fs <==> f < |next| && AsSize(next[f]) > idx
  {
    set f: nat | f < |next| && AsSize(next[f]) > idx
  }

  /** The client's put under index idx returns. */
  predicate Acknowledged(next: seq<int>, idx: nat) {
    1 + |PastIt(next, idx)| > (1 + |next| + 1) / 2
  }

  /** That is when more than half of the followers are past it. */
  lemma AcknowledgedExact(next: seq<int>, idx: nat)
    ensures Acknowledged(next, idx) <==> 2 * |PastIt(next, idx)| > |next|
  {
  }

  /** An entry whose put has returned is held by a strict majority, if no next index counted is below zero. */
  lemma AcknowledgedIsHeld(s: System, idx: nat, commit0: nat)
    requires CountInv(s, commit0) && commit0 <= idx && Acknowledged(s.next, idx)
    requires forall f :: 0 <= f < |s.next| ==> s.next[f] >= 0
    ensures BackedBy(s, PastIt(s.next, idx), idx + 1) && 2 * (1 + |PastIt(s.next, idx)|) > 1 + |s.followers|
  {
    forall f | f in PastIt(s.next, idx) ensures f < |s.followers| && Backs(s.leader.log, s.followers[f], idx + 1) {
      assert ThreadOk(s, f, commit0);
    }
  }

  /** Nobody's next index is past the last entry, so that a put waits until a later one is appended. */
  lemma LastPutWaits(s: System, idx: nat, commit0: nat)
    requires CountInv(s, commit0) && commit0 <= idx && Index(s.leader.log) <= idx
    requires forall f :: 0 <= f < |s.next| ==> s.next[f] >= 0
    ensures !Acknowledged(s.next, idx)
  {
    forall f: nat | f < |s.next| ensures s.next[f] <= idx {
      assert ThreadOk(s, f, commit0) && Agrees(s.leader.log, s.followers[f].log);
    }
    assert PastIt(s.next, idx) == {};
  }

  // ---------- replay ----------

  /** What a node has given to its DB after the first pairs is the leader's log, entry by entry. */
  ghost predicate Replayed(leader: Log, n: Node, first: nat) {
    && leader.start <= first && n.log.lastAppend == |n.given| <= Index(leader)
    && forall i :: first < i <= n.log.lastAppend ==> n.given[i - 1] == PairAt(leader, i)
  }

  /** The replay thread stays within the log, and has given the leader's pairs. */
  ghost predicate ReplayOk(leader: Log, n: Node, first: nat) {
    Within(n.log) && Replayed(leader, n, first)
  }

  lemma LongerKey(p: Pair)
    ensures p != (p.0 + [0], p.1)
  {
    assert |p.0 + [0]| == |p.0| + 1;
  }

  /**
   * One more pair is the leader's exactly when the log holds the entry, or the slot happens to have the leader's pair;
   * whatever the slot may have, exactly when the log holds the entry.
   */
  lemma GiveNextExact(leader: Log, n: Node, first: nat, slot: Pair)
    requires Agrees(leader, n.log) && Replayed(leader, n, first) && CanReplay(n)
    requires n.log.start <= n.log.lastAppend && first <= n.log.lastAppend
    ensures Replayed(leader, GiveNext(n, slot), first) <==>
            || n.log.lastAppend < Index(n.log)
            || (n.log.lastAppend < Index(leader) && slot == PairAt(leader, n.log.lastAppend + 1))
    ensures (forall p: Pair :: Replayed(leader, GiveNext(n, p), first)) <==> n.log.lastAppend < Index(n.log)
  {
    var i := n.log.lastAppend + 1;
    if n.log.lastAppend < Index(n.log) {
      assert SameEntry(EntryAt(n.log, i), EntryAt(leader, i));
    } else {
      var p := if i <= Index(leader) then (PairAt(leader, i).0 + [0], PairAt(leader, i).1) else slot;
      if i <= Index(leader) {
        LongerKey(PairAt(leader, i));
      }
      assert GiveNext(n, p).given[i - 1] == p && GiveNext(n, slot).given[i - 1] == slot;
      assert !Replayed(leader, GiveNext(n, p), first);
    }
  }

  lemma ReplayGrows(was: Log, now: Log, n: Node, first: nat)
    requires Replayed(was, n, first) && Grows(was, now)
    ensures Replayed(now, n, first)
  {
    forall i | first < i <= n.log.lastAppend ensures n.given[i - 1] == PairAt(now, i) {
      EntryKept(was, now, i);
      assert PairAt(now, i) == PairAt(was, i) && n.given[i - 1] == PairAt(was, i);
    }
  }

  lemma GiveNextOk(leader: Log, n: Node, first: nat, slot: Pair)
    requires Agrees(leader, n.log) && ReplayOk(leader, n, first) && CanReplay(n)
    ensures ReplayOk(leader, GiveNext(n, slot), first)
  {
    var i := n.log.lastAppend + 1;
    if first < i {
      assert SameEntry(EntryAt(n.log, i), EntryAt(leader, i));
      assert GiveNext(n, slot).given == n.given + [PairAt(leader, i)];
    }
  }

  lemma ReplayedSame(leader: Log, n: Node, l: Log, first: nat)
    requires Replayed(leader, n, first) && l.lastAppend == n.log.lastAppend
    ensures Replayed(leader, n.(log := l), first)
  {
  }

  /** An entry that a follower takes is stamped no further than itself. */
  predicate StampFits(s: System, a: Action, f: nat)
    requires WellFormed(s) && f < |s.followers|
  {
    var l := s.followers[f].log;
    a.Deliver? && a.req.Entry? && a.req.to == f && a.req.entry.index == Index(l) + 1 && HasRoom(l.held) ==>
      a.req.entry.commited <= a.req.entry.index
  }

  /** No entry that the follower takes on the way is stamped beyond itself. */
  ghost predicate StampsFit(s: System, run: seq<Action>, f: nat)
    requires IsRun(s, run) && f < |s.followers|
    decreases |run|
  {
    run != [] ==>
      && StampFits(s, run[0], f)
      && f < |Next(s, run[0]).followers| && StampsFit(Next(s, run[0]), run[1..], f)
  }

  lemma FollowerReplayKept(s: System, a: Action, f: nat, first: nat)
    requires LogInv(s) && Enabled(s, a) && f < |s.followers| && StampFits(s, a, f)
    requires ReplayOk(s.leader.log, s.followers[f], first)
    ensures f < |Next(s, a).followers| && ReplayOk(Next(s, a).leader.log, Next(s, a).followers[f], first)
  {
    hide Agrees, Numbered, RequestOk, Replayed;
    NextGrows(s, a);
    var n := s.followers[f];
    match a
    case Deliver(req) =>
      if req.to == f {
        SolveAppendExact(n.log, req);
        ReplayedSame(s.leader.log, n, SolveAppend(n.log, req).0, first);
      }
    case ReplayFollower(g, slot) =>
      if g == f {
        GiveNextOk(s.leader.log, n, first, slot);
      }
    case _ =>
      ReplayGrows(s.leader.log, Next(s, a).leader.log, n, first);
  }

  lemma AgreesSelf(l: Log)
    ensures Agrees(l, l)
  {
  }

  /** The leader's own replay thread never leaves its log. */
  lemma LeaderReplayKept(s: System, a: Action, first: nat)
    requires LogInv(s) && Enabled(s, a) && ReplayOk(s.leader.log, s.leader, first)
    ensures ReplayOk(Next(s, a).leader.log, Next(s, a).leader, first)
  {
    hide Agrees, Numbered, RequestOk, Replayed;
    NextGrows(s, a);
    var now := Next(s, a).leader.log;
    match a
    case ReplayLeader(slot) =>
      AgreesSelf(s.leader.log);
      GiveNextOk(s.leader.log, s.leader, first, slot);
      ReplayGrows(s.leader.log, now, Next(s, a).leader, first);
    case Conclude(f) =>
      UpdateCommitKeeps(s.leader.log, s.phase[f].target);
      ReplayGrows(s.leader.log, now, s.leader, first);
      ReplayedSame(now, s.leader, now, first);
    case _ =>
      ReplayGrows(s.leader.log, now, s.leader, first);
      ReplayedSame(now, s.leader, now, first);
  }

  lemma {:induction false} RunKeepsReplay(s: System, run: seq<Action>, f: nat, first: nat)
    requires LogInv(s) && IsRun(s, run) && f < |s.followers| && StampsFit(s, run, f)
    requires ReplayOk(s.leader.log, s.followers[f], first)
    ensures f < |After(s, run).followers| && ReplayOk(After(s, run).leader.log, After(s, run).followers[f], first)
    decreases |run|
  {
    hide LogInv, ReplayOk, Next, Enabled, StampFits;
    if run != [] {
      NextKeepsLogs(s, run[0]);
      FollowerReplayKept(s, run[0], f, first);
      RunKeepsReplay(Next(s, run[0]), run[1..], f, first);
    }
  }

  lemma {:induction false} RunKeepsLeaderReplay(s: System, run: seq<Action>, first: nat)
    requires LogInv(s) && IsRun(s, run) && ReplayOk(s.leader.log, s.leader, first)
    ensures ReplayOk(After(s, run).leader.log, After(s, run).leader, first)
    decreases |run|
  {
    hide LogInv, ReplayOk, Next, Enabled;
    if run != [] {
      NextKeepsLogs(s, run[0]);
      LeaderReplayKept(s, run[0], first);
      RunKeepsLeaderReplay(Next(s, run[0]), run[1..], first);
    }
  }

  /** After the first pairs, of what two nodes gave to their DBs one is a beginning of the other. */
  predicate GaveAlike(a: Node, b: Node, first: nat) {
    forall i :: first <= i < |a.given| && i < |b.given| ==> a.given[i] == b.given[i]
  }

  lemma ReplayedAlike(leader: Log, a: Node, b: Node, first: nat)
    requires Replayed(leader, a, first) && Replayed(leader, b, first)
    ensures GaveAlike(a, b, first)
  {
    forall i | first <= i < |a.given| && i < |b.given| ensures a.given[i] == b.given[i] {
      assert a.given[i + 1 - 1] == PairAt(leader, i + 1) == b.given[i + 1 - 1];
    }
  }

  /** Followers that take no entry stamped beyond itself, and the leader, give their DBs the same pairs in order. */
  lemma ReplaysAgree(s: System, run: seq<Action>, f: nat, g: nat, first: nat)
    requires Elected(s) && IsRun(s, run) && f < |s.followers| && g < |s.followers|
    requires StampsFit(s, run, f) && StampsFit(s, run, g)
    requires ReplayOk(s.leader.log, s.followers[f], first) && ReplayOk(s.leader.log, s.followers[g], first)
    ensures var end := After(s, run);
            && |end.followers| == |s.followers| && GaveAlike(end.followers[f], end.followers[g], first)
            && ReplayOk(end.leader.log, end.followers[f], first)
            && (ReplayOk(s.leader.log, s.leader, first) ==> GaveAlike(end.followers[f], end.leader, first))
  {
    hide LogInv, StampsFit, Replayed;
    var end := After(s, run);
    RunGrows(s, run);
    RunKeepsReplay(s, run, f, first);
    RunKeepsReplay(s, run, g, first);
    ReplayedAlike(end.leader.log, end.followers[f], end.followers[g], first);
    if ReplayOk(s.leader.log, s.leader, first) {
      RunKeepsLeaderReplay(s, run, first);
      ReplayedAlike(end.leader.log, end.followers[f], end.leader, first);
    }
  }
}
