/** One node's replicated log: what is appended, what is commited, and what is replayed into the DB. */
module RaftLogs {
  import opened Keys
  import opened RingBuffers

  datatype LogEntry = LogEntry(index: nat, key: Key, value: Value, term: int, commited: nat)

  /** What a slot has in it before an entry is stored there. */
  const UNSET := LogEntry(0, [], [], 0, 0)

  type Pair = (Key, Value)

  /** held are the entries start+1, start+2, ... */
  datatype Log = Log(start: nat, held: seq<LogEntry>, commited: nat, lastAppend: nat)

  /** A log with the pairs it has given to the DB so far, over all its lives. */
  datatype Node = Node(log: Log, given: seq<Pair>)

  function Max(a: nat, b: nat): nat {
    if a <= b then b else a
  }

  function Index(l: Log): nat {
    l.start + |l.held|
  }

  function Append(l: Log, e: LogEntry): Log {
    if HasRoom(l.held) then l.(held := l.held + [e], commited := Max(l.commited, e.commited)) else l
  }

  /** The entry a leader makes of a client's pair. */
  function LocalEntry(l: Log, key: Key, value: Value, term: int): LogEntry {
    LogEntry(Index(l) + 1, key, value, term, 0)
  }

  function ResetTo(l: Log, upTo: nat): Log {
    if Index(l) > upTo then l.(held := Shortened(l.held, Index(l) - upTo)) else l
  }

  function UpdateCommit(l: Log, leaderCommit: nat): Log {
    l.(commited := Max(l.commited, Min(Index(l), leaderCommit)))
  }

  predicate Within(l: Log) {
    l.start <= l.lastAppend <= l.commited <= Index(l)
  }

  /** Appending keeps the order exactly when the entry's stamp reaches at most the entry itself. */
  lemma AppendExact(l: Log, e: LogEntry)
    requires Within(l)
    ensures Within(Append(l, e)) <==> !HasRoom(l.held) || e.commited <= Index(l) + 1
  {
  }

  /** Resetting keeps it exactly when no commited entry is asked for, or none is held. */
  lemma ResetExact(l: Log, upTo: nat)
    requires Within(l)
    ensures Within(ResetTo(l, upTo)) <==> l.commited <= upTo || l.commited == l.start
    ensures Index(ResetTo(l, upTo)) == if Index(l) <= upTo then Index(l) else Max(upTo, l.start)
  {
  }

  lemma UpdateCommitKeeps(l: Log, leaderCommit: nat)
    requires Within(l)
    ensures Within(UpdateCommit(l, leaderCommit))
  {
  }

  function PairAt(l: Log, i: nat): Pair
    requires l.start < i <= Index(l)
  {
    (l.held[i - l.start - 1].key, l.held[i - l.start - 1].value)
  }

  function Pairs(es: seq<LogEntry>): (ps: seq<Pair>)
    ensures |ps| == |es|
    ensures forall i :: 0 <= i < |es| ==> ps[i] == (es[i].key, es[i].value)
  {
    seq(|es|, i requires 0 <= i < |es| => (es[i].key, es[i].value))
  }

  /** What the replay loop takes for index i: an entry the log holds, or else whatever the ring's slot has in it. */
  function PairOr(l: Log, i: int, slot: Pair): Pair {
    if l.start < i <= Index(l) then PairAt(l, i) else slot
  }

  /** The pair after the last one given is given. */
  function GiveNext(n: Node, slot: Pair): Node {
    var i := n.log.lastAppend + 1;
    Node(n.log.(lastAppend := i), n.given + [PairOr(n.log, i, slot)])
  }

  /** One round of the replay loop. */
  function Replay(n: Node): Node
    requires Within(n.log)
  {
    if n.log.lastAppend < n.log.commited then
      var i := n.log.lastAppend + 1;
      Node(n.log.(lastAppend := i), n.given + [PairAt(n.log, i)])
    else n
  }

  /** The replay loop once it is told to stop. */
  function Drain(n: Node): (r: Node)
    requires Within(n.log)
    ensures r.log == n.log.(lastAppend := n.log.commited)
    decreases n.log.commited - n.log.lastAppend
  {
    if n.log.lastAppend < n.log.commited then Drain(Replay(n)) else n
  }

  /** Shut down, which saves the commited index alone, and started again from it. */
  function Reopen(n: Node): Node
    requires Within(n.log)
  {
    var c := Drain(n).log.commited;
    Node(Log(c, [], c, c), Drain(n).given)
  }

  datatype Event =
    | Local(key: Key, value: Value, term: int)
    | Remote(entry: LogEntry)
    | LeaderCommit(index: nat)
    | Cut
    | ReplayOne
    | Restart

  function Happen(n: Node, ev: Event): Node
    requires Within(n.log)
  {
    match ev
    case Local(k, v, t) => n.(log := Append(n.log, LocalEntry(n.log, k, v, t)))
    case Remote(e) => n.(log := Append(n.log, e))
    case LeaderCommit(i) => n.(log := UpdateCommit(n.log, i))
    case Cut => n.(log := ResetTo(n.log, n.log.commited))
    case ReplayOne => Replay(n)
    case Restart => Reopen(n)
  }

  /** An entry from the leader must not be stamped beyond itself. */
  predicate Admissible(n: Node, ev: Event) {
    ev.Remote? ==> ev.entry.commited <= Index(n.log) + 1
  }

  ghost predicate AdmissibleRun(n: Node, evs: seq<Event>)
    decreases |evs|
  {
    Within(n.log)
    && (evs == [] || (Admissible(n, evs[0]) && AdmissibleRun(Happen(n, evs[0]), evs[1..])))
  }

  ghost function Run(n: Node, evs: seq<Event>): Node
    requires AdmissibleRun(n, evs)
    decreases |evs|
  {
    if evs == [] then n else Run(Happen(n, evs[0]), evs[1..])
  }

  /** Everything appended from index 1 on, as far as it is still known. */
  function Ledger(n: Node): seq<Pair>
    requires n.log.start <= |n.given|
  {
    n.given[..n.log.start] + Pairs(n.log.held)
  }

  /** The DB was given the pairs 1 to lastAppend of the ledger, in order, once each. */
  predicate Exact(n: Node) {
    Within(n.log) && |n.given| == n.log.lastAppend && n.given == Ledger(n)[..n.log.lastAppend]
  }

  /** The commited part of the ledger. */
  function Firm(n: Node): (ps: seq<Pair>)
    requires Exact(n)
    ensures |ps| == n.log.commited
  {
    Ledger(n)[..n.log.commited]
  }

  lemma ReplayExact(n: Node)
    requires Exact(n)
    ensures Exact(Replay(n)) && Ledger(Replay(n)) == Ledger(n) && n.given <= Replay(n).given
  {
    var n' := Replay(n);
    assert n'.given[..n.log.start] == n.given[..n.log.start];
    if n.log.lastAppend < n.log.commited {
      assert Ledger(n)[n.log.lastAppend] == PairAt(n.log, n.log.lastAppend + 1);
    }
  }

  lemma {:induction false} DrainExact(n: Node)
    requires Exact(n)
    ensures Exact(Drain(n)) && Ledger(Drain(n)) == Ledger(n) && n.given <= Drain(n).given
    decreases n.log.commited - n.log.lastAppend
  {
    if n.log.lastAppend < n.log.commited {
      ReplayExact(n);
      DrainExact(Replay(n));
    }
  }

  /** A log that keeps the commited entries keeps what is firm. */
  lemma KeptExact(n: Node, l: Log)
    requires Exact(n) && Within(l) && l.start == n.log.start && l.lastAppend == n.log.lastAppend
    requires n.log.commited <= l.commited
    requires var c := n.log.commited - l.start; l.held[..c] == n.log.held[..c]
    ensures Exact(n.(log := l)) && Firm(n) <= Firm(n.(log := l))
  {
    var n', c := n.(log := l), n.log.commited;
    assert Pairs(l.held)[..c - l.start] == Pairs(l.held[..c - l.start]);
    assert Pairs(n.log.held)[..c - l.start] == Pairs(n.log.held[..c - l.start]);
    assert Ledger(n')[..c] == n.given[..l.start] + Pairs(l.held)[..c - l.start];
    assert Ledger(n)[..c] == n.given[..l.start] + Pairs(n.log.held)[..c - l.start];
    assert Ledger(n')[..l.lastAppend] == Ledger(n')[..c][..l.lastAppend];
    assert Ledger(n)[..l.lastAppend] == Ledger(n)[..c][..l.lastAppend];
  }

  lemma ReopenExact(n: Node, drained: Node)
    requires Exact(n) && Exact(drained) && Ledger(drained) == Ledger(n) && drained == Drain(n)
    ensures Exact(Reopen(n)) && Firm(n) == Firm(Reopen(n))
  {
    assert Reopen(n).given[..Reopen(n).log.start] == drained.given;
  }

  /** No step but a restart touches a commited entry. */
  lemma CommitedKept(l: Log, given: seq<Pair>, ev: Event)
    requires Within(l) && Admissible(Node(l, given), ev) && !ev.Restart?
    ensures var l' := Happen(Node(l, given), ev).log;
            && Within(l') && l'.start == l.start && l.commited <= l'.commited
            && l'.held[..l.commited - l.start] == l.held[..l.commited - l.start]
  {
    ResetExact(l, l.commited);
  }

  /** A step takes nothing back: neither a given pair nor a commited one. */
  lemma HappenExact(n: Node, ev: Event)
    requires Exact(n) && Admissible(n, ev)
    ensures Exact(Happen(n, ev))
    ensures n.given <= Happen(n, ev).given && Firm(n) <= Firm(Happen(n, ev))
  {
    hide Ledger;
    var n' := Happen(n, ev);
    match ev
    case ReplayOne =>
      ReplayExact(n);
    case Restart =>
      DrainExact(n);
      ReopenExact(n, Drain(n));
    case _ =>
      CommitedKept(n.log, n.given, ev);
      KeptExact(n, n'.log);
  }

  /** Over every run, restarts included. */
  lemma {:induction false} RunExact(n: Node, evs: seq<Event>)
    requires Exact(n) && AdmissibleRun(n, evs)
    ensures Exact(Run(n, evs))
    ensures n.given <= Run(n, evs).given && Firm(n) <= Firm(Run(n, evs))
    decreases |evs|
  {
    if evs != [] {
      HappenExact(n, evs[0]);
      RunExact(Happen(n, evs[0]), evs[1..]);
    }
  }

  class RaftLog {
    var start: nat
    var index: nat
    var commited: nat
    var lastAppend: nat
    var stopped: bool
    const queue: RingBufferQueue<LogEntry>
    // The pairs put into the DB, in order.
    var given: seq<Pair>

    ghost predicate Valid()
      reads this, queue, queue.data
    {
      queue.Valid() && index == start + |queue.Held()|
    }

    ghost function State(): Node
      reads this, queue, queue.data
      requires Valid()
    {
      Node(Log(start, queue.Held(), commited, lastAppend), given)
    }

    /** saved is what the meta file holds, or 0 when there is none. */
    constructor (saved: nat, given: seq<Pair>)
      ensures Valid() && !stopped && State() == Node(Log(saved, [], saved, saved), given)
      ensures fresh(queue) && fresh(queue.data)
      ensures forall i :: 0 <= i < queue.data.Length ==> queue.data[i] == UNSET
    {
      queue := new RingBufferQueue(UNSET);
      start, index, commited, lastAppend, stopped := saved, saved, saved, saved, false;
      this.given := given;
    }

    method Put(key: Key, value: Value, term: int) returns (ok: bool, idx: nat)
      requires Valid()
      modifies this`index, this`commited, queue`head, queue.data
      ensures Valid() && ok == (!stopped && HasRoom(old(State()).log.held))
      ensures var was := old(State());
              State() == if stopped then was else was.(log := Append(was.log, LocalEntry(was.log, key, value, term)))
      ensures ok ==> idx == index == old(index) + 1
      ensures ok ==> queue.Held() == old(queue.Held()) + [LogEntry(idx, key, value, term, 0)]
    {
      idx := 0;
      if stopped {
        return false, idx;
      }
      var entry := LogEntry(index + 1, key, value, term, 0);
      ok := queue.PushBack(entry);
      if ok {
        index := index + 1;
        idx := index;
        commited := Max(commited, entry.commited);
      }
    }

    method PutEntry(entry: LogEntry) returns (ok: bool)
      requires Valid()
      modifies this`index, this`commited, queue`head, queue.data
      ensures Valid() && ok == (!stopped && HasRoom(old(State()).log.held))
      ensures var was := old(State()); State() == if stopped then was else was.(log := Append(was.log, entry))
      ensures ok ==> queue.Held() == old(queue.Held()) + [entry] && commited == Max(old(commited), entry.commited)
      ensures forall i :: queue.head < i < queue.data.Length ==> queue.data[i] == old(queue.data[i])
    {
      if stopped {
        return false;
      }
      ok := queue.PushBack(entry);
      if ok {
        index := index + 1;
        commited := Max(commited, entry.commited);
      }
    }

    method Reset(upTo: nat)
      requires Valid()
      modifies this`index, queue`head
      ensures Valid() && State() == old(State()).(log := ResetTo(old(State()).log, upTo))
    {
      if index > upTo {
        var count := index - upTo;
        var removed := queue.Truncate(count);
        index := index - removed;
      }
    }

    method AdvanceCommit(leaderCommit: nat)
      requires Valid()
      modifies this`commited
      ensures Valid() && State() == old(State()).(log := UpdateCommit(old(State()).log, leaderCommit))
      ensures commited == Max(old(commited), Min(index, leaderCommit))
    {
      commited := Max(commited, Min(index, leaderCommit));
    }

    /** Counted from the back, as the leader reads it. */
    function At(i: nat): (e: LogEntry)
      reads this, queue, queue.data
      requires Valid() && start < i <= index
      ensures e == State().log.held[i - start - 1]
    {
      queue.RAt(index - i)
    }

    /** One round of the loop; counts from the front, and gives on whatever the slot holds. */
    method ReplayRound()
      requires Valid() && start <= lastAppend && (lastAppend < commited ==> lastAppend - start + 1 < RING_SIZE)
      modifies this`lastAppend, this`given
      ensures Valid() && (Within(old(State()).log) ==> State() == Replay(old(State())))
      ensures State() == if old(lastAppend) < commited then
                           var entry := old(queue.At(lastAppend - start));
                           GiveNext(old(State()), (entry.key, entry.value))
                         else old(State())
    {
      if lastAppend < commited {
        lastAppend := lastAppend + 1;
        var entry := queue.At(lastAppend - start - 1);
        given := given + [(entry.key, entry.value)];
      }
    }

    /** The destructor: no more entries, the loop runs dry, and the commited index is what gets saved. */
    method Close() returns (saved: nat)
      requires Valid() && start <= lastAppend && commited - start < RING_SIZE
      modifies this`stopped, this`lastAppend, this`given
      ensures Valid() && stopped && saved == commited <= lastAppend && old(given) <= given
      ensures |given| - |old(given)| == lastAppend - old(lastAppend)
      ensures Within(old(State()).log) ==>
                State() == Drain(old(State())) && saved == Reopen(old(State())).log.start
    {
      stopped := true;
      while lastAppend < commited
        invariant Valid() && start <= lastAppend && stopped && old(given) <= given
        invariant |given| - |old(given)| == lastAppend - old(lastAppend)
        invariant Within(old(State()).log) ==> Within(State().log) && Drain(State()) == Drain(old(State()))
        decreases commited - lastAppend
      {
        ReplayRound();
      }
      saved := commited;
    }
  }

  /** A node that starts anew and takes an entry stamped 2 gives its DB that entry and then the empty key. */
  method GivesEmptyKey(key: Key, value: Value, term: int) returns (log: RaftLog)
    ensures fresh(log) && log.Valid() && log.State().log.held == [LogEntry(1, key, value, term, 2)]
    ensures log.State().given == [(key, value), ([], [])]
  {
    log := new RaftLog(0, []);
    var ok := log.PutEntry(LogEntry(1, key, value, term, 2));
    log.ReplayRound();
    log.ReplayRound();
  }
}
