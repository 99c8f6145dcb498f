/** What a cluster node answers: its database holds what its log has replayed into it. */
module NodeDbs {
  import opened Keys
  import opened Entries
  import opened DbState
  import opened DbRuns
  import opened RaftLogs
  import opened Replication

  /** The pairs put, in order. */
  function Puts(ops: seq<Op>): seq<Pair> {
    if ops == [] then []
    else
      var before := Puts(ops[..|ops| - 1]);
      match ops[|ops| - 1]
      case OpPut(k, v) => before + [(k, v)]
      case _ => before
  }

  /** Each pair put over what was there before. */
  function AllPut(pairs: seq<Pair>): map<Key, Value> {
    if pairs == [] then map[]
    else
      var (k, v) := pairs[|pairs| - 1];
      AllPut(pairs[..|pairs| - 1])[k := v]
  }

  lemma {:induction false} LastPutsAre(ops: seq<Op>)
    ensures LastPuts(ops) == AllPut(Puts(ops))
  {
    if ops != [] {
      var before := ops[..|ops| - 1];
      LastPutsAre(before);
      if ops[|ops| - 1].OpPut? {
        assert Puts(ops)[..|Puts(before)|] == Puts(before);
      }
    }
  }

  /** The node's database, through rotations, flushes and restarts, denotes the pairs that its log has given it. */
  lemma DenotesGiven(n: Node, ops: seq<Op>, maxSize: nat, build: Builder)
    requires AllowedRun(INITIAL, ops, maxSize, build) && Puts(ops) == n.given
    ensures Overlaid(Exec(INITIAL, ops, maxSize, build)) == AllPut(n.given)
  {
    RunDenotesLastPuts(ops, maxSize, build);
    LastPutsAre(ops);
  }

  /** Both nodes gave their databases the same number of pairs, and the same ones before the first that logs decide. */
  predicate LevelWith(a: Node, b: Node, first: nat) {
    |a.given| == |b.given| && forall i :: 0 <= i < first && i < |a.given| ==> a.given[i] == b.given[i]
  }

  lemma AlikeIsSame(a: Node, b: Node, first: nat)
    requires GaveAlike(a, b, first) && LevelWith(a, b, first)
    ensures a.given == b.given
  {
  }

  /** The run of a node's database, with nothing left in flight. */
  ghost predicate Feeds(ops: seq<Op>, n: Node, maxSize: nat, build: Builder) {
    && AllowedRun(INITIAL, ops, maxSize, build) && Exec(INITIAL, ops, maxSize, build).tables.inFlight.None?
    && Puts(ops) == n.given
  }

  lemma AnswersGiven(ops: seq<Op>, n: Node, maxSize: nat, build: Builder, k: Key)
    requires Feeds(ops, n, maxSize, build)
    ensures Get(Exec(INITIAL, ops, maxSize, build), k) == Lookup(AllPut(n.given), k)
  {
    GetReturnsLastPut(ops, maxSize, build, k);
    LastPutsAre(ops);
  }

  /**
   * Two followers that have replayed equally far, and of whom none took an entry stamped beyond itself, answer every
   * key alike, however their databases rotated, flushed and restarted. So do such a follower and the leader.
   */
  lemma NodesAnswerAlike(s: System, run: seq<Action>, f: nat, g: nat, first: nat, opsF: seq<Op>, opsG: seq<Op>,
                         maxF: nat, maxG: nat, buildF: Builder, buildG: Builder, k: Key)
    requires Elected(s) && IsRun(s, run) && f < |s.followers| && g < |s.followers|
    requires StampsFit(s, run, f) && StampsFit(s, run, g)
    requires ReplayOk(s.leader.log, s.followers[f], first) && ReplayOk(s.leader.log, s.followers[g], first)
    ensures var end := After(s, run);
            && f < |end.followers| && g < |end.followers|
            && (LevelWith(end.followers[f], end.followers[g], first)
                && Feeds(opsF, end.followers[f], maxF, buildF) && Feeds(opsG, end.followers[g], maxG, buildG) ==>
                  Get(Exec(INITIAL, opsF, maxF, buildF), k) == Get(Exec(INITIAL, opsG, maxG, buildG), k))
            && (ReplayOk(s.leader.log, s.leader, first) && LevelWith(end.followers[f], end.leader, first)
                && Feeds(opsF, end.followers[f], maxF, buildF) && Feeds(opsG, end.leader, maxG, buildG) ==>
                  Get(Exec(INITIAL, opsF, maxF, buildF), k) == Get(Exec(INITIAL, opsG, maxG, buildG), k))
  {
    hide *;
    ReplaysAgree(s, run, f, g, first);
    var end := After(s, run);
    forall n | Feeds(opsG, n, maxG, buildG) && Feeds(opsF, end.followers[f], maxF, buildF)
               && GaveAlike(end.followers[f], n, first) && LevelWith(end.followers[f], n, first)
      ensures Get(Exec(INITIAL, opsF, maxF, buildF), k) == Get(Exec(INITIAL, opsG, maxG, buildG), k)
    {
      AlikeIsSame(end.followers[f], n, first);
      AnswersGiven(opsF, end.followers[f], maxF, buildF, k);
      AnswersGiven(opsG, n, maxG, buildG, k);
    }
  }
}
