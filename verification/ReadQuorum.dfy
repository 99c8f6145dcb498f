/** Reading from all replicas until enough of them report the newest version. */
module ReadQuorums {
  import opened Keys

  datatype Reply = Reply(value: Value, version: nat)

  /** What each replica answers in one round of reading, if it answers. */
  type Round = seq<Option<Reply>>

  datatype Result = Result(value: Value, version: nat, replicas: nat, strong: bool)

  function Answering(round: Round): set<nat> {
    set i: nat | i < |round| && round[i].Some?
  }

  function Reporting(round: Round, version: nat): set<nat> {
    set i: nat | i < |round| && round[i].Some? && round[i].value.version == version
  }

  /** The newest version reported, or 0. */
  function Newest(round: Round): nat {
    if round == [] then 0
    else
      var before, last := Newest(round[..|round| - 1]), round[|round| - 1];
      if last.Some? && last.value.version > before then last.value.version else before
  }

  /** The value that came first with the newest version; with version 0 no value is taken. */
  function NewestValue(round: Round): Value {
    if round == [] then []
    else
      var last := round[|round| - 1];
      if last.Some? && last.value.version > Newest(round[..|round| - 1]) then last.value.value
      else NewestValue(round[..|round| - 1])
  }

  /** The reply comes from replica i, and those before it report smaller versions, if any. */
  predicate FirstWith(round: Round, i: nat, reply: Reply) {
    && i < |round| && round[i] == Some(reply)
    && forall j :: 0 <= j < i && round[j].Some? ==> round[j].value.version < reply.version
  }

  lemma {:induction false} NewestBounds(round: Round)
    ensures forall i :: 0 <= i < |round| && round[i].Some? ==> round[i].value.version <= Newest(round)
    ensures Newest(round) > 0 ==> exists i :: FirstWith(round, i, Reply(NewestValue(round), Newest(round)))
    ensures Newest(round) == 0 ==> NewestValue(round) == []
  {
    if round != [] {
      var n := |round| - 1;
      NewestBounds(round[..n]);
      assert forall i :: 0 <= i < n ==> round[..n][i] == round[i];
      if Newest(round) > Newest(round[..n]) {
        assert FirstWith(round, n, Reply(NewestValue(round), Newest(round)));
      } else if Newest(round) > 0 {
        var i :| FirstWith(round[..n], i, Reply(NewestValue(round), Newest(round)));
        assert FirstWith(round, i, Reply(NewestValue(round), Newest(round)));
      }
    }
  }

  lemma ReportingGrows(round: Round, n: nat, version: nat)
    requires n < |round|
    ensures Reporting(round[..n + 1], version) ==
            if round[n].Some? && round[n].value.version == version then Reporting(round[..n], version) + {n}
            else Reporting(round[..n], version)
    ensures Answering(round[..n + 1]) == if round[n].Some? then Answering(round[..n]) + {n} else Answering(round[..n])
  {
    assert forall i :: 0 <= i < n ==> round[..n + 1][i] == round[..n][i];
  }

  /** Undecided when the given rounds are not enough. */
  datatype Outcome = NoQuorum | Answer(result: Result) | Undecided

  function Linearizable(rounds: seq<Round>, quorum: nat): Outcome {
    if rounds == [] then Undecided
    else
      var round := rounds[0];
      var strong := Answering(round) == {} || |Reporting(round, Newest(round))| >= quorum;
      if |Answering(round)| < quorum then NoQuorum
      else if !strong then Linearizable(rounds[1..], quorum)
      else Answer(Result(NewestValue(round), Newest(round), |Answering(round)|, true))
  }

  /** Too few replicas answer. */
  predicate Short(round: Round, quorum: nat) {
    |Answering(round)| < quorum
  }

  /** Enough answer, but not enough of them with the newest version. */
  predicate Divided(round: Round, quorum: nat) {
    && |Answering(round)| >= quorum && Answering(round) != {}
    && |Reporting(round, Newest(round))| < quorum
  }

  /** The round with which reading ends: the first that is not divided. */
  ghost predicate EndsWith(rounds: seq<Round>, quorum: nat, i: nat) {
    i < |rounds| && !Divided(rounds[i], quorum) && forall j :: 0 <= j < i ==> Divided(rounds[j], quorum)
  }

  lemma {:induction false} ReadsOn(rounds: seq<Round>, quorum: nat, i: nat)
    requires EndsWith(rounds, quorum, i)
    ensures Linearizable(rounds, quorum) ==
            if Short(rounds[i], quorum) then NoQuorum
            else Answer(Result(NewestValue(rounds[i]), Newest(rounds[i]), |Answering(rounds[i])|, true))
    decreases i
  {
    hide Answering, Reporting, Newest, NewestValue;
    if i > 0 {
      assert Divided(rounds[0], quorum);
      assert forall j :: 0 <= j < |rounds| - 1 ==> rounds[1..][j] == rounds[j + 1];
      ReadsOn(rounds[1..], quorum, i - 1);
    }
  }

  lemma {:induction false} ReadsAll(rounds: seq<Round>, quorum: nat)
    requires forall j :: 0 <= j < |rounds| ==> Divided(rounds[j], quorum)
    ensures Linearizable(rounds, quorum) == Undecided
  {
    hide Answering, Reporting, Newest, NewestValue;
    if rounds != [] {
      ReadsAll(rounds[1..], quorum);
    }
  }

  lemma {:induction false} SomeEnd(rounds: seq<Round>, quorum: nat) returns (i: nat)
    requires exists j :: 0 <= j < |rounds| && !Divided(rounds[j], quorum)
    ensures EndsWith(rounds, quorum, i)
  {
    hide Divided;
    if !Divided(rounds[0], quorum) {
      i := 0;
    } else {
      assert forall j :: 0 <= j < |rounds| - 1 ==> rounds[1..][j] == rounds[j + 1];
      var j :| 0 <= j < |rounds| && !Divided(rounds[j], quorum);
      assert rounds[1..][j - 1] == rounds[j];
      var k := SomeEnd(rounds[1..], quorum);
      i := k + 1;
    }
  }

  /**
   * It answers exactly when the first round that is not divided has enough answers, gives up exactly when that round
   * has too few, and otherwise reads on.
   */
  lemma OutcomeExact(rounds: seq<Round>, quorum: nat)
    ensures Linearizable(rounds, quorum).Answer? <==>
            exists i: nat :: EndsWith(rounds, quorum, i) && !Short(rounds[i], quorum)
    ensures Linearizable(rounds, quorum).NoQuorum? <==>
            exists i: nat :: EndsWith(rounds, quorum, i) && Short(rounds[i], quorum)
    ensures Linearizable(rounds, quorum).Undecided? <==> forall j :: 0 <= j < |rounds| ==> Divided(rounds[j], quorum)
  {
    hide Linearizable, Divided, Short;
    if forall j :: 0 <= j < |rounds| ==> Divided(rounds[j], quorum) {
      ReadsAll(rounds, quorum);
      assert forall i: nat :: !EndsWith(rounds, quorum, i);
    } else {
      var i := SomeEnd(rounds, quorum);
      ReadsOn(rounds, quorum, i);
      forall k: nat | EndsWith(rounds, quorum, k) ensures k == i {
      }
    }
  }

  lemma NoneReporting(round: Round, version: nat)
    requires version > Newest(round)
    ensures Reporting(round, version) == {}
  {
    NewestBounds(round);
  }

  class ReadQuorum {
    const replicaCount: nat
    const readQuorum: nat

    constructor (replicaCount: nat, readQuorum: nat)
      ensures this.replicaCount == replicaCount && this.readQuorum == readQuorum
    {
      this.replicaCount, this.readQuorum := replicaCount, readQuorum;
    }

    /** One round. Without any answer there is no version, which reads as 0 here. */
    method Read(round: Round) returns (r: Result)
      requires |round| == replicaCount
      ensures r.replicas == |Answering(round)| && r.version == Newest(round) && r.value == NewestValue(round)
      ensures r.strong <==> r.replicas == 0 || |Reporting(round, Newest(round))| >= readQuorum
    {
      var replicas, version, count, value := 0, 0, 0, [];
      for i := 0 to |round|
        invariant replicas == |Answering(round[..i])|
        invariant version == Newest(round[..i]) && value == NewestValue(round[..i])
        invariant count == |Reporting(round[..i], version)|
      {
        ReportingGrows(round, i, version);
        assert round[..i + 1][..i] == round[..i];
        match round[i] {
          case Some(reply) =>
            replicas := replicas + 1;
            if reply.version > version {
              NoneReporting(round[..i], reply.version);
              ReportingGrows(round, i, reply.version);
              version, count, value := reply.version, 1, reply.value;
            } else if reply.version == version {
              count := count + 1;
            }
          case None =>
        }
      }
      assert round[..|round|] == round;
      return Result(value, version, replicas, replicas == 0 || count >= readQuorum);
    }

    /** Reads round after round until enough replicas agree; too few answers end it at once. */
    method LinearizableRead(rounds: seq<Round>) returns (outcome: Outcome)
      requires forall i :: 0 <= i < |rounds| ==> |rounds[i]| == replicaCount
      ensures outcome == Linearizable(rounds, readQuorum)
      decreases |rounds|
    {
      if rounds == [] {
        return Undecided;
      }
      var r := Read(rounds[0]);
      if r.replicas < readQuorum {
        return NoQuorum;
      }
      if !r.strong {
        outcome := LinearizableRead(rounds[1..]);
        return;
      }
      return Answer(r);
    }
  }

  // ---------- freshness ----------

  /** Whenever one of the holders answers, it is with the version or a later one. */
  ghost predicate HeldBy(round: Round, holders: set<nat>, version: nat) {
    forall i :: i in holders ==> i < |round| && (round[i].Some? ==> round[i].value.version >= version)
  }

  lemma {:induction false} AtMost(s: set<nat>, n: nat)
    requires forall i :: i in s ==> i < n
    ensures |s| <= n
  {
    if n > 0 {
      AtMost(s - {n - 1}, n - 1);
      assert s <= (s - {n - 1}) + {n - 1};
    } else {
      assert s == {};
    }
  }

  /** Two sets that together are larger than the whole share a member. */
  lemma Overlap(a: set<nat>, b: set<nat>, n: nat)
    requires forall i :: i in a + b ==> i < n
    requires |a| + |b| > n
    ensures exists i :: i in a && i in b
  {
    AtMost(a + b, n);
    assert |a + b| == |a| + |b| - |a * b|;
    var i :| i in a * b;
  }

  /** The round is the first in which enough replicas agree, and the result is what it says. */
  ghost predicate AnsweredFrom(rounds: seq<Round>, quorum: nat, r: Result, i: nat) {
    && i < |rounds|
    && r == Result(NewestValue(rounds[i]), Newest(rounds[i]), |Answering(rounds[i])|, true)
    && |Answering(rounds[i])| >= quorum && |Reporting(rounds[i], r.version)| >= quorum
    && forall j :: 0 <= j < i ==>
         |Answering(rounds[j])| >= quorum && |Reporting(rounds[j], Newest(rounds[j]))| < quorum
  }

  /** What is answered is no older than what a write quorum holds, and a read quorum of its own round reported it. */
  lemma {:induction false} AnswerIsFresh(rounds: seq<Round>, n: nat, readQuorum: nat, writeQuorum: nat,
                                         holders: set<nat>, version: nat)
    returns (i: nat)
    requires forall i :: 0 <= i < |rounds| ==> |rounds[i]| == n && HeldBy(rounds[i], holders, version)
    requires forall i :: i in holders ==> i < n
    requires |holders| >= writeQuorum && readQuorum + writeQuorum > n && version >= 1
    ensures var outcome := Linearizable(rounds, readQuorum);
            outcome.Answer? ==>
              outcome.result.version >= version && AnsweredFrom(rounds, readQuorum, outcome.result, i)
    decreases |rounds|
  {
    hide Newest, NewestValue, Answering;
    i := 0;
    if rounds != [] {
      var round := rounds[0];
      var reporters := Reporting(round, Newest(round));
      AtMost(holders, n);
      if |Answering(round)| >= readQuorum && |reporters| >= readQuorum {
        Overlap(reporters, holders, n);
      } else {
        assert forall i :: 0 <= i < |rounds[1..]| ==> rounds[1..][i] == rounds[i + 1];
        var later := AnswerIsFresh(rounds[1..], n, readQuorum, writeQuorum, holders, version);
        i := later + 1;
      }
    }
  }

  function UpTo(n: nat): (s: set<nat>)
    ensures |s| == n && forall i: nat :: i in s <==> i < n
  {
    if n == 0 then {}
    else
      var rest := UpTo(n - 1);
      assert n - 1 !in rest;
      rest + {n - 1}
  }

  /** The holders keep silent and everyone else reports the version before. */
  function StaleRound(n: nat, writeQuorum: nat, version: nat): (round: Round)
    requires writeQuorum <= n && version >= 1
    ensures |round| == n
  {
    seq(n, i requires 0 <= i < n => if i < writeQuorum then None else Some(Reply([], version - 1)))
  }

  lemma StaleRoundFacts(n: nat, writeQuorum: nat, version: nat)
    requires writeQuorum < n && version >= 1
    ensures var round, others := StaleRound(n, writeQuorum, version), UpTo(n) - UpTo(writeQuorum);
            && Newest(round) == version - 1 && |others| == n - writeQuorum
            && Reporting(round, version - 1) == others == Answering(round)
  {
    var round, others := StaleRound(n, writeQuorum, version), UpTo(n) - UpTo(writeQuorum);
    NewestBounds(round);
    assert round[n - 1] == Some(Reply([], version - 1));
    assert UpTo(n) == others + UpTo(writeQuorum);
  }

  lemma StaleOutcome(n: nat, readQuorum: nat, writeQuorum: nat, version: nat)
    requires 1 <= readQuorum && readQuorum + writeQuorum <= n && version >= 1
    ensures var outcome := Linearizable([StaleRound(n, writeQuorum, version)], readQuorum);
            outcome.Answer? && outcome.result.version < version
  {
    hide StaleRound, UpTo, Newest, NewestValue, Reporting, Answering;
    StaleRoundFacts(n, writeQuorum, version);
  }

  lemma StaleHeld(n: nat, writeQuorum: nat, version: nat)
    requires writeQuorum <= n && version >= 1
    ensures HeldBy(StaleRound(n, writeQuorum, version), UpTo(writeQuorum), version)
    ensures |UpTo(writeQuorum)| == writeQuorum
  {
    hide UpTo;
  }

  /** When the quorums need not overlap, an older version can be answered. */
  lemma StaleWithoutOverlap(n: nat, readQuorum: nat, writeQuorum: nat, version: nat)
    requires 1 <= readQuorum && readQuorum + writeQuorum <= n && version >= 1
    ensures exists round: Round, holders: set<nat> ::
      && |round| == n && |holders| == writeQuorum && HeldBy(round, holders, version)
      && Linearizable([round], readQuorum).Answer? && Linearizable([round], readQuorum).result.version < version
  {
    hide StaleRound, UpTo, HeldBy, Linearizable;
    StaleOutcome(n, readQuorum, writeQuorum, version);
    StaleHeld(n, writeQuorum, version);
  }
}
