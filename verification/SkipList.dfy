/** The memtable's skip list: nodes with towers of links, of which only the lowest is a complete list. */
module SkipLists {
  import opened Keys
  import opened Entries
  import opened SstFormat

  type Tower = seq<Node?>

  function Blank(height: nat): Tower {
    seq(height, _ => null)
  }

  class Node {
    const key: Key
    var value: Value
    var nexts: Tower

    constructor (key: Key, value: Value, height: nat)
      ensures this.key == key && this.value == value
      ensures nexts == Blank(height)
    {
      this.key, this.value := key, value;
      nexts := Blank(height);
    }
  }

  /** vector::resize with nulls. */
  function Resized(nexts: Tower, n: nat): (r: Tower)
    ensures |r| == n
  {
    if n <= |nexts| then nexts[..n] else nexts + Blank(n - |nexts|)
  }

  // ---------- the shape, on the nodes in order and their towers ----------

  /** All nodes in the order of the lowest links; the first one is the head, whose key means nothing. */
  type Spine = seq<Node>

  ghost predicate Distinct(ns: Spine) {
    forall i, j :: 0 <= i < j < |ns| ==> ns[i] != ns[j]
  }

  /** Keys ascend strictly behind the head. */
  ghost predicate Ordered(ns: Spine) {
    forall i, j :: 1 <= i < j < |ns| ==> Less(ns[i].key, ns[j].key)
  }

  /** No node is taller than the head. */
  ghost predicate Low(ts: seq<Tower>, h: nat) {
    forall i :: 0 <= i < |ts| ==> 1 <= |ts[i]| <= h
  }

  ghost function NextOf(ns: Spine, i: nat): Node? {
    if i + 1 < |ns| then ns[i + 1] else null
  }

  /** The lowest links are the spine. */
  ghost predicate Chained(ns: Spine, ts: seq<Tower>) {
    |ts| == |ns| && forall i :: 0 <= i < |ts| ==> |ts[i]| > 0 && ts[i][0] == NextOf(ns, i)
  }

  /** q is a live node somewhere behind position i, and tall enough to be linked on level l. */
  ghost predicate Reaches(ns: Spine, ts: seq<Tower>, i: nat, q: Node, l: nat) {
    exists j :: i < j < |ns| && j < |ts| && ns[j] == q && l < |ts[j]|
  }

  ghost predicate LinksReach(ns: Spine, ts: seq<Tower>, i: nat, t: Tower) {
    forall l :: 0 <= l < |t| && t[l] != null ==> Reaches(ns, ts, i, t[l], l)
  }

  /** Every link is null or leads to some later live node that has that level. */
  ghost predicate Linked(ns: Spine, ts: seq<Tower>) {
    |ts| == |ns| && forall i :: 0 <= i < |ts| ==> LinksReach(ns, ts, i, ts[i])
  }

  ghost predicate Shape(ns: Spine, ts: seq<Tower>, h: nat) {
    && ns != [] && |ts| == |ns| && |ts[0]| == h && Distinct(ns) && Ordered(ns)
    && Low(ts, h) && Chained(ns, ts) && Linked(ns, ts)
  }

  /** All nodes are as tall as the head. */
  ghost predicate Even(ts: seq<Tower>) {
    forall i :: 0 <= i < |ts| ==> |ts[i]| == |ts[0]|
  }

  /** pos is the last position before the key. */
  ghost predicate IsPlace(ns: Spine, key: Key, pos: nat) {
    && pos < |ns|
    && (pos > 0 ==> Less(ns[pos].key, key))
    && (pos + 1 < |ns| ==> !Less(ns[pos + 1].key, key))
  }

  /** The keys before and behind the place. */
  lemma PlaceSplits(ns: Spine, key: Key, pos: nat)
    requires Ordered(ns) && IsPlace(ns, key, pos)
    ensures forall i :: 1 <= i <= pos ==> Less(ns[i].key, key)
    ensures forall i :: pos < i < |ns| ==> !Less(ns[i].key, key)
  {
    Order();
    forall i | pos < i < |ns| ensures !Less(ns[i].key, key) {
      assert i == pos + 1 || Less(ns[pos + 1].key, ns[i].key);
    }
  }

  /** p's links from the given levels now lead to the new node. */
  ghost function Redirected(t: Tower, node: Node, from: nat, to: nat): (r: Tower)
    ensures |r| == |t|
  {
    seq(|t|, l requires 0 <= l < |t| => if from <= l < to then node else t[l])
  }

  /** The new node takes over p's links on the given levels. */
  ghost function TakenOver(blank: Tower, t: Tower, from: nat, to: nat): (r: Tower)
    ensures |r| == |blank|
  {
    seq(|blank|, l requires 0 <= l < |blank| => if from <= l < to && l < |t| then t[l] else blank[l])
  }

  ghost function InsertedSpine(ns: Spine, pos: nat, node: Node): Spine
    requires pos < |ns|
  {
    ns[..pos + 1] + [node] + ns[pos + 1..]
  }

  ghost function InsertedTowers(ts: seq<Tower>, pos: nat, node: Node, blank: Tower, newLevel: nat): seq<Tower>
    requires pos < |ts|
  {
    ts[..pos] + [Redirected(ts[pos], node, 0, newLevel), TakenOver(blank, ts[pos], 0, newLevel)] + ts[pos + 1..]
  }

  ghost function InsertedRecords(rs: seq<Entry>, pos: nat, e: Entry): seq<Entry>
    requires pos < |rs|
  {
    rs[..pos + 1] + [e] + rs[pos + 1..]
  }

  /** What stands where after the insertion. */
  lemma InsertedAt(ns: Spine, ts: seq<Tower>, pos: nat, node: Node, blank: Tower, newLevel: nat)
    requires pos < |ns| == |ts|
    ensures var ns', ts' := InsertedSpine(ns, pos, node), InsertedTowers(ts, pos, node, blank, newLevel);
            && |ns'| == |ts'| == |ns| + 1
            && (forall i :: 0 <= i < |ns'| ==>
                  if i == pos + 1 then ns'[i] == node && ts'[i] == TakenOver(blank, ts[pos], 0, newLevel)
                  else var was := if i <= pos then i else i - 1;
                    && ns'[i] == ns[was]
                    && ts'[i] == if i == pos then Redirected(ts[pos], node, 0, newLevel) else ts[was])
  {
  }

  lemma InsertedRecordsAt(rs: seq<Entry>, pos: nat, e: Entry)
    requires pos < |rs|
    ensures var rs' := InsertedRecords(rs, pos, e);
            && |rs'| == |rs| + 1
            && forall i :: 0 <= i < |rs'| ==> rs'[i] == if i == pos + 1 then e else rs[if i <= pos then i else i - 1]
  {
  }

  lemma InsertedReaches(ns: Spine, ts: seq<Tower>, pos: nat, node: Node, blank: Tower, newLevel: nat, i: nat, q: Node,
                        l: nat)
    requires pos < |ns| == |ts| && Reaches(ns, ts, i, q, l)
    ensures var ns', ts' := InsertedSpine(ns, pos, node), InsertedTowers(ts, pos, node, blank, newLevel);
            (i <= pos ==> Reaches(ns', ts', i, q, l)) && (i >= pos ==> Reaches(ns', ts', i + 1, q, l))
  {
    var j :| i < j < |ns| && j < |ts| && ns[j] == q && l < |ts[j]|;
    var ns', ts' := InsertedSpine(ns, pos, node), InsertedTowers(ts, pos, node, blank, newLevel);
    InsertedAt(ns, ts, pos, node, blank, newLevel);
    var j' := if j <= pos then j else j + 1;
    assert ns'[j'] == q && l < |ts'[j']|;
  }

  lemma NodeReached(ns: Spine, ts: seq<Tower>, i: nat, node: Node, l: nat)
    requires i + 1 < |ns| == |ts| && ns[i + 1] == node && l < |ts[i + 1]|
    ensures Reaches(ns, ts, i, node, l)
  {
  }

  lemma InsertKeepsLinks(ns: Spine, ts: seq<Tower>, pos: nat, node: Node, blank: Tower, newLevel: nat)
    requires Linked(ns, ts) && pos < |ns| && newLevel <= |blank| == |ts[pos]|
    requires forall l :: 0 <= l < |blank| ==> blank[l] == null
    ensures Linked(InsertedSpine(ns, pos, node), InsertedTowers(ts, pos, node, blank, newLevel))
  {
    var ns', ts' := InsertedSpine(ns, pos, node), InsertedTowers(ts, pos, node, blank, newLevel);
    InsertedAt(ns, ts, pos, node, blank, newLevel);
    forall i | 0 <= i < |ts'| ensures LinksReach(ns', ts', i, ts'[i]) {
      var was := if i <= pos then i else i - 1;
      assert LinksReach(ns, ts, was, ts[was]);
      hide InsertedSpine, InsertedTowers, Reaches;
      forall l | 0 <= l < |ts'[i]| && ts'[i][l] != null ensures Reaches(ns', ts', i, ts'[i][l], l) {
        if i == pos && l < newLevel {
          NodeReached(ns', ts', pos, node, l);
        } else {
          InsertedReaches(ns, ts, pos, node, blank, newLevel, was, ts[was][l], l);
        }
      }
    }
  }

  lemma InsertKeepsChain(ns: Spine, ts: seq<Tower>, pos: nat, node: Node, blank: Tower, newLevel: nat)
    requires Chained(ns, ts) && pos < |ns| && |blank| > 0 && newLevel >= 1
    ensures Chained(InsertedSpine(ns, pos, node), InsertedTowers(ts, pos, node, blank, newLevel))
  {
    var ns', ts' := InsertedSpine(ns, pos, node), InsertedTowers(ts, pos, node, blank, newLevel);
    forall i | 0 <= i < |ts'| ensures |ts'[i]| > 0 && ts'[i][0] == NextOf(ns', i) {
      assert i < pos ==> ts'[i] == ts[i];
      assert i > pos + 1 ==> ts'[i] == ts[i - 1];
      assert ts[pos][0] == NextOf(ns, pos);
    }
  }

  lemma InsertKeepsOrder(ns: Spine, pos: nat, node: Node)
    requires Ordered(ns) && Distinct(ns) && node !in ns
    requires IsPlace(ns, node.key, pos) && (pos + 1 < |ns| ==> ns[pos + 1].key != node.key)
    ensures Ordered(InsertedSpine(ns, pos, node)) && Distinct(InsertedSpine(ns, pos, node))
  {
    Order();
    PlaceSplits(ns, node.key, pos);
    var ns' := InsertedSpine(ns, pos, node);
    forall i, j | 1 <= i < j < |ns'| ensures Less(ns'[i].key, ns'[j].key) {
      assert i > pos + 1 ==> ns'[i] == ns[i - 1];
      assert j > pos + 1 ==> ns'[j] == ns[j - 1];
      if j > pos + 2 {
        assert Less(ns[pos + 1].key, ns[j - 1].key);
      }
    }
  }

  /** A node as tall as the head goes behind a node as tall as the head. */
  lemma InsertKeepsShape(ns: Spine, ts: seq<Tower>, h: nat, pos: nat, node: Node, newLevel: nat)
    requires Shape(ns, ts, h) && node !in ns && 1 <= newLevel <= h
    requires IsPlace(ns, node.key, pos) && |ts[pos]| == h && (pos + 1 < |ns| ==> ns[pos + 1].key != node.key)
    ensures Shape(InsertedSpine(ns, pos, node), InsertedTowers(ts, pos, node, Blank(h), newLevel), h)
    ensures Even(ts) ==> Even(InsertedTowers(ts, pos, node, Blank(h), newLevel))
  {
    hide Less, Linked, Chained, Ordered, Distinct, InsertedSpine, InsertedTowers, Redirected, TakenOver;
    InsertKeepsLinks(ns, ts, pos, node, Blank(h), newLevel);
    InsertKeepsChain(ns, ts, pos, node, Blank(h), newLevel);
    InsertKeepsOrder(ns, pos, node);
    InsertedAt(ns, ts, pos, node, Blank(h), newLevel);
  }

  /** The head and the marked nodes get taller. */
  ghost function Grown(ts: seq<Tower>, marks: seq<nat>, n: nat): (r: seq<Tower>)
    ensures |r| == |ts|
    ensures forall i :: 0 <= i < |ts| ==> r[i] == if i == 0 || i in marks then Resized(ts[i], n) else ts[i]
  {
    seq(|ts|, i requires 0 <= i < |ts| => if i == 0 || i in marks then Resized(ts[i], n) else ts[i])
  }

  lemma ResizedKeeps(t: Tower, n: nat)
    requires |t| <= n
    ensures forall l :: 0 <= l < n ==> Resized(t, n)[l] == if l < |t| then t[l] else null
  {
  }

  lemma GrownReaches(ns: Spine, ts: seq<Tower>, marks: seq<nat>, n: nat, i: nat, q: Node, l: nat)
    requires |ts| == |ns| && Low(ts, n) && Reaches(ns, ts, i, q, l)
    ensures Reaches(ns, Grown(ts, marks, n), i, q, l)
  {
    var j :| i < j < |ns| && j < |ts| && ns[j] == q && l < |ts[j]|;
    assert l < |Grown(ts, marks, n)[j]|;
  }

  lemma GrowKeepsShape(ns: Spine, ts: seq<Tower>, h: nat, marks: seq<nat>, n: nat)
    requires Shape(ns, ts, h) && h < n
    ensures Shape(ns, Grown(ts, marks, n), n)
  {
    hide Less, Reaches, Resized, Ordered, Distinct;
    var ts' := Grown(ts, marks, n);
    forall i | 0 <= i < |ts|
      ensures 1 <= |ts'[i]| <= n && ts'[i][0] == NextOf(ns, i) && LinksReach(ns, ts', i, ts'[i])
    {
      ResizedKeeps(ts[i], n);
      assert LinksReach(ns, ts, i, ts[i]);
      forall l | 0 <= l < |ts'[i]| && ts'[i][l] != null ensures Reaches(ns, ts', i, ts'[i][l], l) {
        GrownReaches(ns, ts, marks, n, i, ts[i][l], l);
      }
    }
  }

  /** The link on this level is null or leads further on; the lowest leads to the next node. */
  ghost predicate LeadsOn(ns: Spine, ts: seq<Tower>, pos: nat, level: nat) {
    && pos < |ns| == |ts| && level < |ts[pos]|
    && (ts[pos][level] != null ==> Reaches(ns, ts, pos, ts[pos][level], level))
    && (level == 0 ==> ts[pos][0] == NextOf(ns, pos))
  }

  lemma LinkLeads(ns: Spine, ts: seq<Tower>, h: nat, pos: nat, level: nat)
    requires Shape(ns, ts, h) && pos < |ns| && level < |ts[pos]|
    ensures LeadsOn(ns, ts, pos, level)
  {
    assert LinksReach(ns, ts, pos, ts[pos]);
  }

  ghost function LaterPlace(ns: Spine, ts: seq<Tower>, i: nat, q: Node, l: nat): (j: nat)
    requires Reaches(ns, ts, i, q, l)
    ensures i < j < |ns| && j < |ts| && ns[j] == q && l < |ts[j]|
  {
    var j :| i < j < |ns| && j < |ts| && ns[j] == q && l < |ts[j]|;
    j
  }

  // ---------- where a search passes ----------

  /** Where the walk along one level ends. */
  ghost function WalkEnd(ns: Spine, ts: seq<Tower>, h: nat, i: nat, l: nat, key: Key): (j: nat)
    requires Shape(ns, ts, h) && i < |ns| && l < |ts[i]|
    ensures i <= j < |ns| && l < |ts[j]|
    decreases |ns| - i
  {
    LinkLeads(ns, ts, h, i, l);
    var q := ts[i][l];
    if q != null && Less(q.key, key) then WalkEnd(ns, ts, h, LaterPlace(ns, ts, i, q, l), l, key) else i
  }

  /** The nodes a search records: where it ends on each level from l down to 1. */
  ghost function Descent(ns: Spine, ts: seq<Tower>, h: nat, i: nat, l: nat, key: Key): (marks: seq<nat>)
    requires Shape(ns, ts, h) && i < |ns| && l < |ts[i]|
    ensures |marks| == l && forall k :: 0 <= k < |marks| ==> marks[k] < |ns|
    decreases l
  {
    if l == 0 then []
    else
      var j := WalkEnd(ns, ts, h, i, l, key);
      [j] + Descent(ns, ts, h, j, l - 1, key)
  }

  lemma DescentStep(ns: Spine, ts: seq<Tower>, h: nat, i: nat, l: nat, key: Key, marks: seq<nat>)
    requires Shape(ns, ts, h) && i < |ns| && l < |ts[i]|
    ensures l == 0 ==> marks + Descent(ns, ts, h, i, l, key) == marks
    ensures l > 0 ==>
              var j := WalkEnd(ns, ts, h, i, l, key);
              marks + Descent(ns, ts, h, i, l, key) == (marks + [j]) + Descent(ns, ts, h, j, l - 1, key)
  {
    hide Shape, WalkEnd;
    if l > 0 {
      var j := WalkEnd(ns, ts, h, i, l, key);
      assert marks + ([j] + Descent(ns, ts, h, j, l - 1, key)) == (marks + [j]) + Descent(ns, ts, h, j, l - 1, key);
    }
  }

  /** The search goes on to node j on this level, which is before the key, and finds no further one before it. */
  ghost predicate TurnsDown(ns: Spine, ts: seq<Tower>, j: nat, i: nat, l: nat, key: Key) {
    && i <= j < |ns| == |ts| && l < |ts[j]| && (j > i ==> Less(ns[j].key, key))
    && (ts[j][l] != null ==> !Less(ts[j][l].key, key))
  }

  lemma {:induction false} WalkEndStops(ns: Spine, ts: seq<Tower>, h: nat, i: nat, l: nat, key: Key)
    requires Shape(ns, ts, h) && i < |ns| && l < |ts[i]|
    ensures TurnsDown(ns, ts, WalkEnd(ns, ts, h, i, l, key), i, l, key)
    decreases |ns| - i
  {
    hide Shape, Less;
    LinkLeads(ns, ts, h, i, l);
    var q := ts[i][l];
    if q != null && Less(q.key, key) {
      WalkEndStops(ns, ts, h, LaterPlace(ns, ts, i, q, l), l, key);
    }
  }

  /** The nodes recorded are those where the search turns down, on each level from l down to 1. */
  lemma {:induction false} RecordsTurns(ns: Spine, ts: seq<Tower>, h: nat, i: nat, l: nat, key: Key, k: nat)
    requires Shape(ns, ts, h) && i < |ns| && l < |ts[i]| && k < l
    ensures var marks := Descent(ns, ts, h, i, l, key);
            TurnsDown(ns, ts, marks[k], if k == 0 then i else marks[k - 1], l - k, key)
    decreases l
  {
    hide Shape, TurnsDown;
    var j := WalkEnd(ns, ts, h, i, l, key);
    WalkEndStops(ns, ts, h, i, l, key);
    if k > 0 {
      RecordsTurns(ns, ts, h, j, l - 1, key, k - 1);
    }
  }

  /**
   * The node before the new one is as tall as the head will be: always, if the head stays and the node has its height;
   * and if the head grows, exactly when the search recorded the node, or it is the head.
   */
  ghost predicate TallEnough(ns: Spine, ts: seq<Tower>, h: nat, key: Key, pos: nat, newLevel: nat)
    requires Shape(ns, ts, h) && pos < |ns|
  {
    if newLevel <= h then |ts[pos]| == h else pos == 0 || pos in Descent(ns, ts, h, 0, h - 1, key)
  }

  /** What being tall enough comes to once the head and the recorded nodes have grown, if they have to. */
  lemma TallMeans(ns: Spine, ts: seq<Tower>, h: nat, key: Key, pos: nat, newLevel: nat)
    requires Shape(ns, ts, h) && pos < |ns|
    ensures |ts| == |ns| && |ts[pos]| <= h
    ensures newLevel <= h ==> (TallEnough(ns, ts, h, key, pos, newLevel) <==> |ts[pos]| == h)
    ensures newLevel > h ==>
              var now := Grown(ts, Descent(ns, ts, h, 0, h - 1, key), newLevel);
              && |now[pos]| <= newLevel
              && (TallEnough(ns, ts, h, key, pos, newLevel) <==> |now[pos]| == newLevel)
  {
    hide Less, Linked, Chained, Ordered, Distinct, Descent;
  }

  lemma OneIsEven(ts: seq<Tower>)
    requires |ts| == 1
    ensures Even(ts)
  {
  }

  // ---------- the list in the heap ----------

  /** Whatever joined the spine was allocated since. */
  twostate predicate OnlyNew(was: Spine, new now: Spine) {
    forall i :: 0 <= i < |now| ==> now[i] in was || fresh(now[i])
  }

  /** The lowest link leads to the next node. */
  lemma Successor(ns: Spine, ts: seq<Tower>, h: nat, pos: nat)
    requires Shape(ns, ts, h) && pos < |ns|
    ensures |ts| == |ns| && 0 < |ts[pos]| <= h == |ts[0]| && ts[pos][0] == NextOf(ns, pos)
  {
  }

  lemma {:induction false} SizeOfConcat(a: seq<Entry>, b: seq<Entry>)
    ensures PayloadSize(a + b) == PayloadSize(a) + PayloadSize(b)
  {
    if b == [] {
      assert a + b == a;
    } else {
      assert (a + b)[..|a + b| - 1] == a + b[..|b| - 1];
      SizeOfConcat(a, b[..|b| - 1]);
    }
  }

  lemma SizeOfInsert(es: seq<Entry>, p: nat, e: Entry)
    requires p <= |es|
    ensures PayloadSize(es[..p] + [e] + es[p..]) == PayloadSize(es) + |e.key| + |e.value|
  {
    assert (es[..p] + [e])[..p] == es[..p];
    assert PayloadSize(es[..p] + [e]) == PayloadSize(es[..p]) + |e.key| + |e.value|;
    hide PayloadSize;
    assert es == es[..p] + es[p..];
    SizeOfConcat(es[..p], es[p..]);
    SizeOfConcat(es[..p] + [e], es[p..]);
  }

  lemma InsertRecords(rs: seq<Entry>, pos: nat, e: Entry)
    requires pos < |rs|
    ensures InsertedRecords(rs, pos, e) != []
    ensures InsertedRecords(rs, pos, e)[1..] == rs[1..][..pos] + [e] + rs[1..][pos..]
    ensures PayloadSize(rs[1..][..pos] + [e] + rs[1..][pos..]) == PayloadSize(rs[1..]) + |e.key| + |e.value|
  {
    SizeOfInsert(rs[1..], pos, e);
  }

  lemma NowhereElse(es: seq<Entry>, k: Key, p: nat)
    requires Sorted(es) && p <= |es|
    requires p > 0 ==> Less(es[p - 1].key, k)
    requires p < |es| ==> !Less(es[p].key, k)
    ensures forall i :: 0 <= i < |es| && i != p ==> es[i].key != k
  {
    Order();
    forall i | 0 <= i < |es| && i != p ensures es[i].key != k {
      assert i < p - 1 ==> Less(es[i].key, es[p - 1].key);
      assert i > p ==> Less(es[p].key, es[i].key);
    }
  }

  /** A sorted list answers for a key at the only position where it can be. */
  lemma FoundAt(es: seq<Entry>, k: Key, p: nat)
    requires Sorted(es) && p <= |es|
    requires p > 0 ==> Less(es[p - 1].key, k)
    requires p < |es| ==> !Less(es[p].key, k)
    ensures Lookup(Contents(es), k) == if p < |es| && es[p].key == k then Some(es[p].value) else None
  {
    NowhereElse(es, k, p);
    KeyInContents(es, k);
    if p < |es| && es[p].key == k {
      ContentsAt(es, p);
    }
  }

  lemma {:induction false} SizeOfUpdate(es: seq<Entry>, i: nat, e: Entry)
    requires i < |es|
    ensures PayloadSize(es[i := e]) == PayloadSize(es) + |e.key| + |e.value| - |es[i].key| - |es[i].value|
  {
    var n := |es| - 1;
    if i < n {
      SizeOfUpdate(es[..n], i, e);
      assert es[i := e][..n] == es[..n][i := e];
    } else {
      assert es[i := e][..n] == es[..n];
    }
  }

  /** Behind the head's record, and what the bytes sum to. */
  lemma OverwriteRecords(rs: seq<Entry>, pos: nat, e: Entry)
    requires pos + 1 < |rs|
    ensures rs[pos + 1 := e][1..] == rs[1..][pos := e]
    ensures PayloadSize(rs[1..][pos := e]) ==
            PayloadSize(rs[1..]) + |e.key| + |e.value| - |rs[pos + 1].key| - |rs[pos + 1].value|
  {
    SizeOfUpdate(rs[1..], pos, e);
  }

  /** A node as tall as the list, linked behind p on its own levels, from the top one down. */
  method AddNode(p: Node, key: Key, value: Value, newLevel: nat, height: nat) returns (node: Node)
    requires newLevel <= height <= |p.nexts|
    requires forall l :: 0 <= l < height && p.nexts[l] != null ==> !Less(p.nexts[l].key, key)
    modifies p`nexts
    ensures fresh(node) && node.key == key && node.value == value
    ensures p.nexts == Redirected(old(p.nexts), node, 0, newLevel)
    ensures node.nexts == TakenOver(Blank(height), old(p.nexts), 0, newLevel)
    ensures forall l :: 0 <= l < newLevel ==> p.nexts[l] == node && node.nexts[l] == old(p.nexts)[l]
    ensures forall l :: newLevel <= l < |p.nexts| ==> p.nexts[l] == old(p.nexts)[l]
    ensures forall l :: newLevel <= l < |node.nexts| ==> node.nexts[l] == null
  {
    node := new Node(key, value, newLevel);
    if height > |node.nexts| {
      node.nexts := Resized(node.nexts, height);
    }
    assert node.nexts == Blank(height);
    var level := height;
    while level > 0
      invariant 0 <= level <= height && node.value == value
      invariant p.nexts == Redirected(old(p.nexts), node, level, newLevel)
      invariant node.nexts == TakenOver(Blank(height), old(p.nexts), level, newLevel)
    {
      level := level - 1;
      // The search for a closer node ends at once.
      assert !(p.nexts[level] != null && Less(p.nexts[level].key, node.key));
      if level < newLevel {
        node.nexts := node.nexts[level := p.nexts[level]];
        p.nexts := p.nexts[level := node];
      }
    }
  }

  lemma NoOther(ns: Spine, ts: seq<Tower>, h: nat, pos: nat)
    requires Shape(ns, ts, h) && pos < |ns|
    ensures forall j :: 0 <= j < |ns| && j != pos ==> ns[j] != ns[pos]
  {
  }

  lemma AllDiffer(ns: Spine, ts: seq<Tower>, h: nat)
    requires Shape(ns, ts, h)
    ensures |ts| == |ns| && |ts[0]| == h >= 1 && Distinct(ns)
  {
  }

  /** Resizing a node that is recorded twice changes nothing more. */
  lemma ResizedTwice(ts: seq<Tower>, n: nat)
    ensures forall i :: 0 <= i < |ts| ==> Resized(Resized(ts[i], n), n) == Resized(ts[i], n)
  {
  }

  lemma AloneIsHead(ns: Spine, key: Key, pos: nat, head: Node)
    requires IsPlace(ns, key, pos)
    ensures pos < |ns| && (ns == [head] ==> pos == 0)
  {
  }

  /** The recorded nodes, by place, with the levels they were recorded on. */
  ghost predicate Recorded(path: seq<(Node, nat)>, marks: seq<nat>, ns: Spine, h: nat) {
    && |path| == |marks|
    && forall k :: 0 <= k < |path| ==> marks[k] < |ns| && path[k].0 == ns[marks[k]] && path[k].1 < h
  }

  lemma NothingRecorded(ns: Spine, h: nat)
    ensures Recorded([], [], ns, h)
  {
  }

  lemma RecordedMore(path: seq<(Node, nat)>, marks: seq<nat>, ns: Spine, h: nat, p: Node, level: nat, pos: nat)
    requires Recorded(path, marks, ns, h) && pos < |ns| && ns[pos] == p && level < h
    ensures Recorded(path + [(p, level)], marks + [pos], ns, h)
  {
  }

  /** Resizes the head and every recorded node. */
  method ResizeAll(head: Node, path: seq<(Node, nat)>, ghost marks: seq<nat>, ghost ns: Spine, ghost ts: seq<Tower>,
                   ghost h: nat, newLevel: nat)
    requires ns != [] && ns[0] == head && Distinct(ns) && |ns| == |ts| && h <= newLevel && Recorded(path, marks, ns, h)
    requires forall i :: 0 <= i < |ns| ==> ns[i].nexts == ts[i]
    modifies ns`nexts
    ensures forall i :: 0 <= i < |ns| ==> ns[i].nexts == Grown(ts, marks, newLevel)[i]
  {
    ResizedTwice(ts, newLevel);
    hide Resized;
    head.nexts := Resized(head.nexts, newLevel);
    for k := 0 to |path|
      invariant forall i :: 0 <= i < |ns| ==>
                  ns[i].nexts == if i == 0 || i in marks[..k] then Resized(ts[i], newLevel) else ts[i]
    {
      assert path[k].0 == ns[marks[k]] && path[k].1 < newLevel;
      if path[k].1 < newLevel {
        path[k].0.nexts := Resized(path[k].0.nexts, newLevel);
      }
      assert marks[..k + 1] == marks[..k] + [marks[k]];
    }
    assert marks[..|path|] == marks;
  }

  /** Behind the place no node is smaller than the key, so the search at insertion never moves off p. */
  lemma NoneCloser(ns: Spine, ts: seq<Tower>, h: nat, pos: nat, key: Key)
    requires Shape(ns, ts, h) && IsPlace(ns, key, pos)
    ensures forall l :: 0 <= l < |ts[pos]| && ts[pos][l] != null ==> !Less(ts[pos][l].key, key)
  {
    PlaceSplits(ns, key, pos);
    assert LinksReach(ns, ts, pos, ts[pos]);
  }

  class SkipList {
    var head: Node
    var size: nat
    var binarySize: int
    // The nodes in order with what they hold; the head comes first.
    ghost var nodes: Spine
    ghost var towers: seq<Tower>
    ghost var records: seq<Entry>

    /** What the nodes hold is what the ghost fields say. */
    ghost predicate Mirrored()
      reads this, nodes
    {
      && |towers| == |nodes| == |records|
      && forall i :: 0 <= i < |nodes| ==>
           nodes[i].nexts == towers[i] && Entry(nodes[i].key, nodes[i].value) == records[i]
    }

    lemma MirroredParts()
      ensures Mirrored() <==>
              && |towers| == |nodes| == |records|
              && (forall i :: 0 <= i < |nodes| ==> nodes[i].nexts == towers[i])
              && (forall i :: 0 <= i < |nodes| ==> Entry(nodes[i].key, nodes[i].value) == records[i])
    {
    }

    ghost predicate Valid()
      reads this, nodes
    {
      && Mirrored() && nodes != [] && nodes[0] == head && Shape(nodes, towers, |head.nexts|)
      && size == |Stored()| && binarySize == PayloadSize(Stored())
    }

    /** The stored entries in key order. */
    ghost function Stored(): seq<Entry>
      reads this
    {
      if records == [] then [] else records[1..]
    }

    constructor ()
      ensures Valid() && Stored() == [] && fresh(head) && nodes == [head] && |head.nexts| == 1
    {
      head := new Node([], [], 1);
      size, binarySize := 0, 0;
      new;
      nodes, towers, records := [head], [head.nexts], [Entry([], [])];
    }

    lemma StoredSorted()
      requires Valid()
      ensures Sorted(Stored())
    {
      forall i, j | 0 <= i < j < |Stored()| ensures Less(Stored()[i].key, Stored()[j].key) {
        assert Less(nodes[i + 1].key, nodes[j + 1].key);
      }
    }

    /** The walk along one level, to its last node before the key. */
    method Walk(from: Node, ghost at: nat, level: nat, key: Key) returns (p: Node, ghost pos: nat)
      requires Valid() && at < |nodes| && nodes[at] == from && level < |towers[at]| && (at > 0 ==> Less(from.key, key))
      ensures pos < |nodes| && nodes[pos] == p && level < |towers[pos]| && (pos > 0 ==> Less(p.key, key))
      ensures level == 0 ==> IsPlace(nodes, key, pos)
      ensures pos == WalkEnd(nodes, towers, |head.nexts|, at, level, key)
    {
      hide Shape, Less;
      p, pos := from, at;
      LinkLeads(nodes, towers, |head.nexts|, pos, level);
      while p.nexts[level] != null && Less(p.nexts[level].key, key)
        invariant pos < |nodes| && nodes[pos] == p && (pos > 0 ==> Less(p.key, key))
        invariant LeadsOn(nodes, towers, pos, level)
        invariant WalkEnd(nodes, towers, |head.nexts|, pos, level, key) ==
                  WalkEnd(nodes, towers, |head.nexts|, at, level, key)
        decreases |nodes| - pos
      {
        p := p.nexts[level];
        pos := LaterPlace(nodes, towers, pos, p, level);
        LinkLeads(nodes, towers, |head.nexts|, pos, level);
      }
    }

    /** The walk from the top level down ends at the last node before the key; where it turns down is recorded. */
    method Locate(key: Key) returns (p: Node, ghost pos: nat, path: seq<(Node, nat)>, ghost marks: seq<nat>)
      requires Valid()
      ensures pos < |nodes| && nodes[pos] == p && IsPlace(nodes, key, pos)
      ensures marks == Descent(nodes, towers, |head.nexts|, 0, |head.nexts| - 1, key)
      ensures Recorded(path, marks, nodes, |head.nexts|)
    {
      hide Shape, Less, IsPlace, Mirrored, PayloadSize, WalkEnd, Descent, Recorded;
      AllDiffer(nodes, towers, |head.nexts|);
      NothingRecorded(nodes, |head.nexts|);
      p, pos, path, marks := head, 0, [], [];
      var level := |head.nexts|;
      ghost var all := Descent(nodes, towers, |head.nexts|, 0, level - 1, key);
      assert all == [] + all;
      while level > 0
        invariant 0 <= level <= |head.nexts|
        invariant pos < |nodes| && nodes[pos] == p && (pos > 0 ==> Less(p.key, key))
        invariant level > 0 ==> level - 1 < |towers[pos]|
        invariant level > 0 ==> all == marks + Descent(nodes, towers, |head.nexts|, pos, level - 1, key)
        invariant level == 0 ==> IsPlace(nodes, key, pos) && all == marks
        invariant Recorded(path, marks, nodes, |head.nexts|)
      {
        level := level - 1;
        DescentStep(nodes, towers, |head.nexts|, pos, level, key, marks);
        p, pos := Walk(p, pos, level, key);
        if level > 0 {
          RecordedMore(path, marks, nodes, |head.nexts|, p, level, pos);
          path := path + [(p, level)];
          marks := marks + [pos];
        }
      }
    }

    method Get(key: Key) returns (value: Option<Value>)
      requires Valid()
      ensures value == Lookup(Contents(Stored()), key)
    {
      var p, pos, path, marks := Locate(key);
      StoredSorted();
      Successor(nodes, towers, |head.nexts|, pos);
      FoundAt(Stored(), key, pos);
      if p.nexts[0] != null && p.nexts[0].key == key {
        value := Some(p.nexts[0].value);
      } else {
        value := None;
      }
    }

    /** The entry goes right behind the place, or replaces the one there. */
    lemma StoredInsert(key: Key, value: Value, pos: nat)
      requires Valid() && IsPlace(nodes, key, pos)
      ensures var e := Entry(key, value);
              && (pos + 1 < |nodes| && nodes[pos + 1].key == key ==> Insert(Stored(), e) == Stored()[pos := e])
              && (pos + 1 == |nodes| || nodes[pos + 1].key != key ==>
                    Insert(Stored(), e) == Stored()[..pos] + [e] + Stored()[pos..])
    {
      StoredSorted();
      PlaceSplits(nodes, key, pos);
      InsertAt(Stored(), Entry(key, value), pos);
    }

    /**
     * newLevel is the random height drawn should a node be needed. When the node before the new one is shorter than the
     * head, the original reads beyond its tower; that is what inside tells apart.
     */
    method Put(key: Key, value: Value, newLevel: nat) returns (inside: bool, ghost pos: nat)
      requires Valid() && 1 <= newLevel
      modifies this, nodes
      ensures IsPlace(old(nodes), key, pos)
      ensures inside <==> (pos + 1 < |old(nodes)| && old(nodes)[pos + 1].key == key)
                          || TallEnough(old(nodes), old(towers), old(|head.nexts|), key, pos, newLevel)
      ensures inside ==> Valid() && head == old(head) && OnlyNew(old(nodes), nodes)
      ensures inside ==> Stored() == Insert(old(Stored()), Entry(key, value))
      ensures inside ==>
                var there := pos + 1 < |old(nodes)| && old(nodes)[pos + 1].key == key;
                |head.nexts| == if there || newLevel <= old(|head.nexts|) then old(|head.nexts|) else newLevel
      ensures old(Even(towers)) && (newLevel <= old(|head.nexts|) || |old(nodes)| == 1) ==> inside && Even(towers)
    {
      hide Shape, Insert, PayloadSize, IsPlace, Stored, Descent, Less;
      var p, path;
      ghost var marks;
      p, pos, path, marks := Locate(key);
      StoredInsert(key, value, pos);
      Successor(nodes, towers, |head.nexts|, pos);
      assert p.nexts == towers[pos];
      AloneIsHead(nodes, key, pos, head);
      hide Mirrored;
      if p.nexts[0] != null && p.nexts[0].key == key {
        Overwrite(p, pos, value);
        return true, pos;
      }
      var node;
      inside, node := InsertNew(p, pos, path, marks, key, value, newLevel);
    }

    /** The node behind p gets a new value. */
    method Overwrite(p: Node, ghost pos: nat, value: Value)
      requires Valid() && pos + 1 < |nodes| && nodes[pos] == p
      modifies this`binarySize, this`records, nodes`value
      ensures Valid()
      ensures Stored() == old(Stored())[pos := Entry(nodes[pos + 1].key, value)] && |head.nexts| == old(|head.nexts|)
    {
      hide Shape, PayloadSize;
      Successor(nodes, towers, |head.nexts|, pos);
      var node := p.nexts[0];
      assert node == nodes[pos + 1];
      NoOther(nodes, towers, |head.nexts|, pos + 1);
      OverwriteRecords(records, pos, Entry(node.key, value));
      hide NextOf;
      binarySize := binarySize + (|value| - |node.value|);
      records := records[pos + 1 := Entry(node.key, value)];
      node.value := value;
      assert Mirrored();
      hide Mirrored;
    }

    /** The head becomes taller, and so do the recorded nodes. */
    method GrowHead(newLevel: nat, path: seq<(Node, nat)>, ghost marks: seq<nat>)
      requires Valid() && newLevel > |head.nexts| && Recorded(path, marks, nodes, |head.nexts|)
      modifies this`towers, nodes`nexts
      ensures Valid() && |head.nexts| == newLevel && towers == Grown(old(towers), marks, newLevel)
    {
      hide Shape, Less, PayloadSize, Resized, Recorded, Distinct, Grown, Mirrored;
      ghost var ts := towers;
      MirroredParts();
      AllDiffer(nodes, towers, |head.nexts|);
      GrowKeepsShape(nodes, towers, |head.nexts|, marks, newLevel);
      ResizeAll(head, path, marks, nodes, ts, |head.nexts|, newLevel);
      towers := Grown(ts, marks, newLevel);
      MirroredParts();
    }

    /** The second half of Put, for a key that is not there. */
    method InsertNew(p: Node, ghost pos: nat, path: seq<(Node, nat)>, ghost marks: seq<nat>, key: Key, value: Value,
                     newLevel: nat)
      returns (inside: bool, node: Node?)
      requires Valid() && pos < |nodes| && nodes[pos] == p && IsPlace(nodes, key, pos) && 1 <= newLevel
      requires pos + 1 < |nodes| ==> nodes[pos + 1].key != key
      requires marks == Descent(nodes, towers, |head.nexts|, 0, |head.nexts| - 1, key)
      requires Recorded(path, marks, nodes, |head.nexts|)
      modifies this, nodes
      ensures inside <==> TallEnough(old(nodes), old(towers), old(|head.nexts|), key, pos, newLevel)
      ensures inside ==> Valid() && head == old(head) && node != null && fresh(node)
      ensures inside ==> nodes == InsertedSpine(old(nodes), pos, node)
      ensures inside ==> |head.nexts| == if newLevel <= old(|head.nexts|) then old(|head.nexts|) else newLevel
      ensures inside ==> Stored() == old(Stored())[..pos] + [Entry(key, value)] + old(Stored())[pos..]
      ensures inside && old(Even(towers)) && (newLevel <= old(|head.nexts|) || |old(nodes)| == 1) ==> Even(towers)
    {
      hide Shape, IsPlace, Descent, Less, PayloadSize, Recorded, InsertedSpine, Grown, TallEnough, Mirrored, Even;
      TallMeans(nodes, towers, |head.nexts|, key, pos, newLevel);
      if newLevel > |head.nexts| {
        GrowHead(newLevel, path, marks);
        if |towers| == 1 {
          OneIsEven(towers);
        }
      }
      MirroredParts();
      if |p.nexts| < |head.nexts| {
        return false, null;
      }
      inside := true;
      node := InsertBehind(p, pos, key, value, newLevel);
    }

    /** A new node behind p, linked from the top level down. */
    method InsertBehind(p: Node, ghost pos: nat, key: Key, value: Value, newLevel: nat)
      returns (node: Node)
      requires Valid() && pos < |nodes| && nodes[pos] == p && IsPlace(nodes, key, pos)
      requires pos + 1 < |nodes| ==> nodes[pos + 1].key != key
      requires 1 <= newLevel <= |head.nexts| == |towers[pos]|
      modifies this, nodes
      ensures Valid() && head == old(head) && fresh(node) && nodes == InsertedSpine(old(nodes), pos, node)
      ensures |head.nexts| == old(|head.nexts|)
      ensures Stored() == old(Stored())[..pos] + [Entry(key, value)] + old(Stored())[pos..]
      ensures old(Even(towers)) ==> Even(towers)
    {
      hide Shape, PayloadSize, IsPlace, Less, Redirected, TakenOver, NextOf, InsertedSpine, Even;
      Successor(nodes, towers, |head.nexts|, pos);
      NoOther(nodes, towers, |head.nexts|, pos);
      NoneCloser(nodes, towers, |head.nexts|, pos, key);
      InsertRecords(records, pos, Entry(key, value));
      size := size + 1;
      binarySize := binarySize + |key| + |value|;
      node := AddNode(p, key, value, newLevel, |head.nexts|);
      assert node !in nodes;
      assert forall i :: 0 <= i < |nodes| && i != pos ==> nodes[i].nexts == towers[i];
      Admit(pos, node, newLevel);
      hide Mirrored, Blank, InsertedRecords;
    }

    /** The spine takes in a node that is linked already. */
    ghost method Admit(pos: nat, node: Node, newLevel: nat)
      requires pos < |nodes| == |towers| == |records| && nodes[0] == head && node !in nodes && 1 <= newLevel
      requires var h := |head.nexts|;
               && Shape(nodes, towers, h) && IsPlace(nodes, node.key, pos) && newLevel <= h == |towers[pos]|
               && (pos + 1 < |nodes| ==> nodes[pos + 1].key != node.key)
               && node.nexts == TakenOver(Blank(h), towers[pos], 0, newLevel)
      requires forall i :: 0 <= i < |nodes| ==>
                 && Entry(nodes[i].key, nodes[i].value) == records[i]
                 && nodes[i].nexts == if i == pos then Redirected(towers[pos], node, 0, newLevel) else towers[i]
      modifies this`nodes, this`towers, this`records
      ensures nodes == InsertedSpine(old(nodes), pos, node)
      ensures records == InsertedRecords(old(records), pos, Entry(node.key, node.value))
      ensures Mirrored() && nodes[0] == head && Shape(nodes, towers, |head.nexts|)
      ensures old(Even(towers)) ==> Even(towers)
    {
      hide Shape, IsPlace, Less, Redirected, TakenOver, Even;
      var h := |head.nexts|;
      InsertKeepsShape(nodes, towers, h, pos, node, newLevel);
      InsertedAt(nodes, towers, pos, node, Blank(h), newLevel);
      InsertedRecordsAt(records, pos, Entry(node.key, node.value));
      hide InsertedTowers, InsertedSpine, InsertedRecords;
      towers := InsertedTowers(towers, pos, node, Blank(h), newLevel);
      records := InsertedRecords(records, pos, Entry(node.key, node.value));
      nodes := InsertedSpine(nodes, pos, node);
    }
  }

  /** Each entry inserted in turn. */
  function InsertAll(es: seq<Entry>): seq<Entry> {
    if es == [] then [] else Insert(InsertAll(es[..|es| - 1]), es[|es| - 1])
  }

  /** Puts with the heights drawn for them, none higher than the first: all of them stay inside. */
  method PutAll(es: seq<Entry>, heights: seq<nat>) returns (list: SkipList)
    requires |heights| == |es| && forall i :: 0 <= i < |es| ==> 1 <= heights[i] <= heights[0]
    ensures fresh(list) && list.Valid() && list.Stored() == InsertAll(es)
  {
    hide Shape, Insert, PayloadSize, IsPlace, TallEnough;
    list := new SkipList();
    for i := 0 to |es|
      invariant fresh(list) && list.Valid() && list.Stored() == InsertAll(es[..i]) && Even(list.towers)
      invariant if i == 0 then list.nodes == [list.head] && |list.head.nexts| == 1 else |list.head.nexts| == heights[0]
      invariant forall k :: 0 <= k < |list.nodes| ==> fresh(list.nodes[k])
    {
      var inside, pos := list.Put(es[i].key, es[i].value, heights[i]);
      assert es[..i + 1][..i] == es[..i];
    }
    assert es[..|es|] == es;
  }

  /** A list of one node of height 1: a higher node behind it does not stay inside. */
  method SecondPutLeaves(first: Entry, second: Entry, newLevel: nat) returns (inside: bool)
    requires Less(first.key, second.key) && newLevel > 1
    ensures !inside
  {
    var list := new SkipList();
    var ok, pos0 := list.Put(first.key, first.value, 1);
    Order();
    ghost var pos;
    inside, pos := list.Put(second.key, second.value, newLevel);
  }
}
