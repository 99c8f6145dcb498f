/** The count-min sketch: two four-bit counters to a byte, halved now and then. */
module CountMin {
  /** The four bits of a counter; the odd one of a byte is the upper half. */
  function Nibble(b: bv8, odd: bool): bv8 {
    if odd then b >> 4 else b & 0x0f
  }

  /** Counts one more in one half of a byte, unless it is full. */
  function Bump(b: bv8, odd: bool): bv8 {
    if odd then (if ((b >> 4) & 0x0f) < 15 then b + 0x10 else b)
    else (if (b & 0x0f) < 15 then b + 1 else b)
  }

  function Halve(b: bv8): bv8 {
    (b >> 1) & 0x77
  }

  function Saturated(n: bv8): bv8 {
    if n < 15 then n + 1 else n
  }

  lemma BumpEven(b: bv8)
    ensures Bump(b, false) & 0x0f == Saturated(b & 0x0f) && Bump(b, false) >> 4 == b >> 4
  {
  }

  lemma BumpOdd(b: bv8)
    ensures Bump(b, true) >> 4 == Saturated(b >> 4) && Bump(b, true) & 0x0f == b & 0x0f
  {
  }

  /** The other half does not change. */
  lemma BumpExact(b: bv8, odd: bool)
    ensures Nibble(Bump(b, odd), odd) == Saturated(Nibble(b, odd))
    ensures Nibble(Bump(b, odd), !odd) == Nibble(b, !odd)
  {
    if odd {
      BumpOdd(b);
    } else {
      BumpEven(b);
    }
  }

  lemma HalveExact(b: bv8, odd: bool)
    ensures Nibble(Halve(b), odd) == Nibble(b, odd) >> 1
  {
  }

  lemma NibbleRange(b: bv8, odd: bool)
    ensures Nibble(b, odd) <= 15
  {
  }

  /** What Estimate reads: the whole byte for an even counter, so that its neighbour shows. */
  function Read(b: bv8, odd: bool): bv8 {
    if odd then b >> 4 else b
  }

  function Min(a: bv8, b: bv8): bv8 {
    if a <= b then a else b
  }

  /** Capped at 15, the reading is the counter itself, or 15 when an even counter's neighbour is not empty. */
  lemma ReadExact(b: bv8, odd: bool)
    ensures Min(15, Read(b, odd)) == if !odd && Nibble(b, true) != 0 then 15 else Nibble(b, odd)
  {
  }

  // ---------- rows ----------

  function Pow2(n: nat): (p: nat)
    ensures p >= 1
  {
    if n == 0 then 1 else 2 * Pow2(n - 1)
  }

  /** Bit by bit, different gives one. */
  function Xor(a: nat, b: nat): nat
    decreases a + b
  {
    if a == 0 && b == 0 then 0 else (a + b) % 2 + 2 * Xor(a / 2, b / 2)
  }

  function Bit(a: nat, i: nat): nat {
    if i == 0 then a % 2 else Bit(a / 2, i - 1)
  }

  lemma Digit(d: nat, x: nat)
    requires d < 2
    ensures (d + 2 * x) % 2 == d && (d + 2 * x) / 2 == x
  {
  }

  lemma XorStep(a: nat, b: nat)
    ensures Xor(a, b) % 2 == (a + b) % 2 && Xor(a, b) / 2 == Xor(a / 2, b / 2)
  {
    var rest := Xor(a / 2, b / 2);
    assert Xor(a, b) == (a + b) % 2 + 2 * rest;
    hide Xor;
    Digit((a + b) % 2, rest);
  }

  lemma {:induction false} XorBits(a: nat, b: nat, i: nat)
    ensures Bit(Xor(a, b), i) == if Bit(a, i) == Bit(b, i) then 0 else 1
    decreases i
  {
    XorStep(a, b);
    if i > 0 {
      XorBits(a / 2, b / 2, i - 1);
    }
  }

  /** The n low bits. */
  function Low(a: nat, n: nat): nat {
    if n == 0 then 0 else a % 2 + 2 * Low(a / 2, n - 1)
  }

  /** Remainders are below the divisor, so multiples apart cannot be made up for. */
  lemma RemainderIs(a: nat, d: nat, q: nat, r: nat)
    requires r < d && a == r + d * q
    ensures a % d == r
  {
    var apart := a / d - q;
    assert a % d - r == -(d * apart);
    assert apart >= 1 ==> d * apart >= d;
    assert apart <= -1 ==> d * apart + d <= 0;
  }

  lemma {:induction false} Quotient(a: nat, n: nat) returns (q: nat)
    ensures Low(a, n) < Pow2(n) && a == Low(a, n) + Pow2(n) * q
  {
    if n == 0 {
      q := a;
    } else {
      q := Quotient(a / 2, n - 1);
      assert a == a % 2 + 2 * (a / 2);
      assert 2 * (Pow2(n - 1) * q) == 2 * Pow2(n - 1) * q;
    }
  }

  /** They are the remainder by a power of two. */
  lemma LowIs(a: nat, n: nat)
    ensures Low(a, n) == a % Pow2(n)
  {
    var q := Quotient(a, n);
    RemainderIs(a, Pow2(n), q, Low(a, n));
  }

  lemma Parity(a: nat, b: nat, seed: nat)
    ensures (a + seed) % 2 == (b + seed) % 2 <==> a % 2 == b % 2
  {
  }

  /** Two numbers combined with one seed agree on their low bits exactly when they do themselves. */
  lemma {:induction false} XorCancels(a: nat, b: nat, seed: nat, n: nat)
    ensures Low(Xor(a, seed), n) == Low(Xor(b, seed), n) <==> Low(a, n) == Low(b, n)
    decreases n
  {
    if n > 0 {
      XorCancels(a / 2, b / 2, seed / 2, n - 1);
      XorStep(a, seed);
      XorStep(b, seed);
      hide Xor;
      Parity(a, b, seed);
    }
  }

  lemma {:induction false} XorCommutes(a: nat, b: nat)
    ensures Xor(a, b) == Xor(b, a)
    decreases a + b
  {
    if a != 0 || b != 0 {
      XorCommutes(a / 2, b / 2);
    }
  }

  lemma {:induction false} XorZero(a: nat)
    ensures Xor(a, 0) == a
  {
    if a > 0 {
      XorZero(a / 2);
    }
  }

  /** The counters are numbered below capacity, a power of two, so masking is taking the remainder. */
  function Place(item: nat, seed: nat, capacity: nat): (j: nat)
    requires capacity > 0
    ensures j < capacity
  {
    Xor(item, seed) % capacity
  }

  /** Two items share a place exactly when they agree in their n low bits, and so do two seeds for one item. */
  lemma PlacesMeetExact(a: nat, b: nat, seed: nat, n: nat)
    ensures Place(a, seed, Pow2(n)) == Place(b, seed, Pow2(n)) <==> a % Pow2(n) == b % Pow2(n)
    ensures Place(seed, a, Pow2(n)) == Place(seed, b, Pow2(n)) <==> a % Pow2(n) == b % Pow2(n)
    ensures Place(a, 0, Pow2(n)) == a % Pow2(n)
  {
    hide Pow2, Xor, Low;
    XorCancels(a, b, seed, n);
    XorCommutes(a, seed);
    XorCommutes(b, seed);
    XorZero(a);
    LowIs(a, n);
    LowIs(b, n);
    LowIs(Xor(a, seed), n);
    LowIs(Xor(b, seed), n);
  }

  lemma LowHalf(a: nat, n: nat)
    requires n > 0
    ensures a % Pow2(n) / 2 == Low(a / 2, n - 1)
  {
    LowIs(a, n);
    Digit(a % 2, Low(a / 2, n - 1));
  }

  /** They share a byte exactly when they agree in those bits but the lowest. */
  lemma BytesMeetExact(a: nat, b: nat, seed: nat, n: nat)
    ensures Place(a, seed, Pow2(n)) / 2 == Place(b, seed, Pow2(n)) / 2 <==> a % Pow2(n) / 2 == b % Pow2(n) / 2
  {
    if n > 0 {
      hide Pow2, Low, Xor;
      LowHalf(a, n);
      LowHalf(b, n);
      LowHalf(Xor(a, seed), n);
      LowHalf(Xor(b, seed), n);
      XorStep(a, seed);
      XorStep(b, seed);
      XorCancels(a / 2, b / 2, seed / 2, n - 1);
    }
  }

  function Counter(row: seq<bv8>, j: nat): bv8
    requires j / 2 < |row|
  {
    Nibble(row[j / 2], j % 2 == 1)
  }

  function BumpRow(row: seq<bv8>, j: nat): seq<bv8>
    requires j / 2 < |row|
  {
    row[j / 2 := Bump(row[j / 2], j % 2 == 1)]
  }

  function HalveRow(row: seq<bv8>): seq<bv8> {
    seq(|row|, i requires 0 <= i < |row| => Halve(row[i]))
  }

  /** Of all the counters in a row, one goes up by one, as far as it can. */
  lemma BumpRowExact(row: seq<bv8>, j: nat, k: nat)
    requires j / 2 < |row| && k / 2 < |row|
    ensures Counter(BumpRow(row, j), k) == if k == j then Saturated(Counter(row, j)) else Counter(row, k)
  {
    BumpExact(row[j / 2], j % 2 == 1);
    if k / 2 == j / 2 && k != j {
      assert (k % 2 == 1) == !(j % 2 == 1);
    }
  }

  lemma HalveRowExact(row: seq<bv8>, k: nat)
    requires k / 2 < |row|
    ensures Counter(HalveRow(row), k) == Counter(row, k) >> 1
  {
    HalveExact(row[k / 2], k % 2 == 1);
  }

  // ---------- the sketch ----------

  /** One row and one seed for each hash. */
  datatype Sketch = Sketch(rows: seq<seq<bv8>>, seeds: seq<nat>, capacity: nat)

  ghost predicate Ok(s: Sketch) {
    && s.capacity > 0 && |s.rows| == |s.seeds|
    && forall i :: 0 <= i < |s.rows| ==> s.capacity <= 2 * |s.rows[i]|
  }

  function PlaceIn(s: Sketch, i: nat, item: nat): nat
    requires s.capacity > 0 && i < |s.seeds|
  {
    Place(item, s.seeds[i], s.capacity)
  }

  ghost function Increment(s: Sketch, item: nat): (t: Sketch)
    requires Ok(s)
    ensures Ok(t) && |t.rows| == |s.rows|
  {
    s.(rows := seq(|s.rows|, i requires 0 <= i < |s.rows| => BumpRow(s.rows[i], PlaceIn(s, i, item))))
  }

  ghost function Reset(s: Sketch): (t: Sketch)
    requires Ok(s)
    ensures Ok(t) && |t.rows| == |s.rows|
  {
    s.(rows := seq(|s.rows|, i requires 0 <= i < |s.rows| => HalveRow(s.rows[i])))
  }

  /** The least of the readings of the first n rows, and of 15. */
  ghost function EstimateUpTo(s: Sketch, item: nat, n: nat): bv8
    requires Ok(s) && n <= |s.rows|
  {
    if n == 0 then 15
    else
      var j := PlaceIn(s, n - 1, item);
      Min(EstimateUpTo(s, item, n - 1), Read(s.rows[n - 1][j / 2], j % 2 == 1))
  }

  ghost function Estimate(s: Sketch, item: nat): bv8
    requires Ok(s)
  {
    EstimateUpTo(s, item, |s.rows|)
  }

  datatype Event = Count(item: nat) | Age

  ghost function Next(s: Sketch, ev: Event): (t: Sketch)
    requires Ok(s)
    ensures Ok(t)
  {
    match ev
    case Count(x) => Increment(s, x)
    case Age => Reset(s)
  }

  ghost function After(s: Sketch, run: seq<Event>): (t: Sketch)
    requires Ok(s)
    ensures Ok(t)
    decreases |run|
  {
    if run == [] then s else After(Next(s, run[0]), run[1..])
  }

  /** A counter for one item alone. */
  function IdealNext(item: nat, c: bv8, ev: Event): bv8 {
    match ev
    case Count(x) => if x == item then Saturated(c) else c
    case Age => c >> 1
  }

  function Ideal(item: nat, c: bv8, run: seq<Event>): bv8
    decreases |run|
  {
    if run == [] then c else Ideal(item, IdealNext(item, c, run[0]), run[1..])
  }

  /** In every row the item's counter is at least c. */
  ghost predicate Covers(s: Sketch, item: nat, c: bv8)
    requires Ok(s)
  {
    forall i :: 0 <= i < |s.rows| ==> c <= Counter(s.rows[i], PlaceIn(s, i, item))
  }

  lemma SaturatedMonotone(a: bv8, b: bv8)
    requires a <= b
    ensures a <= Saturated(b) || 15 <= b
    ensures b <= 15 ==> a <= Saturated(b) && Saturated(a) <= Saturated(b)
    ensures a >> 1 <= b >> 1
  {
  }

  lemma RowCovers(row: seq<bv8>, item: nat, c: bv8, ev: Event, seed: nat, capacity: nat)
    requires 0 < capacity <= 2 * |row| && c <= Counter(row, Place(item, seed, capacity))
    ensures var k := Place(item, seed, capacity);
            IdealNext(item, c, ev) <=
              Counter(if ev.Age? then HalveRow(row) else BumpRow(row, Place(ev.item, seed, capacity)), k)
  {
    hide Nibble, Bump, Halve, Place;
    var k := Place(item, seed, capacity);
    NibbleRange(row[k / 2], k % 2 == 1);
    SaturatedMonotone(c, Counter(row, k));
    if ev.Age? {
      HalveRowExact(row, k);
    } else {
      BumpRowExact(row, Place(ev.item, seed, capacity), k);
    }
  }

  lemma NextCovers(s: Sketch, item: nat, c: bv8, ev: Event)
    requires Ok(s) && Covers(s, item, c)
    ensures Covers(Next(s, ev), item, IdealNext(item, c, ev))
  {
    hide Counter, BumpRow, HalveRow, Place, IdealNext, Halve, Bump, Nibble, Saturated;
    var t := Next(s, ev);
    forall i | 0 <= i < |s.rows| ensures IdealNext(item, c, ev) <= Counter(t.rows[i], PlaceIn(t, i, item)) {
      RowCovers(s.rows[i], item, c, ev, s.seeds[i], s.capacity);
    }
  }

  lemma {:induction false} RunCovers(s: Sketch, item: nat, c: bv8, run: seq<Event>)
    requires Ok(s) && Covers(s, item, c)
    ensures Covers(After(s, run), item, Ideal(item, c, run))
    decreases |run|
  {
    if run != [] {
      NextCovers(s, item, c, run[0]);
      RunCovers(Next(s, run[0]), item, IdealNext(item, c, run[0]), run[1..]);
    }
  }

  /** What a row says of a counter: itself, unless its upper neighbour shows through. */
  function Shown(row: seq<bv8>, j: nat): bv8
    requires j / 2 < |row|
  {
    if j % 2 == 0 && Counter(row, j + 1) != 0 then 15 else Counter(row, j)
  }

  ghost function LeastShown(s: Sketch, item: nat, n: nat): bv8
    requires Ok(s) && n <= |s.rows|
  {
    if n == 0 then 15 else Min(LeastShown(s, item, n - 1), Shown(s.rows[n - 1], PlaceIn(s, n - 1, item)))
  }

  lemma {:induction false} EstimateExact(s: Sketch, item: nat, n: nat)
    requires Ok(s) && n <= |s.rows|
    ensures EstimateUpTo(s, item, n) == LeastShown(s, item, n) <= 15
  {
    hide Nibble, Read, Place;
    if n > 0 {
      EstimateExact(s, item, n - 1);
      var j := PlaceIn(s, n - 1, item);
      ReadExact(s.rows[n - 1][j / 2], j % 2 == 1);
    }
  }

  lemma {:induction false} ShownCovers(s: Sketch, item: nat, c: bv8, n: nat)
    requires Ok(s) && Covers(s, item, c) && c <= 15 && n <= |s.rows|
    ensures c <= LeastShown(s, item, n)
  {
    if n > 0 {
      ShownCovers(s, item, c, n - 1);
      assert c <= Counter(s.rows[n - 1], PlaceIn(s, n - 1, item));
    }
  }

  lemma {:induction false} IdealRange(item: nat, c: bv8, run: seq<Event>)
    requires c <= 15
    ensures Ideal(item, c, run) <= 15
    decreases |run|
  {
    if run != [] {
      SaturatedMonotone(c, 15);
      IdealRange(item, IdealNext(item, c, run[0]), run[1..]);
    }
  }

  /** Over every run an item is never estimated below its own count, nor above 15. */
  lemma NeverUnderestimates(s: Sketch, item: nat, run: seq<Event>)
    requires Ok(s)
    ensures Ideal(item, 0, run) <= Estimate(After(s, run), item) <= 15
  {
    assert Covers(s, item, 0);
    RunCovers(s, item, 0, run);
    IdealRange(item, 0, run);
    EstimateExact(After(s, run), item, |After(s, run).rows|);
    ShownCovers(After(s, run), item, Ideal(item, 0, run), |After(s, run).rows|);
  }

  /** Counting an item changes another's counters exactly as it would its own when they share places, or not at all. */
  lemma CountTouchesExact(s: Sketch, item: nat, other: nat, n: nat, i: nat)
    requires Ok(s) && s.capacity == Pow2(n) && i < |s.rows|
    ensures var j := PlaceIn(s, i, other);
            Counter(Increment(s, item).rows[i], j) ==
            if item % Pow2(n) == other % Pow2(n) then Saturated(Counter(s.rows[i], j)) else Counter(s.rows[i], j)
  {
    hide Pow2, Place, Counter, BumpRow, Saturated;
    PlacesMeetExact(item, other, s.seeds[i], n);
    BumpRowExact(s.rows[i], PlaceIn(s, i, item), PlaceIn(s, i, other));
  }

  // ---------- items that share no byte with others ----------

  /** In a row the item's counter is c, and nothing shows through from its byte's other half. */
  predicate RowAlone(row: seq<bv8>, j: nat, c: bv8)
    requires j / 2 < |row|
  {
    Counter(row, j) == c && (j % 2 == 0 ==> Counter(row, j + 1) == 0)
  }

  ghost predicate Alone(s: Sketch, item: nat, c: bv8)
    requires Ok(s)
  {
    forall i :: 0 <= i < |s.rows| ==> RowAlone(s.rows[i], PlaceIn(s, i, item), c)
  }

  /** What is counted is the item itself, or differs from it in some of the n low bits other than the lowest. */
  predicate Apart(item: nat, ev: Event, n: nat) {
    ev.Age? || ev.item == item || ev.item % Pow2(n) / 2 != item % Pow2(n) / 2
  }

  lemma HalvedZero()
    ensures (0 as bv8) >> 1 == 0
  {
  }

  lemma RowStaysAlone(row: seq<bv8>, item: nat, c: bv8, ev: Event, seed: nat, n: nat)
    requires Pow2(n) <= 2 * |row| && RowAlone(row, Place(item, seed, Pow2(n)), c) && Apart(item, ev, n)
    ensures RowAlone(if ev.Age? then HalveRow(row) else BumpRow(row, Place(ev.item, seed, Pow2(n))),
                     Place(item, seed, Pow2(n)), IdealNext(item, c, ev))
  {
    hide Nibble, Bump, Halve, Place, Pow2, Counter, Saturated, BumpRow, HalveRow;
    var j := Place(item, seed, Pow2(n));
    HalvedZero();
    if ev.Age? {
      HalveRowExact(row, j);
      if j % 2 == 0 {
        HalveRowExact(row, j + 1);
      }
    } else {
      var k := Place(ev.item, seed, Pow2(n));
      BytesMeetExact(item, ev.item, seed, n);
      BumpRowExact(row, k, j);
      if j % 2 == 0 {
        BumpRowExact(row, k, j + 1);
      }
    }
  }

  lemma NextStaysAlone(s: Sketch, item: nat, c: bv8, ev: Event, n: nat)
    requires Ok(s) && s.capacity == Pow2(n) && Alone(s, item, c) && Apart(item, ev, n)
    ensures Next(s, ev).capacity == Pow2(n) && |Next(s, ev).rows| == |s.rows|
    ensures Alone(Next(s, ev), item, IdealNext(item, c, ev))
  {
    hide RowAlone, Counter, BumpRow, HalveRow, Place, IdealNext, Pow2, Apart;
    var t := Next(s, ev);
    forall i | 0 <= i < |s.rows| ensures RowAlone(t.rows[i], PlaceIn(t, i, item), IdealNext(item, c, ev)) {
      RowStaysAlone(s.rows[i], item, c, ev, s.seeds[i], n);
    }
  }

  lemma {:induction false} RunStaysAlone(s: Sketch, item: nat, c: bv8, run: seq<Event>, n: nat)
    requires Ok(s) && s.capacity == Pow2(n) && Alone(s, item, c)
    requires forall i :: 0 <= i < |run| ==> Apart(item, run[i], n)
    ensures |After(s, run).rows| == |s.rows| && Alone(After(s, run), item, Ideal(item, c, run))
    decreases |run|
  {
    hide Alone, Next, IdealNext, Pow2, Apart;
    if run != [] {
      NextStaysAlone(s, item, c, run[0], n);
      RunStaysAlone(Next(s, run[0]), item, IdealNext(item, c, run[0]), run[1..], n);
    }
  }

  lemma {:induction false} AloneShows(s: Sketch, item: nat, c: bv8, n: nat)
    requires Ok(s) && Alone(s, item, c) && c <= 15 && n <= |s.rows|
    ensures LeastShown(s, item, n) == if n == 0 then 15 else c
  {
    if n > 0 {
      AloneShows(s, item, c, n - 1);
      assert RowAlone(s.rows[n - 1], PlaceIn(s, n - 1, item), c);
    }
  }

  lemma ZeroCounters(row: seq<bv8>, j: nat)
    requires j / 2 < |row| && row[j / 2] == 0
    ensures Counter(row, j) == 0
  {
  }

  /** From a new sketch on, an item that shares its byte with no other counted one is estimated exactly. */
  lemma EstimatesExactly(s: Sketch, item: nat, run: seq<Event>, n: nat)
    requires Ok(s) && s.capacity == Pow2(n) && s.rows != []
    requires forall i, j :: 0 <= i < |s.rows| && 0 <= j < |s.rows[i]| ==> s.rows[i][j] == 0
    requires forall i :: 0 <= i < |run| ==> Apart(item, run[i], n)
    ensures Estimate(After(s, run), item) == Ideal(item, 0, run)
  {
    hide Pow2, Apart, Place, Counter, Nibble;
    forall i | 0 <= i < |s.rows| ensures RowAlone(s.rows[i], PlaceIn(s, i, item), 0) {
      ZeroCounters(s.rows[i], PlaceIn(s, i, item));
      if PlaceIn(s, i, item) % 2 == 0 {
        ZeroCounters(s.rows[i], PlaceIn(s, i, item) + 1);
      }
    }
    RunStaysAlone(s, item, 0, run, n);
    IdealRange(item, 0, run);
    EstimateExact(After(s, run), item, |s.rows|);
    AloneShows(After(s, run), item, Ideal(item, 0, run), |s.rows|);
  }

  ghost function RowsOf(arrays: seq<array<bv8>>): (rows: seq<seq<bv8>>)
    reads arrays
    ensures |rows| == |arrays| && forall i :: 0 <= i < |arrays| ==> rows[i] == arrays[i][..]
  {
    if arrays == [] then [] else RowsOf(arrays[..|arrays| - 1]) + [arrays[|arrays| - 1][..]]
  }

  lemma Pow2Even(n: nat)
    requires n >= 1
    ensures Pow2(n) == 2 * (Pow2(n) / 2)
  {
  }

  function ZeroRow(n: nat): seq<bv8> {
    seq(n, _ => 0)
  }

  function Zeroed(capacity: nat, seeds: seq<nat>): Sketch {
    Sketch(seq(|seeds|, _ => ZeroRow(capacity / 2)), seeds, capacity)
  }

  method HalveArray(a: array<bv8>)
    modifies a
    ensures a[..] == HalveRow(old(a[..]))
  {
    for i := 0 to a.Length
      invariant forall k :: 0 <= k < a.Length ==> a[k] == if k < i then Halve(old(a[k])) else old(a[k])
    {
      a[i] := Halve(a[i]);
    }
  }

  class CMSketch4Bits {
    const data: seq<array<bv8>>
    const seeds: seq<nat>
    const capacity: nat

    /**
     * One zeroed row for each seed, with 2^capacityBit counters, two to a byte. A single counter gets no byte at all,
     * and every access would be outside.
     */
    constructor (capacityBit: nat, seeds: seq<nat>)
      ensures Valid() <==> capacityBit >= 1 || seeds == []
      ensures this.seeds == seeds && capacity == Pow2(capacityBit) && |data| == |seeds|
      ensures Contents() == Zeroed(Pow2(capacityBit), seeds)
      ensures forall i :: 0 <= i < |data| ==> fresh(data[i])
    {
      if capacityBit >= 1 {
        Pow2Even(capacityBit);
      }
      var rows: seq<array<bv8>> := [];
      for i := 0 to |seeds|
        invariant |rows| == i
        invariant forall k :: 0 <= k < i ==> fresh(rows[k]) && rows[k][..] == ZeroRow(Pow2(capacityBit) / 2)
        invariant forall k, l :: 0 <= k < l < i ==> rows[k] != rows[l]
      {
        var row := new bv8[Pow2(capacityBit) / 2](_ => 0);
        assert row[..] == ZeroRow(Pow2(capacityBit) / 2);
        rows := rows + [row];
      }
      this.data, this.seeds, this.capacity := rows, seeds, Pow2(capacityBit);
      new;
      assert RowsOf(data) == Zeroed(capacity, seeds).rows;
    }

    ghost predicate Valid()
      reads this, data
    {
      Ok(Contents()) && forall i, j :: 0 <= i < j < |data| ==> data[i] != data[j]
    }

    ghost function Contents(): Sketch
      reads this, data
    {
      Sketch(RowsOf(data), seeds, capacity)
    }

    method Count(item: nat)
      requires Valid()
      modifies data
      ensures Valid() && Contents() == Increment(old(Contents()), item)
    {
      ghost var was := Contents();
      for i := 0 to |data|
        invariant forall k :: 0 <= k < |data| ==>
                    data[k][..] == if k < i then BumpRow(was.rows[k], PlaceIn(was, k, item)) else was.rows[k]
      {
        hide Bump, Place, PlaceIn;
        assert data[i][..] == was.rows[i];
        var index := Place(item, seeds[i], capacity);
        assert index == PlaceIn(was, i, item);
        data[i][index / 2] := Bump(data[i][index / 2], index % 2 == 1);
        assert data[i][..] == BumpRow(was.rows[i], index);
      }
      assert RowsOf(data) == Increment(was, item).rows;
    }

    method Estimated(item: nat) returns (res: bv8)
      requires Valid()
      ensures res == Estimate(Contents(), item)
    {
      res := 15;
      ghost var s := Contents();
      for i := 0 to |data|
        invariant res == EstimateUpTo(s, item, i)
      {
        hide Place, Read;
        assert data[i][..] == s.rows[i];
        var index := Place(item, seeds[i], capacity);
        res := Min(res, Read(data[i][index / 2], index % 2 == 1));
      }
    }

    method HalveAll()
      requires Valid()
      modifies data
      ensures Valid() && Contents() == Reset(old(Contents()))
    {
      ghost var was := Contents();
      for i := 0 to |data|
        invariant forall k :: 0 <= k < |data| ==> data[k][..] == if k < i then HalveRow(was.rows[k]) else was.rows[k]
      {
        HalveArray(data[i]);
      }
      assert RowsOf(data) == Reset(was).rows;
    }
  }

  lemma ZeroedIs(n: nat, seeds: seq<nat>)
    requires n >= 1
    ensures Ok(Zeroed(Pow2(n), seeds)) && |Zeroed(Pow2(n), seeds).rows| == |seeds|
    ensures var rows := Zeroed(Pow2(n), seeds).rows;
            forall i, j :: 0 <= i < |rows| && 0 <= j < |rows[i]| ==> rows[i][j] == 0
  {
    Pow2Even(n);
  }

  /** A new sketch taken through any calls, and then asked. */
  method Play(capacityBit: nat, seeds: seq<nat>, run: seq<Event>, item: nat) returns (estimate: bv8)
    requires capacityBit >= 1 && seeds != []
    ensures Ideal(item, 0, run) <= estimate <= 15
    ensures (forall i :: 0 <= i < |run| ==> Apart(item, run[i], capacityBit)) ==> estimate == Ideal(item, 0, run)
  {
    hide Pow2, Apart, Zeroed, Ok, Increment, Reset;
    var sketch := new CMSketch4Bits(capacityBit, seeds);
    ghost var start := sketch.Contents();
    ZeroedIs(capacityBit, seeds);
    for i := 0 to |run|
      invariant sketch.Valid() && After(sketch.Contents(), run[i..]) == After(start, run)
      invariant forall k :: 0 <= k < |sketch.data| ==> fresh(sketch.data[k])
    {
      assert run[i..][1..] == run[i + 1..];
      match run[i]
      case Count(x) => sketch.Count(x);
      case Age => sketch.HalveAll();
    }
    NeverUnderestimates(start, item, run);
    if forall i :: 0 <= i < |run| ==> Apart(item, run[i], capacityBit) {
      EstimatesExactly(start, item, run, capacityBit);
    }
    estimate := sketch.Estimated(item);
  }
}
