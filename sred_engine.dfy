// The SRED admission decision as a pure transition: what one call of
// `DoEnqueue` does to the zombie table, the fill count, the hit frequency
// and the internal queue, and whether it admits the packet. The class in
// SredDisc is proved to perform exactly this transition.
module SredEngine {
  import opened SredTypes
  import opened DropTailQueue
  import opened SredProbability
  import opened ZombieTable

  /** The settings of a queue disc that the decision reads. */
  datatype Config = Config(
    mode: QueueMode,
    queueLimit: nat,
    fullSred: bool,
    pOverwrite: real,
    pMax: real)

  /** The state the decision reads and writes: the zombie slots, how many of
      them are filled, the hit frequency, its smoothing weight and the
      internal queue. */
  datatype Engine = Engine(
    table: seq<Zombie>,
    listSize: nat,
    h: real,
    alpha: real,
    backlog: DropTail)

  /** The state after one enqueue and whether the packet was admitted. */
  datatype Outcome = Outcome(next: Engine, admitted: bool)

  /** The shape every reachable state has: M slots, a fill count of at most M. */
  ghost predicate WellFormed(e: Engine)
  {
    |e.table| == M && e.listSize <= M
  }

  /** The invariant of a configured and initialised queue disc: the
      probabilities lie in [0,1], alpha is `pOverwrite / M`, the internal
      queue uses the disc's unit, and no filled slot holds the sentinel. */
  ghost predicate Inv(c: Config, e: Engine)
  {
    WellFormed(e) &&
    0.0 <= c.pOverwrite <= 1.0 &&
    0.0 <= c.pMax <= 1.0 &&
    e.alpha == Alpha(c.pOverwrite) &&
    0.0 <= e.h <= 1.0 &&
    e.backlog.mode == c.mode &&
    NoSentinel(e.table, e.listSize)
  }

  /** The bootstrap admission test: in packets the queue must be below the
      limit, in bytes the packet must fit under the limit. */
  predicate BootstrapRoom(mode: QueueMode, nQueued: nat, size: nat, limit: nat)
  {
    (mode == Packets && nQueued < limit) || (mode == Bytes && nQueued + size <= limit)
  }

  /** The drop probability of the steady phase after the hit-frequency
      update: `m_fullSred` chooses the full or the simple formula. The simple
      one, and the full one on a miss, is a finite probability no larger
      than the occupancy tier. */
  function PZap(c: Config, nQueued: nat, h: real, hit: int): (r: Extended)
    ensures !c.fullSred || hit == 0 ==> r.Finite?
    ensures (!c.fullSred || hit == 0) && 0.0 <= c.pMax <= 1.0 ==>
      0.0 <= r.value <= PSred(nQueued, c.queueLimit, c.pMax) <= 1.0
    ensures c.fullSred && hit != 0 && h != 0.0 ==>
      r == FullPZapAsWritten(PSred(nQueued, c.queueLimit, c.pMax), h, hit)
  {
    var pSred := PSred(nQueued, c.queueLimit, c.pMax);
    if c.fullSred then FullPZap(pSred, h, hit) else Finite(SimplePZap(pSred, h))
  }

  /** Hand the packet to the internal queue, which may still refuse it. */
  function Admit(e: Engine, item: Item): Outcome
  {
    var pushed := Push(e.backlog, item);
    Outcome(e.(backlog := pushed.0), pushed.1)
  }

  /** One call of `DoEnqueue`. `fid` is the classifier's answer, `index`
      the sampled slot, `u2` the overwrite draw, `u1` the drop draw and
      `now` the current time. */
  function Step(c: Config, e: Engine, fid: int, item: Item, index: nat, u2: real, u1: real, now: int): (r: Outcome)
    requires WellFormed(e)
    requires index < M
    ensures WellFormed(r.next)
  {
    if fid == Unclassified then
      Outcome(e, false)
    else
      var nQueued := Occupancy(c.mode, e.backlog);
      if e.listSize < M then
        var e1 := e.(table := Append(e.table, e.listSize, fid, now), listSize := e.listSize + 1);
        if BootstrapRoom(c.mode, nQueued, item.size, c.queueLimit) then Admit(e1, item)
        else Outcome(e1, false)
      else
        var s := Sample(e.table, index, fid, u2, c.pOverwrite, now);
        var e1 := e.(table := s.table, h := HitUpdate(e.h, e.alpha, s.hit));
        if AtOrBelow(u1, PZap(c, nQueued, e1.h, s.hit)) then Outcome(e1, false)
        else if nQueued >= c.queueLimit then Outcome(e1, false)
        else Admit(e1, item)
  }

  // ---------------------------------------------------------------------
  // One step
  // ---------------------------------------------------------------------

  /** An unclassifiable packet is dropped and nothing changes. */
  lemma UnclassifiedLeavesStateAlone(c: Config, e: Engine, item: Item, index: nat, u2: real, u1: real, now: int)
    requires WellFormed(e) && index < M
    ensures Step(c, e, Unclassified, item, index, u2, u1, now) == Outcome(e, false)
  {
  }

  /** Bootstrap: slot `listSize` becomes a fresh zombie of the flow, the fill
      count rises by one whatever the verdict, the hit frequency is not
      touched, and the packet is admitted exactly when the bootstrap
      capacity test passes and the internal queue takes it. */
  lemma BootstrapStep(c: Config, e: Engine, fid: int, item: Item, index: nat, u2: real, u1: real, now: int)
    requires WellFormed(e) && index < M
    requires fid != Unclassified && e.listSize < M
    ensures var r := Step(c, e, fid, item, index, u2, u1, now);
      r.next.table == e.table[e.listSize := Zombie(fid, 0, now)] &&
      r.next.listSize == e.listSize + 1 &&
      r.next.h == e.h && r.next.alpha == e.alpha &&
      (r.admitted <==> BootstrapRoom(c.mode, Occupancy(c.mode, e.backlog), item.size, c.queueLimit)
                       && HasRoom(e.backlog, item)) &&
      r.next.backlog.items == (if r.admitted then e.backlog.items + [item] else e.backlog.items)
  {
  }

  /** Steady phase: the table changes as one sample does, the fill count
      stays M, the hit frequency takes one moving-average step with the
      sample's outcome, and the packet is admitted exactly when the drop
      draw is above the drop probability, the queue is below the limit (in
      either unit, with no packet-size term) and the internal queue takes it. */
  lemma SteadyStep(c: Config, e: Engine, fid: int, item: Item, index: nat, u2: real, u1: real, now: int)
    requires WellFormed(e) && index < M
    requires fid != Unclassified && e.listSize == M
    ensures var r := Step(c, e, fid, item, index, u2, u1, now);
      var s := Sample(e.table, index, fid, u2, c.pOverwrite, now);
      var nQueued := Occupancy(c.mode, e.backlog);
      r.next.table == s.table &&
      r.next.listSize == M &&
      r.next.h == HitUpdate(e.h, e.alpha, s.hit) &&
      (r.admitted <==> !AtOrBelow(u1, PZap(c, nQueued, r.next.h, s.hit))
                       && nQueued < c.queueLimit && HasRoom(e.backlog, item)) &&
      r.next.backlog.items == (if r.admitted then e.backlog.items + [item] else e.backlog.items)
  {
  }

  /** The packet is admitted exactly when it is appended to the internal
      queue; a drop leaves the queue as it was. */
  lemma AdmittedIffQueued(c: Config, e: Engine, fid: int, item: Item, index: nat, u2: real, u1: real, now: int)
    requires WellFormed(e) && index < M
    ensures var r := Step(c, e, fid, item, index, u2, u1, now);
      r.next.backlog.items == (if r.admitted then e.backlog.items + [item] else e.backlog.items) &&
      r.next.backlog.mode == e.backlog.mode && r.next.backlog.capacity == e.backlog.capacity
  {
  }

  /** The fill count grows by one per classified arrival until it reaches M,
      then stays at M. */
  lemma ListSizeStep(c: Config, e: Engine, fid: int, item: Item, index: nat, u2: real, u1: real, now: int)
    requires WellFormed(e) && index < M
    ensures Step(c, e, fid, item, index, u2, u1, now).next.listSize ==
      if fid == Unclassified || e.listSize == M then e.listSize else e.listSize + 1
  {
  }

  /** `m_fullSred` alone chooses between the full and the simple drop
      probability: on a miss both agree, and with `h > 0` a hit under full
      SRED never has a smaller drop probability than under simple SRED. */
  lemma FullModeNeverLowers(c: Config, nQueued: nat, h: real, hit: int)
    requires 0.0 <= c.pMax <= 1.0
    requires hit == 0 || (hit == 1 && h > 0.0)
    ensures PZap(c.(fullSred := true), nQueued, h, hit).Finite?
    ensures PZap(c.(fullSred := true), nQueued, h, hit).value >= PZap(c.(fullSred := false), nQueued, h, hit).value
    ensures hit == 0 ==> PZap(c.(fullSred := true), nQueued, h, hit) == PZap(c.(fullSred := false), nQueued, h, hit)
  {
    var pSred := PSred(nQueued, c.queueLimit, c.pMax);
    PSredMonotone(0, nQueued, c.queueLimit, c.pMax);
    if hit == 1 {
      FullPZapAtLeastSimple(pSred, h);
    }
  }

  /** Every step keeps the invariant: the hit frequency stays in [0,1] and
      the sentinel is never written into a filled slot. */
  lemma StepPreservesInv(c: Config, e: Engine, fid: int, item: Item, index: nat, u2: real, u1: real, now: int)
    requires Inv(c, e) && index < M
    ensures Inv(c, Step(c, e, fid, item, index, u2, u1, now).next)
  {
    if fid != Unclassified {
      if e.listSize < M {
        AppendFacts(e.table, e.listSize, fid, now);
      } else {
        var s := Sample(e.table, index, fid, u2, c.pOverwrite, now);
        SampleNoSentinel(e.table, index, fid, u2, c.pOverwrite, now);
        SampleFacts(e.table, index, fid, u2, c.pOverwrite, now);
        HitUpdateBounds(e.h, e.alpha, s.hit);
      }
    }
  }

  /** In packets mode the queue disc never holds more packets than its
      limit: a packet that would be the (limit+1)-th is always dropped. */
  lemma PacketLimitRespected(c: Config, e: Engine, fid: int, item: Item, index: nat, u2: real, u1: real, now: int)
    requires WellFormed(e) && index < M
    requires c.mode == Packets
    requires |e.backlog.items| <= c.queueLimit
    ensures |Step(c, e, fid, item, index, u2, u1, now).next.backlog.items| <= c.queueLimit
    ensures |e.backlog.items| == c.queueLimit ==> !Step(c, e, fid, item, index, u2, u1, now).admitted
  {
  }

  /** Whatever the unit, an enqueue never fills the internal queue beyond
      its own capacity. */
  lemma StepWithinCapacity(c: Config, e: Engine, fid: int, item: Item, index: nat, u2: real, u1: real, now: int)
    requires WellFormed(e) && index < M
    requires Occupancy(e.backlog.mode, e.backlog) <= e.backlog.capacity
    ensures var b := Step(c, e, fid, item, index, u2, u1, now).next.backlog;
      Occupancy(b.mode, b) <= b.capacity
  {
    AdmittedIffQueued(c, e, fid, item, index, u2, u1, now);
    PushWithinCapacity(e.backlog, item);
  }

  /** In bytes mode the steady phase compares only the bytes already queued
      with the limit: a packet that does not fit under the limit is still
      admitted when the queue is short, the draw is above the (zero) drop
      probability and the internal queue has room, and the queue then holds
      more bytes than the limit. */
  lemma SteadyBytesOvershoot(c: Config, e: Engine, fid: int, item: Item, index: nat, u2: real, u1: real, now: int)
    requires WellFormed(e) && index < M
    requires fid != Unclassified && e.listSize == M
    requires c.mode.Bytes? && !c.fullSred && e.backlog.mode.Bytes?
    requires 6 * Occupancy(QueueMode.Bytes, e.backlog) < c.queueLimit
    requires Occupancy(QueueMode.Bytes, e.backlog) + item.size > c.queueLimit
    requires HasRoom(e.backlog, item)
    requires 0.0 < u1
    ensures var r := Step(c, e, fid, item, index, u2, u1, now);
      r.admitted && Occupancy(QueueMode.Bytes, r.next.backlog) > c.queueLimit
  {
    var nQueued := Occupancy(QueueMode.Bytes, e.backlog);
    PSredTiers(nQueued, c.queueLimit, c.pMax);
    PushOccupancy(e.backlog, item, QueueMode.Bytes);
  }

  // ---------------------------------------------------------------------
  // Runs of arrivals
  // ---------------------------------------------------------------------

  /** One arrival with its classifier answer, its draws and its time. */
  datatype Arrival = Arrival(fid: int, item: Item, index: nat, u2: real, u1: real, now: int)

  ghost predicate IndicesInRange(arrivals: seq<Arrival>)
  {
    forall i :: 0 <= i < |arrivals| ==> arrivals[i].index < M
  }

  /** The state after a sequence of enqueues. */
  function Run(c: Config, e: Engine, arrivals: seq<Arrival>): (r: Engine)
    requires WellFormed(e)
    requires IndicesInRange(arrivals)
    ensures WellFormed(r)
    decreases |arrivals|
  {
    if arrivals == [] then e
    else
      var a := arrivals[0];
      Run(c, Step(c, e, a.fid, a.item, a.index, a.u2, a.u1, a.now).next, arrivals[1..])
  }

  /** Number of arrivals the classifier recognised. */
  function Classified(arrivals: seq<Arrival>): nat
  {
    if arrivals == [] then 0
    else (if arrivals[0].fid == Unclassified then 0 else 1) + Classified(arrivals[1..])
  }

  function Min(a: nat, b: nat): nat
  {
    if a <= b then a else b
  }

  /** Any sequence of enqueues keeps the invariant. */
  lemma {:induction false} RunPreservesInv(c: Config, e: Engine, arrivals: seq<Arrival>)
    requires Inv(c, e)
    requires IndicesInRange(arrivals)
    ensures Inv(c, Run(c, e, arrivals))
    decreases |arrivals|
  {
    if arrivals != [] {
      var a := arrivals[0];
      StepPreservesInv(c, e, a.fid, a.item, a.index, a.u2, a.u1, a.now);
      RunPreservesInv(c, Step(c, e, a.fid, a.item, a.index, a.u2, a.u1, a.now).next, arrivals[1..]);
    }
  }

  /** The fill count after a run is the old one plus the classified
      arrivals, capped at M: it only grows, by one per classified arrival,
      and once it is M it stays M. */
  lemma {:induction false} RunFillCount(c: Config, e: Engine, arrivals: seq<Arrival>)
    requires WellFormed(e)
    requires IndicesInRange(arrivals)
    ensures Run(c, e, arrivals).listSize == Min(M, e.listSize + Classified(arrivals))
    decreases |arrivals|
  {
    if arrivals != [] {
      var a := arrivals[0];
      ListSizeStep(c, e, a.fid, a.item, a.index, a.u2, a.u1, a.now);
      RunFillCount(c, Step(c, e, a.fid, a.item, a.index, a.u2, a.u1, a.now).next, arrivals[1..]);
    }
  }

  /** Arrivals of one flow `fid` only. */
  ghost predicate AllOfFlow(arrivals: seq<Arrival>, fid: int)
  {
    forall i :: 0 <= i < |arrivals| ==> arrivals[i].fid == fid
  }

  /** A table that remembers only flow `fid`. */
  ghost predicate SeededWith(table: seq<Zombie>, fid: int)
  {
    forall j :: 0 <= j < |table| ==> table[j].fid == fid
  }

  function Pow(x: real, n: nat): real
  {
    if n == 0 then 1.0 else x * Pow(x, n - 1)
  }

  /** One arrival of flow `fid` at a full table that remembers only `fid`:
      a hit, so the table still remembers only `fid` and the hit frequency
      takes one averaging step with a hit (towards 1 when `alpha > 0`). */
  lemma SeededStep(c: Config, e: Engine, fid: int, a: Arrival)
    requires WellFormed(e) && e.listSize == M
    requires fid != Unclassified && a.fid == fid && a.index < M
    requires SeededWith(e.table, fid)
    ensures var e1 := Step(c, e, a.fid, a.item, a.index, a.u2, a.u1, a.now).next;
      SeededWith(e1.table, fid) && e1.listSize == M && e1.alpha == e.alpha &&
      e1.h == HitUpdate(e.h, e.alpha, 1)
  {
    SeededTableHits(e.table, a.index, fid, a.u2, c.pOverwrite, a.now);
  }

  /** The hit frequency after `n` hits in a row. */
  function HitsInARow(h: real, alpha: real, n: nat): real
  {
    if n == 0 then h else HitUpdate(HitsInARow(h, alpha, n - 1), alpha, 1)
  }

  /** After `n` hits in a row the distance of the hit frequency from 1 is
      `(1 - alpha)^n` times what it was: when `alpha > 0`, repeated hits
      drive it to 1; when `alpha == 0` it never moves. */
  lemma {:induction false} HitsInARowGap(h: real, alpha: real, n: nat)
    ensures 1.0 - HitsInARow(h, alpha, n) == Pow(1.0 - alpha, n) * (1.0 - h)
  {
    if n > 0 {
      HitsInARowGap(h, alpha, n - 1);
      var prev := HitsInARow(h, alpha, n - 1);
      var b, p := 1.0 - alpha, Pow(1.0 - alpha, n - 1);
      assert 1.0 - HitsInARow(h, alpha, n) == b * (1.0 - prev);
      assert b * (p * (1.0 - h)) == (b * p) * (1.0 - h);
    }
  }

  /** Concentration: when a full table remembers only flow `fid` and `n`
      packets of `fid` arrive, every sample is a hit, the table still
      remembers only `fid`, and the hit frequency is that of `n` hits in a
      row, which `HitsInARowGap` shows approaching 1 when `alpha > 0`; when
      `alpha == 0` it never moves. */
  lemma {:induction false} SingleFlowHitsEverySample(c: Config, e: Engine, fid: int, arrivals: seq<Arrival>)
    requires WellFormed(e) && e.listSize == M
    requires fid != Unclassified
    requires SeededWith(e.table, fid)
    requires IndicesInRange(arrivals) && AllOfFlow(arrivals, fid)
    ensures SeededWith(Run(c, e, arrivals).table, fid)
    ensures Run(c, e, arrivals).listSize == M
    ensures Run(c, e, arrivals).alpha == e.alpha
    ensures Run(c, e, arrivals).h == HitsInARow(e.h, e.alpha, |arrivals|)
    decreases |arrivals|
  {
    if arrivals != [] {
      var a := arrivals[0];
      var e1 := Step(c, e, a.fid, a.item, a.index, a.u2, a.u1, a.now).next;
      SeededStep(c, e, fid, a);
      assert AllOfFlow(arrivals[1..], fid) && IndicesInRange(arrivals[1..]);
      SingleFlowHitsEverySample(c, e1, fid, arrivals[1..]);
      HitsInARowFirst(e.h, e.alpha, |arrivals| - 1);
    }
  }

  /** `n + 1` hits in a row are one hit followed by `n` more. */
  lemma {:induction false} HitsInARowFirst(h: real, alpha: real, n: nat)
    ensures HitsInARow(h, alpha, n + 1) == HitsInARow(HitUpdate(h, alpha, 1), alpha, n)
  {
    if n > 0 {
      HitsInARowFirst(h, alpha, n - 1);
    }
  }

  /** Bootstrap in packets mode with room everywhere: `n` classified
      arrivals are all admitted, one fresh slot each. */
  lemma {:induction false} BootstrapAdmitsAll(c: Config, e: Engine, arrivals: seq<Arrival>)
    requires WellFormed(e)
    requires IndicesInRange(arrivals)
    requires c.mode == Packets && e.backlog.mode == Packets
    requires forall i :: 0 <= i < |arrivals| ==> arrivals[i].fid != Unclassified
    requires e.listSize + |arrivals| <= M
    requires |e.backlog.items| + |arrivals| <= c.queueLimit
    requires |e.backlog.items| + |arrivals| <= e.backlog.capacity
    ensures Run(c, e, arrivals).listSize == e.listSize + |arrivals|
    ensures |Run(c, e, arrivals).backlog.items| == |e.backlog.items| + |arrivals|
    ensures Run(c, e, arrivals).backlog.mode == Packets
    ensures Run(c, e, arrivals).backlog.capacity == e.backlog.capacity
    decreases |arrivals|
  {
    if arrivals != [] {
      var a := arrivals[0];
      var r := Step(c, e, a.fid, a.item, a.index, a.u2, a.u1, a.now);
      BootstrapStep(c, e, a.fid, a.item, a.index, a.u2, a.u1, a.now);
      assert r.admitted;
      BootstrapAdmitsAll(c, r.next, arrivals[1..]);
    }
  }

  // ---------------------------------------------------------------------
  // Dequeue
  // ---------------------------------------------------------------------

  /** `DoDequeue`: the head of the internal queue, if any; the zombie table
      and the hit frequency are not touched. */
  function Dequeue(e: Engine): (r: (Option<Item>, Engine))
    ensures r.0 == None <==> e.backlog.items == []
    ensures r.0 != None ==> r.0.value == e.backlog.items[0] && r.1.backlog.items == e.backlog.items[1..]
    ensures r.0 == None ==> r.1 == e
    ensures r.1.table == e.table && r.1.listSize == e.listSize && r.1.h == e.h && r.1.alpha == e.alpha
    ensures r.1.backlog.mode == e.backlog.mode && r.1.backlog.capacity == e.backlog.capacity
  {
    var popped := Pop(e.backlog);
    (popped.0, e.(backlog := popped.1))
  }

  /** The state after `k` dequeues. */
  function DequeueTimes(e: Engine, k: nat): Engine
    decreases k
  {
    if k == 0 then e else DequeueTimes(Dequeue(e).1, k - 1)
  }

  /** `k` dequeues leave `max(n - k, 0)` of `n` packets and the rest of the
      state as it was. */
  lemma {:induction false} DequeueTimesCount(e: Engine, k: nat)
    ensures |DequeueTimes(e, k).backlog.items| == if k <= |e.backlog.items| then |e.backlog.items| - k else 0
    ensures DequeueTimes(e, k).table == e.table && DequeueTimes(e, k).listSize == e.listSize
    ensures DequeueTimes(e, k).h == e.h
    decreases k
  {
    if k > 0 {
      DequeueTimesCount(Dequeue(e).1, k - 1);
    }
  }

  /** The enqueue/dequeue scenario of the test suite: from an empty queue
      with room for seven packets and at least seven free slots, seven
      packets of one flow are all admitted; one dequeue leaves 6, three more
      leave 3, three more leave 0, and a further dequeue returns nothing. */
  lemma SevenInThenOut(c: Config, e: Engine, arrivals: seq<Arrival>)
    requires WellFormed(e)
    requires IndicesInRange(arrivals)
    requires c.mode == Packets && e.backlog.mode == Packets && e.backlog.items == []
    requires 7 <= c.queueLimit && 7 <= e.backlog.capacity
    requires e.listSize + 7 <= M
    requires |arrivals| == 7 && forall i :: 0 <= i < 7 ==> arrivals[i].fid != Unclassified
    ensures |Run(c, e, arrivals).backlog.items| == 7
    ensures |DequeueTimes(Run(c, e, arrivals), 1).backlog.items| == 6
    ensures |DequeueTimes(Run(c, e, arrivals), 4).backlog.items| == 3
    ensures |DequeueTimes(Run(c, e, arrivals), 7).backlog.items| == 0
    ensures Dequeue(DequeueTimes(Run(c, e, arrivals), 7)).0 == None
  {
    var full := Run(c, e, arrivals);
    BootstrapAdmitsAll(c, e, arrivals);
    DequeueTimesCount(full, 1);
    DequeueTimesCount(full, 4);
    DequeueTimesCount(full, 7);
  }
}
