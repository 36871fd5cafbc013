// The SRED queue disc object: its attributes, its fixed zombie array, the
// fill count and hit frequency that `DoEnqueue` updates in place, and its
// internal queue. Every state-changing method is proved to perform the
// transition that SredEngine specifies.
module SredDisc {
  import opened SredTypes
  import opened DropTailQueue
  import opened SredProbability
  import opened ZombieTable
  import opened SredEngine

  /** The internal queue `CheckConfig` creates when none was given: a
      drop-tail queue in the disc's unit whose capacity is the disc's limit. */
  function DefaultQueue(mode: QueueMode, limit: nat): DropTail
  {
    DropTail(mode, limit, [])
  }

  class SredQueueDisc {
    // Attributes.
    var mode: QueueMode
    var queueLimit: nat
    var isNs1Compat: bool
    var fullSred: bool
    var pOverwrite: real
    var pMax: real

    // What the queue disc was given: child classes, packet filters, internal queues.
    var nClasses: nat
    var nPacketFilters: nat
    var internalQueues: seq<DropTail>

    // SRED state.
    const zombielist: array<Zombie>
    var listSize: nat
    var hitFrequency: real
    var alpha: real

    /** The attributes the admission decision reads. */
    function Cfg(): Config
      reads this
    {
      Config(mode, queueLimit, fullSred, pOverwrite, pMax)
    }

    /** The decision state held by this object. */
    ghost function State(): Engine
      reads this, zombielist
      requires |internalQueues| == 1
    {
      Engine(zombielist[..], listSize, hitFrequency, alpha, internalQueues[0])
    }

    /** The attribute checkers keep both probabilities in [0,1]. */
    ghost predicate ProbabilitiesInRange()
      reads this
    {
      0.0 <= pOverwrite <= 1.0 && 0.0 <= pMax <= 1.0
    }

    /** What `CheckConfig` accepts: no child classes, at least one packet
      filter, exactly one internal queue, in the disc's unit, holding at
      least the disc's limit. */
    ghost predicate ConfigAccepted()
      reads this
    {
      nClasses == 0 && nPacketFilters > 0 && |internalQueues| == 1 &&
      internalQueues[0].mode == mode && internalQueues[0].capacity >= queueLimit
    }

    /** Object invariant of a checked and initialised queue disc. */
    ghost predicate Valid()
      reads this, zombielist
    {
      zombielist.Length == M && |internalQueues| == 1 && Inv(Cfg(), State())
    }

    /** A queue disc with the given attributes and structure; the zombie
        array has its M slots from the start. */
    constructor (mode: QueueMode, queueLimit: nat, isNs1Compat: bool, fullSred: bool,
                 pOverwrite: real, pMax: real,
                 nClasses: nat, nPacketFilters: nat, internalQueues: seq<DropTail>)
      requires 0.0 <= pOverwrite <= 1.0 && 0.0 <= pMax <= 1.0
      ensures Cfg() == Config(mode, queueLimit, fullSred, pOverwrite, pMax)
      ensures this.isNs1Compat == isNs1Compat
      ensures this.nClasses == nClasses && this.nPacketFilters == nPacketFilters
      ensures this.internalQueues == internalQueues
      ensures ProbabilitiesInRange()
      ensures fresh(zombielist) && zombielist.Length == M
    {
      this.mode := mode;
      this.queueLimit := queueLimit;
      this.isNs1Compat := isNs1Compat;
      this.fullSred := fullSred;
      this.pOverwrite := pOverwrite;
      this.pMax := pMax;
      this.nClasses := nClasses;
      this.nPacketFilters := nPacketFilters;
      this.internalQueues := internalQueues;
      zombielist := new Zombie[M];
    }

    /** `CheckConfig`: reject child classes, a missing packet filter, a count
        of internal queues other than one, a unit mismatch, or an internal
        queue smaller than the limit. When no internal queue was given and
        the first two checks pass, a default one sized to the limit is added
        first, so the verdict then depends on the classes and filters only. */
    method CheckConfig() returns (ok: bool)
      modifies this`internalQueues
      ensures internalQueues ==
        if old(nClasses) == 0 && old(nPacketFilters) > 0 && old(|internalQueues|) == 0
        then [DefaultQueue(mode, queueLimit)] else old(internalQueues)
      ensures ok <==> ConfigAccepted()
      ensures old(|internalQueues|) == 0 ==> (ok <==> nClasses == 0 && nPacketFilters > 0)
    {
      if nClasses > 0 {
        return false;
      }
      if nPacketFilters == 0 {
        return false;
      }
      if |internalQueues| == 0 {
        internalQueues := internalQueues + [DefaultQueue(mode, queueLimit)];
      }
      if |internalQueues| != 1 {
        return false;
      }
      if internalQueues[0].mode != mode {
        return false;
      }
      if internalQueues[0].capacity < queueLimit {
        return false;
      }
      return true;
    }

    /** `InitializeParams`: an empty zombie table, a zero hit frequency and
        the smoothing weight `pOverwrite / M`. */
    method InitializeParams()
      requires zombielist.Length == M
      requires ProbabilitiesInRange()
      requires ConfigAccepted()
      modifies this`listSize, this`hitFrequency, this`alpha
      ensures listSize == 0 && hitFrequency == 0.0 && alpha == pOverwrite / M as real
      ensures Valid()
    {
      listSize := 0;
      hitFrequency := 0.0;
      alpha := pOverwrite / M as real;
    }

    /** `GetQueueSize`: the internal queue's occupancy in the disc's unit. */
    function GetQueueSize(): (r: nat)
      reads this
      requires |internalQueues| == 1
      ensures internalQueues[0].items == [] ==> r == 0
      ensures mode == Packets ==> r == |internalQueues[0].items|
      ensures mode.Bytes? ==> r == DropTailQueue.Bytes(internalQueues[0].items)
    {
      Occupancy(mode, internalQueues[0])
    }

    /** Append to the internal queue, which refuses a packet it has no room for. */
    method InternalEnqueue(item: Item) returns (ok: bool)
      requires |internalQueues| == 1
      modifies this`internalQueues
      ensures |internalQueues| == 1
      ensures (internalQueues[0], ok) == Push(old(internalQueues[0]), item)
    {
      var pushed := Push(internalQueues[0], item);
      internalQueues := [pushed.0];
      ok := pushed.1;
    }

    /** `DoEnqueue`. `fid` is the classifier's answer for `item`, `index` the
        sampled slot, `u2` the overwrite draw, `u1` the drop draw and `now`
        the simulation time. The new state and the verdict are exactly the
        transition `Step`; in particular an unclassifiable packet is dropped
        without touching anything, and the fill count rises by one per
        classified arrival until it reaches M. */
    method DoEnqueue(item: Item, fid: int, index: nat, u2: real, u1: real, now: int) returns (admitted: bool)
      requires Valid()
      requires index < M
      modifies this`listSize, this`hitFrequency, this`internalQueues, zombielist
      ensures Valid()
      ensures Outcome(State(), admitted) == Step(Cfg(), old(State()), fid, item, index, u2, u1, now)
      ensures fid == Unclassified ==> !admitted && State() == old(State())
      ensures listSize == if fid == Unclassified || old(listSize) == M then old(listSize) else old(listSize) + 1
    {
      if fid == Unclassified {
        return false;
      }
      var nQueued := GetQueueSize();
      if listSize < M {
        admitted := EnqueueBootstrap(item, fid, index, u2, u1, now, nQueued);
      } else {
        admitted := EnqueueSteady(item, fid, index, u2, u1, now, nQueued);
      }
      StepPreservesInv(Cfg(), old(State()), fid, item, index, u2, u1, now);
      ListSizeStep(Cfg(), old(State()), fid, item, index, u2, u1, now);
    }

    /** The bootstrap branch of `DoEnqueue`: append a zombie, then admit on
        capacity alone. */
    method EnqueueBootstrap(item: Item, fid: int, index: nat, u2: real, u1: real, now: int, nQueued: nat)
      returns (admitted: bool)
      requires Valid()
      requires index < M && fid != Unclassified
      requires listSize < M && nQueued == GetQueueSize()
      modifies this`listSize, this`internalQueues, zombielist
      ensures zombielist.Length == M && |internalQueues| == 1
      ensures Outcome(State(), admitted) == Step(Cfg(), old(State()), fid, item, index, u2, u1, now)
    {
      zombielist[listSize] := FreshZombie(fid, now);
      listSize := listSize + 1;
      if (mode == Packets && nQueued < queueLimit) || (mode == Bytes && nQueued + item.size <= queueLimit) {
        admitted := InternalEnqueue(item);
      } else {
        admitted := false;
      }
    }

    /** The steady branch of `DoEnqueue`: sample one slot, update the hit
        frequency, then drop on the draw or on capacity. */
    method EnqueueSteady(item: Item, fid: int, index: nat, u2: real, u1: real, now: int, nQueued: nat)
      returns (admitted: bool)
      requires Valid()
      requires index < M && fid != Unclassified
      requires listSize == M && nQueued == GetQueueSize()
      modifies this`hitFrequency, this`internalQueues, zombielist
      ensures zombielist.Length == M && |internalQueues| == 1
      ensures Outcome(State(), admitted) == Step(Cfg(), old(State()), fid, item, index, u2, u1, now)
    {
      ghost var e := State();
      var hit := SampleZombie(index, fid, u2, now);
      hitFrequency := (1.0 - alpha) * hitFrequency + alpha * hit as real;
      ghost var s := Sample(e.table, index, fid, u2, pOverwrite, now);
      ghost var e1 := e.(table := s.table, h := HitUpdate(e.h, e.alpha, s.hit));
      assert State() == e1;
      admitted := SteadyVerdict(item, nQueued, hit, u1);
    }

    /** The verdict of the steady branch, once the table and the hit
        frequency are updated: drop on the draw, then on capacity, else hand
        the packet to the internal queue. */
    method SteadyVerdict(item: Item, nQueued: nat, hit: int, u1: real) returns (admitted: bool)
      requires zombielist.Length == M && |internalQueues| == 1
      requires nQueued == GetQueueSize()
      modifies this`internalQueues
      ensures |internalQueues| == 1
      ensures Outcome(State(), admitted) ==
        if AtOrBelow(u1, PZap(Cfg(), nQueued, hitFrequency, hit)) || nQueued >= queueLimit
        then Outcome(old(State()), false) else Admit(old(State()), item)
    {
      var pSred := PSred(GetQueueSize(), queueLimit, pMax);
      var pZap := if fullSred then FullPZap(pSred, hitFrequency, hit) else Finite(SimplePZap(pSred, hitFrequency));
      assert pZap == PZap(Cfg(), nQueued, hitFrequency, hit);
      if AtOrBelow(u1, pZap) {
        admitted := false;
      } else if nQueued >= queueLimit {
        admitted := false;
      } else {
        admitted := InternalEnqueue(item);
      }
    }

    /** The sampling part of the steady branch: compare slot `index` with the
        arriving flow and touch it on a hit, or overwrite it on a miss when
        `u2` is below the overwrite probability. */
    method SampleZombie(index: nat, fid: int, u2: real, now: int) returns (hit: int)
      requires zombielist.Length == M && index < M
      modifies zombielist
      ensures Sampled(zombielist[..], hit) == Sample(old(zombielist[..]), index, fid, u2, pOverwrite, now)
    {
      if zombielist[index].fid == fid {
        hit := 1;
        zombielist[index] := Touched(zombielist[index], now);
      } else {
        hit := 0;
        if u2 < pOverwrite {
          zombielist[index] := FreshZombie(fid, now);
        }
      }
    }

    /** `DoDequeue`: remove and return the head of the internal queue, or
        nothing when it is empty; the zombie table is not touched. */
    method DoDequeue() returns (item: Option<Item>)
      requires Valid()
      modifies this`internalQueues
      ensures Valid()
      ensures (item, State()) == Dequeue(old(State()))
      ensures old(internalQueues[0].items) == [] ==> item == None && internalQueues == old(internalQueues)
      ensures old(internalQueues[0].items) != [] ==>
        item == Some(old(internalQueues[0].items[0])) && internalQueues[0].items == old(internalQueues[0].items[1..])
    {
      var popped := Pop(internalQueues[0]);
      internalQueues := [popped.1];
      item := popped.0;
    }

    /** `DoPeek`: the head of the internal queue, or nothing when it is
        empty; it changes nothing and returns what `DoDequeue` would. */
    method DoPeek() returns (item: Option<Item>)
      requires Valid()
      ensures item == None <==> internalQueues[0].items == []
      ensures item != None ==> item.value == internalQueues[0].items[0]
      ensures item == Dequeue(State()).0
    {
      if internalQueues[0].items == [] {
        return None;
      }
      return Some(internalQueues[0].items[0]);
    }
  }
}
