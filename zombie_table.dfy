// The zombie table: a fixed array of M remembered flows. While it fills up,
// each arrival is appended; once full, each arrival samples one slot, and a
// hit or a miss decides how that slot is updated.
module ZombieTable {
  import opened SredTypes

  /** A freshly written zombie: flow `fid`, no hits yet, written at `now`. */
  function FreshZombie(fid: int, now: int): Zombie
  {
    Zombie(fid, 0, now)
  }

  /** A hit on `z`: its 32-bit count goes up by one (wrapping) and its
      timestamp is refreshed. */
  function Touched(z: Zombie, now: int): Zombie
  {
    z.(count := (z.count + 1) % Uint32Modulus, timestamp := now)
  }

  /** Bootstrap phase: slot `listSize` receives the arriving flow. */
  function Append(table: seq<Zombie>, listSize: nat, fid: int, now: int): (r: seq<Zombie>)
    requires listSize < |table|
    ensures |r| == |table| && r[listSize] == Zombie(fid, 0, now)
    ensures forall j :: 0 <= j < |table| && j != listSize ==> r[j] == table[j]
  {
    table[listSize := FreshZombie(fid, now)]
  }

  /** The slots after a steady-phase sample and whether it was a hit (1) or a miss (0). */
  datatype Sampled = Sampled(table: seq<Zombie>, hit: int)

  /** Steady phase: compare slot `index` with the arriving flow; on a hit
      touch it, on a miss overwrite it when the draw `u2` is below the
      overwrite probability. */
  function Sample(table: seq<Zombie>, index: nat, fid: int, u2: real, pOverwrite: real, now: int): (r: Sampled)
    requires index < |table|
    ensures |r.table| == |table|
    ensures r.hit == 0 || r.hit == 1
    ensures r.hit == 1 <==> table[index].fid == fid
    ensures forall j :: 0 <= j < |table| && j != index ==> r.table[j] == table[j]
  {
    if table[index].fid == fid then
      Sampled(table[index := Touched(table[index], now)], 1)
    else if u2 < pOverwrite then
      Sampled(table[index := FreshZombie(fid, now)], 0)
    else
      Sampled(table, 0)
  }

  /** Slots below `n` hold no unclassified sentinel. */
  ghost predicate NoSentinel(table: seq<Zombie>, n: nat)
  {
    forall i :: 0 <= i < n && i < |table| ==> table[i].fid != Unclassified
  }

  /** A bootstrap append by a classified flow extends the sentinel-free
      prefix by one slot. */
  lemma AppendFacts(table: seq<Zombie>, listSize: nat, fid: int, now: int)
    requires listSize < |table|
    requires fid != Unclassified
    requires NoSentinel(table, listSize)
    ensures NoSentinel(Append(table, listSize, fid, now), listSize + 1)
  {
  }

  /** A sample is a hit exactly when the sampled slot remembers the arriving
      flow. On a hit only that slot's count (by one, modulo 2^32) and
      timestamp change; on a miss the slot is overwritten with a fresh zombie
      exactly when `u2 < pOverwrite`. No other slot changes. */
  lemma SampleFacts(table: seq<Zombie>, index: nat, fid: int, u2: real, pOverwrite: real, now: int)
    requires index < |table|
    ensures var s := Sample(table, index, fid, u2, pOverwrite, now);
      |s.table| == |table| &&
      (s.hit == 1 <==> table[index].fid == fid) &&
      (s.hit == 0 <==> table[index].fid != fid) &&
      (forall j :: 0 <= j < |table| && j != index ==> s.table[j] == table[j]) &&
      (s.hit == 1 ==> s.table[index] == Zombie(fid, (table[index].count + 1) % Uint32Modulus, now)) &&
      (s.hit == 0 && u2 < pOverwrite ==> s.table[index] == Zombie(fid, 0, now)) &&
      (s.hit == 0 && !(u2 < pOverwrite) ==> s.table[index] == table[index])
  {
  }

  /** A sample by a classified flow keeps every slot free of the sentinel. */
  lemma SampleNoSentinel(table: seq<Zombie>, index: nat, fid: int, u2: real, pOverwrite: real, now: int)
    requires index < |table|
    requires fid != Unclassified
    requires NoSentinel(table, |table|)
    ensures NoSentinel(Sample(table, index, fid, u2, pOverwrite, now).table, |table|)
  {
  }

  /** A table that remembers only flow `fid` answers every sample by `fid`
      with a hit and still remembers only `fid` afterwards. */
  lemma SeededTableHits(table: seq<Zombie>, index: nat, fid: int, u2: real, pOverwrite: real, now: int)
    requires index < |table|
    requires forall j :: 0 <= j < |table| ==> table[j].fid == fid
    ensures Sample(table, index, fid, u2, pOverwrite, now).hit == 1
    ensures forall j :: 0 <= j < |table| ==> Sample(table, index, fid, u2, pOverwrite, now).table[j].fid == fid
  {
  }

  // ---------------------------------------------------------------------
  // Choosing the sampled slot
  // ---------------------------------------------------------------------

  /** The slot the steady phase samples, as written: a uniform draw in
      [0,1) assigned to a 32-bit unsigned integer, which truncates it. */
  function SampleIndexAsWritten(u: real): (r: int)
    requires 0.0 <= u < 1.0
    ensures 0 <= r < M
  {
    u.Floor
  }

  /** As written, every draw selects slot 0, so slots 1 .. M-1 are never
      compared with an arriving flow once the table is full. */
  lemma SampleIndexAsWrittenIsZero(u: real)
    requires 0.0 <= u < 1.0
    ensures SampleIndexAsWritten(u) == 0
  {
  }

  /** As written, a steady-phase sample leaves every slot but slot 0 as it
      was, whatever the draws. */
  lemma SampleAsWrittenOnlySlotZero(table: seq<Zombie>, u: real, fid: int, u2: real, pOverwrite: real, now: int)
    requires |table| == M
    requires 0.0 <= u < 1.0
    ensures SampleIndexAsWritten(u) < |table|
    ensures forall j :: 1 <= j < M ==>
      Sample(table, SampleIndexAsWritten(u), fid, u2, pOverwrite, now).table[j] == table[j]
  {
    SampleIndexAsWrittenIsZero(u);
  }

  /** The slot the steady phase samples, corrected: the draw in [0,1) scaled
      to [0, M) before truncation: slot `r` is the one whose interval
      `[r/M, (r+1)/M)` holds the draw, so the M slots split [0,1) evenly. */
  function SampleIndex(u: real): (r: nat)
    requires 0.0 <= u < 1.0
    ensures r < M
    ensures r as real / M as real <= u < (r + 1) as real / M as real
  {
    var x := u * M as real;
    assert 0.0 <= x < M as real;
    var k := x.Floor;
    assert k as real <= x < k as real + 1.0;
    assert u == x / M as real;
    k
  }

  /** Every slot is selected by some draw: slot `k` by the draw `k / M`. */
  lemma SampleIndexOnto(k: nat)
    requires k < M
    ensures 0.0 <= k as real / M as real < 1.0
    ensures SampleIndex(k as real / M as real) == k
  {
    var u := k as real / M as real;
    assert u * M as real == k as real;
  }
}
