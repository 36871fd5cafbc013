# Stabilized RED (SRED) admission engine — a Dafny model

This project models the `SredQueueDisc` queue disc of the ns-3 SRED implementation. The disc decides whether each arriving packet is admitted to a bounded FIFO or dropped. It does not count packets per flow. Instead it keeps a fixed table of `M = 1000` remembered flows ("zombies") and a moving average of how often a sampled zombie matches the arriving flow (the hit frequency).

The model is split by component:

- `sred_types.dfy` (`SredTypes`): holds
  - the constant `M`;
  - the queue unit (packets or bytes);
  - the zombie record `{fid, count, timestamp}`;
  - the packet;
  - the extended doubles (finite values, ±∞, NaN) that the full-SRED formula can produce.
- `drop_tail.dfy` (`DropTailQueue`): the internal drop-tail FIFO. The disc pushes to it, pops from it and reads its occupancy. It refuses a packet it has no room for.
- `sred_probability.dfy` (`SredProbability`): the pure arithmetic.
  - `CalculatePSred` is `PSred`, with the ×536 scaling and integer division kept as written.
  - `CalculateSimplePZap` is `SimplePZap`.
  - `CalculateFullPZap` is `FullPZapAsWritten`, plus the corrected `FullPZap`.
  - The hit-frequency update is `HitUpdate`, with `alpha = pOverwrite / M`.
- `zombie_table.dfy` (`ZombieTable`): covers
  - the bootstrap append;
  - the steady-phase sample, which records a hit or a miss and may overwrite the slot;
  - the choice of the sampled slot.
- `sred_engine.dfy` (`SredEngine`): one call of `DoEnqueue` as a pure transition `Step` over an abstract state `Engine`, and `DoDequeue` as `Dequeue`. The lemmas cover single steps, runs of arrivals and the queue-count scenario of the test suite.
- `sred_disc.dfy` (`SredDisc`): the class `SredQueueDisc`.
  - Fields: the attributes, the fixed array `zombielist` of length `M`, `listSize`, `hitFrequency`, `alpha` and the internal queues.
  - Methods: `CheckConfig`, `InitializeParams`, `GetQueueSize`, `DoEnqueue` (split into `EnqueueBootstrap` and `EnqueueSteady`, the latter into `SampleZombie` and `SteadyVerdict`), `DoDequeue` and `DoPeek`.
  - `CheckConfig` is proved to accept exactly the configurations `ConfigAccepted` describes, adding a default internal queue sized to the limit first when none was given, there are no classes and there is at least one packet filter.
  - `InitializeParams` establishes the object invariant `Valid()` on an accepted configuration.
  - `DoEnqueue` and `DoDequeue` keep `Valid()` and are proved to perform exactly the transitions `SredEngine.Step` and `SredEngine.Dequeue`. Their branches and parts (`EnqueueBootstrap`, `EnqueueSteady`, `SampleZombie`, `SteadyVerdict`) are each proved to perform their share of `Step`.
  - `DoPeek` changes nothing and returns what `Dequeue` would.

Some inputs are not computed by the model. They arrive as method parameters instead:
- the classifier's answer `fid` (`-1` means unclassifiable);
- the random draws: the sampled slot `index`, the overwrite draw `u2` and the drop draw `u1`;
- the simulation time `now`.

## Model

| member | source | states |
|---|---|---|
| SredDisc.SredQueueDisc.DoEnqueue | src/traffic-control/model/sred-queue-disc.cc:247-356 | the new zombie table, fill count, hit frequency and internal queue, and the verdict, are exactly those of `Step`. An unclassifiable packet is dropped and changes nothing. `listSize` rises by one per classified arrival until it reaches M. `Valid()` is kept. |
| SredDisc.SredQueueDisc.EnqueueBootstrap | src/traffic-control/model/sred-queue-disc.cc:266-287 | the bootstrap branch writes slot `listSize` in place, increments `listSize`, and admits on capacity alone, as `Step` specifies |
| SredDisc.SredQueueDisc.EnqueueSteady | src/traffic-control/model/sred-queue-disc.cc:289-355 | the steady branch updates the sampled slot in place, then the hit frequency, then drops on the draw or on capacity, as `Step` specifies |
| SredDisc.SredQueueDisc.SampleZombie | src/traffic-control/model/sred-queue-disc.cc:291-311 | the in-place update of the zombie array and the hit flag are exactly those of `Sample` on the old slots |
| SredDisc.SredQueueDisc.SteadyVerdict | src/traffic-control/model/sred-queue-disc.cc:316-355 | drops when `u1 <= pZap` or `nQueued >= limit`, leaving the queue as it was; otherwise the internal queue's push decides, as `Admit` specifies |
| SredDisc.SredQueueDisc.DoDequeue | src/traffic-control/model/sred-queue-disc.cc:233-245 | returns the head and removes it, or returns nothing and changes nothing when the queue is empty; the zombie table and hit frequency are untouched |
| SredDisc.SredQueueDisc.DoPeek | src/traffic-control/model/sred-queue-disc.cc:358-374 | returns nothing iff the queue is empty, otherwise its head. It changes nothing and returns what a dequeue would. |
| SredDisc.SredQueueDisc.CheckConfig | src/traffic-control/model/sred-queue-disc.cc:376-427 | accepts iff there are no classes, at least one packet filter, and exactly one internal queue whose unit matches and whose capacity is at least the limit. A default queue sized to the limit is added only when none was given and the first two checks pass. In that case the verdict depends on classes and filters alone. |
| SredDisc.SredQueueDisc.InitializeParams | src/traffic-control/model/sred-queue-disc.cc:153-161 | sets fill count 0, hit frequency 0 and `alpha = pOverwrite / M`, and establishes the object invariant |
| SredDisc.SredQueueDisc.constructor | src/traffic-control/model/sred-queue-disc.cc:93-107 | stores the attributes (probabilities in [0,1], as the attribute checkers demand) and allocates the zombie array with exactly M slots |
| SredEngine.Step | src/traffic-control/model/sred-queue-disc.cc:256-355 | one call of `DoEnqueue` as a transition over the abstract state; it keeps M slots and a fill count of at most M. The behaviour of each branch is stated by the lemmas `UnclassifiedLeavesStateAlone`, `BootstrapStep` and `SteadyStep` below. |
| SredEngine.Dequeue | src/traffic-control/model/sred-queue-disc.cc:233-245 | returns nothing iff the internal queue is empty, and then changes nothing. Otherwise it returns the head and leaves the rest of the queue. The table, fill count, hit frequency, alpha, the queue's unit and its capacity are untouched. |
| SredEngine.UnclassifiedLeavesStateAlone | src/traffic-control/model/sred-queue-disc.cc:256-262 | a packet classified `-1` is dropped. The table, fill count, hit frequency and internal queue are unchanged. |
| SredEngine.BootstrapStep | src/traffic-control/model/sred-queue-disc.cc:266-287 | while `listSize < M`: slot `listSize` becomes `(fid, 0, now)` and `listSize` rises by exactly 1 whatever the verdict. The hit frequency is unchanged. The packet is admitted iff the mode's capacity test passes (packets: `nQueued < limit`; bytes: `nQueued + size <= limit`) and the internal queue accepts it. |
| SredEngine.SteadyStep | src/traffic-control/model/sred-queue-disc.cc:289-355 | once full, the table changes as one sample, `listSize` stays M, and the hit frequency takes one averaging step. The packet is admitted iff `u1 > pZap`, `nQueued < limit` (the same test in both modes), and the internal queue accepts it. |
| SredEngine.AdmittedIffQueued | src/traffic-control/model/sred-queue-disc.cc:273-355 | the verdict is true exactly when the packet is appended to the internal queue; every drop leaves the queue as it was |
| SredEngine.ListSizeStep | src/traffic-control/model/sred-queue-disc.cc:266-271 | the new fill count is the old one plus one, unless the packet is unclassified or the table is already full |
| SredEngine.StepPreservesInv | src/traffic-control/model/sred-queue-disc.cc:256-315 | every enqueue keeps the hit frequency in [0,1], `alpha = pOverwrite / M`, the fill count in [0, M], the table at M slots, and no `-1` sentinel in a filled slot |
| SredEngine.PacketLimitRespected | src/traffic-control/model/sred-queue-disc.cc:273-355 | in packets mode the queue never exceeds the limit, and an arrival at a full queue is always dropped |
| SredEngine.StepWithinCapacity | src/traffic-control/model/sred-queue-disc.cc:273-355 | in either unit, an enqueue never fills the internal queue beyond its own capacity |
| SredEngine.SteadyBytesOvershoot | src/traffic-control/model/sred-queue-disc.cc:340-353 | in bytes mode the steady phase admits a packet that does not fit under the limit, when the queue is below a sixth of the limit, the draw is positive, simple SRED is used and the internal queue has room. The queue then holds more bytes than the limit. This needs a user-supplied internal queue whose byte capacity exceeds the limit: the default queue `CheckConfig` creates has capacity equal to the limit and refuses such a packet. |
| SredEngine.PZap | src/traffic-control/model/sred-queue-disc.cc:316-327 | `m_fullSred` selects the formula. The simple formula, and the full one on a miss, give a finite value in [0, pSred] with pSred <= 1. A hit under full SRED with `h != 0` gives the written double expression. |
| SredEngine.FullModeNeverLowers | src/traffic-control/model/sred-queue-disc.cc:316-327 | `m_fullSred` alone selects the formula. On a miss, full and simple pZap agree. On a hit with `h > 0`, full pZap is at least simple pZap. |
| SredEngine.RunPreservesInv | src/traffic-control/model/sred-queue-disc.h:140-145 | every sequence of enqueues keeps the state invariant |
| SredEngine.RunFillCount | src/traffic-control/model/sred-queue-disc.cc:266-271 | after any run, the fill count is `min(M, old + classified arrivals)`. It only grows, and once it reaches M it stays M. |
| SredEngine.SeededStep | src/traffic-control/model/sred-queue-disc.cc:291-314 | a full table that remembers only flow `f` hits on every arrival of `f`, still remembers only `f`, and takes one hit-frequency step |
| SredEngine.SingleFlowHitsEverySample | src/traffic-control/model/sred-queue-disc.cc:289-314 | over any run of arrivals of `f`, that table keeps remembering only `f`. The hit frequency becomes the value after `n` hits in a row. |
| SredEngine.HitsInARowGap | src/traffic-control/model/sred-queue-disc.cc:314 | after `n` hits in a row, `1 - h` equals `(1 - alpha)^n (1 - h0)`, so repeated hits drive the hit frequency towards 1 when `alpha > 0`. When `alpha = 0` (pOverwrite = 0) it never moves. |
| SredEngine.BootstrapAdmitsAll | src/traffic-control/model/sred-queue-disc.cc:266-287 | in packets mode, with room in the table, under the limit and in the internal queue, every classified arrival is admitted and fills one slot |
| SredEngine.DequeueTimesCount | src/traffic-control/model/sred-queue-disc.cc:233-245 | `k` dequeues of a queue of `n` packets leave `max(n - k, 0)` packets and leave the table and hit frequency alone |
| SredEngine.SevenInThenOut | src/test/ns3tc/sred-test-suite.cc:293-334 | seven classified enqueues from an empty queue give 7 packets. Successive dequeues leave 6, then 3, then 0, and one more dequeue returns nothing. |
| SredProbability.ScaledThreshold | src/traffic-control/model/sred-queue-disc.cc:192-196 | `536 q >= (536 L) / d` iff `d q >= L`, for d = 3 and d = 6 |
| SredProbability.PSred | src/traffic-control/model/sred-queue-disc.cc:188-209 | `CalculatePSred` with its ×536 scaling and integer division equals the unscaled reference tier (`TierReference`: 1 at or above the limit, pMax from a third, pMax/4 from a sixth, else 0) for every occupancy |
| SredProbability.PSredTiers | src/traffic-control/model/sred-queue-disc.cc:196-208 | the result is 1 when `q >= L`, `pMax` when `3q >= L > q`, `pMax/4` when `6q >= L > 3q`, and 0 when `6q < L` |
| SredProbability.PSredMonotone | src/traffic-control/model/sred-queue-disc.cc:188-209 | with `pMax` in [0,1], the tier lies in [0,1] and is non-decreasing in the occupancy |
| SredProbability.SimplePZap | src/traffic-control/model/sred-queue-disc.cc:211-223 | `CalculateSimplePZap`: the tier times the clamped factor `1 / (256h)^2`; a non-negative tier is never increased, and the result stays non-negative |
| SredProbability.SimplePZapBounds | src/traffic-control/model/sred-queue-disc.cc:211-223 | simple pZap lies in [0, pSred] and equals pSred whenever `0 <= 256h <= 1`, including `h = 0` (the clamped division by zero) |
| SredProbability.SimplePZapAntitone | src/traffic-control/model/sred-queue-disc.cc:214-222 | a larger hit frequency never gives a larger simple pZap |
| SredProbability.ClampedInverseAntitone | src/traffic-control/model/sred-queue-disc.cc:217-221 | the clamped factor `min(1, 1/sq)` is non-increasing in `sq` |
| SredProbability.FullPZapAsWritten | src/traffic-control/model/sred-queue-disc.cc:225-231 | `CalculateFullPZap` in double arithmetic: finite whenever `h != 0`, NaN for a miss at `h = 0`, +∞ for a hit at `h = 0` with a positive tier, and NaN (0 · ∞) for a hit at `h = 0` with a zero tier |
| SredProbability.FullPZap | src/traffic-control/model/sred-queue-disc.cc:225-231 | the corrected full pZap equals the written double expression whenever `h != 0`, for every sample outcome. A miss always gives a finite value in [0, pSred]. |
| SredProbability.FullPZapAtLeastSimple | src/traffic-control/model/sred-queue-disc.cc:225-231 | on a hit with `h > 0`, full pZap is finite and at least simple pZap, and strictly above it when simple pZap is positive |
| SredProbability.FullPZapNaNOnMissAtZero | src/traffic-control/model/sred-queue-disc.cc:229 | as written, a miss at `h = 0` gives NaN, which never drops. The corrected value drops iff `u <= pSred`. |
| SredProbability.FullPZapNaNWitness | src/traffic-control/model/sred-queue-disc.cc:229 | for pSred = 0.15, h = 0, a miss and u1 = 0.1, the written code admits and the corrected one drops |
| SredProbability.HitUpdateBounds | src/traffic-control/model/sred-queue-disc.cc:314 | with alpha and h in [0,1] and hit 0 or 1: the new h is in [0,1], a hit gives at least alpha, and a miss never raises h |
| SredProbability.HitUpdate | src/traffic-control/model/sred-queue-disc.cc:314 | the moving average: a hit multiplies `1 - h` by `1 - alpha`; a miss multiplies `h` by `1 - alpha` |
| SredProbability.Alpha | src/traffic-control/model/sred-queue-disc.cc:160 | `alpha = pOverwrite / M` lies in [0, 1/M] when pOverwrite is in [0,1], and `alpha * M` gives pOverwrite back |
| ZombieTable.Append | src/traffic-control/model/sred-queue-disc.cc:266-271 | the bootstrap write keeps M slots, puts `(fid, 0, now)` in slot `listSize` and leaves every other slot as it was |
| ZombieTable.Sample | src/traffic-control/model/sred-queue-disc.cc:291-311 | the sample keeps M slots, reports 0 or 1, reports a hit exactly when slot `index` remembers the arriving flow, and leaves every other slot as it was |
| ZombieTable.AppendFacts | src/traffic-control/model/sred-queue-disc.cc:266-271 | a bootstrap append by a classified flow extends the sentinel-free prefix by one slot |
| ZombieTable.SampleFacts | src/traffic-control/model/sred-queue-disc.cc:291-311 | a hit iff the slot's fid equals the arriving fid. A hit increments only that slot's 32-bit count and refreshes its timestamp. A miss overwrites the slot with `(fid, 0, now)` iff `u2 < pOverwrite`. No other slot changes. |
| ZombieTable.SampleNoSentinel | src/traffic-control/model/sred-queue-disc.cc:292-310 | a sample by a classified flow never writes the `-1` sentinel |
| ZombieTable.SeededTableHits | src/traffic-control/model/sred-queue-disc.cc:292-298 | in a table that remembers only `f`, every sample by `f` is a hit, and the table still remembers only `f` |
| ZombieTable.SampleIndexAsWritten | src/traffic-control/model/sred-queue-disc.cc:291 | the index as written, the truncation of a [0,1) draw, is always a slot of the table |
| ZombieTable.SampleIndex | src/traffic-control/model/sred-queue-disc.cc:291 | the corrected index is a slot below M, namely the slot `k` whose interval `[k/M, (k+1)/M)` holds the draw, so the M slots split [0,1) evenly |
| ZombieTable.SampleIndexAsWrittenIsZero | src/traffic-control/model/sred-queue-disc.cc:291 | assigning a [0,1) draw to `uint32_t` always yields slot 0 |
| ZombieTable.SampleAsWrittenOnlySlotZero | src/traffic-control/model/sred-queue-disc.cc:291-311 | as written, a steady-phase sample leaves slots 1 .. M-1 unchanged whatever the draws |
| ZombieTable.SampleIndexOnto | src/traffic-control/model/sred-queue-disc.cc:291 | every slot `k < M` is chosen by the draw `k / M` |
| SredDisc.SredQueueDisc.GetQueueSize | src/traffic-control/model/sred-queue-disc.cc:170-186 | the internal queue's occupancy in the disc's unit: its packet count in packets mode and its byte count in bytes mode, and 0 when it is empty |
| DropTailQueue.Occupancy | src/traffic-control/model/sred-queue-disc.cc:170-186 | 0 for an empty queue, the packet count in packets mode, and in bytes mode at least one per packet when every packet has a byte |
| DropTailQueue.PushOccupancy | src/traffic-control/model/sred-queue-disc.cc:170-186 | an accepted push raises `GetQueueSize` by 1 packet or by the packet's size in bytes; a refused push changes nothing |
| DropTailQueue.PopOccupancy | src/traffic-control/model/sred-queue-disc.cc:233-245 | a dequeue lowers the occupancy by the returned packet; on an empty queue it returns nothing and changes nothing |
| DropTailQueue.PushPopFifo | src/traffic-control/model/sred-queue-disc.cc:233-245 | the internal queue is first-in first-out |

## Findings

| source | as written | input that shows it | evidently intended | confidence | as-written member | corrected member |
|---|---|---|---|---|---|---|
| src/traffic-control/model/sred-queue-disc.cc:229 | `pZap *= (1 + (hit / m_pHitFrequency))` divides 0 by 0 on a miss while the hit frequency is still 0. The result NaN fails `u1 <= pZap`. So while h is still 0 (from the first steady-phase arrival until the first hit, with pOverwrite > 0), a miss never drops on the draw. After the first hit `h >= alpha > 0`. With pOverwrite = 0 the hit frequency stays 0. A hit then gives +∞ when pSred > 0, which always drops, and NaN when pSred = 0, which never does. | full SRED, h = 0, miss, pSred = 0.15, u1 = 0.1: as written the packet is not zapped | a miss adds no penalty, so pZap equals the simple value | medium (not executed) | SredProbability.FullPZapAsWritten, SredProbability.FullPZapNaNWitness | SredProbability.FullPZap, SredProbability.FullPZapNaNOnMissAtZero |
| src/traffic-control/model/sred-queue-disc.cc:291 | `uint32_t index = m_uv->GetValue ()` truncates a uniform draw in [0,1) (the variable's default range) to 0. Once the table is full, only slot 0 is ever compared or overwritten. | any draw, e.g. 0.999, selects slot 0 | a uniformly chosen slot in [0, M) | high (not executed) | ZombieTable.SampleIndexAsWritten, ZombieTable.SampleIndexAsWrittenIsZero | ZombieTable.SampleIndex, ZombieTable.SampleIndexOnto |

The rest of the model uses the corrected behaviour:
- `Step` and `DoEnqueue` use `FullPZap`.
- `DoEnqueue` takes any sampled slot `index < M`, which is the range `SampleIndex` covers.

## Bytes-mode capacity test

- The bootstrap test includes the packet size: `nQueued + size <= m_queueLimit` (src/traffic-control/model/sred-queue-disc.cc:274).
- The steady-phase test `nQueued >= m_queueLimit` has no size term (src/traffic-control/model/sred-queue-disc.cc:340).
- The model follows the code (`SteadyStep`). `SteadyBytesOvershoot` shows the consequence. With a user-supplied internal queue whose byte capacity exceeds the limit, the queue can hold more bytes than the limit. The default internal queue has capacity equal to the limit, so it refuses such a packet.
- `StepWithinCapacity` shows that the internal queue's own capacity is never exceeded.

## Left out

- **ns-3 plumbing.** Type registration, logging, `DoDispose`, `AssignStreams` and the `SetMode`/`GetMode`/`SetQueueLimit` accessors are not modelled. The constructor takes the attribute values directly.
- **Classification.** The classifier and the packet filters are external. Their answer is the parameter `fid`, with `-1` meaning unclassifiable.
- **Random draws.** The random variable is not modelled. Its draws are the parameters `index`, `u2` and `u1`, and no distribution is modelled. The verdict of sred-test-suite.cc:189 is statistical, so it is not stated.
- **Simulation clock.** `Simulator::Now ()` is the parameter `now`. Timestamps are written but never read by the decision.
- **Drop notification.** `Drop (item)` is not modelled: a drop is a `false` verdict with the state as `Step` gives it.
- **Floating point.** Doubles are modelled as exact reals. Rounding is not modelled. The infinities and NaN that `CalculateFullPZap` can produce are modelled with `Extended`. The clamp in `CalculateSimplePZap` is modelled as the branch `(256h)^2 <= 1`, which gives the same value as the written code, including at `h = 0`.
- **Integer widths.** These overflows are not modelled, because integers are mathematical:
  - the `int` overflow of `GetQueueSize () * 536` and `m_queueLimit * 536`;
  - the `uint32_t` overflow of `nQueued + item->GetPacketSize ()`;
  - the 32-bit range of `m_queueLimit`.
  
  The 32-bit wrap of `zombie.count` is modelled.
- **Flow id width.** The zombie stores the flow id as `uint32_t` and compares it with an `int32_t`. Both are modelled as one integer, because the conversion preserves equality.
- **`m_isNs1Compat`.** It is stored and never read.
- **Uninitialised fields.** `m_listSize`, `m_pHitFrequency` and `m_alpha` are uninitialised before `InitializeParams`. The constructor leaves them unconstrained.
- **`GetQueueSize` abort branch.** It is unreachable because the unit has only two values.
- **DropTail internals.** The drop-tail implementation is not part of this model. It is represented by a FIFO with one capacity in its own unit. It refuses a push when it is full (packets) or when the packet would not fit (bytes). The maximum in the other unit is not modelled.
- **SredEngine.FullModeNeverLowers: `h > 0` on a hit.** It is stated only for `h > 0` on a hit. With `pOverwrite = 0` the hit frequency stays 0, and the full formula then yields +∞ or NaN as written. The corrected `FullPZap` keeps that behaviour for a hit.
