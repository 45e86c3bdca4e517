/** TI LP3943 PWM driver: period/duty register arithmetic, the output-pin
    ownership bitmap, and the `apply` state transition. Register writes and
    the per-output mode changes of enable/disable are recorded as a trace
    of abstract bus operations; their return codes are inputs. */
module PwmLp3943 {

  import Arith

  const MaxDuty: int := 255
  const MinPeriod: int := 6250
  const MaxPeriod: int := 1600000
  const EBUSY: int := 16
  const EINVAL: int := 22

  type U64 = x: int | 0 <= x < 0x1_0000_0000_0000_0000

  /** The two register pairs, one per PWM generator. */
  datatype Reg = Prescale0 | Pwm0 | Prescale1 | Pwm1

  /** A bus operation: a register byte write, or reprogramming every output
      pin of a generator's map (to the generator's dim mode on enable, to
      GPIO-high on disable). */
  datatype Op = WriteByte(reg: Reg, val: int) | EnableOutputs(hwpwm: nat) | DisableOutputs(hwpwm: nat)

  /** The operations issued and the value returned (0 or a negative errno). */
  datatype Outcome = Outcome(ops: seq<Op>, err: int)

  // ---------------------------------------------------------------------
  // Period and duty arithmetic

  function PrescaleReg(hwpwm: nat): Reg {
    if hwpwm == 0 then Prescale0 else Prescale1
  }

  function DutyReg(hwpwm: nat): Reg {
    if hwpwm == 0 then Pwm0 else Pwm1
  }

  /** The period after clamping into the range the chip supports. */
  function ClampPeriod(periodNs: U64): (r: int)
    ensures MinPeriod <= r <= MaxPeriod
    ensures MinPeriod <= periodNs <= MaxPeriod ==> r == periodNs
    ensures periodNs < MinPeriod ==> r == MinPeriod
    ensures periodNs > MaxPeriod ==> r == MaxPeriod
  {
    if periodNs < MinPeriod then MinPeriod
    else if periodNs > MaxPeriod then MaxPeriod
    else periodNs
  }

  /** Prescale register value: the number of whole 6250 ns steps in the
      clamped period, less one. It fits a byte, so the u8 cast keeps it. */
  function PrescaleValue(periodNs: U64): (v: int)
    ensures 0 <= v <= 255
    ensures (v + 1) * MinPeriod <= ClampPeriod(periodNs) < (v + 2) * MinPeriod
  {
    ClampPeriod(periodNs) / MinPeriod - 1
  }

  lemma DutyScaleBound(d: int, p: int)
    requires 0 <= d <= p && 0 < p
    ensures 0 <= d * MaxDuty / p <= MaxDuty
    ensures d == p ==> d * MaxDuty / p == MaxDuty
  {
    var x := d * MaxDuty;
    var q := x / p;
    Arith.MulLe(d, p, MaxDuty);
    assert q * p <= x;
    if q > MaxDuty {
      Arith.MulLe(MaxDuty + 1, q, p);
    }
    if d == p {
      Arith.DivMod(x, p, MaxDuty, 0);
    }
  }

  /** Duty register value: the duty, capped at the clamped period, as a
      fraction of 255 rounded down. It fits a byte and is full scale
      whenever the duty reaches the period. */
  function DutyValue(dutyNs: U64, periodNs: U64): (v: int)
    ensures 0 <= v <= MaxDuty
    ensures dutyNs >= ClampPeriod(periodNs) ==> v == MaxDuty
    ensures v * ClampPeriod(periodNs) <= Min(dutyNs, ClampPeriod(periodNs)) * MaxDuty
    ensures Min(dutyNs, ClampPeriod(periodNs)) * MaxDuty < (v + 1) * ClampPeriod(periodNs)
  {
    var period := ClampPeriod(periodNs);
    var duty := Min(dutyNs, period);
    DutyScaleBound(duty, period);
    duty * MaxDuty / period
  }

  function Min(a: int, b: int): int {
    if a <= b then a else b
  }

  /** `lp3943_pwm_config`: write the prescale register of the generator,
      then, only if that succeeded, its duty register. `prescaleErr` and
      `dutyErr` are what the two byte writes return. */
  function Config(hwpwm: nat, dutyNs: U64, periodNs: U64, prescaleErr: int, dutyErr: int): (r: Outcome)
    ensures 1 <= |r.ops| <= 2
    ensures r.ops[0] == WriteByte(PrescaleReg(hwpwm), PrescaleValue(periodNs))
    ensures |r.ops| == 2 <==> prescaleErr == 0
    ensures |r.ops| == 2 ==> r.ops[1] == WriteByte(DutyReg(hwpwm), DutyValue(dutyNs, periodNs))
    ensures r.err == (if prescaleErr != 0 then prescaleErr else dutyErr)
    ensures forall i :: 0 <= i < |r.ops| ==> r.ops[i].WriteByte? && 0 <= r.ops[i].val <= 255
  {
    var prescale := WriteByte(PrescaleReg(hwpwm), PrescaleValue(periodNs));
    if prescaleErr != 0 then
      Outcome([prescale], prescaleErr)
    else
      Outcome([prescale, WriteByte(DutyReg(hwpwm), DutyValue(dutyNs, periodNs))], dutyErr)
  }

  /** Generator 0 is programmed through its own register pair, every other
      generator through the second pair; the two pairs never overlap. */
  lemma ConfigRegistersPerGenerator(dutyNs: U64, periodNs: U64, prescaleErr: int, dutyErr: int, hwpwm: nat)
    ensures var r := Config(hwpwm, dutyNs, periodNs, prescaleErr, dutyErr);
      forall i :: 0 <= i < |r.ops| ==>
        (hwpwm == 0 <==> r.ops[i].reg in {Prescale0, Pwm0})
  {
  }

  // ---------------------------------------------------------------------
  // Output-pin ownership

  /** `pin_used` is modelled as the set of its set bits. */
  datatype MapResult = MapResult(pinUsed: set<nat>, err: int)

  function Elems(s: seq<nat>): set<nat> {
    set x | x in s
  }

  /** Output k of a map cannot be claimed: it was owned before the request
      or appears earlier in the same map. */
  predicate ConflictAt(pinUsed: set<nat>, outputs: seq<nat>, k: nat)
    requires k < |outputs|
  {
    outputs[k] in pinUsed || outputs[k] in outputs[..k]
  }

  /** `lp3943_pwm_request_map`: test-and-set each output bit in order and
      stop at the first one already set, without undoing earlier ones. */
  function RequestMap(pinUsed: set<nat>, outputs: seq<nat>): (r: MapResult)
    ensures r.err == 0 || r.err == -EBUSY
    ensures r.err == 0 <==> forall k :: 0 <= k < |outputs| ==> !ConflictAt(pinUsed, outputs, k)
    ensures r.err == 0 ==> r.pinUsed == pinUsed + Elems(outputs)
    ensures r.err == -EBUSY ==> exists k ::
      && 0 <= k < |outputs|
      && ConflictAt(pinUsed, outputs, k)
      && (forall j :: 0 <= j < k ==> !ConflictAt(pinUsed, outputs, j))
      && r.pinUsed == pinUsed + Elems(outputs[..k])
    decreases |outputs|
  {
    if |outputs| == 0 then
      MapResult(pinUsed, 0)
    else if outputs[0] in pinUsed then
      assert ConflictAt(pinUsed, outputs, 0);
      MapResult(pinUsed, -EBUSY)
    else
      var rest := RequestMap(pinUsed + {outputs[0]}, outputs[1..]);
      ClaimHead(pinUsed, outputs, rest);
      rest
  }

  /** The recursive case of RequestMap: the head was free and is claimed,
      and the outcome for the tail is the outcome for the whole map. */
  lemma ClaimHead(pinUsed: set<nat>, outputs: seq<nat>, rest: MapResult)
    requires |outputs| > 0 && outputs[0] !in pinUsed
    requires rest.err == 0 || rest.err == -EBUSY
    requires rest.err == 0 <==> forall k :: 0 <= k < |outputs| - 1 ==> !ConflictAt(pinUsed + {outputs[0]}, outputs[1..], k)
    requires rest.err == 0 ==> rest.pinUsed == pinUsed + {outputs[0]} + Elems(outputs[1..])
    requires rest.err == -EBUSY ==> exists k ::
      && 0 <= k < |outputs| - 1
      && ConflictAt(pinUsed + {outputs[0]}, outputs[1..], k)
      && (forall j :: 0 <= j < k ==> !ConflictAt(pinUsed + {outputs[0]}, outputs[1..], j))
      && rest.pinUsed == pinUsed + {outputs[0]} + Elems(outputs[1..][..k])
    ensures rest.err == 0 <==> forall k :: 0 <= k < |outputs| ==> !ConflictAt(pinUsed, outputs, k)
    ensures rest.err == 0 ==> rest.pinUsed == pinUsed + Elems(outputs)
    ensures rest.err == -EBUSY ==> exists k ::
      && 0 <= k < |outputs|
      && ConflictAt(pinUsed, outputs, k)
      && (forall j :: 0 <= j < k ==> !ConflictAt(pinUsed, outputs, j))
      && rest.pinUsed == pinUsed + Elems(outputs[..k])
  {
    ShiftConflicts(pinUsed, outputs);
    if rest.err == 0 {
      assert outputs == [outputs[0]] + outputs[1..];
      assert Elems(outputs) == {outputs[0]} + Elems(outputs[1..]);
      forall k | 0 <= k < |outputs|
        ensures !ConflictAt(pinUsed, outputs, k)
      {
        if k > 0 {
          assert !ConflictAt(pinUsed + {outputs[0]}, outputs[1..], k - 1);
        }
      }
    } else {
      var k :| 0 <= k < |outputs| - 1
        && ConflictAt(pinUsed + {outputs[0]}, outputs[1..], k)
        && (forall j :: 0 <= j < k ==> !ConflictAt(pinUsed + {outputs[0]}, outputs[1..], j))
        && rest.pinUsed == pinUsed + {outputs[0]} + Elems(outputs[1..][..k]);
      assert outputs[..k + 1] == [outputs[0]] + outputs[1..][..k];
      assert Elems(outputs[..k + 1]) == {outputs[0]} + Elems(outputs[1..][..k]);
      assert ConflictAt(pinUsed, outputs, k + 1);
      forall j | 0 <= j < k + 1
        ensures !ConflictAt(pinUsed, outputs, j)
      {
        if j > 0 {
          assert !ConflictAt(pinUsed + {outputs[0]}, outputs[1..], j - 1);
        }
      }
    }
  }

  /** A conflict of the tail, after claiming the head, is a conflict of the
      whole map one position later. */
  lemma ShiftConflicts(pinUsed: set<nat>, outputs: seq<nat>)
    requires |outputs| > 0 && outputs[0] !in pinUsed
    ensures !ConflictAt(pinUsed, outputs, 0)
    ensures forall k :: 0 <= k < |outputs| - 1 ==>
      (ConflictAt(pinUsed + {outputs[0]}, outputs[1..], k) <==> ConflictAt(pinUsed, outputs, k + 1))
  {
    forall k | 0 <= k < |outputs| - 1
      ensures ConflictAt(pinUsed + {outputs[0]}, outputs[1..], k) <==> ConflictAt(pinUsed, outputs, k + 1)
    {
      assert outputs[..k + 1] == [outputs[0]] + outputs[1..][..k];
    }
  }

  /** `lp3943_pwm_free_map`: clear the map's output bits. */
  function FreeMap(pinUsed: set<nat>, outputs: seq<nat>): (r: set<nat>)
    ensures forall x :: x in outputs ==> x !in r
    ensures forall x :: x !in outputs ==> (x in r <==> x in pinUsed)
  {
    pinUsed - Elems(outputs)
  }

  /** Releasing a map that was just claimed gives back the original bitmap. */
  lemma RequestThenFree(pinUsed: set<nat>, outputs: seq<nat>)
    requires RequestMap(pinUsed, outputs).err == 0
    ensures FreeMap(RequestMap(pinUsed, outputs).pinUsed, outputs) == pinUsed
  {
    forall x | x in outputs
      ensures x !in pinUsed
    {
      var k :| 0 <= k < |outputs| && outputs[k] == x;
      assert !ConflictAt(pinUsed, outputs, k);
    }
  }

  /** A map that lists the same output twice can never be claimed. */
  lemma DuplicateOutputIsBusy(pinUsed: set<nat>, outputs: seq<nat>, i: nat, j: nat)
    requires i < j < |outputs| && outputs[i] == outputs[j]
    ensures RequestMap(pinUsed, outputs).err == -EBUSY
  {
    assert outputs[i] in outputs[..j];
    assert ConflictAt(pinUsed, outputs, j);
  }

  // ---------------------------------------------------------------------
  // apply

  datatype Polarity = Normal | Inversed

  /** The requested state (`struct pwm_state`). */
  datatype PwmState = PwmState(polarity: Polarity, enabled: bool, dutyNs: U64, periodNs: U64)

  /** `lp3943_pwm_apply`. `curEnabled` is the generator's current state;
      the error inputs are what the two config writes and the enable
      reprogramming return. */
  function Apply(hwpwm: nat, state: PwmState, curEnabled: bool,
                 prescaleErr: int, dutyErr: int, enableErr: int): (r: Outcome)
    ensures state.polarity != Normal ==> r == Outcome([], -EINVAL)
    ensures state.polarity == Normal && !state.enabled ==>
      r.err == 0 && r.ops == (if curEnabled then [DisableOutputs(hwpwm)] else [])
    ensures EnableOutputs(hwpwm) in r.ops <==>
      state.polarity == Normal && state.enabled && !curEnabled && Config(hwpwm, state.dutyNs, state.periodNs, prescaleErr, dutyErr).err == 0
    ensures DisableOutputs(hwpwm) in r.ops <==> state.polarity == Normal && !state.enabled && curEnabled
    ensures state.polarity == Normal && state.enabled ==>
      var cfg := Config(hwpwm, state.dutyNs, state.periodNs, prescaleErr, dutyErr);
      && |cfg.ops| <= |r.ops|
      && r.ops[..|cfg.ops|] == cfg.ops
      && r.err == (if cfg.err != 0 then cfg.err else if curEnabled then 0 else enableErr)
    ensures state.polarity == Normal && state.enabled ==>
      var cfg := Config(hwpwm, state.dutyNs, state.periodNs, prescaleErr, dutyErr);
      r.ops == cfg.ops + (if cfg.err == 0 && !curEnabled then [EnableOutputs(hwpwm)] else [])
  {
    if state.polarity != Normal then
      Outcome([], -EINVAL)
    else if !state.enabled then
      Outcome(if curEnabled then [DisableOutputs(hwpwm)] else [], 0)
    else
      var cfg := Config(hwpwm, state.dutyNs, state.periodNs, prescaleErr, dutyErr);
      if cfg.err != 0 then
        cfg
      else if !curEnabled then
        Outcome(cfg.ops + [EnableOutputs(hwpwm)], enableErr)
      else
        Outcome(cfg.ops, 0)
  }

  /** Two successive enable requests for the same state. The PWM core
      records the new state only when `apply` returns 0, so the second call
      sees the generator enabled exactly when the first succeeded. The
      first call reprograms the outputs once its config writes succeed;
      the second reprograms them again only to retry a failed enable. */
  lemma EnableIsEdgeTriggered(hwpwm: nat, state: PwmState, e1: int, e2: int, e3: int, e4: int)
    requires state.polarity == Normal && state.enabled && e1 == 0 && e2 == 0
    ensures var first := Apply(hwpwm, state, false, e1, e2, e3);
      var second := Apply(hwpwm, state, first.err == 0, e1, e2, e4);
      && EnableOutputs(hwpwm) in first.ops
      && first.err == e3
      && (first.err == 0 ==> EnableOutputs(hwpwm) !in second.ops && second.err == 0)
      && (first.err != 0 ==> EnableOutputs(hwpwm) in second.ops && second.err == e4)
  {
  }
}
