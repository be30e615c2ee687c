/** One pass of the client's Modbus polling loop (client_new.py:135-194): the
    register list is decoded into floats, the Machine On value (register 11)
    decides whether a row is stored, and the stored row's derived fields come
    from registers 1, 16, 17 and 18 and from the wall clock. */
module Ingest {

  import opened Basics
  import opened Numerics
  import opened RegisterCodec
  import opened Clock
  import opened Schema

  /** The position of Machine On (register 11) in the decoded list. */
  const TriggerIndex := 10

  /** What one pass can raise before the handler at client_new.py:191 catches it:
      the IndexError of an odd register count, round() of a non-finite value, or
      the OverflowError of binding a process flag outside SQLite's INTEGER range
      at the insert. */
  datatype Fault = IndexFault(count: nat) | RoundFault(error: RoundError) | OverflowFault(value: int)

  /** How one pass ends. */
  datatype CycleOutcome =
    | NoData                    // the read returned None or an empty list
    | Faulted(fault: Fault)     // an exception was raised and caught
    | Skipped                   // decoded, but Machine On did not round to 1
    | Inserted(payload: Payload)

  /** The float the client reads at position k: the pattern whose high word is
      register 2k+1 and whose low word is register 2k. */
  function ValueAt(regs: seq<Word>, asFloat: Pattern -> Float, k: nat): Float
    requires 2 * k + 1 < |regs|
  {
    asFloat(Join(regs[2 * k + 1], regs[2 * k]))
  }

  /** What the decode loop produces: struct.unpack('>f', ...) of every register
      pair, or the IndexError of an odd count. */
  function DecodeSpec(regs: seq<Word>, asFloat: Pattern -> Float): Result<seq<Float>, Fault>
  {
    match Decode(regs)
    case Err(e) => Err(IndexFault(e.count))
    case Ok(ps) => Ok(Map(ps, asFloat))
  }

  /** The decode loop: two registers per step, high word second; reaching the
      last register of an odd list raises before anything is stored. */
  method DecodeReading(regs: seq<Word>, asFloat: Pattern -> Float) returns (r: Result<seq<Float>, Fault>)
    ensures r == DecodeSpec(regs, asFloat)
    ensures r.Ok? ==> (|r.value| == |regs| / 2
      && forall k :: 0 <= k < |regs| / 2 ==> r.value[k] == ValueAt(regs, asFloat, k))
  {
    var values: seq<Float> := [];
    var i := 0;
    while i < |regs|
      invariant 0 <= i <= |regs| && i % 2 == 0
      invariant |values| == i / 2
      invariant forall k :: 0 <= k < i / 2 ==> values[k] == ValueAt(regs, asFloat, k)
      decreases |regs| - i
    {
      if i + 1 >= |regs| {
        return Err(IndexFault(|regs|));
      }
      values := values + [ValueAt(regs, asFloat, i / 2)];
      i := i + 2;
    }
    r := Ok(values);
    assert values == Map(Decode(regs).value, asFloat);
  }

  /** The trigger test len(v) >= 11 and round(v[10]) == 1; round() of a
      non-finite Machine On value raises. */
  function ShouldPersist(vs: seq<Float>): Result<bool, Fault>
  {
    if |vs| < TriggerIndex + 1 then Ok(false)
    else match Round(vs[TriggerIndex])
      case Err(e) => Err(RoundFault(e))
      case Ok(n) => Ok(n == 1)
  }

  /** The trigger fires exactly when Machine On lies strictly between 0.5 and 1.5
      (0.5 and 1.5 round to 0 and 2); a short list never fires and never raises;
      only a NaN or infinite Machine On raises. Whether a fired pass then stores
      a row is CycleInsertsIff. */
  lemma ShouldPersistIff(vs: seq<Float>)
    ensures ShouldPersist(vs) == Ok(true) <==>
      |vs| > TriggerIndex && vs[TriggerIndex].Finite? && 0.5 < vs[TriggerIndex].value < 1.5
    ensures ShouldPersist(vs).Err? <==> |vs| > TriggerIndex && !vs[TriggerIndex].Finite?
  {
    if |vs| > TriggerIndex && vs[TriggerIndex].Finite? {
      RoundIsOneIff(vs[TriggerIndex].value);
    }
  }

  /** int(round(v[k])) when position k was read, else the fallback. */
  function RoundOr(vs: seq<Float>, k: nat, absent: int): (r: Result<int, Fault>)
    ensures k >= |vs| ==> r == Ok(absent)
    ensures k < |vs| && vs[k].Finite? ==> r == Ok(RoundHalfEven(vs[k].value))
    ensures k < |vs| && !vs[k].Finite? ==> r.Err?
  {
    if k >= |vs| then Ok(absent)
    else match Round(vs[k])
      case Err(e) => Err(RoundFault(e))
      case Ok(n) => Ok(n)
  }

  /** The register columns of the payload: register16 is first set from the
      interval value, then every read position i overwrites register i + 1. */
  function PayloadRegisters(vs: seq<Float>, interval: Option<Float>): (regs: Registers)
    requires interval == (if |vs| >= 16 then Some(vs[15]) else None)
    ensures forall k :: 0 <= k < RegisterCount ==> regs[k] == (if k < |vs| then Some(vs[k]) else None)
  {
    seq(RegisterCount, k requires 0 <= k < RegisterCount =>
      if k < |vs| then Some(vs[k]) else if k == 15 then interval else None)
  }

  /** The row payload: batch id from register 1, process start and end from
      registers 17 and 18, the timestamp fields from the clock, and every read
      register. The first failing round() in source order wins. */
  function BuildPayload(vs: seq<Float>, now: Instant): Result<Payload, Fault>
  {
    var batch := RoundOr(vs, 0, 0);
    var start := RoundOr(vs, 16, 0);
    var end := RoundOr(vs, 17, 0);
    if batch.Err? then Err(batch.error)
    else if start.Err? then Err(start.error)
    else if end.Err? then Err(end.error)
    else Ok(Payload(StampText(now), DateText(now), TimeText(now),
                    if |vs| >= 1 then IntText(batch.value) else "",
                    start.value, end.value,
                    PayloadRegisters(vs, if |vs| >= 16 then Some(vs[15]) else None)))
  }

  /** One pass of the polling loop on the result of the read, the clock reading
      and the float interpretation of a bit pattern. */
  function Cycle(read: Option<seq<Word>>, now: Instant, asFloat: Pattern -> Float): CycleOutcome
  {
    if read.None? || read.value == [] then NoData
    else match DecodeSpec(read.value, asFloat)
      case Err(f) => Faulted(f)
      case Ok(vs) =>
        match ShouldPersist(vs)
        case Err(f) => Faulted(f)
        case Ok(persist) =>
          if !persist then Skipped
          else match BuildPayload(vs, now)
            case Err(f) => Faulted(f)
            case Ok(p) => Insertion(p)
  }

  /** The insert itself: process_start and process_end are INTEGER columns, so a
      rounded value outside the signed 64-bit range raises instead of storing. */
  function Insertion(p: Payload): CycleOutcome
  {
    if !FitsInteger(p.processStart) then Faulted(OverflowFault(p.processStart))
    else if !FitsInteger(p.processEnd) then Faulted(OverflowFault(p.processEnd))
    else Inserted(p)
  }

  /** A value the client rounds without raising. */
  predicate RoundsAt(regs: seq<Word>, asFloat: Pattern -> Float, k: nat)
    requires 2 * k + 1 < |regs|
  {
    ValueAt(regs, asFloat, k).Finite?
  }

  /** A value that rounds to an int an INTEGER column can hold. */
  predicate RoundsToInteger(regs: seq<Word>, asFloat: Pattern -> Float, k: nat)
    requires 2 * k + 1 < |regs|
  {
    RoundsAt(regs, asFloat, k) && FitsInteger(RoundHalfEven(ValueAt(regs, asFloat, k).value))
  }

  /** A pass stores a row exactly when the read returned an even number of at
      least 22 registers, Machine On lies in (0.5, 1.5), the batch id is finite,
      and the process start and end values that were read round to ints within
      SQLite's INTEGER range. */
  lemma CycleInsertsIff(read: Option<seq<Word>>, now: Instant, asFloat: Pattern -> Float)
    ensures Cycle(read, now, asFloat).Inserted? <==>
      && read.Some? && |read.value| % 2 == 0 && |read.value| >= 2 * (TriggerIndex + 1)
      && RoundsAt(read.value, asFloat, TriggerIndex)
      && 0.5 < ValueAt(read.value, asFloat, TriggerIndex).value < 1.5
      && RoundsAt(read.value, asFloat, 0)
      && (|read.value| >= 34 ==> RoundsToInteger(read.value, asFloat, 16))
      && (|read.value| >= 36 ==> RoundsToInteger(read.value, asFloat, 17))
  {
    if read.Some? && read.value != [] && |read.value| % 2 == 0 {
      var vs := DecodeSpec(read.value, asFloat).value;
      assert |vs| == |read.value| / 2;
      ShouldPersistIff(vs);
      if |vs| > TriggerIndex {
        assert vs[TriggerIndex] == ValueAt(read.value, asFloat, TriggerIndex);
        assert vs[0] == ValueAt(read.value, asFloat, 0);
        if |vs| > 16 {
          assert vs[16] == ValueAt(read.value, asFloat, 16);
        }
        if |vs| > 17 {
          assert vs[17] == ValueAt(read.value, asFloat, 17);
        }
      }
    }
  }

  /** A running machine whose process start value is finite but rounds beyond
      SQLite's INTEGER range (1e30, say) raises OverflowError at the insert, and
      nothing is stored. */
  lemma CycleOverflowFaults(read: Option<seq<Word>>, now: Instant, asFloat: Pattern -> Float)
    requires read.Some? && |read.value| % 2 == 0 && |read.value| >= 34
    requires RoundsAt(read.value, asFloat, TriggerIndex)
    requires 0.5 < ValueAt(read.value, asFloat, TriggerIndex).value < 1.5
    requires RoundsAt(read.value, asFloat, 0) && RoundsAt(read.value, asFloat, 16)
    requires |read.value| >= 36 ==> RoundsAt(read.value, asFloat, 17)
    requires !FitsInteger(RoundHalfEven(ValueAt(read.value, asFloat, 16).value))
    ensures Cycle(read, now, asFloat) == Faulted(OverflowFault(RoundHalfEven(ValueAt(read.value, asFloat, 16).value)))
  {
    var vs := DecodeSpec(read.value, asFloat).value;
    assert |vs| == |read.value| / 2;
    ShouldPersistIff(vs);
    assert vs[TriggerIndex] == ValueAt(read.value, asFloat, TriggerIndex);
    assert vs[0] == ValueAt(read.value, asFloat, 0);
    assert vs[16] == ValueAt(read.value, asFloat, 16);
    if |vs| > 17 {
      assert vs[17] == ValueAt(read.value, asFloat, 17);
    }
  }

  /** A failed or empty read does nothing; an odd count raises the IndexError. */
  lemma CycleWithoutValues(read: Option<seq<Word>>, now: Instant, asFloat: Pattern -> Float)
    ensures read.None? || read == Some([]) ==> Cycle(read, now, asFloat) == NoData
    ensures read.Some? && |read.value| % 2 == 1 ==>
      Cycle(read, now, asFloat) == Faulted(IndexFault(|read.value|))
  {
  }

  /** What a stored row holds: the clock's three texts, str(round(register 1)),
      round(register 17) and round(register 18) (0 when not read), and every
      register that was read, NULL for the rest. */
  lemma InsertedPayloadFields(read: Option<seq<Word>>, now: Instant, asFloat: Pattern -> Float)
    requires Cycle(read, now, asFloat).Inserted?
    ensures read.Some? && |read.value| >= 2 * (TriggerIndex + 1) && RoundsAt(read.value, asFloat, 0)
    ensures |read.value| >= 34 ==> RoundsAt(read.value, asFloat, 16)
    ensures |read.value| >= 36 ==> RoundsAt(read.value, asFloat, 17)
    ensures var p := Cycle(read, now, asFloat).payload;
      var regs := read.value;
      && p.timestamp == DateText(now) + " " + TimeText(now)
      && p.date == DateText(now) && p.time == TimeText(now)
      && p.batchId == IntText(RoundHalfEven(ValueAt(regs, asFloat, 0).value))
      && p.processStart == (if |regs| >= 34 then RoundHalfEven(ValueAt(regs, asFloat, 16).value) else 0)
      && p.processEnd == (if |regs| >= 36 then RoundHalfEven(ValueAt(regs, asFloat, 17).value) else 0)
      && forall k :: 0 <= k < RegisterCount ==>
           p.registers[k] == (if 2 * k + 1 < |regs| then Some(ValueAt(regs, asFloat, k)) else None)
  {
    var regs := read.value;
    var vs := DecodeSpec(regs, asFloat).value;
    CycleInsertsIff(read, now, asFloat);
    StampIsDateSpaceTime(now);
    assert |vs| == |regs| / 2;
    assert forall k :: 0 <= k < |vs| ==> vs[k] == ValueAt(regs, asFloat, k);
  }

  /** Machine On that is read, finite and outside (0.5, 1.5) skips the pass. */
  lemma CycleSkipsWhenOff(read: Option<seq<Word>>, now: Instant, asFloat: Pattern -> Float)
    requires read.Some? && |read.value| % 2 == 0 && |read.value| >= 2 * (TriggerIndex + 1)
    requires RoundsAt(read.value, asFloat, TriggerIndex)
    requires !(0.5 < ValueAt(read.value, asFloat, TriggerIndex).value < 1.5)
    ensures Cycle(read, now, asFloat) == Skipped
  {
    var vs := DecodeSpec(read.value, asFloat).value;
    assert vs[TriggerIndex] == ValueAt(read.value, asFloat, TriggerIndex);
    ShouldPersistIff(vs);
  }

  /** A read of fewer than 11 values never stores, whatever they are. */
  lemma CycleSkipsShortRead(read: Option<seq<Word>>, now: Instant, asFloat: Pattern -> Float)
    requires read.Some? && |read.value| > 0 && |read.value| % 2 == 0 && |read.value| < 2 * (TriggerIndex + 1)
    ensures Cycle(read, now, asFloat) == Skipped
  {
    assert |DecodeSpec(read.value, asFloat).value| < TriggerIndex + 1;
  }
}
