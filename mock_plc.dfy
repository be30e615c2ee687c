/** The mock PLC (mock_server.py): every ten seconds it draws eighteen simulated
    values and writes them as 36 holding registers at address 600, each value as
    its IEEE-754 single-precision pattern, low word first. */
module MockPlc {

  import opened Basics
  import opened RegisterCodec

  const ValueCount := 18

  /** One round of simulated values, named as the mock names them. */
  datatype Sample = Sample(
    batchId: int,
    motorSpeed: real,
    motorCurrent: real,
    motorTorque: real,
    motorRunHour: real,
    productTemp: real,
    toolSpeed: real,
    setTime: real,
    actualTime: real,
    setToolRpm: real,
    machineOn: real,
    driveTripAlarm: real,
    pressureLowAlarm: real,
    motorPtcAlarm: real,
    tempSensorAlarm: real,
    interval: int,
    processStart: real,
    processEnd: real)

  predicate IsFlag(x: real)
  {
    x == 0.0 || x == 1.0
  }

  /** The ranges the random draws come from: randint bounds are inclusive, uniform
      draws lie between their bounds, random.choice picks one of 0.0 and 1.0, and
      process_end is always 1.0. */
  predicate InSimulatedRange(s: Sample)
  {
    && 1 <= s.batchId <= 10
    && 1200.0 <= s.motorSpeed <= 3000.0
    && 5.0 <= s.motorCurrent <= 20.0
    && 10.0 <= s.motorTorque <= 90.0
    && 100.0 <= s.motorRunHour <= 500.0
    && 20.0 <= s.productTemp <= 80.0
    && 500.0 <= s.toolSpeed <= 1500.0
    && 30.0 <= s.setTime <= 180.0
    && 30.0 <= s.actualTime <= 200.0
    && 1000.0 <= s.setToolRpm <= 3000.0
    && IsFlag(s.machineOn)
    && IsFlag(s.driveTripAlarm) && IsFlag(s.pressureLowAlarm)
    && IsFlag(s.motorPtcAlarm) && IsFlag(s.tempSensorAlarm)
    && 1 <= s.interval <= 5
    && IsFlag(s.processStart)
    && s.processEnd == 1.0
  }

  /** The float list in register order (register 1 first). */
  function Values(s: Sample): (vs: seq<real>)
    ensures |vs| == ValueCount
  {
    [s.batchId as real, s.motorSpeed, s.motorCurrent, s.motorTorque,
     s.motorRunHour, s.productTemp, s.toolSpeed, s.setTime,
     s.actualTime, s.setToolRpm, s.machineOn, s.driveTripAlarm,
     s.pressureLowAlarm, s.motorPtcAlarm, s.tempSensorAlarm,
     s.interval as real, s.processStart, s.processEnd]
  }

  /** The registers the mock writes for one sample: struct.pack('>f', f) of
      each value, split into words. */
  function MockBlock(s: Sample, pack: real -> Pattern): seq<Word>
  {
    Encode(Map(Values(s), pack))
  }

  lemma EncodeAppend(ps: seq<Pattern>, p: Pattern)
    ensures Encode(ps + [p]) == Encode(ps) + [LowWord(p), HighWord(p)]
  {
    assert (ps + [p])[..|ps|] == ps;
  }

  /** The mock's loop: for each value, its pattern split into words h1 (high)
      and h2 (low), appended as [h2, h1]. */
  method RegisterBlock(values: seq<real>, pack: real -> Pattern) returns (registers: seq<Word>)
    ensures registers == Encode(Map(values, pack))
    ensures |registers| == 2 * |values|
    ensures forall k :: 0 <= k < |values| ==>
      registers[2 * k] == LowWord(pack(values[k])) && registers[2 * k + 1] == HighWord(pack(values[k]))
  {
    registers := [];
    var i := 0;
    while i < |values|
      invariant 0 <= i <= |values|
      invariant registers == Encode(Map(values[..i], pack))
    {
      var b := pack(values[i]);
      var h1, h2 := HighWord(b), LowWord(b);
      assert values[..i + 1][..i] == values[..i];
      EncodeAppend(Map(values[..i], pack), b);
      registers := registers + [h2, h1];
      i := i + 1;
    }
    assert values[..i] == values;
    EncodeLayout(Map(values, pack));
  }

  /** The client reads back exactly the patterns the mock packed. */
  lemma MockBlockDecodes(s: Sample, pack: real -> Pattern)
    ensures |MockBlock(s, pack)| == 2 * ValueCount
    ensures Decode(MockBlock(s, pack)) == Ok(Map(Values(s), pack))
  {
    EncodeLayout(Map(Values(s), pack));
    DecodeOfEncode(Map(Values(s), pack));
  }
}
