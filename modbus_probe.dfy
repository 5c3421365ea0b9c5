/**
 * One pass of the register probe in modbus_client.go (`readMeterData`): for
 * each parameter of the table, read two holding registers and report the
 * three readings of the four bytes, or why there are none.
 */
module ModbusProbe {
  import opened Wrappers
  import opened RegisterDecoder
  import opened MeterConfig

  /** The values printed for one register pair (modbus_client.go:80-102). */
  datatype Interpretations = Interpretations(
    bigEndian: Float32,
    wordSwapped: Float32,
    firstRegister: bv16,
    registers: (bv16, bv16),
    bytes: seq<bv8>)

  /** What the probe reports for one parameter. */
  datatype ProbeLine =
    | ReadFailed(name: string)
    | InsufficientData(name: string, count: nat)
    | Decoded(name: string, unit: string, values: Interpretations)

  /** A failed connect ends the program (log.Fatalf) before any register is read. */
  datatype ProbeError = ConnectFailed

  /** The readings of the first four bytes, which agree with one another as the register layout dictates. */
  function Interpret(results: seq<bv8>): (v: Interpretations)
    requires |results| >= 4
    ensures PutUint32(v.bigEndian.bits) == v.bytes == results[..4]
    ensures v.wordSwapped.bits == SwapHalves(v.bigEndian.bits)
    ensures v.firstRegister == HighHalf(v.bigEndian.bits)
    ensures Concat16(v.registers.0, v.registers.1) == v.bigEndian.bits
    ensures v.registers.0 == v.firstRegister
  {
    var straight := BigEndianUint32(results);
    var swapped := WordSwappedUint32(results);
    var first := FirstRegister(results);
    var registers := RawRegisters(results);
    Interpretations(FromBits(straight), FromBits(swapped), first, registers, results[..4])
  }

  /**
   * The report for one parameter given the outcome of its register read
   * (None for a read error): a failed read is reported and skipped, fewer than
   * four bytes are reported as insufficient and not decoded.
   */
  function Probe(param: MeterParameter, result: Option<seq<bv8>>): (line: ProbeLine)
    ensures line.name == param.name
    ensures line.Decoded? ==> line.unit == param.unit
  {
    match result
    case None => ReadFailed(param.name)
    case Some(results) =>
      if |results| >= 4 then Decoded(param.name, param.unit, Interpret(results))
      else InsufficientData(param.name, |results|)
  }

  /** The three kinds of report and the read outcomes that produce them. */
  lemma ProbeCases(param: MeterParameter, result: Option<seq<bv8>>)
    ensures Probe(param, result).ReadFailed? <==> result.None?
    ensures Probe(param, result).InsufficientData? <==> result.Some? && |result.value| < 4
    ensures Probe(param, result).Decoded? <==> result.Some? && |result.value| >= 4
    ensures Probe(param, result).name == param.name
    ensures Probe(param, result).InsufficientData? ==> Probe(param, result).count == |result.value|
    ensures Probe(param, result).Decoded? ==>
      Probe(param, result).unit == param.unit
      && Probe(param, result).values.bigEndian.bits == BigEndianUint32(result.value)
      && Probe(param, result).values.wordSwapped.bits == BigEndianUint32(WordSwap(result.value))
  {
  }

  /**
   * One pass over the parameter table. `results[i]` is the outcome of reading
   * two registers at `params[i].address`. Every parameter gets one report, in
   * table order; a failed read does not stop the pass.
   */
  method ProbeParameters(params: seq<MeterParameter>, connected: bool, results: seq<Option<seq<bv8>>>)
    returns (r: Result<seq<ProbeLine>, ProbeError>)
    requires |results| == |params|
    ensures r.Err? <==> !connected
    ensures r.Ok? ==> |r.value| == |params|
    ensures r.Ok? ==> forall i :: 0 <= i < |params| ==> r.value[i] == Probe(params[i], results[i])
  {
    if !connected {
      return Err(ConnectFailed);
    }
    var lines: seq<ProbeLine> := [];
    var i := 0;
    while i < |params|
      invariant 0 <= i <= |params|
      invariant |lines| == i
      invariant forall j :: 0 <= j < i ==> lines[j] == Probe(params[j], results[j])
    {
      var param := params[i];
      match results[i] {
        case None =>
          lines := lines + [ReadFailed(param.name)];
        case Some(bytes) =>
          if |bytes| >= 4 {
            var values := Interpretations(
              FromBits(BigEndianUint32(bytes)),
              FromBits(BigEndianUint32(WordSwap(bytes))),
              BigEndianUint16(bytes[0..2]),
              (BigEndianUint16(bytes[0..2]), BigEndianUint16(bytes[2..4])),
              bytes[..4]);
            lines := lines + [Decoded(param.name, param.unit, values)];
          } else {
            lines := lines + [InsufficientData(param.name, |bytes|)];
          }
      }
      i := i + 1;
    }
    return Ok(lines);
  }
}
