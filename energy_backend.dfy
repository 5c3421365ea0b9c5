/**
 * The acquisition side of energy_backend.go: one batch of readings from the
 * meter (`ReadMeterData`), storing it (`SaveToDatabase`), and the body of one
 * tick of `StartDataCollection`, which does both and logs the outcome.
 */
module EnergyBackend {
  import opened Wrappers
  import opened RegisterDecoder
  import opened MeterConfig
  import ModbusProbe

  /** One reading: its position in the parameter table, the parameter's name and unit, and the value. */
  datatype MeterReading = MeterReading(index: nat, name: string, value: Float32, unit: string)

  datatype ReadError = ConnectFailed

  // ---------------------------------------------------------------------------
  // ReadMeterData (energy_backend.go:120-162)
  // ---------------------------------------------------------------------------

  /** The read of parameter i succeeded and returned at least the four bytes of a register pair. */
  predicate ReadUsable(results: seq<Option<seq<bv8>>>, i: nat)
    requires i < |results|
  {
    results[i].Some? && |results[i].value| >= 4
  }

  /** The reading a usable read of parameter i gives: its index, its parameter's name and unit, the word-swapped value. */
  function ReadingOf(params: seq<MeterParameter>, results: seq<Option<seq<bv8>>>, i: nat): MeterReading
    requires |results| == |params| && i < |params| && ReadUsable(results, i)
  {
    MeterReading(i, params[i].name, FromBits(WordSwappedUint32(results[i].value)), params[i].unit)
  }

  /** The reading of a usable read is the big-endian word of its bytes in the order [2, 3, 0, 1]. */
  lemma SwappedBytesReading(params: seq<MeterParameter>, results: seq<Option<seq<bv8>>>, i: nat, swapped: seq<bv8>)
    requires |results| == |params| && i < |params| && ReadUsable(results, i)
    requires var b := results[i].value; swapped == [b[2], b[3], b[0], b[1]]
    ensures ReadingAt(params, results, i)
      == [MeterReading(i, params[i].name, FromBits(BigEndianUint32(swapped)), params[i].unit)]
  {
    assert swapped == WordSwap(results[i].value);
  }

  /** The reading parameter i contributes: none if its read failed or came back short. */
  function ReadingAt(params: seq<MeterParameter>, results: seq<Option<seq<bv8>>>, i: nat): seq<MeterReading>
    requires |results| == |params| && i < |params|
  {
    if ReadUsable(results, i) then [ReadingOf(params, results, i)] else []
  }

  /** The batch built from the first k parameters of the table. */
  function Readings(params: seq<MeterParameter>, results: seq<Option<seq<bv8>>>, k: nat): (batch: seq<MeterReading>)
    requires |results| == |params| && k <= |params|
    ensures |batch| <= k
  {
    if k == 0 then [] else Readings(params, results, k - 1) + ReadingAt(params, results, k - 1)
  }

  /**
   * A batch fits a parameter table when its indices are positions of the table,
   * strictly increasing, and each reading carries its parameter's name and unit.
   */
  predicate WellTagged(params: seq<MeterParameter>, batch: seq<MeterReading>) {
    && (forall j :: 0 <= j < |batch| ==>
          batch[j].index < |params|
          && batch[j].name == params[batch[j].index].name
          && batch[j].unit == params[batch[j].index].unit)
    && (forall j, j' :: 0 <= j < j' < |batch| ==> batch[j].index < batch[j'].index)
  }

  /** Each reading of the batch is the reading of a usable read among the first k. */
  lemma {:induction false} ReadingsFromReads(params: seq<MeterParameter>, results: seq<Option<seq<bv8>>>, k: nat)
    requires |results| == |params| && k <= |params|
    ensures var batch := Readings(params, results, k);
      && |batch| <= k
      && forall j :: 0 <= j < |batch| ==>
           batch[j].index < k && ReadUsable(results, batch[j].index)
           && batch[j] == ReadingOf(params, results, batch[j].index)
  {
    if k > 0 {
      ReadingsFromReads(params, results, k - 1);
      var prefix := Readings(params, results, k - 1);
      assert Readings(params, results, k) == prefix + ReadingAt(params, results, k - 1);
    }
  }

  /** The indices of a batch strictly increase. */
  lemma {:induction false} ReadingsIncreasing(params: seq<MeterParameter>, results: seq<Option<seq<bv8>>>, k: nat)
    requires |results| == |params| && k <= |params|
    ensures var batch := Readings(params, results, k);
      forall j, j' :: 0 <= j < j' < |batch| ==> batch[j].index < batch[j'].index
  {
    if k > 0 {
      ReadingsIncreasing(params, results, k - 1);
      ReadingsFromReads(params, results, k - 1);
      var prefix := Readings(params, results, k - 1);
      var batch := prefix + ReadingAt(params, results, k - 1);
      assert Readings(params, results, k) == batch;
      forall j, j' | 0 <= j < j' < |batch| ensures batch[j].index < batch[j'].index {
        assert batch[j] == prefix[j];
        if j' < |prefix| {
          assert batch[j'] == prefix[j'];
        }
      }
    }
  }

  /**
   * Every reading of the batch comes from a usable read of the parameter it
   * names, decoded word-swapped; the batch fits the table and is no longer than
   * the part of the table read.
   */
  lemma ReadingsSound(params: seq<MeterParameter>, results: seq<Option<seq<bv8>>>, k: nat)
    requires |results| == |params| && k <= |params|
    ensures var batch := Readings(params, results, k);
      && |batch| <= k
      && WellTagged(params, batch)
      && (forall j :: 0 <= j < |batch| ==>
            batch[j].index < k
            && ReadUsable(results, batch[j].index)
            && batch[j].value == FromBits(WordSwappedUint32(results[batch[j].index].value)))
  {
    ReadingsFromReads(params, results, k);
    ReadingsIncreasing(params, results, k);
  }

  /** A usable read is kept: the position of its reading in the batch. */
  lemma {:induction false} UsableReadKept(params: seq<MeterParameter>, results: seq<Option<seq<bv8>>>, k: nat, i: nat)
    returns (j: nat)
    requires |results| == |params| && i < k <= |params| && ReadUsable(results, i)
    ensures j < |Readings(params, results, k)| && Readings(params, results, k)[j].index == i
  {
    var prefix := Readings(params, results, k - 1);
    assert Readings(params, results, k) == prefix + ReadingAt(params, results, k - 1);
    if i < k - 1 {
      j := UsableReadKept(params, results, k - 1, i);
      assert Readings(params, results, k)[j] == prefix[j];
    } else {
      j := |prefix|;
    }
  }

  /** A parameter has a reading in the batch exactly when its read was usable: failed and short reads are skipped. */
  lemma ReadingsComplete(params: seq<MeterParameter>, results: seq<Option<seq<bv8>>>, k: nat, i: nat)
    requires |results| == |params| && i < k <= |params|
    ensures ReadUsable(results, i) <==>
      exists j :: 0 <= j < |Readings(params, results, k)| && Readings(params, results, k)[j].index == i
  {
    if ReadUsable(results, i) {
      var j := UsableReadKept(params, results, k, i);
    } else {
      ReadingsFromReads(params, results, k);
    }
  }

  /**
   * The backend stores, for each usable read, the word-swapped (CDAB) reading
   * of the register probe, the one of its three readings it settled on.
   */
  lemma BackendUsesWordSwapReading(params: seq<MeterParameter>, results: seq<Option<seq<bv8>>>, i: nat)
    requires |results| == |params| && i < |params| && ReadUsable(results, i)
    ensures ModbusProbe.Probe(params[i], results[i]).Decoded?
    ensures var batch := Readings(params, results, |params|);
      exists j :: 0 <= j < |batch| && batch[j].index == i
        && batch[j].value == ModbusProbe.Probe(params[i], results[i]).values.wordSwapped
  {
    var batch := Readings(params, results, |params|);
    ReadingsComplete(params, results, |params|, i);
    ReadingsFromReads(params, results, |params|);
    var j :| 0 <= j < |batch| && batch[j].index == i;
    assert batch[j].value == ModbusProbe.Probe(params[i], results[i]).values.wordSwapped;
  }

  /** When every read is usable the batch has one reading per parameter, in table order. */
  lemma {:induction false} AllReadsUsable(params: seq<MeterParameter>, results: seq<Option<seq<bv8>>>, k: nat)
    requires |results| == |params| && k <= |params|
    requires forall i :: 0 <= i < |results| ==> ReadUsable(results, i)
    ensures |Readings(params, results, k)| == k
    ensures forall j :: 0 <= j < k ==> Readings(params, results, k)[j].index == j
  {
    if k > 0 {
      AllReadsUsable(params, results, k - 1);
    }
  }

  // ---------------------------------------------------------------------------
  // The log, SaveToDatabase (energy_backend.go:165-178) and one tick (191-203)
  // ---------------------------------------------------------------------------

  /** The device identifier every row is stored under. */
  const DeviceId := "DPMC530E"

  /** One inserted row of meter_data: device and batch (the JSON text, id and timestamp are not modelled). */
  datatype Row = Row(deviceId: string, readings: seq<MeterReading>)

  datatype SaveError = MarshalFailed | InsertFailed

  /** json.Marshal refuses NaN and the infinities, so a batch can be encoded only if every value is finite. */
  predicate Marshalable(batch: seq<MeterReading>) {
    forall j :: 0 <= j < |batch| ==> IsFinite(batch[j].value)
  }

  /** What the log records: a parameter whose read failed, and the outcome of a tick. */
  datatype LogEntry =
    | ParameterReadFailed(index: nat, name: string)
    | ReadFailed(readError: ReadError)
    | SaveFailed(saveError: SaveError)
    | Collected(count: nat)

  /** The failure lines ReadMeterData logs for the first k parameters: one per read that returned an error, in table order. */
  function FailureLog(params: seq<MeterParameter>, results: seq<Option<seq<bv8>>>, k: nat): seq<LogEntry>
    requires |results| == |params| && k <= |params|
  {
    if k == 0 then []
    else
      FailureLog(params, results, k - 1)
      + if results[k - 1].None? then [ParameterReadFailed(k - 1, params[k - 1].name)] else []
  }

  /** A failure line for a parameter among the first k: its index and name, and its read returned an error. */
  predicate LogsFailedRead(params: seq<MeterParameter>, results: seq<Option<seq<bv8>>>, k: nat, entry: LogEntry)
    requires |results| == |params| && k <= |params|
  {
    entry.ParameterReadFailed? && entry.index < k
    && results[entry.index].None? && entry.name == params[entry.index].name
  }

  /** Each failure line names a parameter among the first k, by index and name, whose read returned an error. */
  lemma {:induction false} FailureLogSound(params: seq<MeterParameter>, results: seq<Option<seq<bv8>>>, k: nat)
    requires |results| == |params| && k <= |params|
    ensures forall e :: 0 <= e < |FailureLog(params, results, k)| ==>
      LogsFailedRead(params, results, k, FailureLog(params, results, k)[e])
  {
    if k > 0 {
      FailureLogSound(params, results, k - 1);
      var prefix := FailureLog(params, results, k - 1);
      var failures := FailureLog(params, results, k);
      forall e | 0 <= e < |failures| ensures LogsFailedRead(params, results, k, failures[e]) {
        if e < |prefix| {
          assert failures[e] == prefix[e];
          assert LogsFailedRead(params, results, k - 1, prefix[e]);
        }
      }
    }
  }

  /** Failure lines whose indices strictly increase. */
  predicate InTableOrder(failures: seq<LogEntry>) {
    forall e, e' :: 0 <= e < e' < |failures| ==>
      failures[e].ParameterReadFailed? && failures[e'].ParameterReadFailed?
      && failures[e].index < failures[e'].index
  }

  /** The indices of the failure lines strictly increase: they follow table order. */
  lemma {:induction false} FailureLogIncreasing(params: seq<MeterParameter>, results: seq<Option<seq<bv8>>>, k: nat)
    requires |results| == |params| && k <= |params|
    ensures InTableOrder(FailureLog(params, results, k))
  {
    if k > 0 {
      FailureLogIncreasing(params, results, k - 1);
      FailureLogSound(params, results, k - 1);
      var prefix := FailureLog(params, results, k - 1);
      var failures := FailureLog(params, results, k);
      forall e, e' | 0 <= e < e' < |failures|
        ensures failures[e].ParameterReadFailed? && failures[e'].ParameterReadFailed?
        ensures failures[e].index < failures[e'].index
      {
        assert failures[e] == prefix[e];
        assert LogsFailedRead(params, results, k - 1, prefix[e]);
        if e' < |prefix| {
          assert failures[e'] == prefix[e'];
          assert prefix[e].index < prefix[e'].index;
        } else {
          assert failures[e'] == ParameterReadFailed(k - 1, params[k - 1].name);
        }
      }
    }
  }

  /** A read that returned an error is logged: the position of its failure line. */
  lemma {:induction false} FailedReadLogged(params: seq<MeterParameter>, results: seq<Option<seq<bv8>>>, k: nat, i: nat)
    returns (e: nat)
    requires |results| == |params| && i < k <= |params| && results[i].None?
    ensures e < |FailureLog(params, results, k)| && FailureLog(params, results, k)[e] == ParameterReadFailed(i, params[i].name)
  {
    var prefix := FailureLog(params, results, k - 1);
    if i < k - 1 {
      e := FailedReadLogged(params, results, k - 1, i);
      assert FailureLog(params, results, k)[e] == prefix[e];
    } else {
      e := |prefix|;
    }
  }

  /** No parameter both fails and yields a reading: failure lines and readings together number at most k. */
  lemma {:induction false} FailuresAndReadingsDisjoint(params: seq<MeterParameter>, results: seq<Option<seq<bv8>>>, k: nat)
    requires |results| == |params| && k <= |params|
    ensures |FailureLog(params, results, k)| + |Readings(params, results, k)| <= k
  {
    if k > 0 {
      FailuresAndReadingsDisjoint(params, results, k - 1);
    }
  }

  /** The collector of one deployment: its parameter table, the rows it has stored, its log. */
  class EnergySystem {
    const parameters: seq<MeterParameter>
    var rows: seq<Row>
    var log: seq<LogEntry>

    /** Every stored row is a finite, well-tagged batch for this table under the device identifier. */
    ghost predicate Valid()
      reads this
    {
      forall k :: 0 <= k < |rows| ==>
        rows[k].deviceId == DeviceId
        && WellTagged(parameters, rows[k].readings)
        && Marshalable(rows[k].readings)
    }

    constructor (parameters: seq<MeterParameter>)
      ensures Valid()
      ensures this.parameters == parameters && rows == [] && log == []
    {
      this.parameters := parameters;
      rows := [];
      log := [];
    }

    /**
     * ReadMeterData: connect, then read two registers for each parameter in
     * table order. `connected` is the outcome of the connect; `results[i]` is
     * the outcome of the read for `parameters[i]` (None when it returned an
     * error). A failed read is logged and the parameter skipped; a short read is
     * skipped silently.
     */
    method ReadMeterData(connected: bool, results: seq<Option<seq<bv8>>>)
      returns (r: Result<seq<MeterReading>, ReadError>)
      requires |results| == |parameters|
      modifies this`log
      ensures !connected ==> r == Err(ConnectFailed) && log == old(log)
      ensures connected ==> r == Ok(Readings(parameters, results, |parameters|))
      ensures connected ==> log == old(log) + FailureLog(parameters, results, |parameters|)
    {
      if !connected {
        return Err(ConnectFailed);
      }
      var readings: seq<MeterReading> := [];
      var i := 0;
      while i < |parameters|
        invariant 0 <= i <= |parameters|
        invariant readings == Readings(parameters, results, i)
        invariant log == old(log) + FailureLog(parameters, results, i)
      {
        var param := parameters[i];
        if results[i].None? {
          assert FailureLog(parameters, results, i + 1) == FailureLog(parameters, results, i) + [ParameterReadFailed(i, param.name)];
          log := log + [ParameterReadFailed(i, param.name)];
          i := i + 1;
          continue;
        }
        assert FailureLog(parameters, results, i + 1) == FailureLog(parameters, results, i) + [];
        var bytes := results[i].value;
        if |bytes| >= 4 {
          var swapped := [bytes[2], bytes[3], bytes[0], bytes[1]];
          var valueFloat := BigEndianUint32(swapped);
          SwappedBytesReading(parameters, results, i, swapped);
          readings := readings + [MeterReading(i, param.name, FromBits(valueFloat), param.unit)];
        } else {
          assert ReadingAt(parameters, results, i) == [];
          assert readings == readings + [];
        }
        i := i + 1;
      }
      return Ok(readings);
    }

    /**
     * SaveToDatabase: encode the batch, then insert it. `insertOk` is the
     * outcome of the insert. Nothing is stored when either step fails.
     */
    method SaveToDatabase(readings: seq<MeterReading>, insertOk: bool) returns (err: Option<SaveError>)
      modifies this`rows
      ensures !Marshalable(readings) ==> err == Some(MarshalFailed) && rows == old(rows)
      ensures Marshalable(readings) && !insertOk ==> err == Some(InsertFailed) && rows == old(rows)
      ensures Marshalable(readings) && insertOk ==> err == None && rows == old(rows) + [Row(DeviceId, readings)]
      ensures old(Valid()) && WellTagged(parameters, readings) ==> Valid()
    {
      if !Marshalable(readings) {
        return Some(MarshalFailed);
      }
      if !insertOk {
        return Some(InsertFailed);
      }
      rows := rows + [Row(DeviceId, readings)];
      return None;
    }

    /**
     * The body of one tick: read a batch, logging each parameter whose read
     * failed; a read error is logged and nothing is saved; a save error is
     * logged; otherwise the count of readings is logged. The stored rows stay
     * valid.
     */
    method CollectOnce(connected: bool, results: seq<Option<seq<bv8>>>, insertOk: bool)
      requires Valid() && |results| == |parameters|
      modifies this
      ensures Valid()
      ensures var batch := Readings(parameters, results, |parameters|);
        var failures := FailureLog(parameters, results, |parameters|);
        if !connected then
          rows == old(rows) && log == old(log) + [ReadFailed(ConnectFailed)]
        else if !Marshalable(batch) then
          rows == old(rows) && log == old(log) + failures + [SaveFailed(MarshalFailed)]
        else if !insertOk then
          rows == old(rows) && log == old(log) + failures + [SaveFailed(InsertFailed)]
        else
          rows == old(rows) + [Row(DeviceId, batch)] && log == old(log) + failures + [Collected(|batch|)]
    {
      var r := ReadMeterData(connected, results);
      if r.Err? {
        log := log + [ReadFailed(r.error)];
        return;
      }
      var readings := r.value;
      ReadingsSound(parameters, results, |parameters|);
      var err := SaveToDatabase(readings, insertOk);
      if err.Some? {
        log := log + [SaveFailed(err.value)];
        return;
      }
      log := log + [Collected(|readings|)];
    }
  }

  /**
   * A one-parameter table read from bytes 3F 80 00 00: the backend decodes
   * them word-swapped, so the stored bit pattern is 0x00003F80, not the
   * straight reading 0x3F800000.
   */
  lemma VoltageScenario()
    ensures var params := [MeterParameter("V_avg", 0x0106, "V")];
      var results: seq<Option<seq<bv8>>> := [Some([0x3F, 0x80, 0x00, 0x00])];
      Readings(params, results, 1) == [MeterReading(0, "V_avg", FromBits(0x0000_3F80), "V")]
  {
    var results: seq<Option<seq<bv8>>> := [Some([0x3F, 0x80, 0x00, 0x00])];
    OnePointZeroExample();
  }

  /** With the reference table and every read usable, a batch has eight readings indexed 0 to 7. */
  lemma FullDeltaBatch(results: seq<Option<seq<bv8>>>)
    requires |results| == |DeltaMeterParameters|
    requires forall i :: 0 <= i < |results| ==> ReadUsable(results, i)
    ensures var batch := Readings(DeltaMeterParameters, results, 8);
      |batch| == 8 && forall j :: 0 <= j < 8 ==> batch[j].index == j && batch[j].name == DeltaMeterParameters[j].name
  {
    AllReadsUsable(DeltaMeterParameters, results, 8);
    ReadingsSound(DeltaMeterParameters, results, 8);
  }
}
