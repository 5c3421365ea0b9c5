/** The meter's parameter table: which register pairs to read, in which order, under which name and unit. */
module MeterConfig {

  /** One row of the table: a display name, the register address of the pair, the unit. */
  datatype MeterParameter = MeterParameter(name: string, address: bv16, unit: string)

  /**
   * The table the reference deployment reads (a Delta power meter),
   * energy_backend.go:56-65 and modbus_client.go:22-31. The readers take the
   * table as a parameter; this constant is one value of it.
   */
  const DeltaMeterParameters: seq<MeterParameter> := [
    MeterParameter("相電壓平均值", 0x0106, "V"),
    MeterParameter("三相平均電流", 0x0126, "A"),
    MeterParameter("頻率", 0x0142, "Hz"),
    MeterParameter("三相正向實功率", 0x015C, "kW"),
    MeterParameter("三相反向實功率", 0x015E, "kW"),
    MeterParameter("線實功率因數", 0x0132, "N/A"),
    MeterParameter("電流諧波失真率", 0x0188, "%"),
    MeterParameter("電流諧波失真率", 0x018A, "%")
  ]
}
