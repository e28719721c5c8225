/** The value objects the component graph is built from: components and connections. */
module Components {
  import opened Wrappers

  /** Component categories. `NoneCategory` is the category named NONE; categories the
      graph rules never single out are collapsed into `OtherCategory`. */
  datatype Category =
    | NoneCategory
    | Grid
    | Meter
    | Inverter
    | Battery
    | EvCharger
    | Chp
    | OtherCategory(code: nat)

  /** The type discriminator carried by inverters. */
  datatype InverterType = UnspecifiedInverter | BatteryInverter | SolarInverter | HybridInverter

  /** A microgrid component: its id, its category and its optional type. */
  datatype Component = Component(id: int, category: Category, inverterType: Option<InverterType>)

  /** A directed connection from component `start` to component `end`. The pair is the
      connection's identity, so a set of connections holds at most one per ordered pair. */
  datatype Connection = Connection(start: int, end: int)
}
