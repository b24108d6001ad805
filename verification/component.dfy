/** The record the bill-of-materials script builds for every netlist
    component, and the Option type used for dictionary lookups. */
module Components {

  /** Some/None, as returned by a lookup that may miss. */
  datatype Option<+T> = None | Some(value: T)

  /** One component with the six text fields the report uses. `orderNumber`
      holds the "RS order number" field; it may be empty, and the empty
      string is an ordinary grouping key. */
  datatype Component = Component(
    reference: string,
    value: string,
    partName: string,
    footprint: string,
    description: string,
    orderNumber: string)
}
