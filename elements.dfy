// One row of the element dataset as the browser script receives it.
module Elements {
  import opened Seqs

  /** An element record. `Group` and `Period` are absent (JSON `null`) when
      the dataset leaves them empty; the display-only attributes (atomic
      mass, electronegativity, radius, melting and boiling points) play no
      part in placement or search and are not carried. */
  datatype ElementRecord = ElementRecord(
    atomicNumber: int,
    symbol: string,
    name: string,       // the `Element` column
    category: string,
    group: Option<int>,
    period: Option<int>)
}
