/** What several models share. */
module Common {
  datatype Option<+T> = None | Some(value: T)

  /** CLUSTER_SLOTS; a slot is crc16 & 0x3FFF */
  const SLOTS := 16384
}
