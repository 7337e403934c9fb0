/** Types shared by the whole model. */
module Wrappers {
  datatype Option<+T> = None | Some(value: T)

  datatype Result<+T, +E> = Ok(value: T) | Err(error: E)

  const U64_MAX: nat := 0xFFFF_FFFF_FFFF_FFFF

  type u64 = n: nat | n <= U64_MAX

  /** Sensor data with its time and its number. */
  datatype Timestamped<+T> = Timestamped(timestampNs: u64, sequence: nat, data: T)
}
