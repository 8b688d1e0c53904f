/**
 * Shared vocabulary of the two sync tools: instants as `DateTime` ticks
 * and the file record a listing produces.
 */
module Files {

  /** A `DateTime` is modelled by its tick count: 100-nanosecond units since 0001-01-01. */
  const MinTicks: int := 0                       // DateTime.MinValue == default(DateTime)
  const MaxTicks: int := 3155378975999999999     // DateTime.MaxValue
  const TicksPerSecond: int := 10000000
  const UnixEpochTicks: int := 621355968000000000 // 1970-01-01T00:00:00

  /** `MaFile` / `ServuFile`: what one listing record becomes. `Date` is in ticks. */
  datatype RemoteFile = RemoteFile(Name: string, Size: int, Date: int)

  type MaFile = RemoteFile
  type ServuFile = RemoteFile
}
