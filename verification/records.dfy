/** The persisted record: header, events and settings (the structs of src/dat.rs). */
module Records {
  import opened Bytes

  /** One timestamped occurrence. */
  datatype Event = Event(timestamp: u64, polarity: bool)

  /** File metadata. `timestampCount` is not tied to the number of stored events. */
  datatype Header = Header(
    version: u32,
    timestampCount: u64,
    timestampResolution: u64,
    size: u32,
    recordType: u32,
    aesKey: Block)

  /** The configuration the rest of the application consumes. */
  datatype Settings = Settings(websocketPort: u16, httpPort: u16, host: string)

  /** The triple one file generation holds, serialised as a whole. */
  datatype Record = Record(header: Header, events: seq<Event>, settings: Settings)

  /** The fixed initialisation vector, the ASCII bytes of "abcdef0123456789". */
  const AesIv: Block := [
    0x61, 0x62, 0x63, 0x64, 0x65, 0x66,
    0x30, 0x31, 0x32, 0x33, 0x34, 0x35, 0x36, 0x37, 0x38, 0x39]

  /** The header written when no file exists yet; its key is the IV constant. */
  const DefaultHeader := Header(1, 0, 1000, 9, 0, AesIv)

  const DefaultSettings := Settings(8080, 8000, "127.0.0.1")

  const DefaultRecord := Record(DefaultHeader, [], DefaultSettings)
}
