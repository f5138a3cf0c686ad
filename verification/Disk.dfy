/** Files and the data directory of the store. */
module Disk {
  import opened ByteStrings

  /** The contents of one file, shared by its directory entry and its open handles. */
  class File {
    var data: Bytes

    constructor (data: Bytes)
      ensures this.data == data
    {
      this.data := data;
    }
  }

  /** The table files data_<timestamp>.sst by timestamp, wal.log and wal.log.flushing. */
  class DataDir {
    var tables: map<int, Bytes>
    var log: File?
    var flushing: File?

    constructor ()
      ensures tables == map[] && log == null && flushing == null
    {
      tables, log, flushing := map[], null, null;
    }
  }
}
