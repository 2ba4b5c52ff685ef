/**
 * The record shapes the data and QC endpoints return
 * (`src_js/grndwork_api_client/interfaces.ts`), cut down to the fields the
 * client logic reads: every record's `timestamp`, the data record's optional
 * `qc_flags`, a data file's `filename`.
 */
module Records {
  import opened Wrappers

  /** A scalar in a record's `data` or `qc_flags` object (numbers kept to integers). */
  datatype Value = Number(n: int) | Str(s: string) | Bool(b: bool) | Null

  type Flags = map<string, Value>

  datatype DataRecord = DataRecord(timestamp: string, recordNum: int, data: map<string, Value>, qcFlags: Option<Flags>)

  datatype QCRecord = QCRecord(timestamp: string, qcFlags: Flags)

  /** A data file listing entry: its `filename` and every other field, kept opaque. */
  datatype DataFile = DataFile(filename: string, fields: map<string, string>)

  /** `{...record, qc_flags: flags}`: the same record with its flags replaced. */
  function Flagged(r: DataRecord, flags: Flags): (f: DataRecord)
    ensures f.timestamp == r.timestamp && f.recordNum == r.recordNum && f.data == r.data
    ensures f.qcFlags == Some(flags)
  {
    r.(qcFlags := Some(flags))
  }
}
