/**
 * `combine_data_and_qc_records` (`src_py/grndwork_api_client/utils.py`): the
 * Python client's merge of data and QC records. A loop files every QC
 * record's flags under its timestamp in a dictionary (a later record
 * overwriting an earlier one), then every data record is copied with
 * `qc_flags` set to the flags filed under its timestamp, or `{}`.
 */
module CombineRecords {
  import opened Wrappers
  import opened Text
  import opened Records
  import QCMerge

  /** `qc_flags_by_timestamp` once the loop has filed every record of `qc`, in order. */
  function FlagsByTimestamp(qc: seq<QCRecord>): map<string, Flags>
  {
    if qc == [] then map[]
    else FlagsByTimestamp(qc[..|qc| - 1])[qc[|qc| - 1].timestamp := qc[|qc| - 1].qcFlags]
  }

  /** The flags of the last QC record stamped `ts`, if any. */
  function LastFlags(qc: seq<QCRecord>, ts: string): (f: Option<Flags>)
    ensures f.Some? <==> exists j :: 0 <= j < |qc| && qc[j].timestamp == ts
    ensures f.Some? ==> exists j :: 0 <= j < |qc| && qc[j].timestamp == ts && qc[j].qcFlags == f.value
                                   && forall i :: j < i < |qc| ==> qc[i].timestamp != ts
  {
    if qc == [] then None
    else if qc[|qc| - 1].timestamp == ts then Some(qc[|qc| - 1].qcFlags)
    else
      var f := LastFlags(qc[..|qc| - 1], ts);
      assert forall j :: 0 <= j < |qc| - 1 ==> qc[j] == qc[..|qc| - 1][j];
      f
  }

  /** The dictionary the loop builds holds, for each timestamp, the flags of the last QC record with it. */
  lemma {:induction false} FlagsByTimestampLookup(qc: seq<QCRecord>, ts: string)
    ensures ts in FlagsByTimestamp(qc) <==> LastFlags(qc, ts).Some?
    ensures ts in FlagsByTimestamp(qc) ==> FlagsByTimestamp(qc)[ts] == LastFlags(qc, ts).value
  {
    if qc != [] {
      FlagsByTimestampLookup(qc[..|qc| - 1], ts);
    }
  }

  /**
   * The function: the loop filling the dictionary, then the list
   * comprehension. Each output record is its data record with `qc_flags`
   * replaced by the flags of the last QC record with the same timestamp, or
   * by `{}` when there is none.
   */
  method CombineDataAndQCRecords(data: seq<DataRecord>, qc: seq<QCRecord>) returns (out: seq<DataRecord>)
    ensures |out| == |data|
    ensures forall k :: 0 <= k < |data| ==> out[k] == Flagged(data[k], LastFlags(qc, data[k].timestamp).GetOr(map[]))
  {
    var byTimestamp: map<string, Flags> := map[];
    for n := 0 to |qc|
      invariant byTimestamp == FlagsByTimestamp(qc[..n])
    {
      assert qc[..n + 1][..n] == qc[..n];
      byTimestamp := byTimestamp[qc[n].timestamp := qc[n].qcFlags];
    }
    assert qc[..|qc|] == qc;
    out := seq(|data|, k requires 0 <= k < |data| =>
      Flagged(data[k], if data[k].timestamp in byTimestamp then byTimestamp[data[k].timestamp] else map[]));
    forall k | 0 <= k < |data|
      ensures out[k] == Flagged(data[k], LastFlags(qc, data[k].timestamp).GetOr(map[]))
    {
      FlagsByTimestampLookup(qc, data[k].timestamp);
    }
  }

  lemma LastFlagsSnoc(qc: seq<QCRecord>, q: QCRecord, ts: string)
    ensures LastFlags(qc + [q], ts) == if q.timestamp == ts then Some(q.qcFlags) else LastFlags(qc, ts)
  {
    assert (qc + [q])[..|qc|] == qc;
  }

  /** A QC record whose timestamp is not `ts` does not change what is found for `ts`, wherever it stands. */
  lemma {:induction false} LastFlagsSkips(before: seq<QCRecord>, q: QCRecord, after: seq<QCRecord>, ts: string)
    requires q.timestamp != ts
    ensures LastFlags(before + [q] + after, ts) == LastFlags(before + after, ts)
    decreases |after|
  {
    if after == [] {
      assert before + [q] + after == before + [q] && before + after == before;
      LastFlagsSnoc(before, q, ts);
    } else {
      var a', x := after[..|after| - 1], after[|after| - 1];
      assert before + [q] + after == (before + [q] + a') + [x];
      assert before + after == (before + a') + [x];
      LastFlagsSnoc(before + [q] + a', x, ts);
      LastFlagsSnoc(before + a', x, ts);
      LastFlagsSkips(before, q, a', ts);
    }
  }

  /**
   * QC records whose timestamp no data record has do not change the
   * combination: what is found for every data record's timestamp is the same
   * with or without such a record.
   */
  lemma UnmatchedQCIgnored(data: seq<DataRecord>, before: seq<QCRecord>, q: QCRecord, after: seq<QCRecord>)
    requires forall k :: 0 <= k < |data| ==> data[k].timestamp != q.timestamp
    ensures forall k :: 0 <= k < |data| ==>
              LastFlags(before + [q] + after, data[k].timestamp) == LastFlags(before + after, data[k].timestamp)
  {
    forall k | 0 <= k < |data|
      ensures LastFlags(before + [q] + after, data[k].timestamp) == LastFlags(before + after, data[k].timestamp)
    {
      LastFlagsSkips(before, q, after, data[k].timestamp);
    }
  }

  /** In a newest-first QC stream timestamps are distinct, so the first record found for `ts` is also the last. */
  lemma FirstIsLast(qc: seq<QCRecord>, ts: string)
    requires QCMerge.NewestQC(qc)
    ensures QCMerge.FirstFlags(qc, ts) == LastFlags(qc, ts)
  {
    var first, last := QCMerge.FirstFlags(qc, ts), LastFlags(qc, ts);
    if first.Some? {
      var j1 :| 0 <= j1 < |qc| && qc[j1].timestamp == ts && qc[j1].qcFlags == first.value
                && forall i :: 0 <= i < j1 ==> qc[i].timestamp != ts;
      var j2 :| 0 <= j2 < |qc| && qc[j2].timestamp == ts && qc[j2].qcFlags == last.value
                && forall i :: j2 < i < |qc| ==> qc[i].timestamp != ts;
      if j1 < j2 {
        assert Below(qc[j2].timestamp, qc[j1].timestamp);
        BelowIrreflexive(ts);
      }
    }
  }

  /**
   * The two clients agree on newest-first streams: the JavaScript merge flags
   * a data record exactly when the Python combination finds flags for it, with
   * the same flags; the records the JavaScript merge leaves unchanged are the
   * ones the Python combination gives `{}`.
   */
  lemma MergeAgreesWithCombine(data: seq<DataRecord>, qc: seq<QCRecord>)
    requires QCMerge.Newest(data) && QCMerge.NewestQC(qc)
    ensures forall k :: 0 <= k < |data| ==>
              var found := LastFlags(qc, data[k].timestamp);
              QCMerge.Merge(data, qc)[k] == if found.Some? then Flagged(data[k], found.value) else data[k]
  {
    QCMerge.MergeNewestFirst(data, qc);
    forall k | 0 <= k < |data| ensures QCMerge.FirstFlags(qc, data[k].timestamp) == LastFlags(qc, data[k].timestamp) {
      FirstIsLast(qc, data[k].timestamp);
    }
  }
}
