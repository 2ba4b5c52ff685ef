/**
 * `Client._includeQCFlags` (`src_js/grndwork_api_client/client.ts`): a
 * two-pointer merge of the data-record stream with the QC-record stream, both
 * newest first. Each data record is emitted once, in order; it carries the
 * `qc_flags` of the pending QC record when the timestamps are equal.
 */
module QCMerge {
  import opened Wrappers
  import opened Text
  import opened Records

  /**
   * What the merge emits for `data` and `qc`, the records still to be read
   * from each stream (a record held in a pending slot is at the head).
   */
  function Merge(data: seq<DataRecord>, qc: seq<QCRecord>): (out: seq<DataRecord>)
    ensures |out| == |data|
    decreases |data| + |qc|
  {
    if data == [] then []
    else if qc != [] && data[0].timestamp == qc[0].timestamp then
      [Flagged(data[0], qc[0].qcFlags)] + Merge(data[1..], qc[1..])
    else if qc == [] || Below(qc[0].timestamp, data[0].timestamp) then
      [data[0]] + Merge(data[1..], qc)
    else
      Merge(data, qc[1..])
  }

  /** A pending slot followed by what is left in its stream. */
  function Pending<T>(slot: Option<T>, rest: seq<T>): seq<T>
  {
    if slot.Some? then [slot.value] + rest else rest
  }

  /**
   * The loop of `_includeQCFlags` over the two streams, given as sequences:
   * an empty slot is refilled from its stream (`undefined` once it is
   * exhausted) at the top of every round, and the loop ends when no data
   * record is left.
   */
  method IncludeQCFlags(data: seq<DataRecord>, qc: seq<QCRecord>) returns (out: seq<DataRecord>)
    ensures out == Merge(data, qc)
  {
    var dataRecord: Option<DataRecord> := None;
    var qcRecord: Option<QCRecord> := None;
    var i, j := 0, 0;
    out := [];
    while true
      invariant i <= |data| && j <= |qc|
      invariant Merge(data, qc) == out + Merge(Pending(dataRecord, data[i..]), Pending(qcRecord, qc[j..]))
      decreases (|data| - i) + (|qc| - j) + (if dataRecord.Some? then 1 else 0) + (if qcRecord.Some? then 1 else 0)
    {
      if dataRecord.None? && i < |data| {
        Refill(data, i);
        dataRecord, i := Some(data[i]), i + 1;
      }
      if qcRecord.None? && j < |qc| {
        Refill(qc, j);
        qcRecord, j := Some(qc[j]), j + 1;
      }
      if dataRecord.Some? {
        var dr, rest, qrest := dataRecord.value, data[i..], qc[j..];
        if qcRecord.Some? && dr.timestamp == qcRecord.value.timestamp {
          var flagged := Flagged(dr, qcRecord.value.qcFlags);
          RoundFlag(dr, rest, qcRecord.value, qrest);
          Associate(out, flagged, Merge(rest, qrest));
          out := out + [flagged];
          dataRecord, qcRecord := None, None;
        } else if qcRecord.None? || Below(qcRecord.value.timestamp, dr.timestamp) {
          RoundPass(dr, rest, qcRecord, qrest);
          Associate(out, dr, Merge(rest, Pending(qcRecord, qrest)));
          out := out + [dr];
          dataRecord := None;
        } else {
          RoundDrop(dr, rest, qcRecord.value, qrest);
          qcRecord := None;
        }
      } else {
        assert data[i..] == [];
        break;
      }
    }
  }

  /** Filling an empty slot from its stream leaves the pending records as they were. */
  lemma Refill<T>(s: seq<T>, i: nat)
    requires i < |s|
    ensures Pending(None, s[i..]) == Pending(Some(s[i]), s[i + 1..])
  {
    assert s[i..] == [s[i]] + s[i + 1..];
  }

  /** A round whose two slots carry the same timestamp: the flagged record goes out, both slots empty. */
  lemma RoundFlag(dr: DataRecord, rest: seq<DataRecord>, qr: QCRecord, qrest: seq<QCRecord>)
    requires dr.timestamp == qr.timestamp
    ensures Merge(Pending(Some(dr), rest), Pending(Some(qr), qrest)) == [Flagged(dr, qr.qcFlags)] + Merge(rest, qrest)
  {
    MergeHead(dr, rest, [qr] + qrest);
    assert ([qr] + qrest)[1..] == qrest;
  }

  /** A round whose data record is newer than the pending QC record, or has none: the record goes out as it is. */
  lemma RoundPass(dr: DataRecord, rest: seq<DataRecord>, qr: Option<QCRecord>, qrest: seq<QCRecord>)
    requires qr.None? ==> qrest == []
    requires qr.Some? ==> dr.timestamp != qr.value.timestamp && Below(qr.value.timestamp, dr.timestamp)
    ensures Merge(Pending(Some(dr), rest), Pending(qr, qrest)) == [dr] + Merge(rest, Pending(qr, qrest))
  {
    MergeHead(dr, rest, Pending(qr, qrest));
  }

  /** A round whose QC record is newer than the data record: the QC record is dropped. */
  lemma RoundDrop(dr: DataRecord, rest: seq<DataRecord>, qr: QCRecord, qrest: seq<QCRecord>)
    requires dr.timestamp != qr.timestamp && !Below(qr.timestamp, dr.timestamp)
    ensures Merge(Pending(Some(dr), rest), Pending(Some(qr), qrest)) == Merge(Pending(Some(dr), rest), qrest)
  {
    MergeHead(dr, rest, [qr] + qrest);
    assert ([qr] + qrest)[1..] == qrest;
  }

  /** One round of the merge with `dr` in the data slot. */
  lemma MergeHead(dr: DataRecord, rest: seq<DataRecord>, q: seq<QCRecord>)
    ensures q != [] && dr.timestamp == q[0].timestamp ==>
              Merge([dr] + rest, q) == [Flagged(dr, q[0].qcFlags)] + Merge(rest, q[1..])
    ensures !(q != [] && dr.timestamp == q[0].timestamp) && (q == [] || Below(q[0].timestamp, dr.timestamp)) ==>
              Merge([dr] + rest, q) == [dr] + Merge(rest, q)
    ensures !(q != [] && dr.timestamp == q[0].timestamp) && !(q == [] || Below(q[0].timestamp, dr.timestamp)) ==>
              Merge([dr] + rest, q) == Merge([dr] + rest, q[1..])
  {
    assert ([dr] + rest)[0] == dr && ([dr] + rest)[1..] == rest;
  }

  lemma Associate<T>(out: seq<T>, x: T, rest: seq<T>)
    ensures out + ([x] + rest) == (out + [x]) + rest
  {
  }

  /**
   * For every emitted record, the index of the QC record whose flags it
   * carries, or `None` when it passed through unchanged.
   */
  ghost function Pairing(data: seq<DataRecord>, qc: seq<QCRecord>): seq<Option<nat>>
    decreases |data| + |qc|
  {
    if data == [] then []
    else if qc != [] && data[0].timestamp == qc[0].timestamp then
      [Some(0)] + Shift(Pairing(data[1..], qc[1..]))
    else if qc == [] || Below(qc[0].timestamp, data[0].timestamp) then
      [None] + Pairing(data[1..], qc)
    else
      Shift(Pairing(data, qc[1..]))
  }

  ghost function Shift(p: seq<Option<nat>>): (s: seq<Option<nat>>)
    ensures |s| == |p|
    ensures forall k :: 0 <= k < |p| ==> s[k].Some? == p[k].Some? && (p[k].Some? ==> s[k].value == p[k].value + 1)
  {
    seq(|p|, k requires 0 <= k < |p| => if p[k].Some? then Some(p[k].value + 1) else None)
  }

  /** `out` is `data` with some records flagged, as `p` describes, each QC record used at most once and in order. */
  ghost predicate PairedBy(data: seq<DataRecord>, qc: seq<QCRecord>, out: seq<DataRecord>, p: seq<Option<nat>>)
  {
    && |p| == |data| == |out|
    && (forall k :: 0 <= k < |p| && p[k].None? ==> out[k] == data[k])
    && (forall k :: 0 <= k < |p| && p[k].Some? ==>
          p[k].value < |qc| && qc[p[k].value].timestamp == data[k].timestamp
          && out[k] == Flagged(data[k], qc[p[k].value].qcFlags))
    && Increasing(p)
  }

  /** The QC indices used, in order, strictly increase. */
  ghost predicate Increasing(p: seq<Option<nat>>) {
    forall k1, k2 :: 0 <= k1 < k2 < |p| && p[k1].Some? && p[k2].Some? ==> p[k1].value < p[k2].value
  }

  lemma IncreasingShift(head: Option<nat>, p: seq<Option<nat>>)
    requires Increasing(p) && (head.Some? ==> head.value == 0)
    ensures Increasing([head] + Shift(p))
  {
    var s := [head] + Shift(p);
    forall k1, k2 | 0 <= k1 < k2 < |s| && s[k1].Some? && s[k2].Some? ensures s[k1].value < s[k2].value {
      assert s[k2] == Shift(p)[k2 - 1];
      if k1 > 0 {
        assert s[k1] == Shift(p)[k1 - 1];
        assert p[k1 - 1].value < p[k2 - 1].value;
      }
    }
  }

  /**
   * Whatever the order of the streams: the merge emits exactly the data
   * records, once each and in order, each either unchanged or with the flags
   * of a QC record with the same timestamp; no QC record is attached twice,
   * and attached QC records are taken in stream order.
   */
  lemma {:induction false} MergePairs(data: seq<DataRecord>, qc: seq<QCRecord>)
    ensures PairedBy(data, qc, Merge(data, qc), Pairing(data, qc))
    decreases |data| + |qc|
  {
    if data == [] {
    } else if qc != [] && data[0].timestamp == qc[0].timestamp {
      MergePairs(data[1..], qc[1..]);
      PairsFlagged(data, qc, Merge(data[1..], qc[1..]), Pairing(data[1..], qc[1..]));
    } else if qc == [] || Below(qc[0].timestamp, data[0].timestamp) {
      MergePairs(data[1..], qc);
      PairsPassed(data, qc, Merge(data[1..], qc), Pairing(data[1..], qc));
    } else {
      MergePairs(data, qc[1..]);
      PairsDropped(data, qc, Merge(data, qc[1..]), Pairing(data, qc[1..]));
    }
  }

  lemma PairsFlagged(data: seq<DataRecord>, qc: seq<QCRecord>, r: seq<DataRecord>, pr: seq<Option<nat>>)
    requires data != [] && qc != [] && PairedBy(data[1..], qc[1..], r, pr)
    requires data[0].timestamp == qc[0].timestamp
    ensures PairedBy(data, qc, [Flagged(data[0], qc[0].qcFlags)] + r, [Some(0)] + Shift(pr))
  {
    FlaggedUsed(data, qc, r, pr);
    FlaggedKept(data, qc, r, pr);
    IncreasingShift(Some(0), pr);
  }

  /** The flagged records of `PairsFlagged`: the head, then those of the tail, one QC index on. */
  lemma FlaggedUsed(data: seq<DataRecord>, qc: seq<QCRecord>, r: seq<DataRecord>, pr: seq<Option<nat>>)
    requires data != [] && qc != [] && data[0].timestamp == qc[0].timestamp
    requires |pr| == |data| - 1 == |r|
    requires forall k :: 0 <= k < |pr| && pr[k].Some? ==>
               pr[k].value < |qc[1..]| && qc[1..][pr[k].value].timestamp == data[1..][k].timestamp
               && r[k] == Flagged(data[1..][k], qc[1..][pr[k].value].qcFlags)
    ensures var out, p := [Flagged(data[0], qc[0].qcFlags)] + r, [Some(0)] + Shift(pr);
            forall k :: 0 <= k < |p| && p[k].Some? ==>
              p[k].value < |qc| && qc[p[k].value].timestamp == data[k].timestamp
              && out[k] == Flagged(data[k], qc[p[k].value].qcFlags)
  {
    var sp := Shift(pr);
    var out, p := [Flagged(data[0], qc[0].qcFlags)] + r, [Some(0)] + sp;
    forall k | 0 <= k < |p| && p[k].Some?
      ensures p[k].value < |qc| && qc[p[k].value].timestamp == data[k].timestamp
           && out[k] == Flagged(data[k], qc[p[k].value].qcFlags)
    {
      if k > 0 {
        assert out[k] == r[k - 1] && data[k] == data[1..][k - 1] && p[k] == sp[k - 1];
        assert p[k].value == pr[k - 1].value + 1 && qc[p[k].value] == qc[1..][pr[k - 1].value];
      }
    }
  }

  /** The unflagged records of `PairsFlagged`: those of the tail. */
  lemma FlaggedKept(data: seq<DataRecord>, qc: seq<QCRecord>, r: seq<DataRecord>, pr: seq<Option<nat>>)
    requires data != [] && qc != [] && |pr| == |data| - 1 == |r|
    requires forall k :: 0 <= k < |pr| && pr[k].None? ==> r[k] == data[1..][k]
    ensures var out, p := [Flagged(data[0], qc[0].qcFlags)] + r, [Some(0)] + Shift(pr);
            forall k :: 0 <= k < |p| && p[k].None? ==> out[k] == data[k]
  {
    var sp := Shift(pr);
    var out, p := [Flagged(data[0], qc[0].qcFlags)] + r, [Some(0)] + sp;
    forall k | 0 <= k < |p| && p[k].None? ensures out[k] == data[k] {
      assert out[k] == r[k - 1] && data[k] == data[1..][k - 1] && p[k] == sp[k - 1];
    }
  }

  lemma PairsPassed(data: seq<DataRecord>, qc: seq<QCRecord>, r: seq<DataRecord>, pr: seq<Option<nat>>)
    requires data != [] && PairedBy(data[1..], qc, r, pr)
    ensures PairedBy(data, qc, [data[0]] + r, [None] + pr)
  {
    var out, p := [data[0]] + r, [None] + pr;
    forall k | 0 < k < |p|
      ensures out[k] == r[k - 1] && data[k] == data[1..][k - 1] && p[k] == pr[k - 1]
    {
    }
    forall k1, k2 | 0 <= k1 < k2 < |p| && p[k1].Some? && p[k2].Some? ensures p[k1].value < p[k2].value {
      assert pr[k1 - 1].value < pr[k2 - 1].value;
    }
  }

  lemma PairsDropped(data: seq<DataRecord>, qc: seq<QCRecord>, out: seq<DataRecord>, pr: seq<Option<nat>>)
    requires qc != [] && PairedBy(data, qc[1..], out, pr)
    ensures PairedBy(data, qc, out, Shift(pr))
  {
    var p := Shift(pr);
    forall k | 0 <= k < |p| && p[k].Some?
      ensures p[k].value < |qc| && qc[p[k].value].timestamp == data[k].timestamp
           && out[k] == Flagged(data[k], qc[p[k].value].qcFlags)
    {
      assert qc[p[k].value] == qc[1..][pr[k].value];
    }
  }

  /** Timestamps strictly decreasing: the order both endpoints return records in. */
  ghost predicate Newest(data: seq<DataRecord>) {
    forall i, j :: 0 <= i < j < |data| ==> Below(data[j].timestamp, data[i].timestamp)
  }

  ghost predicate NewestQC(qc: seq<QCRecord>) {
    forall i, j :: 0 <= i < j < |qc| ==> Below(qc[j].timestamp, qc[i].timestamp)
  }

  /** The flags of the first QC record stamped `ts`, if any. */
  function FirstFlags(qc: seq<QCRecord>, ts: string): (f: Option<Flags>)
    ensures f.Some? <==> exists j :: 0 <= j < |qc| && qc[j].timestamp == ts
    ensures f.Some? ==> exists j :: 0 <= j < |qc| && qc[j].timestamp == ts && qc[j].qcFlags == f.value
                                   && forall i :: 0 <= i < j ==> qc[i].timestamp != ts
  {
    if qc == [] then None
    else if qc[0].timestamp == ts then Some(qc[0].qcFlags)
    else
      var f := FirstFlags(qc[1..], ts);
      assert forall j :: 0 < j < |qc| ==> qc[j] == qc[1..][j - 1];
      assert (exists j :: 0 <= j < |qc[1..]| && qc[1..][j].timestamp == ts) ==> exists j :: 0 <= j < |qc| && qc[j].timestamp == ts;
      f
  }

  /** A data record with the flags found for it, or unchanged when there are none. */
  function Attach(r: DataRecord, flags: Option<Flags>): (a: DataRecord)
    ensures flags.None? ==> a == r
    ensures flags.Some? ==> a == Flagged(r, flags.value)
  {
    if flags.Some? then Flagged(r, flags.value) else r
  }

  /** Below the head of a newest-first QC stream there is no record stamped `ts`. */
  lemma {:induction false} NoFlagsBelow(qc: seq<QCRecord>, ts: string)
    requires NewestQC(qc) && qc != [] && Below(qc[0].timestamp, ts)
    ensures FirstFlags(qc, ts).None?
  {
    BelowIrreflexive(ts);
    if |qc| > 1 {
      assert Below(qc[1].timestamp, qc[0].timestamp);
      BelowTransitive(qc[1].timestamp, qc[0].timestamp, ts);
      assert NewestQC(qc[1..]) by {
        forall i, j | 0 <= i < j < |qc[1..]| ensures Below(qc[1..][j].timestamp, qc[1..][i].timestamp) {
          assert qc[1..][j] == qc[j + 1] && qc[1..][i] == qc[i + 1];
        }
      }
      NoFlagsBelow(qc[1..], ts);
    }
  }

  /**
   * When both streams are newest first, which is how the endpoints return
   * them, the merge flags every data record with the QC record of the same
   * timestamp if there is one, and leaves the other records unchanged.
   */
  lemma {:induction false} MergeNewestFirst(data: seq<DataRecord>, qc: seq<QCRecord>)
    requires Newest(data) && NewestQC(qc)
    ensures forall k :: 0 <= k < |data| ==> Merge(data, qc)[k] == Attach(data[k], FirstFlags(qc, data[k].timestamp))
    decreases |data| + |qc|
  {
    if data == [] {
      return;
    }
    assert Newest(data[1..]) by {
      forall i, j | 0 <= i < j < |data[1..]| ensures Below(data[1..][j].timestamp, data[1..][i].timestamp) {
        assert data[1..][j] == data[j + 1] && data[1..][i] == data[i + 1];
      }
    }
    assert qc != [] ==> NewestQC(qc[1..]) by {
      if qc != [] {
        forall i, j | 0 <= i < j < |qc[1..]| ensures Below(qc[1..][j].timestamp, qc[1..][i].timestamp) {
          assert qc[1..][j] == qc[j + 1] && qc[1..][i] == qc[i + 1];
        }
      }
    }
    var d0 := data[0].timestamp;
    if qc != [] && d0 == qc[0].timestamp {
      MergeNewestFirst(data[1..], qc[1..]);
      forall k | 0 < k < |data| ensures FirstFlags(qc, data[k].timestamp) == FirstFlags(qc[1..], data[k].timestamp) {
        assert Below(data[k].timestamp, d0);
        BelowIrreflexive(d0);
      }
      var out := Merge(data, qc);
      forall k | 0 <= k < |data| ensures out[k] == Attach(data[k], FirstFlags(qc, data[k].timestamp)) {
        if k > 0 {
          assert out[k] == Merge(data[1..], qc[1..])[k - 1] && data[1..][k - 1] == data[k];
        }
      }
    } else if qc == [] || Below(qc[0].timestamp, d0) {
      MergeNewestFirst(data[1..], qc);
      if qc != [] {
        NoFlagsBelow(qc, d0);
      }
      var out := Merge(data, qc);
      forall k | 0 <= k < |data| ensures out[k] == Attach(data[k], FirstFlags(qc, data[k].timestamp)) {
        if k > 0 {
          assert out[k] == Merge(data[1..], qc)[k - 1] && data[1..][k - 1] == data[k];
        }
      }
    } else {
      var q0 := qc[0].timestamp;
      BelowTotal(d0, q0);
      MergeNewestFirst(data, qc[1..]);
      forall k | 0 <= k < |data| ensures FirstFlags(qc, data[k].timestamp) == FirstFlags(qc[1..], data[k].timestamp) {
        if k > 0 {
          assert Below(data[k].timestamp, d0);
          BelowTransitive(data[k].timestamp, d0, q0);
        }
        BelowIrreflexive(q0);
      }
    }
  }

  /** The test's timestamps: `00:01:00` is older than `00:02:00`. */
  lemma ExampleStamps()
    ensures Below("2020-01-01 00:01:00", "2020-01-01 00:02:00")
  {
    var prefix := "2020-01-01 00:0";
    assert "2020-01-01 00:02:00" == prefix + "2:00" && "2020-01-01 00:01:00" == prefix + "1:00";
    BelowAfterPrefix(prefix, "1:00", "2:00");
  }

  /**
   * The scenario of the Python client's test `it_combines_data_and_qc`
   * (`test_py/test_client.py:646-686`, whose timestamps `ExampleStamps`
   * orders), run through this JavaScript merge; the JavaScript tests have no
   * two-record scenario. Of two data records only the older one gets the
   * flags of the QC record with its timestamp, and the QC record older than
   * both is unused, which is what that test expects.
   */
  lemma MergeExample(r2: DataRecord, r1: DataRecord, q1: QCRecord, q0: QCRecord)
    requires Below(q1.timestamp, r2.timestamp) && r1.timestamp == q1.timestamp
    ensures Merge([r2, r1], [q1, q0]) == [r2, Flagged(r1, q1.qcFlags)]
  {
    BelowIrreflexive(r2.timestamp);
    MergeHead(r2, [r1], [q1, q0]);
    MergeHead(r1, [], [q1, q0]);
    assert [r2, r1] == [r2] + [r1] && [r1] == [r1] + [];
  }
}
