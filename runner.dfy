/**
  The resumable batch extraction (backend/app/safe_extraction_runner.py,
  `safe_feature_extraction`): over the sampled records from `start_idx` on,
  in batches of `batch_size`, one labelled feature row per record, and after
  every batch a checkpoint of all rows so far, named by the batch's end. The
  sampled table is the parameter `records`, the checkpoint read at the start
  is the parameter `loaded` (`None` when reading it fails), the page fetch is
  the parameter `fetch`, and the checkpoint files written are returned as a
  log.
*/
module Runner {
  import opened Wrappers
  import opened StrUtil
  import Features
  import Recovery

  /** One sampled row: its `url` (`None` for a missing value, which pandas reads as NaN) and its
      `type`. */
  datatype Record = Record(url: Option<string>, kind: string)

  /** The file `checkpoint_features_{batchEnd}.csv` and the rows it holds. */
  datatype Checkpoint = Checkpoint(batchEnd: nat, rows: seq<seq<int>>)

  /** The `Label` column */
  function LabelValue(kind: string): (v: int)
    ensures v == 1 <==> kind == "legitimate"
    ensures v == -1 <==> kind != "legitimate"
  {
    if kind == "legitimate" then 1 else -1
  }

  function Zeros(n: nat): (z: seq<int>)
    ensures |z| == n && forall k :: 0 <= k < n ==> z[k] == 0
  {
    seq(n, _ => 0)
  }

  /** The feature vector that `SafeFeatureExtraction(url).extract_all_features()` gives for an
      address, the page being fetched with `fetch`. */
  function Extractor(fetch: string -> Option<Features.Document>): string -> seq<int>
  {
    u => Features.FeatureVector(Features.PageOf(u, fetch(u)))
  }

  /** The row the inner loop appends for one record, when `extract` gives the feature vector of an
      address. A missing address makes `url[:80]` raise `TypeError`, and the `except` branch appends
      22 zeros and the label. */
  function RowOf(rec: Record, extract: string -> seq<int>): (row: seq<int>)
    ensures |row| > 0 && row[|row| - 1] == LabelValue(rec.kind)
    ensures rec.url.None? ==> row == Zeros(22) + [LabelValue(rec.kind)]
    ensures rec.url.Some? ==> row[..|row| - 1] == extract(rec.url.value)
  {
    match rec.url
    case None => Zeros(22) + [LabelValue(rec.kind)]
    case Some(u) => extract(u) + [LabelValue(rec.kind)]
  }

  /** With the real extractor every row holds 22 features in {-1, 0, 1} and then the label; the
      extractor never raises, so only a missing address gives the zero row. */
  lemma RowsOfPages(rec: Record, fetch: string -> Option<Features.Document>)
    ensures var row := RowOf(rec, Extractor(fetch));
      |row| == 23 && row[22] == LabelValue(rec.kind)
      && (forall k :: 0 <= k < 22 ==> Features.Ternary(row[k]))
      && (rec.url.Some? ==> row[..22] == Features.FeatureVector(Features.PageOf(rec.url.value, fetch(rec.url.value))))
  {
    var row := RowOf(rec, Extractor(fetch));
    match rec.url {
      case None =>
      case Some(u) =>
        var v := Features.FeatureVector(Features.PageOf(u, fetch(u)));
        assert Extractor(fetch)(u) == v;
        assert row == v + [LabelValue(rec.kind)];
        assert forall k :: 0 <= k < 22 ==> row[k] == v[k];
    }
  }

  /** The rows of the records with index in `[lo, hi)`: every index is processed once, in
      increasing order, row `k` belonging to record `lo + k`. */
  function Rows(records: seq<Record>, lo: nat, hi: nat, extract: string -> seq<int>): (rows: seq<seq<int>>)
    requires lo <= hi <= |records|
    ensures |rows| == hi - lo
  {
    seq(hi - lo, k requires 0 <= k < hi - lo => RowOf(records[lo + k], extract))
  }

  lemma RowsConcat(records: seq<Record>, lo: nat, mid: nat, hi: nat, extract: string -> seq<int>)
    requires lo <= mid <= hi <= |records|
    ensures Rows(records, lo, hi, extract) == Rows(records, lo, mid, extract) + Rows(records, mid, hi, extract)
  {
    var all := Rows(records, lo, hi, extract);
    var joined := Rows(records, lo, mid, extract) + Rows(records, mid, hi, extract);
    forall k | 0 <= k < hi - lo ensures all[k] == joined[k] {
      if k >= mid - lo {
        assert joined[k] == Rows(records, mid, hi, extract)[k - (mid - lo)];
      }
    }
  }

  lemma RowsSnoc(records: seq<Record>, lo: nat, hi: nat, extract: string -> seq<int>)
    requires lo <= hi < |records|
    ensures Rows(records, lo, hi + 1, extract) == Rows(records, lo, hi, extract) + [RowOf(records[hi], extract)]
  {
    RowsConcat(records, lo, hi, hi + 1, extract);
  }

  /** Where the run starts and the rows it starts from: a positive `start_idx` reads its checkpoint,
      and a failed read starts over from 0 with no rows. */
  datatype Resume = Resume(start: nat, rows: seq<seq<int>>)

  function ResumeFrom(startIdx: nat, loaded: Option<seq<seq<int>>>): (r: Resume)
    ensures startIdx == 0 || loaded.None? ==> r == Resume(0, [])
    ensures startIdx > 0 && loaded.Some? ==> r == Resume(startIdx, loaded.value)
  {
    if startIdx > 0 then
      match loaded
      case Some(rows) => Resume(startIdx, rows)
      case None => Resume(0, [])
    else Resume(0, [])
  }

  /** `min(i + batch_size, total_samples)` */
  function BatchEnd(i: nat, batchSize: nat, total: nat): (e: nat)
    requires i < total && batchSize > 0
    ensures i < e <= total && (e == total || e == i + batchSize)
  {
    if i + batchSize < total then i + batchSize else total
  }

  /** The checkpoints written by the batches starting at `i`, `i + batch_size`, ... below the
      total, when `acc` holds the rows gathered before `i`. */
  function CheckpointsFrom(records: seq<Record>, i: nat, batchSize: nat, acc: seq<seq<int>>,
                           extract: string -> seq<int>): (log: seq<Checkpoint>)
    requires batchSize > 0
    ensures log == [] <==> i >= |records|
    decreases |records| - i
  {
    if i >= |records| then []
    else
      var e := BatchEnd(i, batchSize, |records|);
      var rows := acc + Rows(records, i, e, extract);
      [Checkpoint(e, rows)] + CheckpointsFrom(records, i + batchSize, batchSize, rows, extract)
  }

  /** The rows the run ends with, which it writes as the final table. */
  function FinalTable(records: seq<Record>, start: nat, rows: seq<seq<int>>, extract: string -> seq<int>): (t: seq<seq<int>>)
  {
    if start < |records| then rows + Rows(records, start, |records|, extract) else rows
  }

  /** Checkpoint numbers strictly increase, every one lies beyond the batch it follows, and the last
      one is the total. */
  lemma {:induction false} CheckpointNumbersIncrease(records: seq<Record>, i: nat, batchSize: nat, acc: seq<seq<int>>,
                                                     extract: string -> seq<int>)
    requires batchSize > 0
    ensures var log := CheckpointsFrom(records, i, batchSize, acc, extract);
      (forall a, b :: 0 <= a < b < |log| ==> log[a].batchEnd < log[b].batchEnd)
      && (forall a :: 0 <= a < |log| ==> i < log[a].batchEnd <= |records|)
      && (log != [] ==> log[|log| - 1].batchEnd == |records|)
    decreases |records| - i
  {
    if i < |records| {
      var e := BatchEnd(i, batchSize, |records|);
      var rows := acc + Rows(records, i, e, extract);
      var tail := CheckpointsFrom(records, i + batchSize, batchSize, rows, extract);
      CheckpointNumbersIncrease(records, i + batchSize, batchSize, rows, extract);
      var log := CheckpointsFrom(records, i, batchSize, acc, extract);
      assert log == [Checkpoint(e, rows)] + tail;
      assert tail != [] ==> e == i + batchSize;
      forall a | 0 < a < |log| ensures log[a] == tail[a - 1] && e < log[a].batchEnd {
      }
    }
  }

  /** When the loaded checkpoint holds `start_idx` rows, every checkpoint holds as many rows as its
      number says. */
  lemma {:induction false} CheckpointRowCounts(records: seq<Record>, i: nat, batchSize: nat, acc: seq<seq<int>>,
                                               extract: string -> seq<int>)
    requires batchSize > 0 && |acc| == i
    ensures var log := CheckpointsFrom(records, i, batchSize, acc, extract);
      forall a :: 0 <= a < |log| ==> |log[a].rows| == log[a].batchEnd
    decreases |records| - i
  {
    if i < |records| {
      var e := BatchEnd(i, batchSize, |records|);
      var rows := acc + Rows(records, i, e, extract);
      if e < |records| {
        CheckpointRowCounts(records, i + batchSize, batchSize, rows, extract);
      }
      var log := CheckpointsFrom(records, i, batchSize, acc, extract);
      assert log[1..] == CheckpointsFrom(records, i + batchSize, batchSize, rows, extract);
    }
  }

  /** The final table is what the last checkpoint holds: the starting rows, then one row per record
      from the start on. */
  lemma {:induction false} FinalIsLastCheckpoint(records: seq<Record>, i: nat, batchSize: nat, acc: seq<seq<int>>,
                                                 extract: string -> seq<int>)
    requires batchSize > 0 && i < |records|
    ensures var log := CheckpointsFrom(records, i, batchSize, acc, extract);
      log[|log| - 1].rows == FinalTable(records, i, acc, extract)
    decreases |records| - i
  {
    var e := BatchEnd(i, batchSize, |records|);
    var rows := acc + Rows(records, i, e, extract);
    var tail := CheckpointsFrom(records, i + batchSize, batchSize, rows, extract);
    var log := CheckpointsFrom(records, i, batchSize, acc, extract);
    assert log == [Checkpoint(e, rows)] + tail;
    if e < |records| {
      FinalIsLastCheckpoint(records, i + batchSize, batchSize, rows, extract);
      RowsConcat(records, i, e, |records|, extract);
      assert log[|log| - 1] == tail[|tail| - 1];
      assert rows + Rows(records, e, |records|, extract) == acc + Rows(records, i, |records|, extract);
    } else {
      assert tail == [];
    }
  }

  /** The names of the checkpoint files a run writes. */
  function CheckpointNames(log: seq<Checkpoint>): (names: seq<string>)
    ensures |names| == |log|
    ensures forall a :: 0 <= a < |log| ==> names[a] == Recovery.CheckpointName(log[a].batchEnd)
  {
    seq(|log|, a requires 0 <= a < |log| => Recovery.CheckpointName(log[a].batchEnd))
  }

  /** After a run over a non-empty remainder, the recovery tool's index query over the checkpoint
      files it wrote reports the total. */
  lemma RecoveryFindsTotal(records: seq<Record>, i: nat, batchSize: nat, acc: seq<seq<int>>,
                           extract: string -> seq<int>)
    requires batchSize > 0 && i < |records|
    ensures Recovery.LastProcessed(CheckpointNames(CheckpointsFrom(records, i, batchSize, acc, extract))) == |records|
  {
    var log := CheckpointsFrom(records, i, batchSize, acc, extract);
    CheckpointNumbersIncrease(records, i, batchSize, acc, extract);
    LastProcessedOfNames(log, |records|);
  }

  lemma LastProcessedOfNames(log: seq<Checkpoint>, total: nat)
    requires log != [] && log[|log| - 1].batchEnd == total
    requires forall a :: 0 <= a < |log| ==> log[a].batchEnd <= total
    ensures Recovery.LastProcessed(CheckpointNames(log)) == total
  {
    var names := CheckpointNames(log);
    var keys := Recovery.Numbers(names);
    forall a | 0 <= a < |log| ensures keys[a] == Some(log[a].batchEnd) {
      Recovery.CheckpointNameRoundTrip(log[a].batchEnd);
    }
    Recovery.GreatestParsed(keys);
    assert keys[|log| - 1] == Some(total);
  }

  /** `safe_feature_extraction(start_idx, batch_size)`: `ok` is false for the `ValueError` that
      `range` raises for a zero step, before any checkpoint is written. */
  method SafeFeatureExtraction(records: seq<Record>, startIdx: nat, batchSize: nat, loaded: Option<seq<seq<int>>>,
                               fetch: string -> Option<Features.Document>)
    returns (ok: bool, features: seq<seq<int>>, log: seq<Checkpoint>)
    ensures ok <==> batchSize > 0
    ensures !ok ==> log == []
    ensures ok ==> var s := ResumeFrom(startIdx, loaded);
      features == FinalTable(records, s.start, s.rows, Extractor(fetch))
      && log == CheckpointsFrom(records, s.start, batchSize, s.rows, Extractor(fetch))
  {
    var start := startIdx;
    features := [];
    if start > 0 {
      match loaded {
        case Some(rows) => features := rows;
        case None => start := 0;
      }
    }
    log := [];
    if batchSize == 0 {
      return false, features, log;
    }
    ok := true;
    ghost var extract := Extractor(fetch);
    ghost var initial := features;
    ghost var all := CheckpointsFrom(records, start, batchSize, initial, extract);
    var total := |records|;
    var i := start;
    while i < total
      invariant start <= i
      invariant i < total ==>
        features == initial + Rows(records, start, i, extract) && log + CheckpointsFrom(records, i, batchSize, features, extract) == all
      invariant i >= total ==> features == FinalTable(records, start, initial, extract) && log == all
      decreases total - i
    {
      var batchEnd := if i + batchSize < total then i + batchSize else total;
      var batch := ExtractBatch(records, i, batchEnd, fetch);
      RunStep(records, start, i, batchSize, initial, extract);
      features := features + batch;
      log := log + [Checkpoint(batchEnd, features)];
      i := i + batchSize;
    }
  }

  /** The inner loop: the rows of the records with index in `[lo, hi)`, in index order. */
  method ExtractBatch(records: seq<Record>, lo: nat, hi: nat, fetch: string -> Option<Features.Document>)
    returns (batch: seq<seq<int>>)
    requires lo <= hi <= |records|
    ensures batch == Rows(records, lo, hi, Extractor(fetch))
  {
    batch := [];
    for j := lo to hi
      invariant batch == Rows(records, lo, j, Extractor(fetch))
    {
      var row := ExtractRow(records[j], fetch);
      RowsSnoc(records, lo, j, Extractor(fetch));
      batch := batch + [row];
    }
  }

  /** The body of the inner loop for one record. */
  method ExtractRow(rec: Record, fetch: string -> Option<Features.Document>) returns (row: seq<int>)
    ensures row == RowOf(rec, Extractor(fetch))
  {
    match rec.url {
      case None =>
        row := Zeros(22) + [LabelValue(rec.kind)];
      case Some(u) =>
        var extractor := new Features.SafeFeatureExtraction(u, fetch(u));
        row := extractor.features + [LabelValue(rec.kind)];
        assert Extractor(fetch)(u) == extractor.features;
    }
  }

  /** One batch of the loop: the rows so far become the final table's prefix up to the batch's end,
      or the whole final table after the last batch. */
  lemma RunStep(records: seq<Record>, start: nat, i: nat, batchSize: nat, initial: seq<seq<int>>,
                extract: string -> seq<int>)
    requires batchSize > 0 && start <= i < |records|
    ensures var e := BatchEnd(i, batchSize, |records|);
      var next := initial + Rows(records, start, i, extract) + Rows(records, i, e, extract);
      next == initial + Rows(records, start, e, extract)
      && (i + batchSize >= |records| ==> next == FinalTable(records, start, initial, extract))
  {
    var e := BatchEnd(i, batchSize, |records|);
    RowsConcat(records, start, i, e, extract);
  }

  /** A failed checkpoint read starts the run over: every record is processed and the table holds
      exactly their rows. */
  lemma FailedLoadStartsOver(records: seq<Record>, startIdx: nat, extract: string -> seq<int>)
    ensures var s := ResumeFrom(startIdx, None);
      s.start == 0 && |FinalTable(records, s.start, s.rows, extract)| == |records|
  {
  }

  /** A loaded checkpoint of `start_idx` rows ends in one row per record of the whole table. */
  lemma ResumedTableIsComplete(records: seq<Record>, startIdx: nat, rows: seq<seq<int>>,
                               extract: string -> seq<int>)
    requires 0 < startIdx <= |records| && |rows| == startIdx
    ensures var s := ResumeFrom(startIdx, Some(rows));
      |FinalTable(records, s.start, s.rows, extract)| == |records|
  {
  }
}
