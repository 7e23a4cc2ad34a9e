/** One batch of `/api/process-xml`: the saved files are classified by a
    pool of workers, each outcome is taken in the order the workers finish,
    a progress event follows each one, and a completion event carries the
    totals, the summary and the table. The pool itself is not modelled: the
    order the workers finish in is a parameter, any permutation of the
    submitted jobs. */
module Batch {
  import opened Text
  import opened Xml
  import opened Seqs
  import opened Validator
  import opened Report

  /** A saved upload: its path, and what parsing the file at that path gives. */
  datatype Job = Job(path: string, doc: Document)

  /** One server-sent event of the batch stream. `processed` out of `total`
      stands for the percentage the progress event reports. */
  datatype Event =
    | Progress(processed: nat, total: nat, currentFile: string, faultyCount: nat)
    | Complete(totalProcessed: nat, faultyFiles: nat, visualization: Summary, tableData: seq<TableRow>)

  /** What the worker returns for a job. */
  function RunJob(j: Job): FileRecord {
    Classify(j.path, j.doc)
  }

  /** The workers' results, in the order of `jobs`. */
  function Outcomes(jobs: seq<Job>): seq<FileRecord> {
    Map(jobs, RunJob)
  }

  /** The progress events once the jobs `done` have finished, in that order,
      out of `total` submitted. */
  function ProgressEvents(total: nat, done: seq<Job>): seq<Event> {
    if done == [] then []
    else
      var n := |done| - 1;
      ProgressEvents(total, done[..n]) +
        [Progress(|done|, total, Basename(done[n].path), FaultyCount(Outcomes(done)))]
  }

  /** The completion event of a batch whose jobs finished in the order
      `completed`. */
  function Completion(completed: seq<Job>): Event {
    var results := Outcomes(completed);
    Complete(|results|, FaultyCount(results), VisualizationOf(results), Map(results, TableRowOf))
  }

  /** The whole stream of a batch whose submitted `jobs` finish in the order
      `completed`. */
  function Stream(jobs: seq<Job>, completed: seq<Job>): seq<Event> {
    ProgressEvents(|jobs|, completed) + [Completion(completed)]
  }

  /** The results of the prefix of the jobs are the prefix of the results. */
  lemma OutcomesPrefix(jobs: seq<Job>, k: nat)
    requires k <= |jobs|
    ensures Outcomes(jobs[..k]) == Outcomes(jobs)[..k]
  {
  }

  /** Every record a worker returns lists only checked tags. */
  lemma OutcomesKnownTags(jobs: seq<Job>)
    ensures KnownTags(Outcomes(jobs))
    ensures forall i | 0 <= i < |jobs| :: Conforms(Outcomes(jobs)[i])
  {
    var rs := Outcomes(jobs);
    forall i | 0 <= i < |rs| ensures Conforms(rs[i]) {
      assert rs[i] == RunJob(jobs[i]);
      ClassifyConforms(jobs[i].path, jobs[i].doc);
    }
  }

  /** One more finished job adds its result at the end. */
  lemma OutcomesSnoc(done: seq<Job>, j: Job)
    ensures Outcomes(done + [j]) == Outcomes(done) + [RunJob(j)]
  {
  }

  /** One more record adds its weight to the faulty count. */
  lemma FaultyCountSnoc(rs: seq<FileRecord>, r: FileRecord)
    ensures FaultyCount(rs + [r]) == FaultyCount(rs) + (if r.isFaulty then 1 else 0)
  {
    assert (rs + [r])[..|rs|] == rs;
  }

  /** One more finished job adds one progress event at the end. */
  lemma ProgressEventsSnoc(total: nat, done: seq<Job>, j: Job)
    ensures ProgressEvents(total, done + [j]) ==
      ProgressEvents(total, done) + [Progress(|done| + 1, total, Basename(j.path), FaultyCount(Outcomes(done + [j])))]
  {
    assert (done + [j])[..|done|] == done;
  }

  /** The loop over `as_completed`: one worker result per finished job, in
      finishing order, with the running faulty count, and a progress event
      after each. */
  method RunBatch(jobs: seq<Job>, completed: seq<Job>)
    returns (results: seq<FileRecord>, faultyCount: nat, events: seq<Event>)
    requires |completed| == |jobs|
    ensures results == Outcomes(completed)
    ensures faultyCount == FaultyCount(results)
    ensures events == ProgressEvents(|jobs|, completed)
  {
    results := [];
    faultyCount := 0;
    events := [];
    var processed := 0;
    while processed < |completed|
      invariant 0 <= processed <= |completed|
      invariant results == Outcomes(completed[..processed])
      invariant faultyCount == FaultyCount(results)
      invariant events == ProgressEvents(|jobs|, completed[..processed])
    {
      var job := completed[processed];
      var done := completed[..processed];
      var result := ProcessXmlFile(job.path, job.doc);
      assert result == RunJob(job);
      assert completed[..processed + 1] == done + [job];
      OutcomesSnoc(done, job);
      FaultyCountSnoc(results, result);
      ProgressEventsSnoc(|jobs|, done, job);
      results := results + [result];
      if result.isFaulty {
        faultyCount := faultyCount + 1;
      }
      processed := processed + 1;
      events := events + [Progress(processed, |jobs|, Basename(job.path), faultyCount)];
    }
    assert completed[..processed] == completed;
  }

  /** `generate`: runs the batch, replaces the stored results with this
      batch's records in finishing order, and ends the stream with the
      completion event. */
  method Generate(store: ResultStore, jobs: seq<Job>, completed: seq<Job>) returns (events: seq<Event>)
    requires multiset(completed) == multiset(jobs)
    modifies store
    ensures store.results == Outcomes(completed)
    ensures events == Stream(jobs, completed)
  {
    assert |completed| == |multiset(completed)| == |jobs|;
    var results, faultyCount, progress := RunBatch(jobs, completed);
    store.results := results;
    OutcomesKnownTags(completed);
    var visualization := CreateVisualization(results);
    var tableData := BuildTableData(results);
    events := progress + [Complete(|results|, faultyCount, visualization, tableData)];
  }

  /** A faulty count over a longer prefix is never smaller. */
  lemma {:induction false} FaultyCountGrows(rs: seq<FileRecord>, i: nat, j: nat)
    requires i <= j <= |rs|
    ensures FaultyCount(rs[..i]) <= FaultyCount(rs[..j])
    decreases j - i
  {
    if i < j {
      FaultyCountGrows(rs, i, j - 1);
      assert rs[..j][..j - 1] == rs[..j - 1];
    }
  }

  lemma {:induction false} ProgressEventsLength(total: nat, done: seq<Job>)
    ensures |ProgressEvents(total, done)| == |done|
    decreases |done|
  {
    if done != [] {
      ProgressEventsLength(total, done[..|done| - 1]);
    }
  }

  /** The k-th progress event reports k + 1 files processed out of the
      submitted total, names the k-th finished file, and carries the faulty
      count among the first k + 1 results. */
  lemma {:induction false} ProgressEventAt(total: nat, done: seq<Job>, k: nat)
    requires k < |done|
    ensures |ProgressEvents(total, done)| == |done|
    ensures ProgressEvents(total, done)[k] ==
      Progress(k + 1, total, Basename(done[k].path), FaultyCount(Outcomes(done[..k + 1])))
    decreases |done|
  {
    var n := |done| - 1;
    ProgressEventsLength(total, done);
    ProgressEventsLength(total, done[..n]);
    if k < n {
      ProgressEventAt(total, done[..n], k);
      assert done[..n][..k + 1] == done[..k + 1];
      assert done[..n][k] == done[k];
    } else {
      assert done[..k + 1] == done;
    }
  }

  /** All the progress events at once: one per finished job, the k-th as
      `ProgressEventAt` says. */
  lemma ProgressEventsSpec(total: nat, done: seq<Job>)
    ensures var events := ProgressEvents(total, done);
      && |events| == |done|
      && forall k | 0 <= k < |done| ::
        events[k] == Progress(k + 1, total, Basename(done[k].path), FaultyCount(Outcomes(done[..k + 1])))
  {
    ProgressEventsLength(total, done);
    forall k | 0 <= k < |done|
      ensures ProgressEvents(total, done)[k] ==
        Progress(k + 1, total, Basename(done[k].path), FaultyCount(Outcomes(done[..k + 1])))
    {
      ProgressEventAt(total, done, k);
    }
  }

  /** The stream ends with the completion event, after one event per
      finished job. */
  lemma StreamLast(jobs: seq<Job>, completed: seq<Job>)
    ensures |Stream(jobs, completed)| == |completed| + 1
    ensures Stream(jobs, completed)[|completed|] == Completion(completed)
  {
    ProgressEventsLength(|jobs|, completed);
  }

  /** A longer prefix of the finished jobs never holds fewer faulty files. */
  lemma FaultyJobsGrow(done: seq<Job>, i: nat, j: nat)
    requires i <= j <= |done|
    ensures FaultyCount(Outcomes(done[..i])) <= FaultyCount(Outcomes(done[..j]))
  {
    OutcomesPrefix(done, i);
    OutcomesPrefix(done, j);
    FaultyCountGrows(Outcomes(done), i, j);
  }

  /** The stream of a batch of `n` files has `n` progress events, one per
      finished file in finishing order: the k-th reports k + 1 of `n`
      processed, names its file, and carries the faulty count among the
      first k + 1 results (which `FaultyJobsGrow` shows never decreases).
      The final event is the completion event, which `CompletionOrderFree`
      describes. */
  lemma StreamShape(jobs: seq<Job>, completed: seq<Job>)
    requires multiset(completed) == multiset(jobs)
    ensures var events := Stream(jobs, completed);
      && |completed| == |jobs|
      && |events| == |jobs| + 1
      && (forall k | 0 <= k < |jobs| ::
            events[k] == Progress(k + 1, |jobs|, Basename(completed[k].path),
                                  FaultyCount(Outcomes(completed[..k + 1]))))
      && events[|jobs|] == Completion(completed)
  {
    assert |completed| == |multiset(completed)| == |jobs|;
    var events := Stream(jobs, completed);
    var progress := ProgressEvents(|jobs|, completed);
    StreamLast(jobs, completed);
    ProgressEventsSpec(|jobs|, completed);
    assert forall k | 0 <= k < |jobs| :: events[k] == progress[k];
  }

  /** `processed` rises by one per finished file and never passes `total`,
      so the reported percentage stays within 100 and reaches 100 with the
      last file. */
  lemma ProgressReachesTotal(jobs: seq<Job>, completed: seq<Job>)
    requires multiset(completed) == multiset(jobs)
    ensures var events := Stream(jobs, completed);
      && |events| == |jobs| + 1
      && (forall k | 0 <= k < |jobs| ::
            events[k].Progress? && 0 < events[k].processed <= events[k].total == |jobs|)
      && (forall k | 0 < k < |jobs| :: events[k].processed == events[k - 1].processed + 1)
      && (|jobs| > 0 ==> events[|jobs| - 1].processed == |jobs|)
  {
    StreamShape(jobs, completed);
  }

  /** The completion event does not depend on the order the workers finish
      in, except for the order of the table rows: two finishing orders of the
      same jobs report the same totals and summary, and their tables hold the
      same rows. The totals equal those of the submitted jobs taken in
      submission order. */
  lemma CompletionOrderFree(jobs: seq<Job>, c1: seq<Job>, c2: seq<Job>)
    requires multiset(c1) == multiset(jobs) && multiset(c2) == multiset(jobs)
    ensures var e1 := Completion(c1);
      var e2 := Completion(c2);
      && e1.totalProcessed == e2.totalProcessed == |jobs|
      && e1.faultyFiles == e2.faultyFiles == FaultyCount(Outcomes(jobs))
      && e1.visualization == e2.visualization == VisualizationOf(Outcomes(jobs))
      && multiset(e1.tableData) == multiset(e2.tableData)
  {
    assert |c1| == |multiset(c1)| == |jobs|;
    assert |c2| == |multiset(c2)| == |jobs|;
    var r1 := Outcomes(c1);
    var r2 := Outcomes(c2);
    var r := Outcomes(jobs);
    MapPermutation(c1, jobs, RunJob);
    MapPermutation(c2, jobs, RunJob);
    SummaryOrderFree(r1, r);
    SummaryOrderFree(r2, r);
    MapPermutation(r1, r2, TableRowOf);
  }

  /** After a batch, the exports read exactly that batch's records: the
      faulty export has a row per faulty file and the normal export a row
      per normal file, and the two add up to the files of the batch. */
  lemma ExportsAfterBatch(jobs: seq<Job>, completed: seq<Job>)
    requires multiset(completed) == multiset(jobs)
    ensures var rs := Outcomes(completed);
      && |FaultyRecords(rs)| == FaultyCount(Outcomes(jobs))
      && |FaultyRecords(rs)| + |NormalRecords(rs)| == |jobs|
  {
    assert |completed| == |multiset(completed)| == |jobs|;
    MapPermutation(completed, jobs, RunJob);
    SumPermutation(Outcomes(completed), Outcomes(jobs), FaultyWeight);
  }
}
