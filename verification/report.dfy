/** What is built from a batch's records: the faulty/normal counts and the
    per-tag tallies of `create_visualization`, the rows of the completion
    table, and the rows of the faulty-only and normal-only exports, which
    read the records the last batch stored in `global_results`. */
module Report {
  import opened Wrappers
  import opened Text
  import opened Seqs
  import opened Validator

  // ---------------------------------------------------------------------
  // Counts

  function FaultyWeight(r: FileRecord): nat {
    if r.isFaulty then 1 else 0
  }

  /** `sum(1 for r in results if r['is_faulty'])`. */
  function FaultyCount(rs: seq<FileRecord>): (n: nat)
    ensures n <= |rs|
  {
    SumOfIndicator(rs, FaultyWeight);
    Sum(rs, FaultyWeight)
  }

  /** `[r for r in results if r['is_faulty']]`. */
  function FaultyRecords(rs: seq<FileRecord>): (fs: seq<FileRecord>)
    ensures |fs| == FaultyCount(rs)
    ensures forall r :: r in fs <==> r in rs && r.isFaulty
  {
    if rs == [] then []
    else
      var last := rs[|rs| - 1];
      assert rs == rs[..|rs| - 1] + [last];
      FaultyRecords(rs[..|rs| - 1]) + (if last.isFaulty then [last] else [])
  }

  /** `[r for r in results if not r['is_faulty']]`. */
  function NormalRecords(rs: seq<FileRecord>): (ns: seq<FileRecord>)
    ensures |ns| == |rs| - FaultyCount(rs)
    ensures forall r :: r in ns <==> r in rs && !r.isFaulty
  {
    if rs == [] then []
    else
      var last := rs[|rs| - 1];
      assert rs == rs[..|rs| - 1] + [last];
      NormalRecords(rs[..|rs| - 1]) + (if !last.isFaulty then [last] else [])
  }

  /** Both filters keep the order of the records: filtering a concatenation
      concatenates the filtered parts. */
  lemma {:induction false} FaultyKeepsOrder(a: seq<FileRecord>, b: seq<FileRecord>)
    ensures FaultyRecords(a + b) == FaultyRecords(a) + FaultyRecords(b)
    decreases |b|
  {
    if b == [] {
      assert a + b == a;
    } else {
      var n := |b| - 1;
      assert (a + b)[..|a + b| - 1] == a + b[..n];
      assert (a + b)[|a + b| - 1] == b[n];
      var tail := if b[n].isFaulty then [b[n]] else [];
      assert FaultyRecords(a + b) == FaultyRecords(a + b[..n]) + tail;
      assert FaultyRecords(b) == FaultyRecords(b[..n]) + tail;
      FaultyKeepsOrder(a, b[..n]);
    }
  }

  lemma {:induction false} NormalKeepsOrder(a: seq<FileRecord>, b: seq<FileRecord>)
    ensures NormalRecords(a + b) == NormalRecords(a) + NormalRecords(b)
    decreases |b|
  {
    if b == [] {
      assert a + b == a;
    } else {
      var n := |b| - 1;
      assert (a + b)[..|a + b| - 1] == a + b[..n];
      assert (a + b)[|a + b| - 1] == b[n];
      var tail := if !b[n].isFaulty then [b[n]] else [];
      assert NormalRecords(a + b) == NormalRecords(a + b[..n]) + tail;
      assert NormalRecords(b) == NormalRecords(b[..n]) + tail;
      NormalKeepsOrder(a, b[..n]);
    }
  }

  /** The number of entries of `es` with tag `t` and status `p`. */
  function EntryCount(es: seq<TagEntry>, t: string, p: Presence): nat {
    if es == [] then 0
    else
      var last := es[|es| - 1];
      EntryCount(es[..|es| - 1], t, p) + (if last.tag == t && last.status == p then 1 else 0)
  }

  /** The number of entries of `es` with tag `t`, whatever their status. */
  function TagCount(es: seq<TagEntry>, t: string): nat {
    if es == [] then 0
    else TagCount(es[..|es| - 1], t) + (if es[|es| - 1].tag == t then 1 else 0)
  }

  function PresentWeight(t: string): FileRecord -> nat {
    (r: FileRecord) => EntryCount(r.tagStatus, t, Yes)
  }

  function MissingWeight(t: string): FileRecord -> nat {
    (r: FileRecord) => EntryCount(r.tagStatus, t, No)
  }

  function HoldsWeight(t: string): FileRecord -> nat {
    (r: FileRecord) => TagCount(r.tagStatus, t)
  }

  /** `tag_stats[t]['present']` after the nested loop. */
  function PresentTotal(rs: seq<FileRecord>, t: string): nat {
    Sum(rs, PresentWeight(t))
  }

  /** `tag_stats[t]['missing']` after the nested loop. */
  function MissingTotal(rs: seq<FileRecord>, t: string): nat {
    Sum(rs, MissingWeight(t))
  }

  datatype Tally = Tally(present: nat, missing: nat)

  /** The counts `create_visualization` derives from the records. */
  datatype Summary = Summary(
    total: nat,
    faultyCount: nat,
    normalCount: nat,
    tagStats: map<string, Tally>)

  /** The tallies once the records `rs` and then the entries `es` of the
      next record have been counted. */
  function PartialStats(rs: seq<FileRecord>, es: seq<TagEntry>): map<string, Tally> {
    map t | t in TagsToCheck ::
      Tally(PresentTotal(rs, t) + EntryCount(es, t, Yes), MissingTotal(rs, t) + EntryCount(es, t, No))
  }

  function TagStats(rs: seq<FileRecord>): map<string, Tally> {
    PartialStats(rs, [])
  }

  /** The summary of the records `rs`. */
  function VisualizationOf(rs: seq<FileRecord>): Summary {
    Summary(|rs|, FaultyCount(rs), |rs| - FaultyCount(rs), TagStats(rs))
  }

  /** Every tag a record lists is one of `TAGS_TO_CHECK`, the keys
      `tag_stats` is created with (any other would raise a KeyError). */
  predicate KnownTags(rs: seq<FileRecord>) {
    forall i, j | 0 <= i < |rs| && 0 <= j < |rs[i].tagStatus| :: rs[i].tagStatus[j].tag in TagsToCheck
  }

  /** The tallies after counting the entry `e`, as the loop body updates them. */
  function Bump(stats: map<string, Tally>, e: TagEntry): map<string, Tally>
    requires e.tag in stats
  {
    var tally := stats[e.tag];
    if e.status == Yes then stats[e.tag := Tally(tally.present + 1, tally.missing)]
    else stats[e.tag := Tally(tally.present, tally.missing + 1)]
  }

  lemma EntryCountStep(es: seq<TagEntry>, e: TagEntry, t: string, p: Presence)
    ensures EntryCount(es + [e], t, p) == EntryCount(es, t, p) + (if e.tag == t && e.status == p then 1 else 0)
  {
    assert (es + [e])[..|es|] == es;
  }

  /** Counting one more entry increments the tally of its tag and leaves the
      others alone. */
  lemma StatsStep(rs: seq<FileRecord>, es: seq<TagEntry>, e: TagEntry)
    requires e.tag in TagsToCheck
    ensures PartialStats(rs, es + [e]) == Bump(PartialStats(rs, es), e)
  {
    var before := PartialStats(rs, es);
    var after := PartialStats(rs, es + [e]);
    var bumped := Bump(before, e);
    assert after.Keys == bumped.Keys;
    forall t | t in after.Keys ensures after[t] == bumped[t] {
      EntryCountStep(es, e, t, Yes);
      EntryCountStep(es, e, t, No);
    }
  }

  /** Counting all the entries of the next record is counting one record more. */
  lemma StatsNextRecord(rs: seq<FileRecord>, r: FileRecord)
    ensures PartialStats(rs, r.tagStatus) == TagStats(rs + [r])
  {
    var counted := PartialStats(rs, r.tagStatus);
    var next := TagStats(rs + [r]);
    assert (rs + [r])[..|rs|] == rs;
    assert counted.Keys == next.Keys;
    forall t | t in next.Keys ensures counted[t] == next[t] {
      assert PresentWeight(t)(r) == EntryCount(r.tagStatus, t, Yes);
      assert MissingWeight(t)(r) == EntryCount(r.tagStatus, t, No);
      assert PresentTotal(rs + [r], t) == PresentTotal(rs, t) + EntryCount(r.tagStatus, t, Yes);
      assert MissingTotal(rs + [r], t) == MissingTotal(rs, t) + EntryCount(r.tagStatus, t, No);
    }
  }

  /** `{tag: {'present': 0, 'missing': 0} for tag in TAGS_TO_CHECK}`. */
  function ZeroStats(): map<string, Tally> {
    map t | t in TagsToCheck :: Tally(0, 0)
  }

  /** Before any record is counted, every checked tag has the tally 0/0. */
  lemma StatsStart()
    ensures TagStats([]) == ZeroStats()
  {
    var zero := ZeroStats();
    forall t | t in TagsToCheck ensures TagStats([])[t] == zero[t] {
      assert PresentTotal([], t) == 0 && MissingTotal([], t) == 0;
    }
  }

  /** The inner loop of `create_visualization`: counts the `tag_status`
      items of one more record into the tallies of the records before it. */
  method CountRecord(stats: map<string, Tally>, done: seq<FileRecord>, r: FileRecord)
    returns (next: map<string, Tally>)
    requires stats == TagStats(done)
    requires forall j | 0 <= j < |r.tagStatus| :: r.tagStatus[j].tag in TagsToCheck
    ensures next == TagStats(done + [r])
  {
    next := stats;
    var entries := r.tagStatus;
    assert entries[..0] == [];
    var j := 0;
    while j < |entries|
      invariant 0 <= j <= |entries|
      invariant next == PartialStats(done, entries[..j])
    {
      var e := entries[j];
      StatsStep(done, entries[..j], e);
      assert entries[..j + 1] == entries[..j] + [e];
      next := Bump(next, e);
      j := j + 1;
    }
    assert entries[..j] == entries;
    StatsNextRecord(done, r);
  }

  /** The outer loop of `create_visualization`: starting from zero
      tallies, counts every record's `tag_status` items. */
  method CountTags(results: seq<FileRecord>) returns (tagStats: map<string, Tally>)
    requires KnownTags(results)
    ensures tagStats == TagStats(results)
  {
    tagStats := ZeroStats();
    StatsStart();
    assert results[..0] == [];
    var i := 0;
    while i < |results|
      invariant 0 <= i <= |results|
      invariant tagStats == TagStats(results[..i])
    {
      tagStats := CountRecord(tagStats, results[..i], results[i]);
      assert results[..i + 1] == results[..i] + [results[i]];
      i := i + 1;
    }
    assert results[..i] == results;
  }

  /** `create_visualization`: the faulty count, the normal count as the rest,
      and the per-tag tallies of a nested loop over every record's
      `tag_status` items, `'yes'` counted as present and anything else as
      missing. */
  method CreateVisualization(results: seq<FileRecord>) returns (summary: Summary)
    requires KnownTags(results)
    ensures summary == VisualizationOf(results)
  {
    var faultyCount := FaultyCount(results);
    var normalCount := |results| - faultyCount;
    var tagStats := CountTags(results);
    summary := Summary(|results|, faultyCount, normalCount, tagStats);
  }

  /** The faulty and the normal records partition the batch: the summary's
      two counts add up to the number of records, and each is the size of
      the subset the matching export projects. */
  lemma SummaryReconciles(rs: seq<FileRecord>)
    ensures var s := VisualizationOf(rs);
      && s.faultyCount + s.normalCount == s.total == |rs|
      && s.faultyCount == |FaultyRecords(rs)|
      && s.normalCount == |NormalRecords(rs)|
  {
  }

  /** An entry is counted as present or as missing, never both: the two
      counts of a tag add up to the entries with that tag. */
  lemma {:induction false} EntryCountsSplit(es: seq<TagEntry>, t: string)
    ensures EntryCount(es, t, Yes) + EntryCount(es, t, No) == TagCount(es, t)
    decreases |es|
  {
    if es != [] {
      EntryCountsSplit(es[..|es| - 1], t);
    }
  }

  /** For every tag, present plus missing is the number of `tag_status`
      entries with that tag, summed over the records. A dictionary holds each
      key at most once, but a sequence of entries need not, so this counts
      entries; `TallyCoversNormal` uses `Conforms` to count records. */
  lemma TallyReconciles(rs: seq<FileRecord>, t: string)
    ensures PresentTotal(rs, t) + MissingTotal(rs, t) == Sum(rs, HoldsWeight(t))
  {
    forall r ensures PresentWeight(t)(r) + MissingWeight(t)(r) == HoldsWeight(t)(r) {
      EntryCountsSplit(r.tagStatus, t);
    }
    SumPointwise(rs, PresentWeight(t), MissingWeight(t), HoldsWeight(t));
  }

  /** The tags of `TAGS_TO_CHECK` are pairwise different. */
  lemma TagsDistinct()
    ensures forall i, j | 0 <= i < j < |TagsToCheck| :: TagsToCheck[i] != TagsToCheck[j]
  {
  }

  /** Entries listed in the order of distinct `tags` hold each of them once. */
  lemma {:induction false} TagCountOfDistinct(es: seq<TagEntry>, tags: seq<string>, t: string)
    requires |es| == |tags|
    requires forall i | 0 <= i < |tags| :: es[i].tag == tags[i]
    requires forall i, j | 0 <= i < j < |tags| :: tags[i] != tags[j]
    ensures TagCount(es, t) == if t in tags then 1 else 0
    decreases |es|
  {
    if es != [] {
      var n := |es| - 1;
      TagCountOfDistinct(es[..n], tags[..n], t);
      assert tags == tags[..n] + [tags[n]];
    }
  }

  /** A record that keeps the record invariant holds a checked tag exactly
      when it is normal. */
  lemma HoldsExactlyNormal(r: FileRecord, t: string)
    requires Conforms(r) && t in TagsToCheck
    ensures HoldsWeight(t)(r) == if r.isFaulty then 0 else 1
  {
    if !r.isFaulty {
      TagsDistinct();
      TagCountOfDistinct(r.tagStatus, TagsToCheck, t);
    }
  }

  /** For records that keep the record invariant, the present and missing
      tallies of every checked tag add up to the number of normal records:
      faulty records carry no tag data. */
  lemma {:induction false} TallyCoversNormal(rs: seq<FileRecord>, t: string)
    requires forall i | 0 <= i < |rs| :: Conforms(rs[i])
    requires t in TagsToCheck
    ensures PresentTotal(rs, t) + MissingTotal(rs, t) == |NormalRecords(rs)|
    decreases |rs|
  {
    TallyReconciles(rs, t);
    HoldsCountsNormal(rs, t);
  }

  lemma {:induction false} HoldsCountsNormal(rs: seq<FileRecord>, t: string)
    requires forall i | 0 <= i < |rs| :: Conforms(rs[i])
    requires t in TagsToCheck
    ensures Sum(rs, HoldsWeight(t)) == |NormalRecords(rs)|
    decreases |rs|
  {
    if rs != [] {
      var n := |rs| - 1;
      HoldsCountsNormal(rs[..n], t);
      HoldsExactlyNormal(rs[n], t);
    }
  }

  /** The summary depends on which records the batch produced, not on the
      order they arrived in. */
  lemma SummaryOrderFree(a: seq<FileRecord>, b: seq<FileRecord>)
    requires multiset(a) == multiset(b)
    ensures VisualizationOf(a) == VisualizationOf(b)
  {
    assert |a| == |multiset(a)| == |b|;
    SumPermutation(a, b, FaultyWeight);
    forall t | t in TagsToCheck
      ensures PresentTotal(a, t) == PresentTotal(b, t)
      ensures MissingTotal(a, t) == MissingTotal(b, t)
    {
      SumPermutation(a, b, PresentWeight(t));
      SumPermutation(a, b, MissingWeight(t));
    }
  }

  // ---------------------------------------------------------------------
  // Rows

  /** A row of `table_data` in the completion message. */
  datatype TableRow = TableRow(file: string, meter: string, status: string, missingTags: string, tagValues: string)

  /** A row of the faulty-only export. */
  datatype FaultyExportRow = FaultyExportRow(file: string, meter: string, status: string, missingTags: string)

  /** A row of the normal-only export. */
  datatype NormalExportRow = NormalExportRow(file: string, meter: string, status: string, tagValues: string)

  /** `tag_status.get(t)`: the status of the first entry with tag `t`. */
  function Lookup(es: seq<TagEntry>, t: string): Option<Presence> {
    if es == [] then None
    else if es[0].tag == t then Some(es[0].status)
    else Lookup(es[1..], t)
  }

  /** The status as the rendering shows it, `'N/A'` for an absent key. */
  function StatusText(p: Option<Presence>): string {
    match p
    case Some(Yes) => "yes"
    case Some(No) => "no"
    case None => NotAvailable
  }

  /** The pieces `f"{tag}: {status}"` for every tag of `TAGS_TO_CHECK`. */
  function TagValueParts(es: seq<TagEntry>): seq<string> {
    seq(|TagsToCheck|, i requires 0 <= i < |TagsToCheck| =>
      TagsToCheck[i] + ": " + StatusText(Lookup(es, TagsToCheck[i])))
  }

  /** `' | '.join(...)` of those pieces. */
  function TagValues(es: seq<TagEntry>): string {
    Join(" | ", TagValueParts(es))
  }

  /** `', '.join(missing)` when there are missing tags, otherwise `empty`. */
  function MissingText(missing: seq<string>, empty: string): string {
    if missing != [] then Join(", ", missing) else empty
  }

  function TableRowOf(r: FileRecord): TableRow {
    TableRow(r.file, r.meter, if r.isFaulty then "Faulty" else "Normal",
             MissingText(r.missingTags, "None"),
             if !r.isFaulty then TagValues(r.tagStatus) else NotAvailable)
  }

  function FaultyRowOf(r: FileRecord): FaultyExportRow {
    FaultyExportRow(r.file, r.meter, "Faulty", MissingText(r.missingTags, NotAvailable))
  }

  function NormalRowOf(r: FileRecord): NormalExportRow {
    NormalExportRow(r.file, r.meter, "Normal", TagValues(r.tagStatus))
  }

  /** The `table_data` loop of the completion message: one row per record,
      in record order. */
  method BuildTableData(results: seq<FileRecord>) returns (rows: seq<TableRow>)
    ensures rows == Map(results, TableRowOf)
  {
    rows := [];
    var i := 0;
    while i < |results|
      invariant 0 <= i <= |results|
      invariant |rows| == i
      invariant forall k | 0 <= k < i :: rows[k] == TableRowOf(results[k])
    {
      rows := rows + [TableRowOf(results[i])];
      i := i + 1;
    }
  }

  /** The process-wide `global_results`: the records of the last batch,
      replaced when a batch completes and read by the exports. */
  class ResultStore {
    var results: seq<FileRecord>

    constructor ()
      ensures results == []
    {
      results := [];
    }
  }

  /** `export_faulty`: fails when the last batch has no faulty record;
      otherwise one row per faulty record, in record order. */
  method ExportFaulty(store: ResultStore) returns (r: Result<seq<FaultyExportRow>, string>)
    ensures FaultyRecords(store.results) == [] ==> r == Failure("No faulty files to export")
    ensures FaultyRecords(store.results) != [] ==>
      r == Success(Map(FaultyRecords(store.results), FaultyRowOf))
  {
    var faultyFiles := FaultyRecords(store.results);
    if faultyFiles == [] {
      return Failure("No faulty files to export");
    }
    var exportData: seq<FaultyExportRow> := [];
    var i := 0;
    while i < |faultyFiles|
      invariant 0 <= i <= |faultyFiles|
      invariant |exportData| == i
      invariant forall k | 0 <= k < i :: exportData[k] == FaultyRowOf(faultyFiles[k])
    {
      exportData := exportData + [FaultyRowOf(faultyFiles[i])];
      i := i + 1;
    }
    assert exportData == Map(faultyFiles, FaultyRowOf);
    r := Success(exportData);
  }

  /** `export_normal`: fails when the last batch has no normal record;
      otherwise one row per normal record, in record order. */
  method ExportNormal(store: ResultStore) returns (r: Result<seq<NormalExportRow>, string>)
    ensures NormalRecords(store.results) == [] ==> r == Failure("No normal files to export")
    ensures NormalRecords(store.results) != [] ==>
      r == Success(Map(NormalRecords(store.results), NormalRowOf))
  {
    var normalFiles := NormalRecords(store.results);
    if normalFiles == [] {
      return Failure("No normal files to export");
    }
    var exportData: seq<NormalExportRow> := [];
    var i := 0;
    while i < |normalFiles|
      invariant 0 <= i <= |normalFiles|
      invariant |exportData| == i
      invariant forall k | 0 <= k < i :: exportData[k] == NormalRowOf(normalFiles[k])
    {
      exportData := exportData + [NormalRowOf(normalFiles[i])];
      i := i + 1;
    }
    assert exportData == Map(normalFiles, NormalRowOf);
    r := Success(exportData);
  }

  // ---------------------------------------------------------------------
  // What the rows say

  /** No checked tag contains the `,` or the `|` of the separators. */
  lemma TagsPlain()
    ensures forall i | 0 <= i < |TagsToCheck| :: ',' !in TagsToCheck[i] && '|' !in TagsToCheck[i]
  {
  }

  /** The `Missing Tags` column reads back, split at `, `, as the record's
      missing tags, whenever there are any. */
  lemma MissingTextReadsBack(missing: seq<string>, empty: string)
    requires missing != []
    requires forall i | 0 <= i < |missing| :: missing[i] in TagsToCheck
    ensures Split(MissingText(missing, empty), ", ") == missing
  {
    TagsPlain();
    forall i | 0 <= i < |missing| ensures ',' !in missing[i] {
      var k :| 0 <= k < |TagsToCheck| && TagsToCheck[k] == missing[i];
    }
    SplitJoin(", ", 0, missing);
  }

  /** A record with the tags of `TAGS_TO_CHECK` in that order answers
      `.get(tag)` with the status at the tag's own position. */
  lemma LookupAtPosition(es: seq<TagEntry>, k: nat)
    requires |es| == |TagsToCheck| && k < |TagsToCheck|
    requires forall i | 0 <= i < |TagsToCheck| :: es[i].tag == TagsToCheck[i]
    ensures Lookup(es, TagsToCheck[k]) == Some(es[k].status)
  {
    TagsDistinct();
    LookupFirst(es, TagsToCheck[k], k);
  }

  lemma {:induction false} LookupFirst(es: seq<TagEntry>, t: string, k: nat)
    requires k < |es| && es[k].tag == t
    requires forall i | 0 <= i < k :: es[i].tag != t
    ensures Lookup(es, t) == Some(es[k].status)
    decreases k
  {
    if k > 0 {
      LookupFirst(es[1..], t, k - 1);
    }
  }

  /** The `Tag Values` column of a normal record reads back, split at ` | `,
      as one `tag: yes|no` piece per checked tag, in `TAGS_TO_CHECK` order,
      with the record's own status: `'N/A'` never shows. */
  lemma TagValuesReadBack(r: FileRecord)
    requires Conforms(r) && !r.isFaulty
    ensures var parts := Split(TagValues(r.tagStatus), " | ");
      && |parts| == |TagsToCheck|
      && forall i | 0 <= i < |TagsToCheck| ::
        parts[i] == TagsToCheck[i] + ": " + (if r.tagStatus[i].status == Yes then "yes" else "no")
  {
    var parts := TagValueParts(r.tagStatus);
    TagsPlain();
    forall i | 0 <= i < |TagsToCheck|
      ensures '|' !in parts[i]
      ensures parts[i] == TagsToCheck[i] + ": " + (if r.tagStatus[i].status == Yes then "yes" else "no")
    {
      LookupAtPosition(r.tagStatus, i);
    }
    SplitJoin(" | ", 1, parts);
  }

  /** A faulty record as `process_xml_file` produces it has no missing tags,
      so its export row says `'N/A'` and its table row says `'None'` in the
      `Missing Tags` column, and its table row has `'N/A'` as tag values. */
  lemma FaultyRowsCarryNoTags(r: FileRecord)
    requires Conforms(r) && r.isFaulty
    ensures FaultyRowOf(r) == FaultyExportRow(r.file, NotAvailable, "Faulty", NotAvailable)
    ensures TableRowOf(r) == TableRow(r.file, NotAvailable, "Faulty", "None", NotAvailable)
  {
  }

  /** The two exports split the stored records between them: together they
      have one row per record, as many as the summary counts on each side. */
  lemma ExportsPartition(rs: seq<FileRecord>)
    ensures |Map(FaultyRecords(rs), FaultyRowOf)| == VisualizationOf(rs).faultyCount
    ensures |Map(NormalRecords(rs), NormalRowOf)| == VisualizationOf(rs).normalCount
    ensures |FaultyRecords(rs)| + |NormalRecords(rs)| == |rs|
  {
  }
}
