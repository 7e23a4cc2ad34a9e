# XML tag-status validator: a Dafny model

This project models the core of `xml_processor.py`, a web service that
checks a batch of uploaded XML meter files. The model covers:

- the upload filter (`allowed_file`) and the intake loop that applies it;
- the per-file classification (`process_xml_file`). A file is faulty when it
  cannot be parsed or when no `G1` element carries a non-blank meter number.
  Otherwise it is normal, and each of the 13 tags of `TAGS_TO_CHECK` is
  recorded as `yes` or `no`;
- the batch loop of `generate`. Results are taken in the order the workers
  finish, with a progress event after each result and one completion event
  at the end;
- the counts and per-tag tallies of `create_visualization`;
- the rows of the completion table and of the faulty-only and normal-only
  exports.

Modules:

- `Wrappers`: `Option` and `Result`.
- `Text`: the Python string operations the code relies on.
  - `str.strip()` uses exactly the character set of `str.isspace()`.
  - `str.lower()` on ASCII letters.
  - `rsplit('.', 1)`.
  - `os.path.basename` as on Windows, where the service runs.
  - `str.join`, with `str.split` as its inverse.
- `Xml`: the parsed tree, and the two ElementTree queries the code uses.
  - `root.iter(tag)` is a depth-first walk that includes the root.
  - `root.find('.//' + tag)` is the first element of that walk other than the
    root itself.
- `Seqs`: sums, and maps over sequences. Both are shown not to depend on the
  order of the elements.
- `Validator`: `allowed_file`, upload intake, and `process_xml_file`.
  - `Classify` is the specification function.
  - The methods `FindMeter`, `CheckTags` and `ProcessXmlFile` follow the
    source's loops and are proved equal to it.
- `Report`: summary counts, record filters, table and export rows, and the
  process-wide `global_results` store (`ResultStore`).
- `Batch`: the `generate` loop and its event stream. The order the workers
  finish in is a parameter: any permutation of the submitted files.

The code classifies by one rule only. A file is faulty exactly when it is
unreadable or has no meter number. A normal file may miss any number of the
checked tags. An upload with no files is refused before any batch starts,
so no completion event for an empty batch is ever produced.

## Model

| member | source | states |
|---|---|---|
| Text.StripLeading | xml_processor.py:49 | `lstrip()`: the result is a suffix, does not start with white space, and only white space was removed |
| Text.StripTrailing | xml_processor.py:49-50 | `rstrip()`: the result is a prefix, does not end with white space, and only white space was removed |
| Text.StripSpec | xml_processor.py:49-50 | `strip()` is the middle of the text between two runs of white space. It has none at either end, and is empty exactly when the text is blank |
| Text.LastIndexOf | xml_processor.py:29 | the split point of `rsplit('.', 1)`: absent exactly when there is no `.`, otherwise the last `.` |
| Text.BasenameSpec | xml_processor.py:39 | for a folder path followed by a name, as line 248 builds, `os.path.basename` is the longest suffix of the path without a separator |
| Text.SplitJoin | xml_processor.py:164 | splitting a `sep.join(parts)` at `sep` gives `parts` back for a non-empty list of parts, none of which holds the separator's distinctive character (an empty list joins to `""`, which splits to `[""]`) |
| Xml.IterTagSpec | xml_processor.py:48 | `iter(tag)` yields only elements with that tag, and yields one exactly when the subtree (root included) has one |
| Xml.FindBelowSpec | xml_processor.py:62 | `find('.//' + tag)` finds something exactly when a child's subtree holds the tag, whatever the root's own tag |
| Validator.AllowedFileLetters | xml_processor.py:28-29 | a name is accepted exactly when it has at least four characters and ends in `.`, then `x` or `X`, then `m` or `M`, then `l` or `L` |
| Validator.AllowedFileSpec | xml_processor.py:28-29 | a name is accepted exactly when it ends in `.` followed by `xml` in any letter case |
| Validator.CheckUploads | xml_processor.py:235-245 | no files, or a first file without a name, gives `No selected files.`. Otherwise the upload passes exactly when every name is accepted, and the error names the first rejected file |
| Validator.FirstMeterSpec | xml_processor.py:47-52 | there is no meter number exactly when no `G1` element offers non-blank text |
| Validator.FirstMeterAt | xml_processor.py:47-52 | the meter number found comes from a `G1` element with no offering element before it |
| Validator.FindMeter | xml_processor.py:46-52 | the loop with its early `break` finds the first meter number, and leaves `N/A` and the flag unset when there is none |
| Validator.CheckTags | xml_processor.py:60-66 | the tag loop builds `tag_status` and `missing_tags` in `TAGS_TO_CHECK` order |
| Validator.TagLoopStep | xml_processor.py:61-66 | proof step for the `CheckTags` loop: checking one more tag appends its status, and appends the tag to the missing list exactly when its status is `no` |
| Validator.ProcessXmlFile | xml_processor.py:31-83 | the method's record equals `Classify`, for parsed and for unparsable files |
| Validator.MissingTagsAreNoTags | xml_processor.py:61-66 | the missing list is the list of tags whose status is `no` |
| Validator.ClassifyFaulty | xml_processor.py:31-83 | the file name is the basename. A file is faulty exactly when it is unparsable or no `G1` element (root included) has non-blank text. A faulty record has meter `N/A` and empty tag data |
| Validator.ClassifyNormal | xml_processor.py:46-69 | link from `Classify` to `FirstMeter`: a normal file has a meter number, and it is the one `FirstMeter` finds. What that number is, is stated by `FirstMeterSpec` and `FirstMeterAt` |
| Validator.ClassifyMeter | xml_processor.py:46-52 | a normal file's meter is the stripped text of the first `G1` element in document order whose text is not blank |
| Validator.MeterIsTrimmed | xml_processor.py:49-50 | a meter number is never blank and has no surrounding white space |
| Validator.ClassifyTagStatus | xml_processor.py:61-65 | a normal file has one status per checked tag, in order. The status is `yes` exactly when the tag occurs strictly below the root |
| Validator.ClassifyMissingTags | xml_processor.py:61-69 | the missing tags are exactly the tags with status `no`, in order, i.e. the checked tags absent below the root. The file stays normal however many there are |
| Validator.ClassifyConforms | xml_processor.py:38-83 | every record returned keeps the record invariant `Conforms` |
| Validator.RootMeterCounts | xml_processor.py:48-52 | a `G1` root with non-blank text provides the meter number itself |
| Validator.RootTagNotSearched | xml_processor.py:62 | an example of `ClassifyTagStatus`: a root named `D1` does not count as a `D1` element, so such a file reports `D1` missing |
| Report.FaultyCount | xml_processor.py:87 | the faulty count never exceeds the number of records |
| Report.FaultyRecords | xml_processor.py:152 | the faulty filter keeps exactly the faulty records, as many as `FaultyCount` counts |
| Report.NormalRecords | xml_processor.py:193 | the normal filter keeps exactly the normal records, as many as the rest |
| Report.FaultyKeepsOrder | xml_processor.py:152 | the faulty filter keeps record order: it distributes over concatenation |
| Report.NormalKeepsOrder | xml_processor.py:193 | the normal filter keeps record order: it distributes over concatenation |
| Report.EntryCountStep | xml_processor.py:93-97 | proof step for the counting loops: one more item of a given tag and status raises that count by one |
| Report.StatsStep | xml_processor.py:93-97 | counting one item raises only its own tag's tally, on the present side for `yes` and on the missing side otherwise |
| Report.StatsNextRecord | xml_processor.py:92-97 | counting all items of the next record gives the tallies of one record more |
| Report.CountRecord | xml_processor.py:93-97 | the inner counting loop turns the tallies of the earlier records into those including this record |
| Report.StatsStart | xml_processor.py:91 | the tallies start at zero present and zero missing for every checked tag |
| Report.CountTags | xml_processor.py:91-97 | the outer counting loop, starting from zero tallies, gives the tallies of all records |
| Report.CreateVisualization | xml_processor.py:85-97 | the nested loops give the faulty count, the normal count as the rest, and per-tag tallies equal to `VisualizationOf` |
| Report.SummaryReconciles | xml_processor.py:87-88 | faulty plus normal equals the total. Each count is the size of the matching filtered subset |
| Report.EntryCountsSplit | xml_processor.py:94-97 | every item is counted either as present or as missing |
| Report.TallyReconciles | xml_processor.py:91-97 | for each tag, present plus missing equals the number of `tag_status` entries with that tag, summed over the records. `TallyCoversNormal` turns this into the normal count |
| Report.TagsDistinct | xml_processor.py:26 | the checked tags are pairwise different |
| Report.TagCountOfDistinct | xml_processor.py:61-65 | a record listing the distinct checked tags in order holds each of them exactly once |
| Report.HoldsExactlyNormal | xml_processor.py:55-66 | a returned record holds a checked tag exactly when it is normal |
| Report.HoldsCountsNormal | xml_processor.py:91-97 | over returned records, the number holding a checked tag is the number of normal records |
| Report.TallyCoversNormal | xml_processor.py:87-97 | over returned records, present plus missing for every checked tag equals the normal count |
| Report.SummaryOrderFree | xml_processor.py:85-97 | the summary is the same for any order of the same records |
| Report.BuildTableData | xml_processor.py:305-316 | one table row per record, in record order. Missing tags are shown as `None` when empty, and tag values as `N/A` for faulty records |
| Report.ResultStore.constructor | xml_processor.py:132-135 | the store starts with no results |
| Report.ExportFaulty | xml_processor.py:152-165 | fails with `No faulty files to export` when there are no faulty records. Otherwise one row per faulty record, in record order |
| Report.ExportNormal | xml_processor.py:193-210 | fails with `No normal files to export` when there are no normal records. Otherwise one row per normal record, in record order |
| Report.TagsPlain | xml_processor.py:26 | no checked tag contains a comma or a vertical bar |
| Report.MissingTextReadsBack | xml_processor.py:311 | the `, `-joined missing-tags column of a table row splits back into the record's missing tags. The faulty export at line 164 renders the column the same way, but there the join never runs, because faulty records have no missing tags |
| Report.LookupFirst | xml_processor.py:202 | `tag_status.get(tag)` returns the status of the first item with that tag |
| Report.LookupAtPosition | xml_processor.py:202 | in a normal record, `.get(tag)` returns the status stored at the tag's own position |
| Report.TagValuesReadBack | xml_processor.py:202-203 | a normal record's `Tag Values` splits at its vertical-bar separator into one `tag: yes/no` piece per checked tag, in order, so `N/A` never shows |
| Report.FaultyRowsCarryNoTags | xml_processor.py:311-315 | a faulty record's export row says `N/A` for missing tags. Its table row says `None` for missing tags and `N/A` for tag values |
| Report.ExportsPartition | xml_processor.py:152-196 | the two exports have as many rows as the summary's faulty and normal counts, and together one row per record |
| Batch.OutcomesPrefix | xml_processor.py:264-272 | proof step for the batch loop: the results of the first k finished jobs are the first k results |
| Batch.OutcomesKnownTags | xml_processor.py:301 | the worker results keep the record invariant and list only checked tags, which `create_visualization` relies on |
| Batch.OutcomesSnoc | xml_processor.py:270-272 | proof step for the batch loop: one more finished job appends its result |
| Batch.FaultyCountSnoc | xml_processor.py:273-274 | proof step for the batch loop: one more result raises the faulty count exactly when it is faulty |
| Batch.ProgressEventsSnoc | xml_processor.py:279-286 | proof step for the batch loop: one more finished job appends one progress event |
| Batch.RunBatch | xml_processor.py:254-286 | the loop's results are the worker results in finishing order. Its `faulty_count` counts their faulty records, and its events are the progress events |
| Batch.Generate | xml_processor.py:253-328 | produces the progress events followed by the completion event, and, once the last progress event is out, stores this batch's results in finishing order (a stream read to its end) |
| Batch.FaultyCountGrows | xml_processor.py:273-274 | the running faulty count never decreases |
| Batch.FaultyJobsGrow | xml_processor.py:273-283 | a longer prefix of finished jobs never has fewer faulty files |
| Batch.ProgressEventsLength | xml_processor.py:264-286 | one progress event per finished job |
| Batch.ProgressEventAt | xml_processor.py:264-286 | the k-th progress event reports k + 1 processed of the total, the k-th file's basename, and the faulty count among the first k + 1 results |
| Batch.ProgressEventsSpec | xml_processor.py:264-286 | every progress event is as `ProgressEventAt` states |
| Batch.StreamLast | xml_processor.py:319-328 | the stream ends with the completion event |
| Batch.StreamShape | xml_processor.py:264-328 | a batch of n files streams n progress events in finishing order, then the completion event |
| Batch.ProgressReachesTotal | xml_processor.py:264-284 | `processed` rises by one per file, stays within the total, and reaches it on the last file, so the percentage never exceeds 100 and ends at 100 |
| Batch.CompletionOrderFree | xml_processor.py:319-325 | the total, the faulty count and the summary are those of the submitted jobs, whatever the finishing order. The table rows differ only in order |
| Batch.ExportsAfterBatch | xml_processor.py:298-301 | after a batch, the faulty export has one row per faulty file of the batch, and the two exports together cover the batch |

`Classify`, `FirstMeter`, `VisualizationOf`, `TableRowOf`, `FaultyRowOf`,
`NormalRowOf`, `Stream` and `Completion` are specification functions. The
lemmas above state what they mean.

## Left out

- HTTP and Flask: routes, the request checks before intake (`files[]`
  missing), `secure_filename`, saving uploads, the upload and export
  folders, `get_export_directories`, and JSON and server-sent-event framing.
  The model starts from the file names and from what parsing each saved
  file gives.
- `ET.parse`: the XML parser is foreign code. A file is its parsed tree or
  `Unparsable`. Reading errors and parse errors are the same case, as in the
  source's `except` branch.
- The thread pool: only the order the workers finish in is modelled, as a
  permutation of the submitted jobs.
- The `except` branch of the batch loop (error events): the worker catches
  every exception itself, so `future.result()` never raises and the branch
  is not reachable. The `if result:` guard always holds for the same reason.
- `round(progress, 2)`: floating point. A progress event carries `processed`
  and `total` instead of the rounded percentage.
- CSV writing with pandas, and the messages and file paths the exports
  return. Only the rows are modelled.
- Chart labels, colours and the JSON of `create_visualization`. The function
  returns only the total, faulty and normal counts. Its `tag_stats` tallies are
  computed but never returned. The model keeps them in `Summary`, so that
  what they count can be stated.
- The `faulty_files` key of `global_results`: the code never reads it.
- Logging.
- Text.Lower: only the letters A-Z are lowered. Python also lowers other
  letters, but none of them lowers to `x`, `m` or `l`, so `AllowedFile`
  still matches `allowed_file` exactly. `Lower` is a definition with no
  contract of its own; `AllowedFileLetters` states what the filter accepts
  without it.
- Batch.Generate: the store is written once the last progress event has
  been produced, as in the method. In the source, `generate` is a lazy
  generator, so the write happens only if the client reads the stream to
  its end. A client that disconnects early leaves the previous batch
  stored. Requests served at the same time are not modelled either: an
  export issued while a batch streams reads the previous batch. So
  `Generate`'s promise about the store, and `ExportsAfterBatch`, hold for
  a stream that is read in full with no other request interleaved.
- Text.Basename: Windows drive prefixes are not modelled. A drive letter
  followed by a name with no separator (`C:name`) is not split at the colon.
  A bare UNC share root (`\\server\share` or `//server/share`) gives
  `share` here, where Windows gives an empty name. The service passes only
  paths made of the upload folder and a non-empty file name (line 248), and
  neither case arises for those.
- Uploads sharing a name after `secure_filename` overwrite each other on
  disk. A job pairs a path with its own parse result, so that overwriting is
  not modelled.
