# Music recommendation system — a verified Dafny model

This project models the core of a content-based music recommender.

- **Query engine.** The engine turns a decoded song into one fused feature vector in a fixed layout:
  - a librosa block;
  - a PCA-reduced YAMNet embedding;
  - the top instrument score;
  - the duration.

  It assigns the vector to the nearest cluster centroid and answers with up to ten recommendations. They are taken from that cluster's members, or from the ten most similar catalogue songs when the cluster has none. Songs without metadata are dropped, and songs sharing a `perma_url` are de-duplicated.
- **Offline pipeline.** The offline pipeline builds the catalogue that the engine reads:
  - feature extraction (librosa pass, then a YAMNet pass);
  - feature selection (final row layout and export defaults);
  - metadata pairing (`clean_title`, renaming, records);
  - two metadata patchers;
  - a download cleaner (normalised-title de-duplication and the log file);
  - a playlist downloader (title sanitising, output template, skip rule).

Each Python file of the core becomes one Dafny module, plus a few shared modules:

- `Wrappers` (wrappers.dfy): `Option`, and `Result` for Python's exceptions (`Err(message)`).
- `Dicts` (dicts.dfy): Python `dict` as an ordered map: a `keys` sequence in insertion order plus a `map`. It also models dict comprehensions.
- `Json` (json.dfy): Loosely typed JSON values (`Value`), Python truthiness, hashability.
- `Numbers` (numbers.dfy): `int()` on JSON values: decimal parsing and truncation toward zero.
- `Text` (text.dfy): ASCII character classes, `strip`, `os.path.splitext`, `lower`, `\s+` collapsing, whole-word removal.
- `Schema` (schema.dfy): The nine strict-schema keys and the all-`None` record.
- `Ranking` (ranking.dfy): A stable descending sort on `(key, position)` pairs (insertion sort).
- `FeatureLayout` (layout.dfy): The librosa vector layout and `combine_features`.
- `Chunking` (chunking.dfy): The 2-second chunk partition.
- `Yamnet` (yamnet.dfy): The chunk inference loop.
- `Instruments` (instruments.dfy): `argsort(...)[::-1][:20]` and the `> 0.15` instrument filter.
- `Distance` (distance.dfy): numpy vector conversion, broadcasting subtraction, squared distance.
- `ClusterIndex` (cluster_index.dfy): The centroid table, `cluster_to_song_ids` and `assign_cluster`.
- `Fallback` (fallback.dfy): The brute-force similarity fallback.
- `Ranker` (ranker.dfy): `song_id_to_meta` and the de-duplicating ranking loop.
- `Prediction` (prediction.dfy): Module loading and `run`.
- `FeatureExtraction` (features_extractor.dfy): `features_extractor.py`.
- `FeatureSelection` (feature_selector.dfy): `dataset_preparation/feature_selector.py`.
- `PatchTitles` (patch_titles.dfy): `patches/patch_titles.py`.
- `PatchSchema` (patch_schema.dfy): `patch_schema.py`.
- `MetadataPair` (metadata_pair.dfy): `metatdata_pair.py`. The copy in `dataset_preparation/` is byte-identical, so one model covers both.
- `SongLog` (song_log.dfy): `downloaded_songs.txt`: writing it line by line and reading it back.
- `FilterDownloads` (filter_downloads.dfy): `filter_downloads.py`. The copy in `dataset_preparation/` is byte-identical.
- `Downloader` (downloader.dfy): `dataset_preparation/ubuntu_downloader.py`.

## How the model is built

- **Parameters, not I/O.** Everything the source gets from outside becomes a parameter:
  - file contents, which arrive already parsed as `Json.Value`;
  - directory listings, as a sequence of names in listing order;
  - `mutagen` durations, as `string -> Option<real>` (`None` when the read raises);
  - uuids;
  - the JioSaavn lookup;
  - the outcome of each yt-dlp download;
  - the decoders, librosa, YAMNet, the mean pooling and PCA.

  The numeric extractors are uninterpreted functions (`Extractors`, `Sources`). They return a `Result`, so their failures take the same path as an exception.
- **Exceptions.** An exception is `Err(message)`. Every place where the source can raise is modelled. Examples:
  - a `KeyError` on `song["features"]`;
  - an unhashable `perma_url` in `seen_urls`;
  - `int()` on a non-numeric string;
  - a numpy broadcasting error on vectors of different lengths, unless one has length 1.
- **Floating point.** Floating point is `real`. The Euclidean norm is replaced by the squared distance. `sqrt` and `x ↦ 1/(1+x)` are monotone, so every comparison and sort in the source orders the same way on squared distances. Ties are kept as ties.
- **Imperative code stays imperative.** Loops that update state are methods with loops. Each method is proved equal to a specification function, and the properties are lemmas about that function. Examples:
  - `assign_cluster`;
  - the chunk loop;
  - building `cluster_to_song_ids`;
  - the fallback, the ranker and `run`;
  - both extraction passes;
  - the export loop;
  - the patch loops;
  - `clean_title`'s junk-word loop;
  - the cleanup loop;
  - the downloader.

  The downloader's shared `downloaded_songs` set and log file are fields of the class `Downloader.Downloads`, which its methods update.

### Where the code is followed over the design description

- **Centroid ties.** `assign_cluster` iterates the centroids in the JSON file's key order and compares with strict `<`. On ties the FIRST label in that order wins, not the lowest numeric label.
- **No length check.** `combine_features` has no length check: any block lengths are concatenated.
- **Loading errors.** Malformed records at load time raise Python's own errors (`KeyError`, `AttributeError`, `ValueError`), not a schema error.
- **Fallback input.** The fallback scores only catalogue entries that have a `"features"` field.
- **Noise label.** If the catalogue holds songs with `cluster == -1`, then label `-1` has members. `assign_cluster` returns `-1` only when there are no centroids.

## Model

| member | source | states |
|---|---|---|
| FeatureLayout.LibrosaVector | prediction.py:91-93 | The librosa block's length is the MFCC means, MFCC deviations, chroma, five scalars and contrast together. |
| FeatureLayout.LibrosaSlots | prediction.py:91-94 | For librosa's default sizes the block has 50 entries; slot 41 (tempo) is always 0.0 and slot 42 is the returned duration. |
| FeatureLayout.LibrosaRoundTrip | prediction.py:91-93 | Cutting the block at the field boundaries gives back exactly the spectral summary: the layout loses nothing and fixes the order. |
| FeatureLayout.CombineFeatures | prediction.py:133-134 | The fused vector's length is the librosa length plus the reduced-embedding length plus 2. |
| FeatureLayout.CombineRoundTrip | prediction.py:133-134 | Splitting the fused vector at the lengths of `librosa` and `reduced` recovers the four parts: it is exactly `librosa ++ reduced ++ [instrument] ++ [duration]`. |
| FeatureLayout.FusedShape | prediction.py:133-134 | With a 50-entry librosa block and a 64-entry reduced embedding, the fused vector has 116 entries and ends with the duration. |
| FeatureLayout.Zeros | prediction.py:130 | `np.zeros(n)`: length n, every entry 0.0. |
| Chunking.ChunksConcat | prediction.py:102-103 | The chunks, concatenated, give back the signal. |
| Chunking.ChunkLengths | prediction.py:99-105 | No chunk is empty; every chunk has at most `sr*chunk_sec` samples and all but the last exactly that many. |
| Chunking.ChunkStart | prediction.py:102-103 | Chunk i is `y[i*n : min((i+1)*n, len(y))]`, so chunks start at 0, n, 2n, … |
| Chunking.ChunksEmpty | prediction.py:102-105 | There are no chunks exactly when the signal is empty. |
| Yamnet.InferAll | prediction.py:102-118 | One output per chunk when inference succeeds on all chunks. |
| Yamnet.InferChunks | prediction.py:99-118 | The chunk loop calls inference on each chunk in order and stops at the first error. It equals inference mapped over the chunk partition. |
| Yamnet.InferAllSpec | prediction.py:102-118 | The loop succeeds iff inference succeeds on every chunk, and output i is chunk i's result. |
| Yamnet.InferAllFirstError | prediction.py:110 | When chunk i is the first to fail, the whole extraction fails with chunk i's error. |
| Instruments.ScoreOrder | prediction.py:124 | `argsort(scores)[::-1]`: a permutation of the class indices with scores non-increasing, ties in descending index order. |
| Instruments.TopIndices | prediction.py:124 | `argsort(...)[::-1][:20]`: the first min(20, n) classes of the score order, so no class left out scores higher than a chosen one. |
| Instruments.SelectionBounds | features_extractor.py:125-126 | The instruments map has at most 20 entries, and each value is above 0.15. |
| Instruments.SelectionDefined | prediction.py:125 | Selection cannot fail when there are at least as many class names as scores. |
| Instruments.TopScoreIsMax | prediction.py:124-126 | With distinct class names, the first instruments value is the largest mean score when some score exceeds 0.15, and is 0.0 when none does. |
| Prediction.LibrosaFeatures | prediction.py:80-94 | `extract_librosa` fails exactly when the signal processing fails, with its error. Otherwise it returns the librosa block of the summary and the duration; with the default sizes the block has 50 entries and slot 42 is that duration. |
| Prediction.ExtractYamnet | prediction.py:97-130 | The extraction method computes the specification function: the chunk loop, then zeros or the pooled embedding and top score. |
| Prediction.YamnetEmpty | prediction.py:120-130 | An empty signal yields `(zeros(1024), 0.0)`. |
| Prediction.YamnetInstrumentScore | prediction.py:124-126 | The returned instrument score is 0.0 without chunks. Otherwise it is the maximum mean score when that exceeds 0.15, and 0.0 when nothing exceeds it. |
| Prediction.QueryLayout | prediction.py:153-159 | `final_vec` is the librosa block followed by the projected embedding, the instrument score and the duration. For the standard sizes it has 116 entries and ends with the duration. |
| Distance.ToVector | prediction.py:34 | `np.array(v, dtype=float32)`: a number becomes a one-entry vector and a flat list of numbers becomes the vector of them. Other values fail here (see Left out for what numpy also converts). |
| Distance.ListToVector | prediction.py:167 | A list of numbers converts entrywise; a list with a non-number item fails here (see Left out). |
| Distance.Diff | prediction.py:140 | Subtraction succeeds iff the lengths match or one is 1; on equal lengths it is entrywise. |
| Distance.SqDist | prediction.py:140 | The distance is defined iff the vectors broadcast. |
| Distance.DistNonNegative | prediction.py:140 | Distances are never negative. |
| Distance.DistSelf | prediction.py:168 | A vector is at distance 0 from itself, so its similarity is the maximum 1.0. |
| Distance.DistSymmetric | prediction.py:168 | Distance is symmetric. |
| Numbers.ParseInt | prediction.py:34 | `int(k)` on a string succeeds iff the stripped string is an optional sign and one or more digits, and then returns the digits' decimal value, negated after `-`; anything else raises. |
| Numbers.ParseShow | prediction.py:34 | Parsing the decimal rendering of an integer gives it back. |
| Numbers.Truncate | dataset_preparation/feature_selector.py:41 | `int(x)` on a float rounds toward zero. |
| Numbers.ToInt | dataset_preparation/feature_selector.py:41 | `int(v)` on a JSON value: integers unchanged, booleans 0/1, floats truncated, strings parsed, other values fail. |
| ClusterIndex.CentroidItem | prediction.py:34-35 | One centroid entry converts iff its key parses as an integer and its value as a vector, giving that pair. |
| ClusterIndex.CentroidTable | prediction.py:34-35 | A clusters file without a `centroids` object fails to load. |
| ClusterIndex.CentroidTableDefined | prediction.py:34-35 | The table loads iff every key parses and every value converts. |
| ClusterIndex.CentroidTableEntry | prediction.py:34-35 | The label of a key maps to that key's vector when no later key parses to the same label (later duplicates win). |
| ClusterIndex.CentroidTableOrder | prediction.py:34-35 | With distinct labels, the table iterates labels in the file's key order. |
| ClusterIndex.MembersSpec | prediction.py:40-42 | An id is a member of cluster c iff it is listed and its entry's `cluster` is c. |
| ClusterIndex.BuildClusterIndex | prediction.py:40-42 | Building succeeds iff every entry has a hashable `cluster`. Entries go under Python's dict key for that value, so `2`, `2.0` and `True`-as-`1` share one list. Each cluster's list is exactly its members in catalogue order, and no list is empty. |
| ClusterIndex.ExactlyOneList | prediction.py:40-42 | A catalogue id is in key c's list iff its `cluster` is filed under c, so it is in exactly one list. |
| Json.KeyOfEqual | prediction.py:40-42 | Two hashable values share a dict key exactly when Python's `==` holds between them: numbers across `bool`, `int` and `float` by value, anything else only as the same value. |
| ClusterIndex.FiledUnder | prediction.py:40-42 | An entry is filed under a label exactly when its `cluster` is `==` to that label in Python. |
| ClusterIndex.AssignCluster | prediction.py:136-144 | Assignment fails iff some centroid does not broadcast against the vector. With no centroids it returns -1. Otherwise it returns the label of the first centroid, in iteration order, whose distance is minimal. |
| ClusterIndex.AssignedUnique | prediction.py:136-144 | The assigned label is unique: assignment is deterministic. |
| Ranking.Sort | prediction.py:170 | The sort returns a sorted permutation of its input. |
| Ranking.SortedPermutationUnique | prediction.py:170 | Two sorted permutations of the same pairs are equal, so the stable sort's result is determined. |
| Fallback.TopPositions | prediction.py:170-171 | `similarities[:10]`: at most 10 positions, all of them unless there are more than 10, read off the sorted list in order. |
| Fallback.SimilarityFallback | prediction.py:163-171 | The fallback loop fails iff some featured entry's distance is undefined. Otherwise it returns the ids at the chosen positions. |
| Fallback.ScoredPositions | prediction.py:165-169 | Exactly the entries with `"features"` are scored, each with its own distance. |
| Fallback.NearestDefined | prediction.py:165-169 | The fallback fails iff some entry with features does not broadcast against the query. |
| Fallback.TopPositionsFacts | prediction.py:170-171 | The chosen positions are distinct, and they appear in the same order as in the sorted list. |
| Fallback.TopPositionsExcluded | prediction.py:170-171 | A scored entry is left out only when ten entries were chosen and each precedes it. |
| Fallback.NearestChosen | prediction.py:163-171 | At most 10 distinct featured entries are chosen, by increasing distance; equal distances keep catalogue order. |
| Fallback.NearestExcluded | prediction.py:170-171 | A featured entry outside the answer is no nearer than any chosen one, and then exactly ten were chosen. |
| Ranker.MetaItem | prediction.py:26 | A metadata entry gives a pair iff it is an object with a hashable `song_id`. |
| Ranker.MetaIndex | prediction.py:26 | Metadata that is not an object fails to load. |
| Ranker.MetaIndexDefined | prediction.py:26 | `song_id_to_meta` builds iff every entry has a hashable `song_id`. |
| Ranker.MetaIndexEntry | prediction.py:26 | Each song id maps to its last entry in file order. |
| Ranker.MetaIndexOnly | prediction.py:26 | Every key of `song_id_to_meta` is the `song_id` of some entry. |
| Ranker.MakeRecommendation | prediction.py:186-195 | A recommendation is built iff the metadata has `title`. Missing optional fields take the source's defaults (`""`, 0, `None` for `perma_url`). |
| Ranker.Rank | prediction.py:173-195 | The ranking loop computes the ranking function with room 10 and no URL yet seen. |
| Ranker.RankSkips | prediction.py:179-183 | A candidate without metadata, or with a truthy URL already seen, is skipped without effect. |
| Ranker.RankFails | prediction.py:182 | A truthy but unhashable URL raises `TypeError`. |
| Ranker.RankTakes | prediction.py:184-195 | Any other candidate is appended, and its truthy URL is recorded. |
| Ranker.RankIsTakeOfDedup | prediction.py:176-195 | The ranked ids are the first `room` of the de-duplicated candidates. |
| Ranker.RankKeepsFirstOccurrences | prediction.py:176-185 | The recommendations' ids are the first ten candidates that have metadata and are the first with their truthy URL. |
| Ranker.RankLength | prediction.py:177-178 | At most `room` (10) recommendations. |
| Ranker.RankFromCands | prediction.py:176 | Every recommended id is a candidate. |
| Ranker.RankRecords | prediction.py:179-195 | Every recommendation is built from its id's metadata. |
| Ranker.RankUnseen | prediction.py:182-185 | No recommended truthy URL was seen before the loop. |
| Ranker.RankDistinctUrls | prediction.py:182-185 | No two recommendations share a truthy URL. Falsy URLs are never de-duplicated. |
| Ranker.RankShape | prediction.py:173-195 | The conjunction of the bound, the provenance and the URL properties. |
| Ranker.RankDefined | prediction.py:179-188 | The loop cannot fail when every candidate with metadata has a title and a hashable truthy URL. |
| Prediction.Load | prediction.py:24-42 | Loading succeeds iff the three tables build. The engine then holds exactly `song_id_to_meta`, the centroid table, the catalogue and a correct cluster index. |
| Prediction.ClusterPathIff | prediction.py:40-42 | `cluster_to_song_ids.get(c)` is non-empty iff some catalogue entry's `cluster` is `==` to c (an int, an integral float or a boolean), and then it is those members in catalogue order. |
| Prediction.FloatClusterFound | prediction.py:40-42 | A song stored with `"cluster": 2.0` is among the candidates when the query is assigned label 2. |
| Prediction.Run | prediction.py:149-204 | `run`: a decoding or extraction error becomes `{"error": msg}`. A broadcasting error against a centroid is also an error. Otherwise the answer is the outcome for the assigned cluster. |
| Prediction.OutcomeShape | prediction.py:197-202 | `cluster_id` is the assigned label and there are at most 10 recommendations. `method == "cluster"` iff the cluster's list is non-empty. `total_candidates` is that list's length, or at most 10 on the similarity path. |
| Prediction.OutcomeRanking | prediction.py:173-195 | The recommendations are the first ten de-duplicated candidates. |
| FeatureExtraction.FilenameIndex | features_extractor.py:31 | `filename_to_id` has the metadata's filenames in order, each mapped to its entry's `song_id`. It fails iff some entry lacks one. |
| FeatureExtraction.LibrosaRecordOf | features_extractor.py:70-77 | The record has keys `features` and `duration`, holding the layout and the duration. |
| FeatureExtraction.LibrosaRecordSlots | features_extractor.py:67-77 | For the standard sizes the record's `duration` equals the duration slot of `features`, and the tempo slot is 0.0. |
| FeatureExtraction.ExtractLibrosa | features_extractor.py:41-81 | `extract_features_librosa` returns a result iff the filename's id is truthy and decoding and analysis succeed. The result is `(id, record)`. |
| FeatureExtraction.LibrosaStep | features_extractor.py:144-155 | Step 1's loop computes the step-1 specification function. |
| FeatureExtraction.LibrosaKeepsExisting | features_extractor.py:145-147 | Step 1 never overwrites an existing entry. |
| FeatureExtraction.LibrosaAddsRecords | features_extractor.py:148-151 | Every new entry of step 1 is a successful extraction's record under its id. |
| FeatureExtraction.LibrosaCoversSuccesses | features_extractor.py:148-151 | Every successful extraction's id is present after step 1. |
| FeatureExtraction.LibrosaDefined | features_extractor.py:145-146 | Step 1 fails iff some file's id is unhashable (the `in` test raises). |
| FeatureExtraction.YamnetChunked | features_extractor.py:94-115 | `yamnet_chunked_features` computes its specification function. |
| FeatureExtraction.YamnetSilent | features_extractor.py:109-115 | With no chunks the scores are zeros of the class-name count and the embedding is 1024 zeros. The instruments are then empty. |
| FeatureExtraction.ExtractYamnetFeatures | features_extractor.py:117-130 | A result carries the file's truthy id. |
| FeatureExtraction.YamnetInstrumentBounds | features_extractor.py:125-126 | The instruments have at most 20 entries, each above 0.15. |
| FeatureExtraction.InstrumentsValue | features_extractor.py:126 | The instruments dict as JSON: same keys in order, numeric values. |
| FeatureExtraction.YamnetStep | features_extractor.py:161-173 | Step 2's loop computes the step-2 specification function. |
| FeatureExtraction.YamnetTurnShape | features_extractor.py:166-169 | One step-2 result keeps the keys. It changes only `yamnet_embedding` and `instruments`, and only under the result's own id. |
| FeatureExtraction.YamnetKeepsShape | features_extractor.py:166-169 | Step 2 keeps the set and order of song ids and touches only the two YAMNet fields. |
| FeatureExtraction.YamnetOnlyKnownIds | features_extractor.py:166-169 | An entry changed by step 2 belongs to an id that some file's extraction returned. |
| FeatureExtraction.BuildFeatures | features_extractor.py:133-175 | `main` is step 1 followed by step 2 over the same files. Step 2 sees them in any completion order. |
| FeatureSelection.FirstInstrument | dataset_preparation/feature_selector.py:20-21 | The instrument feature is the first `instruments` value, or 0.0 when there is none. |
| FeatureSelection.ReadSong | dataset_preparation/feature_selector.py:17-22 | A song is read iff it has `features`, `yamnet_embedding` and `duration` (and `instruments`, if present, is an object). It yields those fields. |
| FeatureSelection.InstrumentValue | dataset_preparation/feature_selector.py:20-21 | The instrument value is 0.0 when `instruments` is missing or empty, otherwise its first value in insertion order. |
| FeatureSelection.Gather | dataset_preparation/feature_selector.py:17-22 | The gathering loop computes the four columns' specification function. |
| FeatureSelection.GatheredSpec | dataset_preparation/feature_selector.py:17-22 | Gathering succeeds iff every song reads. Then column i of each list is song i's field. |
| FeatureSelection.GatheredOk | dataset_preparation/feature_selector.py:17-22 | Gathering succeeds iff every song reads. |
| FeatureSelection.GatheredRows | dataset_preparation/feature_selector.py:17-22 | After gathering, row i of the four columns is song i's reading. |
| FeatureSelection.MissingFieldFails | dataset_preparation/feature_selector.py:18-22 | A song missing `features`, `yamnet_embedding` or `duration` makes the script fail; no default is used. |
| FeatureSelection.RowVectors | dataset_preparation/feature_selector.py:24 | One vector per row when every row is a flat list of numbers (see Left out). |
| FeatureSelection.ToMatrix | dataset_preparation/feature_selector.py:24-25 | `np.array` of rows: one row per song, all of one length. |
| FeatureSelection.ToColumn | dataset_preparation/feature_selector.py:26-27 | A column of numbers converts entrywise; a non-number item fails here (see Left out). |
| FeatureSelection.HStack | dataset_preparation/feature_selector.py:34 | `hstack` succeeds iff all blocks have one row per song. Row i is then `lib[i] ++ reduced[i] ++ [inst[i]] ++ [dur[i]]`. |
| FeatureSelection.FinalRowsLayout | dataset_preparation/feature_selector.py:30-34 | Each final row is the librosa row, the reduced row, the instrument and the duration. With 64 PCA components all rows have length `len(librosa) + 64 + 2`. |
| FeatureSelection.ExportRecord | dataset_preparation/feature_selector.py:39-44 | The exported record has exactly `features`, `cluster`, `title`, `perma_url`, in that order. |
| FeatureSelection.ExportEntry | dataset_preparation/feature_selector.py:39-44 | An entry exports iff the song is an object whose `cluster` converts with `int()`. |
| FeatureSelection.ExportDefaults | dataset_preparation/feature_selector.py:41-43 | `cluster` defaults to -1; `title` and `perma_url` default to `""`. |
| FeatureSelection.Export | dataset_preparation/feature_selector.py:37-44 | The export loop succeeds iff every entry exports. The keys are the song ids in order, and row i goes to `song_ids[i]`. |
| FeatureSelection.SelectFeatures | dataset_preparation/feature_selector.py:5-44 | The whole script: on success its keys and rows are as above. A non-object file fails, a gathering or final-row error is the script's error, and the script succeeds when gathering, the final rows and every export entry succeed. |
| Schema.NoneRecord | patch_schema.py:7-17 | The strict schema: nine keys, every value `None`. |
| PatchTitles.SuffixMatch | patches/patch_titles.py:12-15 | The id regex's search. A match is 45 characters of the id pattern at the very end, or just before one final line feed (how Python's `$` behaves). No match means no such position. |
| PatchTitles.MatchedId | patches/patch_titles.py:28 | The matched text is a well-formed song id. |
| PatchTitles.ExtractIdAndTitle | patches/patch_titles.py:17-34 | An id is found iff the suffix matches, and it is well-formed. Without a match the title is the stripped base. The title always has no outer whitespace. |
| PatchTitles.ExtractRoundTrip | patches/patch_titles.py:22-34 | For `t + "_" + id` the result is `(id, strip(t))`, as the docstring example says. |
| PatchTitles.FileNameRoundTrip | patches/patch_titles.py:52-53 | The same holds for a whole filename `t_id.ext`. |
| PatchTitles.ExtractAsWritten | patches/patch_titles.py:26-34 | The slicing as written: an id iff the suffix matches, and the title is trimmed. |
| PatchTitles.AsWrittenAgrees | patches/patch_titles.py:30 | As written and corrected agree on every base not ending in a line feed. |
| PatchTitles.AsWrittenKeepsSeparator | patches/patch_titles.py:30 | On `t_id` followed by a line feed, the slicing as written keeps the `_`. The corrected function drops it. |
| PatchTitles.AsWrittenExample | patches/patch_titles.py:22-24 | On the docstring example with a trailing line feed, the title as written is `"Jaane De_"`. |
| PatchTitles.CorrectedExample | patches/patch_titles.py:22-24 | The corrected function gives `"Jaane De"` on that same input. |
| PatchTitles.PatchedEntry | patches/patch_titles.py:55-64 | A patched entry has exactly the nine schema keys. Each holds the entry's non-`None` value (`None` otherwise), except that `title` is the filename title and `song_id` the extracted id when there is one. |
| PatchTitles.CopySchemaFields | patches/patch_titles.py:56-60 | The copying loop keeps exactly the non-`None` schema values of a dict entry. A non-dict entry starts from all `None`. |
| PatchTitles.FixEntry | patches/patch_titles.py:55-64 | The per-entry statements compute the patched entry. |
| PatchTitles.PatchedWith | patches/patch_titles.py:50-66 | The output has the input's filenames in order, each with its patched entry. |
| PatchTitles.ChangedCount | patches/patch_titles.py:67-68 | `fixed_count` never exceeds the number of entries. |
| PatchTitles.PatchEntries | patches/patch_titles.py:50-68 | The loop computes the patched output and the count of changed entries. |
| PatchTitles.PatchMetadata | patches/patch_titles.py:47-68 | The file patches iff it holds an object. Then the result is the data patched with the corrected title rule `ExtractIdAndTitle`, and its count. |
| PatchTitles.PatchMetadataAsWritten | patches/patch_titles.py:47-68 | The same script with the title rule as written (`ExtractAsWritten`): patches iff the file holds an object, with that rule's data and count. |
| PatchTitles.PatchedAsWrittenAgrees | patches/patch_titles.py:26-30 | When no file name's base ends in a line feed, the script as written and the corrected one write the same records. |
| PatchTitles.AsWrittenFileName | patches/patch_titles.py:52-53 | As written, the file `t_<id>\n.mp3` yields the id and the title `(t + "_").strip()`. |
| PatchTitles.PatchedTitle | patches/patch_titles.py:64-66 | Every patched record's `title` is the title its file name yields, whichever title rule is used. |
| PatchTitles.PatchedEntryIdempotent | patches/patch_titles.py:55-64 | Patching a patched entry again changes nothing. |
| PatchTitles.PatchTwice | patches/patch_titles.py:50-66 | Running the patch on its own output gives the same output. |
| PatchTitles.RepatchCountsNothing | patches/patch_titles.py:67-68 | The second run reports 0 fixed entries. |
| PatchSchema.NormalisedEntry | patch_schema.py:25-38 | A normalised entry has exactly the nine schema keys. Present keys are copied verbatim (`None` included) and missing ones are `None`. On a `"metadata": null` entry, `song_id`, `title` and `duration` come from `get`. |
| PatchSchema.CopyPresentFields | patch_schema.py:25-31 | The copying loop copies every present schema key and leaves the rest `None`. |
| PatchSchema.NormaliseEntry | patch_schema.py:25-38 | The per-entry statements compute the normalised entry. |
| PatchSchema.Normalised | patch_schema.py:23-40 | The output has the input's filenames in order, each normalised. |
| PatchSchema.PatchMetadata | patch_schema.py:19-40 | The file patches iff it holds an object. Then the result is the normalised data. |
| PatchSchema.FlattenChangesNothing | patch_schema.py:34-38 | The flattening step never changes a field that the copy set. |
| PatchSchema.NonDictEntry | patch_schema.py:25-28 | A non-dict entry becomes the all-`None` record. The `metadata` key never survives. |
| PatchSchema.NormalisedEntryIdempotent | patch_schema.py:25-38 | Normalising a normalised entry changes nothing. |
| PatchSchema.PatchTwice | patch_schema.py:23-40 | Running the patch on its own output gives the same output. |
| Text.SplitExt | metatdata_pair.py:23 | `os.path.splitext`: stem plus extension is the name. The extension is empty or a dot followed by no dot or slash. |
| Text.SplitExtOfName | metatdata_pair.py:116 | `splitext(stem + ext)` is `(stem, ext)` when the stem's last component has a non-dot character. |
| Text.Strip | metatdata_pair.py:47 | `strip()`: no whitespace at either end, never longer. |
| Text.StripIdempotent | metatdata_pair.py:47 | Stripping twice is stripping once. |
| Text.CollapseSpaces | metatdata_pair.py:47 | `re.sub(r"\s+", " ", …)`: no whitespace run, and the non-whitespace characters are kept in order. |
| Text.Before | metatdata_pair.py:38-41 | `split(c)[0]`: the longest prefix without c. |
| Text.LowerStr | filter_downloads.py:38 | `lower()` maps each ASCII capital to its small letter and nothing else. |
| MetadataPair.FindFrom | metatdata_pair.py:26-27 | The first occurrence of a character at or after a position. |
| MetadataPair.NoSpanLeft | metatdata_pair.py:26-27 | After removing the `(...)` spans no `(` is followed by a `)`. The same holds for `[...]`, so no span is left for the regex. |
| MetadataPair.UnbracketedSpans | metatdata_pair.py:23-27 | Both bracket passes, applied after the extension is stripped, leave no span of their kind. |
| MetadataPair.RemoveJunk | metatdata_pair.py:30-35 | The junk-word loop removes each of the nine words in order, whole words only, ignoring case. |
| MetadataPair.CutAtSeparators | metatdata_pair.py:38-41 | The cut keeps only the text before the first `-`, then before the first `\|`. The result contains neither. |
| MetadataPair.MaskChars | metatdata_pair.py:44 | Each character other than a word character, whitespace, `&` or `'` becomes a space, and nothing else changes. |
| MetadataPair.CleanTitle | metatdata_pair.py:16-49 | The rewrite chain computes the cleaned-title function. |
| MetadataPair.CleanedTitleTrimmed | metatdata_pair.py:47 | A cleaned title has no leading or trailing whitespace. |
| MetadataPair.CleanedTitleSingleSpaced | metatdata_pair.py:47 | A cleaned title has no run of two whitespace characters. |
| MetadataPair.CleanedTitleChars | metatdata_pair.py:44-47 | Every character of a cleaned title is a word character, a space, `&` or `'`. |
| MetadataPair.CleanedTitleNoSeparators | metatdata_pair.py:38-44 | A cleaned title contains no `-` and no `\|`. |
| MetadataPair.Mp3Files | metatdata_pair.py:53-54 | `list_mp3_files` keeps exactly the listed names ending in `.mp3` (any case). |
| MetadataPair.ToProcess | metatdata_pair.py:102 | The files to process are exactly the mp3 files not already keyed in `existing`. |
| MetadataPair.NoMatchRecord | metatdata_pair.py:127-132 | A no-match record is exactly `{song_id: uuid, title: clean, metadata: None}`. |
| MetadataPair.TaskRecord | metatdata_pair.py:122-132 | The stored record's `song_id` is the uuid in both branches. A non-empty lookup result is kept with `song_id` set; otherwise it is the no-match record. |
| MetadataPair.Task | metatdata_pair.py:107-133 | `task` stores the record under `clean + "_" + uuid + ext`, and changes nothing else. |
| MetadataPair.NewNames | metatdata_pair.py:113-117 | One new filename per processed file. |
| MetadataPair.NewRecords | metatdata_pair.py:122-132 | One stored record per processed file. |
| MetadataPair.PairedOverNames | metatdata_pair.py:135-138 | The `task` calls in sequence put the new records under the new names in order. |
| MetadataPair.PairFiles | metatdata_pair.py:135-138 | The loop over `task` calls computes the pairing function. |
| MetadataPair.PairAll | metatdata_pair.py:92-141 | `main` pairs exactly the mp3 files not yet present. |
| MetadataPair.PairedKeys | metatdata_pair.py:125-128 | After pairing, the keys are the existing ones plus the new names. |
| MetadataPair.PairedEntry | metatdata_pair.py:125-128 | Each new name holds its record, unless a later file produced the same name. |
| MetadataPair.ExistingKept | metatdata_pair.py:102-128 | Existing entries are kept unless a new name collides with them. |
| FilterDownloads.RemoveEmoji | filter_downloads.py:16-29 | After the emoji pass no character lies in the nine emoji ranges. |
| FilterDownloads.KeepTitleChars | filter_downloads.py:36 | After the filter only ASCII letters, digits and spaces remain. |
| FilterDownloads.EmojiAbsorbed | filter_downloads.py:35-36 | The emoji pass changes nothing the next filter keeps. |
| FilterDownloads.NormalizeTitle | filter_downloads.py:31-38 | The suffix loop and the rewrites compute the normalised-title function. |
| FilterDownloads.NormalizedChars | filter_downloads.py:36-38 | A normalised title is over `[a-z0-9 ]`. |
| FilterDownloads.NormalizedTrimmed | filter_downloads.py:38 | A normalised title has no leading or trailing space. |
| FilterDownloads.NormalizedSingleSpaced | filter_downloads.py:37-38 | A normalised title has no double space. |
| FilterDownloads.NormalizedIgnoresCase | filter_downloads.py:32-38 | Names differing only in letter case normalise alike. |
| FilterDownloads.CleanupStep | filter_downloads.py:51-78 | The decision for each file looks only at the state left by the files before it. |
| FilterDownloads.CleanupDownloads | filter_downloads.py:48-84 | The cleanup loop computes the cleanup function. The log written is exactly the kept names without extension, in keep order. |
| FilterDownloads.RemainingTitles | filter_downloads.py:81 | One title per kept file: its name without the extension. |
| FilterDownloads.WriteLog | filter_downloads.py:82-84 | The writing loop writes each title followed by a line feed. |
| FilterDownloads.KeptKeysSeen | filter_downloads.py:73-78 | A normalised title is a key iff some non-deleted, readable, short mp3 had it. |
| FilterDownloads.KeysAreTitles | filter_downloads.py:73-78 | Each key maps to a file with that normalised title. |
| FilterDownloads.CleanupKept | filter_downloads.py:73-78 | The kept files, in order, are exactly the first file per normalised title. |
| FilterDownloads.CleanupDeleted | filter_downloads.py:55-76 | The deleted files, in order, are exactly the files that match a keyword, run too long, or have a title already seen. |
| FilterDownloads.KeptTitlesDistinct | filter_downloads.py:73-78 | Kept files have pairwise distinct normalised titles. |
| FilterDownloads.FirstKept | filter_downloads.py:74-78 | The first eligible file with a title is the one recorded for it. |
| FilterDownloads.KeptExactly | filter_downloads.py:51-78 | With distinct names, a file is kept iff it is the first eligible one with its title. |
| FilterDownloads.DeletedExactly | filter_downloads.py:51-78 | With distinct names, a file is deleted iff one of the three delete rules applies to it. |
| FilterDownloads.Partition | filter_downloads.py:51-78 | No file is both kept and deleted. A file is one or the other iff it is an mp3 that either matches a keyword or has a readable duration; non-mp3 and unreadable files are neither. |
| FilterDownloads.CaseVariantDeleted | filter_downloads.py:73-76 | Of two eligible names differing only in case, the later is deleted. |
| SongLog.Lines | filter_downloads.py:82-84 | Writing titles line by line gives text that is empty or ends in a line feed. |
| SongLog.SplitLinesJoin | dataset_preparation/ubuntu_downloader.py:19 | Iterating a file's lines loses nothing: the lines concatenate back to the text. |
| SongLog.StrippedLines | filter_downloads.py:43 | The read list holds only non-empty stripped lines. |
| SongLog.WriteThenRead | filter_downloads.py:82-84 | Reading back what was written, as line 43 reads it, gives the same titles, when they are non-empty, trimmed and one line each. |
| SongLog.LoadAfterAppend | dataset_preparation/ubuntu_downloader.py:71-72 | Appending one title line adds exactly that title to what loading (line 19) yields, unless it is blank. |
| SongLog.LoadAfterLines | dataset_preparation/ubuntu_downloader.py:71-72 | Appending title lines adds exactly the non-blank ones to what loading yields. |
| Downloader.SanitizeTitle | dataset_preparation/ubuntu_downloader.py:23-24 | A sanitised title is never longer and contains none of `/ \ ? % * : \| " < >`. |
| Downloader.SanitizeCounts | dataset_preparation/ubuntu_downloader.py:24 | Each forbidden character occurs 0 times afterwards, and every other character as often as before. |
| Downloader.SanitizeConcat | dataset_preparation/ubuntu_downloader.py:24 | Sanitising distributes over concatenation, so the kept characters stay in order. |
| Downloader.SanitizeFixed | dataset_preparation/ubuntu_downloader.py:24 | A title is unchanged iff it has no forbidden character. |
| Downloader.SanitizeIdempotent | dataset_preparation/ubuntu_downloader.py:24 | Sanitising twice is sanitising once. |
| Downloader.OutputTemplate | dataset_preparation/ubuntu_downloader.py:26-30 | `outtmpl` is `datasetsTEST/<sanitised title>.%(ext)s` for a truthy title, and `datasetsTEST/%(title)s.%(ext)s` for `None` or `""`. |
| Downloader.TemplateInOutputDir | dataset_preparation/ubuntu_downloader.py:26-30 | A named download always lands directly inside `datasetsTEST`: no further `/` follows the directory. |
| Downloader.DownloadStep | dataset_preparation/ubuntu_downloader.py:59-77 | `skipped` iff the title is in the set. `success` iff it is not, the download does not raise and the title is not `None`. Skips and failed downloads change nothing. A success adds the title and appends its line. |
| Downloader.MissingTitleBlocks | dataset_preparation/ubuntu_downloader.py:70-72 | A `None` title fails after entering the set, and every later `None` video is skipped. |
| Downloader.LoadedConsistent | dataset_preparation/ubuntu_downloader.py:16-21 | The loaded set agrees with the log it came from. |
| Downloader.StepConsistent | dataset_preparation/ubuntu_downloader.py:59-77 | Each call keeps every non-blank logged title in the set. |
| Downloader.RunOf | dataset_preparation/ubuntu_downloader.py:81-84 | One status per video. |
| Downloader.RunRecords | dataset_preparation/ubuntu_downloader.py:70 | The set only grows, and holds every downloaded title. |
| Downloader.DownloadsOnce | dataset_preparation/ubuntu_downloader.py:62-70 | In the sequential run, no title already recorded is downloaded and no title is downloaded twice (see Left out for the threaded run). |
| Downloader.RunLog | dataset_preparation/ubuntu_downloader.py:71-72 | The log grows by exactly the successful titles' lines, in order. |
| Downloader.RunTerminated | dataset_preparation/ubuntu_downloader.py:71-72 | A log ending in a line feed keeps doing so. |
| Downloader.RestartSkips | dataset_preparation/ubuntu_downloader.py:62-72 | After a run, reloading the log as lines 16-21 do keeps everything loaded before and includes every non-blank success, so a restart skips them. |
| Downloader.Downloads.constructor | dataset_preparation/ubuntu_downloader.py:16-21 | The set is loaded from the log: its non-blank lines minus the line feed, or empty without a file. |
| Downloader.Downloads.DownloadVideo | dataset_preparation/ubuntu_downloader.py:59-77 | One call updates the set and the log exactly as the step function says and returns its status. |
| Downloader.Downloads.DownloadAll | dataset_preparation/ubuntu_downloader.py:79-84 | Running all videos gives the statuses and the final state of the run function. |

## Left out

- Audio decoding (pydub), librosa analysis, YAMNet inference (ONNX and TensorFlow Hub), the `np.mean` pooling and PCA fitting and projection are foreign numeric code. They are uninterpreted parameters that may fail.
- The librosa sizes (13 MFCCs, 12 chroma bins, 7 contrast bands) are librosa defaults, not stated in the source. Only `FeatureLayout.LibrosaSlots`, `FeatureLayout.FusedShape` and `FeatureExtraction.LibrosaRecordSlots` assume them.
- The class-name download and its fallback names are network I/O; the names are a parameter.
- All file reading and writing is left out: JSON parsing and dumping, backups, `os.rename`, `os.remove`, `os.makedirs`. Inputs arrive parsed, and outputs are returned values.
- Universal-newline translation when reading a text file is not modelled: only `\n` ends a line.
- `ProcessPoolExecutor` and `ThreadPoolExecutor` are modelled as sequential runs. In `FeatureExtraction.BuildFeatures` step 2 takes any order of the files. Elsewhere the order is submission order. Interleavings inside one task are not modelled.
- The JioSaavn lookup, `uuid4`, `mutagen` durations and the yt-dlp download itself are parameters. So is whether a download raises. The polite `sleep` is left out.
- The playlist fetch (dataset_preparation/ubuntu_downloader.py:44-54) is network I/O. Its output is the `videos` parameter. A missing title becomes `"Unknown"` (line 53); only an explicit null title is `None`.
- The yt-dlp options other than `outtmpl` are constant data and are not modelled.
- The list read from `downloaded_songs.txt` in filter_downloads.py:41-45 is never used. It is modelled only as the read side of `SongLog.WriteThenRead`.
- Character classes are ASCII: `\s` is tab through carriage return, U+001C to U+001F and the space; `\w` is letters, digits and `_`; `\b` uses that `\w`; `IGNORECASE` and `lower()` fold only A–Z. Unicode letters, digits and spaces are not modelled.
- Numbers.ParseInt: `int()` also accepts `_` between digits and non-ASCII digits; the model rejects them.
- Distance.ToVector, Distance.ListToVector, FeatureSelection.RowVectors, FeatureSelection.ToColumn: `np.array(..., dtype=np.float32)` also parses numeric strings (`"1.5"`), turns `None` into nan and makes a nested list a matrix (a `[[...]]` centroid then broadcasts). The model rejects those values, since nan has no `real` counterpart; the files the pipeline writes hold only flat lists of numbers.
- Downloader.DownloadsOnce: it holds for the sequential run only. With `MAX_THREADS = 4`, two videos with the same title can both pass the check on line 62 during the sleep on line 67, before line 70 records either, so the title is downloaded twice.
- Ranker.Rank, FeatureExtraction.LibrosaStep: the `seen_urls` set and the song-id dict keys compare values by kind and content, so a url or id `1` and `1.0` stay apart, where Python merges them. Only cluster labels use Python's numeric key equality (`Json.KeyOf`); urls and ids are strings in every record the pipeline writes.
- Floating point is `real`. `float32` rounding is not modelled, and the norm is squared.
- FilterDownloads.NormalizeTitle: removing each suffix is modelled, but it is not proved that no suffix survives, since a removal can join two words into a new match.
- FilterDownloads.KeptExactly, FilterDownloads.DeletedExactly, FilterDownloads.Partition: they assume distinct file names, which `os.listdir` guarantees.
- Instruments.ScoreOrder: for equal scores, numpy's default `argsort` does not fix an order. The model takes the reverse of a stable sort, so equal scores come in descending index order.
- Instruments.TopScoreIsMax, Prediction.YamnetInstrumentScore: they assume distinct class names. With duplicates, a later score overwrites an earlier entry of the instruments dict.
- Downloader.StepConsistent, Downloader.RestartSkips: they assume titles without line feeds, and a log that is empty or ends in a line feed. A title holding a line feed writes two lines to the log.
- A failing write to `downloaded_songs.txt` after `downloaded_songs.add` is not modelled.
- FeatureExtraction.ExtractYamnetFeatures: its own contract states only the id. Its values are stated by `FeatureExtraction.YamnetInstrumentBounds` and `FeatureExtraction.YamnetSilent`.
- ClusterIndex.CentroidTable, Ranker.MetaIndex: their own contracts state only the error case. The table contents are stated by the lemmas listed beside them.
- The root downloaders, main.py, patch_duration.py, check_status.py and the test scripts are not part of this model.

## Findings

| source | as written | input that shows it | evidently intended | confidence | as-written member | corrected member |
|---|---|---|---|---|---|---|
| patches/patch_titles.py:26-30 | The regex's `$` also matches just before one final line feed. The slice `[: -len(song_id) - 1]` then removes the line feed and the id, but keeps the `_`. | `"Jaane De_870c6bde_8191c9ed-d0c9-40bb-b227-cfe8b435d13b\n"` yields title `"Jaane De_"` | title `"Jaane De"`: the `_` before the id is removed, as the comment on line 29 says | low, not executed; a base name holding a line feed is rare | PatchTitles.ExtractAsWritten (PatchTitles.AsWrittenKeepsSeparator, PatchTitles.AsWrittenExample; the whole script as written: PatchTitles.PatchMetadataAsWritten, PatchTitles.AsWrittenFileName) | PatchTitles.ExtractIdAndTitle (PatchTitles.CorrectedExample, PatchTitles.ExtractRoundTrip; the whole script: PatchTitles.PatchMetadata, which agrees with the as-written script by PatchTitles.PatchedAsWrittenAgrees off the line-feed case) |
