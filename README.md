# A verified model of the BESS NFV control logic and its analysis scripts

This project models, in Dafny, the sequential core of a BESS-based NFV
system. The system has two parts.

- **Telemetry and profile analysis** (Python scripts). They read per-core
  and cluster epoch logs. From these logs they classify epochs as
  SLO-violating or compliant, derive a core's short-term capacity envelope,
  aggregate SLO-violation events, compute nearest-rank percentiles, and
  build the long-term max-rate profile of a network function.
- **Control-plane and data-plane modules** (C++). These are:
  - the NFV controller's software-queue pool and first-fit bucket planner;
  - the long-term core allocator, with its on-demand variant;
  - a worker core's short-epoch offload step;
  - the RSS redirection table and flow rules of a DPDK port;
  - the Metron and Quadrant ToR ingress balancers;
  - the Ironside ingress;
  - the INVISV UDP proxy;
  - the Aho-Corasick matcher;
  - the percentile validator and configuration of the `Measure` module.

## How the model is shaped

Each source file, or each closely related group of files, is one module.

- **Util**: shared vocabulary. `Result` and `Option`, sums, Python string
  operations, and fixed-width arithmetic.
- **Telemetry**: the log readers of `bessctl/cloudlabutils.py`,
  `measurement_scripts/utils.py` and `py_scripts/utils.py`.
- **SloAnalysis**, **ShortTermProfile**, **SloEvents** and **Percentile**:
  the analysis functions. `slo_violation_analysis` and
  `get_short_term_profile` exist twice, once in `bessctl/cloudlabutils.py`
  (lines 67-116) and once in
  `measurement_scripts/slo_vio_epoch_cluster_plot.py` (lines 38-124). They
  compute the same result: one copy raises on the impossible
  both-labels case where the other prints, and the second copy also prints
  and writes a file. Both copies are modelled by one definition.
- **LongTermProfile**: `experiment_scripts/long_term_profile.py`.
- **NfvCtrl** (`core/modules/nfv_ctrl.cc`) and **NfvCtrlLong**
  (`core/modules/nfv_ctrl_long.cc`): the controller.
- **NfvCoreShort**: `core/modules/nfv_core_short.cc`.
- **PmdRss**: `core/drivers/pmd_rss.cc`.
- **Metron**, **Quadrant** and **MetronIngress**:
  `core/modules/metron_ingress.cc`.
- **Ironside**: `core/modules/ironside_ingress.cc`.
- **UdpProxy**: `core/modules/invisv_udp_proxy.cc`.
- **AhoCorasick**: `core/modules/aho_corasick.cc`.
- **Measure**: `core/modules/measure.cc`.

Pure Python functions and C++ lookups are Dafny functions with lemmas.

Loops that fill lists, dictionaries or arrays are methods with loop
invariants. Each method is proved equal to a specification function, and
the properties are proved about that function.

An object whose fields the source updates is a class. The classes are:

- `SwQueuePool`, `BucketPlanner` and `LongTermController` in the controller;
- `NfvCore`;
- `PmdRss.Port`;
- `MetronIngress.Ingress`;
- `Ironside.Ingress`;
- `UdpProxy.Proxy`;
- `AhoCorasick.Machine`, over the `g`, `f` and `out` tables;
- `Measure.Measure`.

Each class method's `ensures` ties the new state to the value model. The
lemmas state what the value model keeps: coverage of the flow ids, the
partition of cached flows, the pairing of NAT entries, the breadth-first
order of the failure-link construction, and so on.

Python exceptions (`KeyError`, `IndexError`, `ValueError`) are `Err` values
of a `Result`, never preconditions. C++ fixed-width arithmetic is written
out where it matters, for example `uint32_t` counters and `uint16_t` port
and pause counters.

Where the code misbehaves, the model keeps both versions:

- the code as written, with a lemma that exhibits the misbehaviour;
- the evidently intended code, with the property proved.

The classes use the intended version (see "## Findings").

## Model

| member | source | states |
|---|---|---|
| Util.Trunc | measurement_scripts/slo_vio_epoch_cluster_plot.py:48-49 | `int()` on a float truncates toward zero: the result is within one of the argument, on the zero side |
| Util.Split | bessctl/cloudlabutils.py:57 | `str.split` with one separator character: at least one part, and no part holds the separator |
| Util.JoinSplit | bessctl/cloudlabutils.py:57 | the parts of a split, joined back with the separator, give the original line: nothing is lost |
| Util.StripLeft | bessctl/cloudlabutils.py:57 | the leading whitespace is removed and the rest kept |
| Util.StripRight | bessctl/cloudlabutils.py:57 | the trailing whitespace is removed and the rest kept |
| Util.SortedKeys | experiment_scripts/long_term_profile.py:56 | `sorted(d.keys())`: strictly ascending, and holding exactly the keys |
| Telemetry.ParseShowNat | bessctl/cloudlabutils.py:57 | `float()` (modelled on plain decimal text) reads a printed natural number back as that number |
| Telemetry.ParseAllOk | bessctl/cloudlabutils.py:57 | the per-field list comprehension succeeds exactly when every field parses, and then holds each field's `(key.strip(), float(value))` in field order |
| Telemetry.FieldDictLast | bessctl/cloudlabutils.py:58-60 | a key is in `epoch_info` exactly when some field carries it, and maps to the value of the last such field |
| Telemetry.FieldDictSwap | measurement_scripts/utils.py:59-62 | swapping two neighbouring fields with different keys leaves `epoch_info` unchanged: fields are looked up by name, so key order does not matter |
| Telemetry.FirstMissing | bessctl/cloudlabutils.py:18-28 | no name is reported exactly when all names are in the dictionary; a reported name is one of them and is missing |
| Telemetry.CoreSnapshotOfSpec | bessctl/cloudlabutils.py:14-28 | `CoreSnapshot(epoch_info)` succeeds exactly when all eleven field names are present; otherwise it fails with a KeyError on a missing name (there is no zero default) |
| Telemetry.ClusterPositional | bessctl/cloudlabutils.py:43-44 | a cluster line yields its first three values by position whatever their keys; fewer than three fields is an IndexError |
| Telemetry.CompactPositional | py_scripts/utils.py:45-46 | a compact core line yields its first six values by position as (epoch, active, slo, aflow, bflow, rate); fewer than six fields is an IndexError |
| Telemetry.ReadLinesSpec | bessctl/cloudlabutils.py:53-63 | the read succeeds exactly when every kept line parses; lines without the three required words are skipped, and the others give one snapshot each, in file order |
| Telemetry.ReadLinesStep | measurement_scripts/utils.py:55-65 | one more line is skipped when it lacks a required word, appended when it parses, and otherwise ends the read with its error |
| Telemetry.ParseCoreLineFill | bessctl/cloudlabutils.py:57-62 | the comprehension, the `epoch_info` fill loop and the constructor, written as loops, compute `ParseCoreLine` |
| Telemetry.ReadCoreSnapshot | bessctl/cloudlabutils.py:49-65 | the keyed core reader (identical in measurement_scripts/utils.py:51-67) returns `CoreSnapshots(lines)`: lines need `epoch`, `slo` and `rate` |
| Telemetry.ReadClusterSnapshot | bessctl/cloudlabutils.py:35-47 | the cluster reader (identical in measurement_scripts/utils.py:37-49) returns `ClusterSnapshots(lines)`: lines need `epoch`, `core` and `rate` |
| Telemetry.ReadCompactCoreSnapshot | py_scripts/utils.py:37-49 | the positional core reader returns `CompactCoreSnapshots(lines)`: lines need `epoch`, `slo` and `rate` |
| SloAnalysis.SloViolationAnalysis | measurement_scripts/slo_vio_epoch_cluster_plot.py:99-124 | `slo_violation_analysis` returns the (active flows, packets processed) observations of the violating epochs and of the compliant epochs, each in index order |
| SloAnalysis.SingleEpochLabels | bessctl/cloudlabutils.py:72-82 | an index is listed as violating exactly when it lies in 1 .. n-3 and its count is positive, and as compliant exactly when it lies there and its count is zero; never both |
| SloAnalysis.SingleEpochPartition | measurement_scripts/slo_vio_epoch_cluster_plot.py:104-111 | with non-negative counts the two lists together hold one entry for each of the n-3 examined epochs |
| SloAnalysis.SloVioAnalysis | py_scripts/stats_analysis.py:84-103 | `slo_vio_analysis` returns the (packet rate, active flows) observations of the bursty epochs and of the calm epochs, each in index order |
| SloAnalysis.HysteresisLabels | py_scripts/stats_analysis.py:89-101 | an epoch is calm exactly when it and the two after it have no violations, bursty exactly when it and both neighbours have at least ten; no epoch is both, so the "Error" branch is unreachable |
| ShortTermProfile.LastOfMax | measurement_scripts/slo_vio_epoch_cluster_plot.py:47-49 | the node that ends the stable sort by flow count: it has the largest flow count, and no later node has one as large |
| ShortTermProfile.TruncNodes | measurement_scripts/slo_vio_epoch_cluster_plot.py:55-57 | `int()` on each coordinate truncates toward zero, node by node |
| ShortTermProfile.FcToPktIsMax | measurement_scripts/slo_vio_epoch_cluster_plot.py:53-59 | `fc_to_pkt` has a key for every truncated flow count seen, holds there the largest truncated packet count seen with it, and that value comes from some node |
| ShortTermProfile.EnvelopeNonIncreasing | measurement_scripts/slo_vio_epoch_cluster_plot.py:61-64 | the running maximum of the downward sweep never shrinks as the flow count falls |
| ShortTermProfile.EnvelopeBounds | measurement_scripts/slo_vio_epoch_cluster_plot.py:61-64 | the running maximum at flow count i is at least the seed and every table entry from i upward, and equals the seed or one of them |
| ShortTermProfile.FindSeed | measurement_scripts/slo_vio_epoch_cluster_plot.py:47-49 | the loop finds the index of `sorted(nodes)[-1]` |
| ShortTermProfile.BuildFcToPkt | measurement_scripts/slo_vio_epoch_cluster_plot.py:53-59 | the loop builds exactly `fc_to_pkt` |
| ShortTermProfile.Sweep | measurement_scripts/slo_vio_epoch_cluster_plot.py:61-66 | the reversed sweep followed by the sort by flow count yields `Profile(fc_to_pkt, seed, max_flow)` |
| ShortTermProfile.GetShortTermProfile | measurement_scripts/slo_vio_epoch_cluster_plot.py:38-72 | an empty node list is an IndexError; otherwise the profile of the node table, seeded with the last sorted node |
| ShortTermProfile.ProfileProperties | bessctl/cloudlabutils.py:95-116 | the profile has one entry per flow count 1 .. max_flow-1, ascending with no gaps; its packet counts never grow with the flow count; each is at least the seed and at least every table entry at that flow count or above |
| SloEvents.RunLenIsMaximalRun | py_scripts/stats_analysis.py:115-127 | the running `epoch_with_slo_vio` counts the maximal run of violating epochs that ends just before the current one: all of them violate and the one before the run does not |
| SloEvents.StatsAnalysis | py_scripts/stats_analysis.py:106-132 | `stats_analysis` (identical in measurement_scripts/slo_vio_event_cdf_plot.py:51-77) returns the summed packet rate, the epoch count, and the short-term and long-term events closed by a compliant epoch, in order |
| SloEvents.EventLengths | py_scripts/stats_analysis.py:119-124 | every short-term event spans 1 to 19 epochs and every long-term event at least 20 |
| SloEvents.EpochConservation | py_scripts/stats_analysis.py:113-127 | the epochs (and the violation counts) of all reported events plus those of the run still open add up to the violating epochs (and the violations) of the log: none is lost or counted twice |
| Percentile.Sort | py_scripts/stats_analysis.py:47 | `sorted(x_data)` is ascending and a permutation of the sample |
| Percentile.CountSort | py_scripts/stats_analysis.py:47 | sorting keeps the number of elements with any property |
| Percentile.PositionInRange | py_scripts/stats_analysis.py:45-49 | for a percentile in [0, 100] and a non-empty sample, `int(p_val * (n - 1) / 100)` is a valid index |
| Percentile.PickRank | py_scripts/stats_analysis.py:47-50 | the picked value is the sample's (pos+1)-th smallest: at least pos+1 elements are at most it and at least n-pos are at least it |
| Percentile.GetPercentile | py_scripts/stats_analysis.py:44-50 | a percentile outside [0, 100] gives -1; otherwise an empty sample is an IndexError and a non-empty one gives an element of the sample |
| Percentile.GetPercentileGuarded | measurement_scripts/slo_vio_event_cdf_plot.py:27-36 | fewer than 100 samples gives "not enough samples" whatever the percentile; then a percentile outside [0, 100] gives "out of range"; otherwise an element of the sample |
| Percentile.PercentileVariantsAgree | measurement_scripts/slo_vio_event_cdf_plot.py:33-36 | where the guarded variant answers with a value, the unguarded one answers with the same value |
| LongTermProfile.ToMicros | experiment_scripts/long_term_profile.py:30 | each latency becomes a thousandth of the logged value (nanoseconds to microseconds), position by position |
| LongTermProfile.NfProfileErrSticky | experiment_scripts/long_term_profile.py:18-24 | once a line fails to parse, the read of the whole file fails with that line's error: `float(x)` raises and aborts `read_nf_profile` |
| LongTermProfile.NfRowSpec | experiment_scripts/long_term_profile.py:19-31 | a line yields an experiment exactly when it is not a header or short line, all its non-blank pieces are numbers and there are 3 + 100 of them; the inputs are the first three and the outputs the remaining 100 in microseconds |
| LongTermProfile.NfProfileShape | experiment_scripts/long_term_profile.py:25-31 | every experiment read has three inputs and 100 latencies |
| LongTermProfile.ReadLineNumbers | experiment_scripts/long_term_profile.py:21-24 | the loop over `line.split(" ")` yields the numbers of the line, or the first piece's ValueError |
| LongTermProfile.ReadNfProfile | experiment_scripts/long_term_profile.py:14-33 | `read_nf_profile` over the lines of a file returns `NfProfile(lines)` |
| LongTermProfile.QualifyingPairsComplete | experiment_scripts/long_term_profile.py:41-50 | every experiment at the target packet size whose median latency (percentile index 49) is below the SLO contributes its (flow count, rate) pair |
| LongTermProfile.QualifyingPairsSound | experiment_scripts/long_term_profile.py:41-50 | every pair comes from such a qualifying experiment |
| LongTermProfile.QualifyingPairsStep | experiment_scripts/long_term_profile.py:47-54 | one more experiment examined appends its pair exactly when it qualifies |
| LongTermProfile.MaxRateUnderFc | experiment_scripts/long_term_profile.py:40-54 | the loop fails with IndexError exactly when some row is too short to index; otherwise it builds the per-flow-count maximum of the qualifying pairs |
| LongTermProfile.WriteProfile | experiment_scripts/long_term_profile.py:56-57 | the loop over the sorted keys writes `ProfileLines(max_rate_under_fc)` |
| LongTermProfile.GetLongTermProfile | experiment_scripts/long_term_profile.py:37-77 | `get_long_term_profile` returns the lines the `.pro` file receives |
| LongTermProfile.ProfileLinesAscending | experiment_scripts/long_term_profile.py:56 | the file lists flow counts in strictly ascending order |
| LongTermProfile.ProfileLinesFromMap | experiment_scripts/long_term_profile.py:56-57 | each line carries a key of the dictionary and its value |
| LongTermProfile.ProfileLinesCoverMap | experiment_scripts/long_term_profile.py:56-57 | every key of the dictionary has a line |
| LongTermProfile.MaxProfileFromPairs | experiment_scripts/long_term_profile.py:51-57 | for any pairs, every line of the file is one of the pairs |
| LongTermProfile.MaxProfileCoversPairs | experiment_scripts/long_term_profile.py:51-57 | for any pairs, each pair's flow count has a line with at least that pair's rate |
| LongTermProfile.ProfileFromQualifying | experiment_scripts/long_term_profile.py:41-57 | every line is the pair of a qualifying experiment |
| LongTermProfile.ProfileCoversQualifying | experiment_scripts/long_term_profile.py:41-57 | every qualifying experiment's flow count has a line with at least its rate |
| LongTermProfile.LongTermRowsSpec | experiment_scripts/long_term_profile.py:37-77 | the profile fails only on a row too short to index; otherwise its flow counts ascend strictly, every line is a qualifying pair, and every qualifying pair is covered, so each rate is the largest qualifying rate for its flow count |
| Util.MaxPerKeyIsMax | experiment_scripts/long_term_profile.py:51-54 | the max-per-key dictionary has every key seen, holds at least each value seen with it, and each held value comes from some pair |
| NfvCtrl.RequestedQueue | core/modules/nfv_ctrl.cc:102-117 | the invalid core gets DEFAULT_SWQ_COUNT; otherwise the answer is the lowest free queue, or DEFAULT_SWQ_COUNT exactly when none is free |
| NfvCtrl.FreeCountUpdate | core/modules/nfv_ctrl.cc:110-124 | writing one owner entry changes the free count by one at most, as the old and new owner are or are not the invalid core |
| NfvCtrl.RequestReleaseRoundTrip | core/modules/nfv_ctrl.cc:102-125 | a successful request takes exactly one free queue and changes no other entry, and releasing that queue gives back the original table; a failed request changes nothing |
| NfvCtrl.FreeIndicesSpec | core/modules/nfv_ctrl.cc:90-94 | the free queues below k, listed in ascending order and holding each of them |
| NfvCtrl.RequestNOverclaims | core/modules/nfv_ctrl.cc:87-99 | as written, asking for one queue when all 200 are free claims all 200, and asking for none claims queue 0 |
| NfvCtrl.RequestNCappedBound | core/modules/nfv_ctrl.cc:81-100 | with `cnt` counting claims, at most n queues are claimed, in ascending order, each of them free before. Fewer than n are claimed only when every free queue is. No free queue below a claimed one is left out, so they are the lowest free ones. The invalid core claims none |
| NfvCtrl.SwQueuePool.RequestSwQ | core/modules/nfv_ctrl.cc:102-117 | `RequestSwQ` answers `RequestedQueue` of the old table and leaves `AfterRequest` of it: only the claimed queue changes owner |
| NfvCtrl.SwQueuePool.ReleaseSwQ | core/modules/nfv_ctrl.cc:119-125 | a queue index in range becomes free; any other index changes nothing |
| NfvCtrl.SwQueuePool.RequestNSwQ | core/modules/nfv_ctrl.cc:81-100 | as written: the queues claimed are `RequestNClaims` of the old table (every free queue for n other than 0, queue 0 alone if free for n = 0, none for the invalid core), and exactly those pass to the core |
| NfvCtrl.SwQueuePool.RequestNSwQCapped | core/modules/nfv_ctrl.cc:81-100 | the corrected request: the n lowest free queues (or all free ones) pass to the core and no other entry changes |
| NfvCtrl.WithDefault | core/modules/nfv_ctrl.cc:208 | `threshold_[1000]` inserts 0 for a missing key and keeps every other entry |
| NfvCtrl.PlaceBucketSpec | core/modules/nfv_ctrl.cc:204-218 | a bucket goes to the lowest-index core whose rate stays below the threshold with it added; only when no core has room is it left unmoved |
| NfvCtrl.FirstFitProperties | core/modules/nfv_ctrl.cc:201-221 | first fit never raises a core to the threshold or beyond, with non-negative rates no core loses load, every move names a core whose list holds the bucket, and only given buckets are moved |
| NfvCtrl.BucketPlanner.FirstCoreWithRoom | core/modules/nfv_ctrl.cc:207-215 | the inner loop finds the first core with room (or the core count), every core before it lacking room; the table gains the 1000 key and nothing else changes |
| NfvCtrl.BucketPlanner.PlaceOne | core/modules/nfv_ctrl.cc:205-218 | one bucket changes the rate array, the bucket lists and the moves as `PlaceBucket` says |
| NfvCtrl.BucketPlanner.FindMoves | core/modules/nfv_ctrl.cc:201-221 | `findMoves` leaves the rate array, the bucket lists and the returned moves equal to `FirstFit` of the old ones |
| NfvCtrlLong.ScanSpec | core/modules/nfv_ctrl_long.cc:120-125 | the ordered scan returns the rate at the smallest flow count above fc, or, when there is none, the rate at the largest flow count |
| NfvCtrlLong.MaxRateSpec | core/modules/nfv_ctrl_long.cc:115-126 | `GetMaxPktRateFromLongTermProfile` gives 1000000 for an empty profile, otherwise the rate at the least flow count above fc, else the rate at the largest flow count |
| NfvCtrlLong.FirstFittingSpec | core/modules/nfv_ctrl_long.cc:141-153 | the first normal core in use whose rate plus the shard's stays below 80% of the profile's rate for the combined flow count; no earlier core fits |
| NfvCtrlLong.FirstIdleSpec | core/modules/nfv_ctrl_long.cc:157-171 | the first normal core not in use; no earlier one is idle |
| NfvCtrlLong.PlaceShardOnActive | core/modules/nfv_ctrl_long.cc:141-153 | a shard that fits somewhere goes to the first core in use that fits and changes only that core's totals and list |
| NfvCtrlLong.PlaceShardOnIdle | core/modules/nfv_ctrl_long.cc:156-171 | when no core in use fits, the first idle normal core takes the shard and is put in use with liveness 1, and one more core is counted active |
| NfvCtrlLong.PlaceShardSkipped | core/modules/nfv_ctrl_long.cc:173-176 | a shard is skipped exactly when no core in use fits and no normal core is idle, and then nothing changes |
| NfvCtrlLong.PlaceShardGrows | core/modules/nfv_ctrl_long.cc:137-178 | one placement only appends to lists, never takes a core out of use, and keeps `active_core_count_` in step with the cores in use |
| NfvCtrlLong.PlaceShardConsistent | core/modules/nfv_ctrl_long.cc:146-163 | one placement keeps each core's rate and flow count equal to the sums over its shard list |
| NfvCtrlLong.PlaceShardWhere | core/modules/nfv_ctrl_long.cc:142-169 | the chosen core is a normal core, in use afterwards, whose list gained the shard at its end; every other core keeps its list and liveness |
| NfvCtrlLong.PackGrows | core/modules/nfv_ctrl_long.cc:128-186 | `FindMoves` only appends to lists and keeps the active count in step with the cores in use |
| NfvCtrlLong.PackConsistent | core/modules/nfv_ctrl_long.cc:128-186 | `FindMoves` keeps the per-core totals equal to the sums over the lists |
| NfvCtrlLong.PackCovers | core/modules/nfv_ctrl_long.cc:137-180 | every shard given is moved or left over, nothing else is, and with distinct shards none is both |
| NfvCtrlLong.PackTargets | core/modules/nfv_ctrl_long.cc:148-163 | every move names a normal core, in use afterwards, whose list holds the shard |
| NfvCtrlLong.PackAppends | core/modules/nfv_ctrl_long.cc:149-163 | with distinct shards, each core's list grows by exactly the shards moved to it |
| NfvCtrlLong.TotalsAt | core/modules/nfv_ctrl_long.cc:193-210 | after the first pass each core's totals are the sums over its shards, a core with shards is in use and one epoch older, and `active_core_count_` is the number of cores with shards |
| NfvCtrlLong.DrainCoreSpec | core/modules/nfv_ctrl_long.cc:222-233 | the drain loop on core i leaves it not overloaded (rate above 90% of its profile rate) or with no shards, and changes no other core, nor which cores are in use, nor the count |
| NfvCtrlLong.DrainCoreQueue | core/modules/nfv_ctrl_long.cc:225-228 | the drain takes a suffix off core i's list and queues it last shard first |
| NfvCtrlLong.DrainAllSpec | core/modules/nfv_ctrl_long.cc:215-234 | after the drain loop every core in use is no longer overloaded or has no shards, and which cores are in use and the count do not change |
| NfvCtrlLong.DrainAllOrigins | core/modules/nfv_ctrl_long.cc:225-228 | every queued shard has an origin entry, and every origin entry names a core |
| NfvCtrlLong.DrainCoreFrom | core/modules/nfv_ctrl_long.cc:222-233 | the drain loop on one core only cuts its list down to a prefix of the list before the drain, and the origin it records for a shard is a core whose list before the drain held that shard |
| NfvCtrlLong.DrainAllFrom | core/modules/nfv_ctrl_long.cc:215-234 | over all cores the drain keeps every list a prefix of its list before the drain, and every origin entry names a core whose list before the drain held the shard |
| NfvCtrlLong.DrainedFromTotals | core/modules/nfv_ctrl_long.cc:213-234 | starting from empty `to_move_shards` and `to_move_shards_to_cores`, every queued shard has an origin entry, and that entry names a core whose list before the drain held the shard |
| NfvCtrlLong.SkippedHaveOrigins | core/modules/nfv_ctrl_long.cc:237-248 | every shard `FindMoves` leaves over was queued by the drain, so it has a core to go back to |
| NfvCtrlLong.PutBackConsistent | core/modules/nfv_ctrl_long.cc:243-248 | putting the left-over shards back on their cores keeps the totals equal to the sums over the lists |
| NfvCtrlLong.PutBackLists | core/modules/nfv_ctrl_long.cc:243-248 | putting back appends to each core's list exactly the left-over shards whose origin entry names that core, in order; flags, liveness and the active count do not change |
| NfvCtrlLong.SkippedGoHome | core/modules/nfv_ctrl_long.cc:237-248 | each shard `FindMoves` leaves over has an origin entry; that core's list before the drain held the shard, and after the put-back the shard is on that core's list again |
| NfvCtrlLong.MinRateCoreSpec | core/modules/nfv_ctrl_long.cc:255-272 | the candidate is none exactly when no core in use has lived more than 4 epochs; otherwise it is such a core of least rate, the first one of that rate |
| NfvCtrlLong.ReclaimTargetSpec | core/modules/nfv_ctrl_long.cc:250-280 | a core is tried for reclaiming exactly when the active count is not 1 and the least-rate candidate runs at no more than half of what the profile allows it |
| NfvCtrlLong.TrialNoNewCore | core/modules/nfv_ctrl_long.cc:293-295 | a trial that did not fail took no core into use |
| NfvCtrlLong.ReclaimReleases | core/modules/nfv_ctrl_long.cc:305-314 | a successful reclaim (same in both versions) empties the candidate, takes it out of use, lowers the active count by one and returns a move for each of its shards |
| NfvCtrlLong.UndoRestoresLists | core/modules/nfv_ctrl_long.cc:296-304 | when the candidate lists each shard once, popping every trial move restores every core's list |
| NfvCtrlLong.ReclaimFailedKeepsLists | core/modules/nfv_ctrl_long.cc:293-304 | on a failed trial both versions return the moves they were given and leave every list as it was; the corrected one leaves the whole state as it was |
| NfvCtrlLong.ReclaimLeavesIdleCoreActive | core/modules/nfv_ctrl_long.cc:288-304 | the finding: a trial that activates a new core fails, and the source's undo leaves that core in use, with no shards, and counted active |
| NfvCtrlLong.ReclaimCorrectedNoNewCore | core/modules/nfv_ctrl_long.cc:282-316 | the corrected reclaim never takes a core into use, lowers the active count only when it reclaims, and keeps that count in step with the cores in use |
| NfvCtrlLong.HalveSpec | core/modules/nfv_ctrl_long.cc:377-387 | the halving loop leaves the core at no more than the target rate or with no shards, having taken a suffix of its list, last shard first |
| NfvCtrlLong.MinRateNormalSpec | core/modules/nfv_ctrl_long.cc:389-403 | `mr_core` is none exactly when there is no normal core; otherwise a normal core of least rate, whether in use or not, the first one of that rate |
| NfvCtrlLong.MoveAllSpec | core/modules/nfv_ctrl_long.cc:411-417 | every queued shard is appended, in order, to core t's list and moved to t; no other list, flag or liveness changes and the totals stay consistent |
| NfvCtrlLong.MoveToLeastSpec | core/modules/nfv_ctrl_long.cc:389-418 | the receiving core is a normal core of least rate and is in use afterwards, receives the queued shards in order, and no other list changes |
| NfvCtrlLong.OnDemandDrains | core/modules/nfv_ctrl_long.cc:363-387 | the overloaded core ends at no more than half its rate, or with no shards; it lost a suffix of its list, queued last shard first; no other list changed |
| NfvCtrlLong.OnDemandDelivers | core/modules/nfv_ctrl_long.cc:389-418 | the drained shards go, in the order queued, to the first normal core of least rate after the drain, which is then in use; no other list changes and the totals match the lists |
| NfvCtrlLong.OnDemandActive | core/modules/nfv_ctrl_long.cc:363-409 | the on-demand variant counts one more active core exactly when the receiving core was neither in use nor holding shards; it does not recount the cores in use |
| NfvCtrlLong.LongTermController.FindMoves | core/modules/nfv_ctrl_long.cc:128-186 | the moves, the per-core totals and the left-over shards are those of `Pack`, and the controller's core state equals the packed state |
| NfvCtrlLong.LongTermController.ComputeTotals | core/modules/nfv_ctrl_long.cc:193-210 | the first pass computes `Totals` of the stored lists, flags and liveness |
| NfvCtrlLong.LongTermController.FindMinRateCore | core/modules/nfv_ctrl_long.cc:255-272 | the loop finds `MinRateCore` of the current totals |
| NfvCtrlLong.LongTermController.TryReclaim | core/modules/nfv_ctrl_long.cc:282-316 | the reclaim step leaves the controller in the state `ReclaimCorrected` gives: a failed trial is rolled back entirely |
| NfvCtrlLong.LongTermController.LongTermOptimization | core/modules/nfv_ctrl_long.cc:188-317 | the whole optimisation leaves the state and returns the moves that `LongTermCorrected` gives |
| NfvCtrlLong.LongTermController.FindLeastRateCore | core/modules/nfv_ctrl_long.cc:389-403 | the loop finds `MinRateNormal` of the current totals |
| NfvCtrlLong.LongTermController.OnDemandLongTermOptimization | core/modules/nfv_ctrl_long.cc:357-419 | the on-demand optimisation leaves the state and returns the moves that `OnDemand` gives |
| NfvCtrlLong.LongTermController.PlaceOne | core/modules/nfv_ctrl_long.cc:137-178 | one shard of `FindMoves` lands where the value model's placement puts it: the first active core with room, else the first idle core, which is activated, else nowhere |
| NfvCtrlLong.LongTermController.TotalsLoop | core/modules/nfv_ctrl_long.cc:193-210 | the first pass gives each core the summed rate and flow count of its shards, and marks a core in use when it was or holds shards |
| NfvCtrlLong.LongTermController.DrainOverloaded | core/modules/nfv_ctrl_long.cc:215-234 | the second pass takes shards off every core in use as the value model's drain does, remembering each shard's core of origin |
| NfvCtrlLong.LongTermController.PutBackSkipped | core/modules/nfv_ctrl_long.cc:243-248 | the new totals and lists are `PutBack` of the old ones: each shard no core could take is appended to the core its origin entry names (by `SkippedGoHome`, the core whose list held it before the drain) |
| NfvCtrlLong.LongTermController.FindReclaimTarget | core/modules/nfv_ctrl_long.cc:250-280 | the candidate core of the reclaim step is the one the value model picks |
| NfvCtrlLong.LongTermController.ReclaimOn | core/modules/nfv_ctrl_long.cc:282-316 | the reclaim trial on the candidate core keeps its moves and releases the core when it succeeds, and otherwise restores the whole controller state, activations included |
| NfvCtrlLong.LongTermController.HalveLoop | core/modules/nfv_ctrl_long.cc:377-387 | shards come off the core, last first, while its rate exceeds the target and it has shards, as in the value model |
| NfvCtrlLong.LongTermController.MoveAllTo | core/modules/nfv_ctrl_long.cc:411-417 | every queued shard goes to the least loaded core, as in the value model |
| NfvCtrlLong.LongTermController.MoveToLeastCore | core/modules/nfv_ctrl_long.cc:389-418 | the least loaded core is found, put in use if it is not, and receives the queued shards, as in the value model |
| NfvCoreShort.U32 | core/modules/nfv_core_short.cc:176 | a value stored in a `uint32_t` is reduced modulo 2^32, and a value already in range is kept |
| NfvCoreShort.RefreshSpec | core/modules/nfv_core_short.cc:180-183 | the loop over the epoch's flows sets each one's queued count to ingress minus egress and touches nothing else |
| NfvCoreShort.UnoffloadedSpec | core/modules/nfv_core_short.cc:180-189 | a flow is listed for assignment exactly when it was seen this epoch and is not offloaded to a software queue |
| NfvCoreShort.FirstFitSpec | core/modules/nfv_core_short.cc:202-210 | no queue is found exactly when none fits the task under the threshold; otherwise the first queue that fits |
| NfvCoreShort.AssignOneSpec | core/modules/nfv_core_short.cc:195-218 | a task no larger than the threshold stays local exactly when it fits beside what is already local; otherwise it goes to the first queue that fits, whose assigned count grows by the task; a task that fits nowhere, or exceeds the threshold, changes nothing |
| NfvCoreShort.AssignOneShape | core/modules/nfv_core_short.cc:194-219 | one turn changes at most the flow's queue, to an existing queue, and at most the queues' assigned counts |
| NfvCoreShort.AssignAllFlows | core/modules/nfv_core_short.cc:192-219 | the assignment offloads only pending flows, each to an existing queue; every other flow keeps its state |
| NfvCoreShort.AssignAllQueues | core/modules/nfv_core_short.cc:192-219 | the assignment changes no queue's id, idle count or processed count |
| NfvCoreShort.NotifyAllSends | core/modules/nfv_core_short.cc:223-242 | the notice a queue earns is sent |
| NfvCoreShort.NotifyAllJustified | core/modules/nfv_core_short.cc:223-242 | every notice names a queue that met its condition: inactive with work, or idle for 100 epochs |
| NfvCoreShort.AssignedQueues | core/modules/nfv_core_short.cc:169-219 | after the first three steps each queue is its aged self with at most its assigned count grown |
| NfvCoreShort.EpochKeepsIdleBounded | core/modules/nfv_core_short.cc:169-242 | an epoch keeps every idle count in [-1, 100): no queue in use stays idle 100 epochs without being sent to rest |
| NfvCoreShort.EpochKeepsOffloads | core/modules/nfv_core_short.cc:180-219 | offloaded flows keep naming existing queues and keep their queue; a flow not seen this epoch keeps its state; otherwise only the queued count and the queue change |
| NfvCoreShort.EpochAgesIdleQueues | core/modules/nfv_core_short.cc:169-176 | a queue in use that processed nothing ages by one epoch, and at 100 is made inactive with a rest notice |
| NfvCoreShort.EpochKeepsBusyQueues | core/modules/nfv_core_short.cc:173-241 | a queue in use that processed packets keeps its idle count, gets no rest notice, and has its processed count cleared |
| NfvCoreShort.EpochWakesQueues | core/modules/nfv_core_short.cc:224-231 | an inactive queue is woken, with a work notice, exactly when the assignment gave it packets |
| NfvCoreShort.EpochNoticesJustified | core/modules/nfv_core_short.cc:221-242 | every notice of an epoch names a queue that met its condition after the assignment |
| NfvCoreShort.AgeQueues | core/modules/nfv_core_short.cc:169-177 | the queue-length loop computes `AgeAll` |
| NfvCoreShort.CollectUnoffloaded | core/modules/nfv_core_short.cc:180-189 | the loop computes the refreshed flow states and the flows still served locally |
| NfvCoreShort.FindQueue | core/modules/nfv_core_short.cc:202-210 | the inner loop finds `FirstFit` over all queues |
| NfvCoreShort.AssignFlows | core/modules/nfv_core_short.cc:192-219 | the first-fit loop computes `AssignAll` from zero local packets |
| NfvCoreShort.NotifyQueues | core/modules/nfv_core_short.cc:223-242 | the notice loop computes `NotifyAll` |
| NfvCoreShort.NfvCore.ShortEpochProcess | core/modules/nfv_core_short.cc:140-262 | nothing changes and false is returned unless statistics are waiting; otherwise the queues and flow states become `Epoch(...)`, its notices are sent, the cache, counters and statistics are cleared and true is returned |
| PmdRss.ConfIndexOfBucket | core/drivers/pmd_rss.cc:57 | bucket j's entry `reta_conf_[j / 64].reta[j % 64]` is element j of the flat configuration copy |
| PmdRss.ZeroedSynced | core/drivers/pmd_rss.cc:55-58 | after the reset the table is all zero and mirrored by the configuration array, whose entries beyond the table are untouched |
| PmdRss.RemapSpec | core/drivers/pmd_rss.cc:69-75 | over distinct keys the loop sets exactly the listed buckets to their cores, and counts zero exactly when every listed bucket already held its core |
| PmdRss.RemapAll | core/drivers/pmd_rss.cc:66-77 | iterating the moves in key order yields the table with every moved bucket holding its core, and counts zero exactly when the table does not change |
| PmdRss.UnchangedIff | core/drivers/pmd_rss.cc:70-73 | the table keeps its value exactly when every moved bucket already held its core |
| PmdRss.RemapIdempotent | core/drivers/pmd_rss.cc:66-83 | applying the same moves a second time changes nothing and counts no remapping, so the NIC is not updated again |
| PmdRss.RemappedSynced | core/drivers/pmd_rss.cc:73-74 | the moves keep the table and the configuration array mirroring each other |
| PmdRss.StrideSpec | core/drivers/pmd_rss.cc:91-97 | the inner loop sets every bucket on the stride from the shard to the core and keeps the others; its count stays the same exactly when no bucket changes |
| PmdRss.StrideConfSynced | core/drivers/pmd_rss.cc:91-97 | with the write going to the bucket's own column, the inner loop keeps the configuration array mirroring the table |
| PmdRss.StrideIsResidue | core/drivers/pmd_rss.cc:91 | for a shard below `total_shards`, its stride is the buckets congruent to it modulo `total_shards` |
| PmdRss.ShardsClosedForm | core/drivers/pmd_rss.cc:88-98 | each bucket whose residue modulo `total_shards` is a moved shard holds that shard's core, and every other bucket keeps its value |
| PmdRss.ShardsIdempotent | core/drivers/pmd_rss.cc:85-106 | applying the same shard moves a second time changes nothing and counts no remapping |
| PmdRss.ShardsCountZeroIff | core/drivers/pmd_rss.cc:88-100 | over shards below `total_shards` the count is zero exactly when the table does not change, so the NIC is updated exactly when the table changed |
| PmdRss.ShardsConfSynced | core/drivers/pmd_rss.cc:88-98 | the corrected shard writes keep the configuration array mirroring the table |
| PmdRss.ShardConfAsWrittenDesyncs | core/drivers/pmd_rss.cc:95 | the finding: writing into column `shard % 64` instead of `reta_id % 64` leaves the configuration array telling the NIC a stale core for bucket 3 |
| PmdRss.FlowUpdateAsWrittenDestroysTwice | core/drivers/pmd_rss.cc:158-167 | the finding: when rule creation fails twice, the group's destroyed rule is left in its slot and destroyed a second time |
| PmdRss.FlowUpdateKeepsRules | core/drivers/pmd_rss.cc:108-183 | the corrected flow update keeps the rule state well formed and destroys only installed rules, each once |
| PmdRss.ClearKeepsRules | core/drivers/pmd_rss.cc:161-164 | destroying the group's old rule and emptying its slot keeps the rule state well formed |
| PmdRss.InstallKeepsRules | core/drivers/pmd_rss.cc:165-178 | creating the new rule into the emptied slot keeps the rule state well formed and destroys only the old redirection |
| PmdRss.FlowUpdateEffect | core/drivers/pmd_rss.cc:108-183 | nothing happens unless group tables are in use and the rule validates; the id toggles exactly when the rule is created, which then sits in its group's slot, marked with the id and carrying the table, next to the redirection to its group; the other group's rule is kept |
| PmdRss.StepFlowRules | core/drivers/pmd_rss.cc:158-179 | the rule bookkeeping, step by step, computes `FlowUpdate` |
| PmdRss.Port.UpdateNic | core/drivers/pmd_rss.cc:60-63 | the NIC takes the first `reta_size_` configuration entries unless it refuses them, which is only logged |
| PmdRss.Port.UpdateRssReta | core/drivers/pmd_rss.cc:54-64 | every bucket goes to core 0 in the table and the configuration array, then the NIC is updated |
| PmdRss.Port.WriteBuckets | core/drivers/pmd_rss.cc:69-75 | the loop over the moves computes `Remap` on the table and on the configuration array |
| PmdRss.Port.UpdateRssRetaBuckets | core/drivers/pmd_rss.cc:66-83 | the table and the configuration array get every move; the count is zero exactly when the table is unchanged, and only then is the NIC left alone |
| PmdRss.Port.WriteStride | core/drivers/pmd_rss.cc:91-97 | the inner loop computes `Stride` on the table and the corrected writes on the configuration array |
| PmdRss.Port.WriteShards | core/drivers/pmd_rss.cc:88-98 | the outer loop computes `Shards` on the table and `ShardsConf` on the configuration array |
| PmdRss.Port.UpdateRssRetaShards | core/drivers/pmd_rss.cc:85-106 | each shard's core reaches every bucket of its stride; the NIC is updated only when some bucket changed |
| PmdRss.Port.UpdateRssFlow | core/drivers/pmd_rss.cc:108-183 | the rule state and the destroyed rules are those of the corrected `FlowUpdate` over the current table; the NIC table is not touched |
| PmdRss.Port.WriteBucketsTable | core/drivers/pmd_rss.cc:188-195 | the loop writes the table only, computing `Remap` |
| PmdRss.Port.UpdateRssFlowBuckets | core/drivers/pmd_rss.cc:185-200 | the moves reach the table only, and the flow rules are rebuilt exactly when some bucket changed |
| PmdRss.Port.WriteStrideTable | core/drivers/pmd_rss.cc:208-213 | the inner loop writes the table only, computing `Stride` |
| PmdRss.Port.WriteShardsTable | core/drivers/pmd_rss.cc:205-214 | the outer loop writes the table only, computing `Shards` |
| PmdRss.Port.UpdateRssFlowShards | core/drivers/pmd_rss.cc:202-219 | the shard moves reach the table only, and the flow rules are rebuilt exactly when some bucket changed |
| Metron.DecodeEncode | core/modules/metron_ingress.cc:345-346 | encoding core c of worker w as `w * 12 + c` and decoding it gives back w and c |
| Metron.EncodeDecode | core/modules/metron_ingress.cc:345-346 | every core id of the cluster decodes to a worker and a core on it from which it is encoded back |
| Metron.FreeCore | core/modules/metron_ingress.cc:120-129 | `GetFreeCore` returns 255 exactly when every core is in use; otherwise the lowest core not in use |
| Metron.InitialCovers | core/modules/metron_ingress.cc:69-91 | the initial state, one aggregate of all 256 flow ids on core 0, satisfies the balance invariant |
| Metron.CoversRoutesToUsedCores | core/modules/metron_ingress.cc:343-344 | under the invariant every flow id is routed to a core in use |
| Metron.HalveRanges | core/modules/metron_ingress.cc:182-192 | the two halves of a split are power-of-two ranges within the flow ids, on cores in use |
| Metron.HalveTable | core/modules/metron_ingress.cc:187-199 | after a split the table sends every flow id of every aggregate to that aggregate's core |
| Metron.HalveInSome | core/modules/metron_ingress.cc:187-192 | after a split every flow id is still in some aggregate |
| Metron.HalveApart | core/modules/metron_ingress.cc:187-192 | after a split the aggregates do not overlap and are served by distinct cores |
| Metron.HalveKeepsCovers | core/modules/metron_ingress.cc:181-199 | a split keeps the balance invariant |
| Metron.SplitAsWrittenDropsUnitAggregate | core/modules/metron_ingress.cc:167-185 | the finding: an overloaded aggregate of one flow id is erased and not re-added, so its flow id is in no aggregate and the invariant breaks |
| Metron.SplitAsWrittenWithoutFreeCore | core/modules/metron_ingress.cc:188-199 | the finding: with every core in use, the split gives the upper half to core 255, which the cluster does not have |
| Metron.SplitCoreKeepsCovers | core/modules/metron_ingress.cc:156-205 | the corrected split of one core keeps the balance invariant |
| Metron.SplitCoreEffect | core/modules/metron_ingress.cc:156-205 | splitting changes nothing unless the core is in use and flagged; then the flag is cleared, and only the upper half of its aggregate moves, to the lowest free core, which is put in use; with no free core or a one-flow aggregate nothing else changes |
| Metron.SplitCoreFlags | core/modules/metron_ingress.cc:157-161 | a split clears the core's flag, keeps every other flag and only puts cores in use |
| Metron.SplitUpToKeepsCovers | core/modules/metron_ingress.cc:156-205 | the splitting loop keeps the balance invariant |
| Metron.SplitUpToClearsFlags | core/modules/metron_ingress.cc:156-205 | when only cores in use are flagged, the splitting loop leaves no core flagged |
| Metron.MarkKeeps | core/modules/metron_ingress.cc:140-147 | marking keeps the aggregates, the table and the invariant, never clears a flag and never flags a core out of use |
| Metron.ProcessKeeps | core/modules/metron_ingress.cc:131-222 | a period step keeps the invariant; before a period has passed it changes nothing; once the rule delay has passed too, every counter is zero, no core is flagged, stage 0 is back and the period restarts |
| Metron.FlowId | core/modules/metron_ingress.cc:343 | the flow id, the low byte of the destination address, is one of the 256 flow ids |
| Metron.RouteToUsedCore | core/modules/metron_ingress.cc:327-382 | a packet is dropped exactly when it is not TCP; otherwise it goes to the core its flow id maps to, which is in use, on the worker whose endpoint serves it, tagged with that core's id; without rewriting the ports are kept |
| Metron.TallyAsWrittenMissesUpperCores | core/modules/metron_ingress.cc:350 | the finding: the per-core counter is indexed by `dst_core`, so the counters of cores 12 .. 35 are never charged |
| Metron.UpperCoresNeverFlagged | core/modules/metron_ingress.cc:140-147 | hence, as written, a core of 12 .. 35 is never flagged as overloaded however loaded it is |
| Metron.TallyCountsRouted | core/modules/metron_ingress.cc:349-350 | with the counter indexed by the core id, each core's counter grows by the number of TCP packets routed to it, modulo 2^32 |
| Metron.CoversTableOk | core/modules/metron_ingress.cc:344 | the invariant maps every flow id to a core of the cluster |
| Metron.MetronBatchKeeps | core/modules/metron_ingress.cc:316-383 | a mode-0 batch keeps the invariant and the counters in range, and every TCP packet goes to a core in use, tagged with that core's id |
| Quadrant.ConsistentPartitions | core/modules/metron_ingress.cc:353-359 | under the consistency invariant a flow is cached exactly when it is in some core's flow set, and in at most one of them |
| Quadrant.QInitial | core/modules/metron_ingress.cc:78-91 | the initial state, empty cache and flow sets with core 0 in use and selected, is consistent |
| Quadrant.PickBest | core/modules/metron_ingress.cc:239-256 | the selection loop keeps the largest delay of the candidate cores (delay below half the SLO): the first core with it when it is positive; with every candidate at delay 0 the last candidate; the previous selection when there is no candidate |
| Quadrant.SelectKeeps | core/modules/metron_ingress.cc:235-267 | stage 0 keeps the cache and the flow sets; the selected core is put in use and is a candidate whenever some core is; every core in use above the SLO is flagged |
| Quadrant.Smallest | core/modules/metron_ingress.cc:286-297 | the flows taken from a flagged core are a subset of its flows of the requested size |
| Quadrant.SmallestLowest | core/modules/metron_ingress.cc:292-297 | the flows taken are the lowest flow ids of the core, as the ordered set is walked in ascending order |
| Quadrant.MoveIdsStep | core/modules/metron_ingress.cc:298-300 | moving one more flow, erased from the old core and added to the new one, is the move of the enlarged set |
| Quadrant.PinStep | core/modules/metron_ingress.cc:301 | pinning one more flow in the cache is the pinning of the enlarged set |
| Quadrant.MoveConsistent | core/modules/metron_ingress.cc:298-302 | a move keeps the cache consistent and the set of cached flows unchanged, and pins every moved flow to the target |
| Quadrant.MoveCounts | core/modules/metron_ingress.cc:298-300 | a move to another core takes exactly the moved flows from the old core, adds them to the target, leaves every other core's flows alone and keeps the two cores' total |
| Quadrant.MoveCoreKeeps | core/modules/metron_ingress.cc:273-305 | one iteration moves exactly half (rounded down) of a flagged core's flows, the smallest ids, to the selected core, keeping the cache consistent and the set of cached flows unchanged |
| Quadrant.MoveUpToKeeps | core/modules/metron_ingress.cc:270-313 | the stage-1 loop keeps the cache consistent and the set of cached flows unchanged |
| Quadrant.QProcessKeeps | core/modules/metron_ingress.cc:224-314 | a period step keeps the cache consistent and never loses or invents a cached flow; with rewriting on, or before a period has passed, it changes nothing |
| Quadrant.QuadFlowId | core/modules/metron_ingress.cc:353 | the Quadrant flow id, bits 16 .. 27 of the source address plus the low 12 bits of the destination, is below 2^28 |
| Quadrant.QRouteKeeps | core/modules/metron_ingress.cc:351-382 | a packet is dropped exactly when it is not TCP; a known flow keeps its core, a new flow is pinned to the selected core, and the packet goes to the core its flow is pinned to |
| Quadrant.QBatchKeeps | core/modules/metron_ingress.cc:316-383 | a batch keeps the cache consistent and never re-pins a known flow; every TCP packet goes to the core its flow is pinned to at the end of the batch, so all packets of a flow go to one core |
| MetronIngress.Ingress.constructor | core/modules/metron_ingress.cc:21-96 | `Init()`: non-positive arguments select the defaults; one aggregate sends every flow id to core 0, the only core in use; counters are zero and the flow cache is empty; the object satisfies its invariant |
| MetronIngress.Ingress.GetFreeCore | core/modules/metron_ingress.cc:120-129 | returns the lowest core not in use, or 255 when every core is in use |
| MetronIngress.Ingress.MarkOverloads | core/modules/metron_ingress.cc:138-149 | the flags become those of the marking step: a core in use whose packet rate exceeds the threshold is flagged |
| MetronIngress.Ingress.FindAggregate | core/modules/metron_ingress.cc:167-176 | returns the position of the first aggregate served by the core, or the number of aggregates when there is none |
| MetronIngress.Ingress.RemapFlows | core/modules/metron_ingress.cc:196-199 | the table afterwards sends the flow ids of the range to the new core and keeps every other entry |
| MetronIngress.Ingress.SplitCoreStep | core/modules/metron_ingress.cc:156-205 | the aggregates, table and flags afterwards are the corrected split of one core, and nothing of the Quadrant state changes |
| MetronIngress.Ingress.SplitAll | core/modules/metron_ingress.cc:151-210 | the stage-1 loop leaves the balance state of the splitting loop over all cores |
| MetronIngress.Ingress.ResetCounters | core/modules/metron_ingress.cc:211-216 | every per-core and per-flow-id counter is zero |
| MetronIngress.Ingress.MetronProcessOverloads | core/modules/metron_ingress.cc:131-222 | the new state is the value model's period step, so the aggregates keep covering every flow id; the Quadrant state is untouched |
| MetronIngress.Ingress.MetronPackets | core/modules/metron_ingress.cc:327-382 | each packet gets the verdict of the Metron routing and the counters are those of the corrected tally |
| MetronIngress.Ingress.SelectCores | core/modules/metron_ingress.cc:239-256 | the flags become those of the Quadrant marking and the returned core is the selection of the value model |
| MetronIngress.Ingress.MoveCoreStep | core/modules/metron_ingress.cc:273-305 | the Quadrant state afterwards is the value model's move of half the flagged core's flows; the Metron aggregates are untouched |
| MetronIngress.Ingress.MoveAll | core/modules/metron_ingress.cc:273-309 | the Quadrant state afterwards is the stage-1 loop of the value model over all cores |
| MetronIngress.Ingress.QuadrantProcessOverloads | core/modules/metron_ingress.cc:224-314 | the new Quadrant state is the value model's period step, so the flow cache stays consistent |
| MetronIngress.Ingress.QuadrantPackets | core/modules/metron_ingress.cc:351-382 | the new cache and the verdicts are those of the value model's batch routing |
| MetronIngress.Ingress.ProcessBatch | core/modules/metron_ingress.cc:316-383 | mode 0 is the Metron batch of the value model and mode 1 the Quadrant period step followed by its batch routing; any other mode is fatal and changes nothing; the invariant is kept |
| MetronIngress.LowestFlows | core/modules/metron_ingress.cc:286-297 | collects the requested number of lowest flow ids of the core |
| MetronIngress.MoveFlows | core/modules/metron_ingress.cc:298-302 | the flow sets and the cache afterwards are those of moving the chosen flows to the target and pinning them there |
| Ironside.Scale | core/modules/ironside_ingress.cc:71 | the per-100 ms counter scaled by 10 stays a `uint32_t` value, wrapping modulo 2^32 |
| Ironside.Scaled | core/modules/ironside_ingress.cc:70-71 | scaling every counter keeps one `uint32_t` counter per worker |
| Ironside.ScanAsWritten | core/modules/ironside_ingress.cc:70-83 | the selection loop as written, with `i == 0 \|\|`, returns no endpoint or an eligible worker |
| Ironside.Scan | core/modules/ironside_ingress.cc:70-83 | the corrected selection loop, where the first eligible worker is taken whatever its key, returns no endpoint or an eligible worker |
| Ironside.ScanFindsEligible | core/modules/ironside_ingress.cc:70-140 | the corrected loop finds an endpoint exactly when some worker is within both the core and the rate threshold |
| Ironside.ScanIsBest | core/modules/ironside_ingress.cc:66-142 | the endpoint found has the best key of the mode (fewest cores, lowest rate, most cores, highest rate) among the eligible workers, and is the first eligible worker with it |
| Ironside.AsWrittenAgreesWhenFirstEligible | core/modules/ironside_ingress.cc:79 | when worker 0 is eligible the loop as written and the corrected one choose the same endpoint |
| Ironside.AsWrittenIgnoresIdleWorker | core/modules/ironside_ingress.cc:124-140 | the finding: in max-rate mode, with worker 0 over the core threshold and worker 1 idle and eligible, the loop as written finds no endpoint while the corrected one picks worker 1 |
| Ironside.Select | core/modules/ironside_ingress.cc:64-142 | the endpoint of a mode is -1, or a worker of the cluster; a mode outside 0 .. 3 has no selection loop and selects none |
| Ironside.Update | core/modules/ironside_ingress.cc:56-148 | an update keeps one counter per worker, each a `uint32_t` value |
| Ironside.UpdateSpec | core/modules/ironside_ingress.cc:56-148 | within 100 ms of the last update nothing changes; otherwise the update time is now, every counter is reset and an endpoint is chosen exactly when the mode has a selection loop and some worker is eligible by its scaled rate, and it is then the best eligible worker |
| Ironside.Aggregate | core/modules/ironside_ingress.cc:169 | the flow aggregate, the low 12 bits of the destination address, is one of 4096 aggregates |
| Ironside.Admit | core/modules/ironside_ingress.cc:154-198 | one packet keeps the flow cache pointing at workers of the cluster and the counters `uint32_t` values |
| Ironside.Batch | core/modules/ironside_ingress.cc:154-198 | a batch gives one verdict per packet and keeps the cache and counters well formed |
| Ironside.BatchKeeps | core/modules/ironside_ingress.cc:159-197 | a batch never reassigns a known aggregate and assigns new ones only to the endpoint; a packet is dropped exactly when it is not TCP or its aggregate is new with no endpoint; every packet sent goes to its aggregate's worker |
| Ironside.BatchCounts | core/modules/ironside_ingress.cc:184 | each worker's counter grows by the number of packets sent to it, modulo 2^32 |
| Ironside.Ingress.constructor | core/modules/ironside_ingress.cc:14-50 | `Init()`: non-positive arguments select the defaults, the rate threshold is cast to `uint32_t`, one zero counter per endpoint, worker 0 as the endpoint (`endpoint_id_ = 0` in `core/modules/ironside_ingress.h`) and an empty cache |
| Ironside.Ingress.UpdateEndpointLB | core/modules/ironside_ingress.cc:56-148 | the new state is the update of the value model; the cache is untouched |
| Ironside.Ingress.ScaleAndSelect | core/modules/ironside_ingress.cc:66-142 | every counter is scaled to a rate and the endpoint returned is the corrected choice by those rates |
| Ironside.Ingress.ResetCounters | core/modules/ironside_ingress.cc:144-147 | every counter is zero |
| Ironside.Ingress.AdmitAll | core/modules/ironside_ingress.cc:153-198 | the cache, counters and verdicts are those of the value model's batch with the current endpoint, which does not change |
| Ironside.Ingress.ProcessBatch | core/modules/ironside_ingress.cc:150-199 | the endpoint update of the value model followed by its batch admission |
| UdpProxy.InitSpec | core/modules/invisv_udp_proxy.cc:135-193 | `Init()` fails exactly on a malformed port range or an unparsable address; otherwise the configuration keeps the given ranges (or the single range of all ports) and the given UDP endpoints, with ports cast to 16 bits |
| UdpProxy.InitAsWrittenIgnoresNextHopPort | core/modules/invisv_udp_proxy.cc:183-185 | the finding: as written, the next-hop proxy takes the proxy's own port, so a next hop on port 2000 beside a proxy on port 1000 is taken to listen on port 1000 |
| UdpProxy.SetClientDecides | core/modules/invisv_udp_proxy.cc:266-293 | after `set_client` for an address, traffic from it to the proxy is forward traffic exactly when it was allowed, and the decision for every other address is unchanged |
| UdpProxy.InstallKeeps | core/modules/invisv_udp_proxy.cc:346-355 | installing a mapping keeps every forward entry paired with its reverse entry, maps the client and the external endpoint to each other, and keeps every other entry but the expired pair |
| UdpProxy.RefreshKeeps | core/modules/invisv_udp_proxy.cc:428-430 | refreshing a forward entry keeps the entries paired |
| UdpProxy.WindowOf | core/modules/invisv_udp_proxy.cc:313-333 | a suspended range offers no port; an unprivileged client port gets ports from 1024 up to and including the range's end; a privileged one ports of the range below 1023 |
| UdpProxy.Start | core/modules/invisv_udp_proxy.cc:336 | the first port probed, the window's minimum plus the random draw, lies in the window |
| UdpProxy.PortAtInWindow | core/modules/invisv_udp_proxy.cc:373-379 | probing walks the window circularly from the start: the k-th port is start + k, brought back by the window's size once past its end |
| UdpProxy.ProbesStop | core/modules/invisv_udp_proxy.cc:373-381 | every probe lies in the window and the loop returns to its start only after a full turn |
| UdpProxy.ProbesDistinct | core/modules/invisv_udp_proxy.cc:373-381 | no port is probed twice |
| UdpProxy.Decide | core/modules/invisv_udp_proxy.cc:343-370 | with the proxy's own port treated as busy and never dereferenced, a port is taken exactly when it is not the proxy's port and is unmapped or held by an expired mapping |
| UdpProxy.DecideAgrees | core/modules/invisv_udp_proxy.cc:343-370 | on every port but the proxy's own the probe as written and the corrected one agree |
| UdpProxy.AsWrittenDerefsNull | core/modules/invisv_udp_proxy.cc:344-360 | the finding: with the default range, a proxy on port 5000, an empty table and a draw that starts the probe at 5000, the source dereferences a null reverse entry; the corrected probe treats the port as busy |
| UdpProxy.ProbeSound | core/modules/invisv_udp_proxy.cc:341-381 | a port found by the probe lies in the window and is free or held by an expired mapping |
| UdpProxy.ChooseSound | core/modules/invisv_udp_proxy.cc:296-384 | the endpoint chosen is the proxy's address on a port of a usable range, never the proxy's own port, free or expired; a privileged client port gets a privileged port and an unprivileged one an unprivileged port |
| UdpProxy.ProbeComplete | core/modules/invisv_udp_proxy.cc:341-381 | a probe finds nothing only when every port it visits, at most 128, is busy |
| UdpProxy.ChooseComplete | core/modules/invisv_udp_proxy.cc:308-383 | no endpoint is chosen only when every port probed in every usable range is busy |
| UdpProxy.ChooseRefusesPortZero | core/modules/invisv_udp_proxy.cc:317-319 | a client on port 0 gets no endpoint |
| UdpProxy.Handle | core/modules/invisv_udp_proxy.cc:392-436 | one packet keeps the table's entries paired |
| UdpProxy.HandleSpec | core/modules/invisv_udp_proxy.cc:386-438 | a packet is dropped exactly when it is not UDP, is reverse traffic to an unmapped port, is neither reverse nor forward traffic, or is a new client's forward traffic with no free port; reverse traffic leaves the table alone and goes to the mapped client; forward traffic refreshes its mapping, created on the first packet, and goes to the next hop from the mapped endpoint |
| UdpProxy.Batch | core/modules/invisv_udp_proxy.cc:386-438 | a batch keeps the entries paired and gives one verdict per packet |
| UdpProxy.BatchDropsStrangers | core/modules/invisv_udp_proxy.cc:402-412 | whatever the table, non-UDP packets and packets that are neither reverse nor forward traffic are dropped |
| UdpProxy.Proxy.SetUDPProxyClient | core/modules/invisv_udp_proxy.cc:266-293 | `set_client` with an address inserts or overwrites its flag and succeeds; without a parsable address it is `EINVAL` and nothing changes |
| UdpProxy.Proxy.SetUDPProxy | core/modules/invisv_udp_proxy.cc:218-233 | `set_proxy` with an address sets the proxy endpoint, port cast to 16 bits; otherwise `EINVAL` and nothing changes |
| UdpProxy.Proxy.SetNextHopUDPProxy | core/modules/invisv_udp_proxy.cc:235-250 | `set_next_hop_proxy` with an address sets the next-hop endpoint, port cast to 16 bits; otherwise `EINVAL` and nothing changes |
| UdpProxy.Proxy.Insert | core/modules/invisv_udp_proxy.cc:346-355 | the table gets both entries of the new mapping, after the expired pair holding the port is removed |
| UdpProxy.Proxy.CreateNewEntry | core/modules/invisv_udp_proxy.cc:296-384 | the endpoint returned is the choice of the value model and its mapping is installed; with none the table is unchanged |
| UdpProxy.Proxy.Probe | core/modules/invisv_udp_proxy.cc:336-381 | the linear probe of one window returns the value model's probe result and installs its mapping |
| UdpProxy.Proxy.ProcessPacket | core/modules/invisv_udp_proxy.cc:392-436 | the new table and the verdict are those of the value model's packet handling |
| UdpProxy.Proxy.ProcessBatch | core/modules/invisv_udp_proxy.cc:386-438 | the new table and the verdicts are those of the value model's batch |
| AhoCorasick.Hits | core/modules/aho_corasick.cc:150-154 | every position recorded by the inner loop is the current text position |
| AhoCorasick.Collect | core/modules/aho_corasick.cc:145-154 | the inner loop records position i once for each keyword j < k of the output mask, nothing for an empty mask |
| AhoCorasick.HitsCount | core/modules/aho_corasick.cc:150-154 | the inner loop records as many positions as the mask has keywords below k |
| AhoCorasick.DistinctCard | core/modules/aho_corasick.cc:32-52 | a list of distinct state strings has as many elements as its set, which turns the state count into a count of prefixes |
| AhoCorasick.ExpandQueue | core/modules/aho_corasick.cc:76-106 | taking a state off the queue and queueing the targets of its row in letter order keeps the queue breadth first, and every child of the state joins it |
| AhoCorasick.AllSeen | core/modules/aho_corasick.cc:76-107 | once the queue is empty every state has had its parent taken off it, so the walk has reached every state |
| AhoCorasick.Machine.BuildMatchingMachine | core/modules/aho_corasick.cc:26-110 | for at most 31 lower-case keywords of total length at most `MAX_STATES`, the machine is built. The trie is completed at the root. Every failure link goes to the deepest state whose string is a proper suffix of the state's own. Every state outputs each non-empty keyword its string ends with and, below depth 1, every output of its failure target. The state count returned is one per distinct non-empty keyword prefix plus the root |
| AhoCorasick.Machine.Reset | core/modules/aho_corasick.cc:27-32 | the tables are cleared: no edges, no outputs, the bare root |
| AhoCorasick.Machine.BuildTrie | core/modules/aho_corasick.cc:36-52 | the trie holds one state per distinct prefix of the keywords, and each keyword is output at the state that stands for it |
| AhoCorasick.Machine.Walk | core/modules/aho_corasick.cc:39-50 | walking a keyword down the trie adds exactly its missing prefixes, at most one state per letter, and ends at the state of the keyword |
| AhoCorasick.Machine.NewState | core/modules/aho_corasick.cc:45-47 | a missing edge gets a new state, numbered by the state count, whose string is the parent's string followed by the letter |
| AhoCorasick.Machine.Injective | core/modules/aho_corasick.cc:45-49 | distinct states stand for distinct strings |
| AhoCorasick.Machine.CompleteRoot | core/modules/aho_corasick.cc:57-61 | every letter has an edge from the root, back to the root when the trie has none |
| AhoCorasick.Machine.BuildFailure | core/modules/aho_corasick.cc:64-107 | every state but the root gets its failure link, to the deepest state whose string is a proper suffix of its own. Its outputs then hold every non-empty keyword its string ends with and, below depth 1, every output of its failure target |
| AhoCorasick.Machine.SeedQueue | core/modules/aho_corasick.cc:67-73 | the states of depth 1 get failure links to the root and are queued in letter order, a breadth-first start |
| AhoCorasick.Machine.RootQueue | core/modules/aho_corasick.cc:67-73 | the children of the root in letter order are a breadth-first queue holding every state of depth 1 |
| AhoCorasick.Machine.Expand | core/modules/aho_corasick.cc:84-106 | the children of the state taken off the queue get their failure links and outputs and join the queue, keeping the walk breadth first |
| AhoCorasick.Machine.Adopt | core/modules/aho_corasick.cc:87-104 | the child by the letter gets its failure link to the deepest state whose string is a proper suffix of its own, and the outputs of that state. It joins the finished states, and every state finished before stays finished |
| AhoCorasick.Machine.Target | core/modules/aho_corasick.cc:89-98 | the failure target of a child is the deepest state whose string ends the child's string without its first letter, so no deeper than the parent |
| AhoCorasick.Machine.Merge | core/modules/aho_corasick.cc:101 | the child's outputs become the union of its own and those of its failure target, which makes the child finished; no other state's outputs change |
| AhoCorasick.Machine.FailureChain | core/modules/aho_corasick.cc:89-95 | following the failure links stops at a state with an edge by the letter, whose string is a proper suffix of the state's. That edge leads to the deepest state ending the state's string without its first letter, followed by the letter |
| AhoCorasick.Machine.DeltaSuffix | core/modules/aho_corasick.cc:121-127 | the move on a letter reaches a state whose string ends the current string followed by that letter |
| AhoCorasick.Machine.FindNextState | core/modules/aho_corasick.cc:117-128 | `FindNextState()` returns the goto edge of the deepest state of the failure chain that has one, a state of the machine |
| AhoCorasick.Machine.RunSuffix | core/modules/aho_corasick.cc:141-142 | after any prefix of the text the machine is at a state whose string ends that prefix |
| AhoCorasick.Machine.SearchWords | core/modules/aho_corasick.cc:132-158 | the result records each text position once per keyword j < k output by the state reached after that position |
| AhoCorasick.Machine.Advance | core/modules/aho_corasick.cc:142-154 | one letter: the move of the machine and the positions recorded at the state reached |
| AhoCorasick.Machine.ReportedEnds | core/modules/aho_corasick.cc:141-154 | every keyword reported at a position ends there in the text |
| AhoCorasick.Machine.DeltaDeepest | core/modules/aho_corasick.cc:117-128 | from a state whose failure chain holds the deepest suffix state of a string, the move on a letter reaches the deepest state ending that string followed by the letter |
| AhoCorasick.Machine.RunDeepest | core/modules/aho_corasick.cc:141-142 | after any prefix of the text the machine is at the deepest state whose string ends that prefix |
| AhoCorasick.Machine.ReportedAll | core/modules/aho_corasick.cc:141-154 | every non-empty keyword that ends at a position of the text is output by the state reached after that position |
| AhoCorasick.Machine.SearchReports | core/modules/aho_corasick.cc:141-154 | after each position the state reached outputs a non-empty keyword exactly when that keyword ends there |
| AhoCorasick.Machine.SearchFinds | core/modules/aho_corasick.cc:132-158 | `SearchWords()` records each position once per keyword j < k output there, and among the non-empty keywords these are exactly the ones ending at that position |
| AhoCorasick.Machine.BuiltReports | core/modules/aho_corasick.cc:87-104 | in a built machine every state reports only keywords its string ends with |
| AhoCorasick.RecordedSorted | core/modules/aho_corasick.cc:141-155 | the positions recorded are in text order and inside the text |
| AhoCorasick.RecordedCounts | core/modules/aho_corasick.cc:141-155 | each position is recorded exactly as many times as the state reached there outputs keywords below k |
| Measure.MinElement | core/modules/measure.cc:263 | the value `std::min_element` points to is an element of the list and no larger than any |
| Measure.MaxElement | core/modules/measure.cc:264 | the value `std::max_element` points to is an element of the list and no smaller than any |
| Measure.AdjacentSortedPairs | core/modules/measure.cc:262 | `std::is_sorted`, which compares neighbours, holds exactly when every pair of the list is in order |
| Measure.ValidPercentilesIff | core/modules/measure.cc:257-265 | the validator accepts exactly the lists of percentages from 0 to 100 in non-decreasing order, the empty list included |
| Measure.PercentileError | core/modules/measure.cc:279-285 | a summary command fails exactly when a percentile list is refused, with the latency list checked first and each failure's own message |
| Measure.Bits | core/modules/measure.cc:289 | the `bits` field is bytes plus 24 bytes of framing per packet, in bits, modulo 2^64 |
| Measure.BucketsCover | core/modules/measure.cc:114-117 | the bucket count is the fewest buckets of the resolution that cover the maximum latency |
| Measure.RaiseTo | core/modules/measure.cc:100-102 | the reporting core's delay entry is raised to the delay carried if that is larger; every other entry stays |
| Measure.RaiseToTwice | core/modules/measure.cc:100-102 | reporting the same delay twice is reporting it once |
| Measure.Inc16 | core/modules/measure.cc:80-82 | the pause counter stays a 16-bit signed value |
| Measure.Dec16 | core/modules/measure.cc:83-85 | the pause counter stays a 16-bit signed value |
| Measure.PauseRoundTrip | core/modules/measure.cc:80-85 | unpausing undoes a pause and pausing undoes an unpause, wrap-around included |
| Measure.Measure.PauseUpdates | core/modules/measure.cc:80-82 | the pause counter is incremented, wrapping at 16 bits; nothing else changes |
| Measure.Measure.UnpauseUpdates | core/modules/measure.cc:83-85 | the pause counter is decremented, wrapping at 16 bits; nothing else changes |
| Measure.Measure.IsCoreInfo | core/modules/measure.cc:87-103 | outside the Quadrant experiment or while updates are paused nothing changes; otherwise the reporting core's largest batch delay is raised to the delay its packet carries |
| Measure.Measure.Init | core/modules/measure.cc:105-157 | zero arguments take the defaults; the latency histograms get the fewest buckets that cover the maximum, the queue histogram 1024 buckets of 1 ns, and pausing is reset; more buckets than half a histogram holds fail with `E2BIG`, changing nothing |
| Measure.Measure.Clear | core/modules/measure.cc:240-255 | the packet and byte counters restart and the histograms keep their shape |
| Measure.Measure.GetSummary | core/modules/measure.cc:267-304 | an invalid percentile list, latency first, fails and changes nothing; otherwise the summary reports the packet count and the bits, and restarts the counters exactly when asked to |
| Measure.Measure.GetQueueSummary | core/modules/measure.cc:306-334 | the same over the latency list alone, with the queue histogram |

## Left out

- Plotting, printing, file output, command-line drivers and the experiment orchestration scripts: these are I/O with no algorithmic content. `get_short_term_profile` writing `short_profile.txt` is part of this.
- Reading log files is left out. The readers take the file's lines as a sequence of strings.
- Python `float()` is modelled as a decimal parser: optional sign, digits, optional fraction, surrounding whitespace. Exponents, `inf` and `nan` are not accepted, so such inputs are a `ValueError` in the model.
- Util.IsSpace: only the ASCII whitespace of Python's `str.isspace` is modelled, so `strip()` and `split()` keep non-ASCII spaces such as U+0085 and U+00A0. The logs parsed are taken to be ASCII.
- Floating-point rounding is not modelled. Python floats are Dafny `real`s, and `int()` on them truncates toward zero.
- The iteration order of Python dictionaries and C++ hash maps (`unordered_map`, the flow and statistics caches) is modelled as the order of a sequence supplied with the map.
- DPDK and NIC calls are modelled as parameters, because they are foreign code. For `rte_flow_validate`, `rte_flow_create`, `AddFlowRedirectRule` and `rte_eth_dev_rss_reta_update`, their success or failure is a `bool` argument. The model records which rules are destroyed and installed.
- Ironside.Ingress.constructor: requires at least one endpoint. `Init` accepts an empty endpoint list (core/modules/ironside_ingress.cc:26-37), but the first packet of a new flow then counts at `pkt_cnts_[0]` (core/modules/ironside_ingress.cc:184), with worker 0 the initial endpoint, which is out of range.
- PmdRss.Port.UpdateRssRetaShards: requires `total_shards > 0`. With `total_shards == 0` the stride loop `reta_id += total_shards` (core/drivers/pmd_rss.cc:91) never ends once a moved shard is below `reta_size_`, so there is no final state to model.
- PmdRss.Port.UpdateRssFlowShards: requires `total_shards > 0` for the same reason: its stride loop (core/drivers/pmd_rss.cc:208) never ends for `total_shards == 0` once a moved shard is below `reta_size_`. It also requires `reta_size_ + total_shards <= 65536`, as `UpdateRssRetaShards` does, which excludes the `uint16_t` wrap-around of `reta_id`.
- PmdRss.Port.UpdateRssRetaShards: requires `reta_size_ + total_shards <= 65536`, which excludes the `uint16_t` wrap-around of `reta_id`: past 65535 the index would wrap back below `reta_size_` and the loop would rewrite buckets again.
- Clocks (`rdtsc`, `ctx->current_ns`, `get_epoch_time`) become a clock-value parameter. The random port draw of the UDP proxy is a sequence of draws given per range.
- Locks, atomics and the concurrent readers of shared tables are left out: the model is sequential. `lock_shared`, `mcs_lock` and `map_lock_` are not modelled.
- `DEFAULT_INVALID_CORE_ID` is a parameter of the controller model, and so are the `Measure` defaults (`kDefaultMaxNs`, `kDefaultNsPerBucket`, the histogram capacity). Their definitions are not part of this model.
- `QLenAfterAssignment` is not part of this model. The short-epoch step takes it as the `qlen` parameter, and a queue's ring occupancy as the `backlog` parameter.
- `core/modules/nfv_core.cc`, the other short-epoch variant with a different idle rule, is not part of this model.
- NfvCtrl.SwQueuePool.RequestNSwQ: returns the list of claimed queues, not the `uint64_t` bitmask. The source builds the mask with `bitmask |= 1 << i`, an `int` shift that is undefined for i >= 31, and 64 bits cannot hold 200 queues. The caller's `bitmask > 0` test (core/modules/nfv_ctrl.cc:66-69) stands for a non-empty list. The model does not say which mask value the source returns.
- NfvCtrlLong.OnDemand: requires at least one NFV core. With none, the source indexes `core_state` with the invalid core id, which is undefined behaviour.
- NfvCtrlLong.LongTermController.OnDemandLongTermOptimization: like the source, it does not recompute `active_core_count_`. The model states exactly the count the source leaves.
- `NFVCtrl::longTermOptimization` and `UpdateFlowAssignment` in `core/modules/nfv_ctrl.cc` are not part of this model. The long-term allocator modelled is the one of `core/modules/nfv_ctrl_long.cc`.
- Measure: `ProcessBatch` is left out. It needs the clock, the random sampling of jitter and the packets' metadata attributes. The histogram contents and `Summarize` are left out too: the summaries report the packet and bit counts only. NaN percentiles are not modelled.
- Packet headers are records: addresses, ports, protocol, TCP flag. Checksum updates, MAC rewriting and header casts are left out.
- AhoCorasick.Machine.SearchWords: exactness is proved for non-empty keywords only. An empty keyword ends at every position, but the source reports it only where the state reached holds it. The model proves that every keyword reported ends at its position, and not where an empty keyword is reported.
- AhoCorasick.Machine.BuildFailure: the outputs are characterised exactly for non-empty keywords only. The states of depth 1 are not merged with the root (core/modules/aho_corasick.cc:67-72), so an empty keyword, output at the root, reaches only some other states.
- AhoCorasick: output masks are modelled as sets of keyword indices, with the 31-keyword limit of an `int` bit mask as a precondition. The BFS queue is a sequence. The spare letter column 26 of the goto table is kept and never holds an edge.
- Metron and Quadrant verdicts: a verdict carries the worker, the core tag (`tcp->reserved`) and the TCP ports. With `rewrite_` set, both ports become the destination port ORed with the port mask, as the source does. The MAC and IP rewriting and the checksums are left out.

## Findings

| source | as written | input that shows it | evidently intended | confidence | as-written member | corrected member |
|---|---|---|---|---|---|---|
| core/modules/nfv_ctrl.cc:87-99 | `cnt` is never incremented, so `cnt == n` holds only for n = 0: every free queue is claimed for n > 0, and queue 0 alone for n = 0 | 200 free queues, n = 1: all 200 queues are claimed | claim at most n queues, the lowest free ones | not executed | NfvCtrl.RequestNOverclaims | NfvCtrl.RequestNCappedBound |
| core/modules/nfv_ctrl_long.cc:293-304 | undoing a failed reclaim trial pops the moved shards and restores the rates, but leaves the cores `FindMoves` activated in use, and `active_core_count_` raised | three normal cores under the empty profile; cores 0 and 1 in use with one shard each, core 2 idle; core 1's shard fits only on core 2; afterwards core 2 is active with no shards and three cores are counted | a failed trial restores the whole state, activations included | not executed | NfvCtrlLong.ReclaimLeavesIdleCoreActive | NfvCtrlLong.ReclaimCorrectedNoNewCore |
| core/drivers/pmd_rss.cc:95 | the configuration entry written is indexed by `shard % RTE_RETA_GROUP_SIZE`, not by `reta_id % RTE_RETA_GROUP_SIZE` | table [0, 0, 0, 0], shard 1 of 2 moved to core 5: buckets 1 and 3 change, both writes land in entry 1, and the NIC is told that bucket 3 still maps to core 0 | the configuration mirrors the table | not executed | PmdRss.ShardConfAsWrittenDesyncs | PmdRss.ShardsConfSynced |
| core/drivers/pmd_rss.cc:161-167 | when `rte_flow_create` fails, the destroyed rule stays in its slot, so the next update destroys it again | two updates in a row whose creation fails for group 1: the same rule is destroyed twice | clear the slot once its rule is destroyed | not executed | PmdRss.FlowUpdateAsWrittenDestroysTwice | PmdRss.FlowUpdateKeepsRules |
| core/modules/metron_ingress.cc:172-185 | an overloaded aggregate of one flow id is erased before the `new_length == 0` test and is not re-added | a flagged core whose aggregate holds one flow id: that flow id ends up in no aggregate | leave such an aggregate in place | not executed | Metron.SplitAsWrittenDropsUnitAggregate | Metron.SplitCoreKeepsCovers |
| core/modules/metron_ingress.cc:188-199 | `GetFreeCore()` returning 255 is not tested; core 255 is put in use and receives half the aggregate | every core in use and one core flagged: the upper half of its aggregate is sent to core 255 | skip the split when no core is free | not executed | Metron.SplitAsWrittenWithoutFreeCore | Metron.SplitCoreKeepsCovers |
| core/modules/metron_ingress.cc:350 | the per-core packet counter is indexed by `dst_core`, the core number inside a worker, not by the cluster-wide core id | any batch routed to core 12 .. 35: their counters never grow, so those cores are never flagged | count by `encode` | not executed | Metron.TallyAsWrittenMissesUpperCores | Metron.TallyCountsRouted |
| core/modules/ironside_ingress.cc:79 | `i == 0 \|\|` takes worker 0 whatever its key; when worker 0 is not eligible, a later worker must beat the initial best, so in max-rate mode an idle worker never can | mode 3, worker 0 with 20 cores, worker 1 with 1 core and rate 0: no endpoint, and new flows are dropped | take the first eligible worker whatever its key | not executed | Ironside.AsWrittenIgnoresIdleWorker | Ironside.ScanIsBest |
| core/modules/invisv_udp_proxy.cc:184 | the next-hop port is set from `proxy_port`, not from `next_hop_proxy_port` | proxy on port 1000, next hop on port 2000: the next hop is taken to listen on port 1000 | use the next hop's own port | not executed | UdpProxy.InitAsWrittenIgnoresNextHopPort | UdpProxy.InitSpec |
| core/modules/invisv_udp_proxy.cc:344-360 | a probe of the proxy's own port that has no mapping falls into the else branch and dereferences the null reverse entry | default range, proxy on port 5000, empty table, client on port 40000 whose draw starts the probe at 5000 | treat the proxy's own port as busy | not executed | UdpProxy.AsWrittenDerefsNull | UdpProxy.ChooseSound |
