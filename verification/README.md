# Loud ML, the deterministic machinery

Loud ML finds anomalies in time series. Its neural network is foreign code; around it lies
machinery with state, loops and arithmetic of its own. This project models that machinery and
proves what it promises. Where the code does something else than one would expect, the model
follows the code, and the exact condition is proved.

| module | what it models |
|---|---|
| `AnomalyDetection` | the anomaly hysteresis machine, with its hooks |
| `DateRanges`, `MemBuckets`, `AbnormalMask`, `Windows`, `Predictions` | the data pipeline: aligned ranges, time buckets, the training mask, sliding windows, prediction, rolling forecast |
| `EndToEnd` | detection on what the pipeline delivers |
| `CheckpointNames`, `CheckpointStore` | the checkpoint files of a model, with crashes |
| `Jobs`, `JobServer` | the job protocol: as a transition system, and as objects updated in place |
| `Expressions`, `FeatureRequests` | the parenthesis parser and the feature requests parsed with it |
| `WriteBuffer` | the write buffers of `Bucket` and `MongoBucket` |
| `Prelude`, `Rounding` | shared datatypes, rounding by a step |

How to read it. Code that computes is a function, code that changes things is a class or a method
with its loops. Each method is proved to do what a function on values says (`DetectAnomalies` and
`StateAfter`, `GetTimesBuckets` and `BucketAt`, `FileStorage` and `After`, `Server` and `Step`),
and the laws are lemmas about those functions: invariants over every run, independent descriptions
that hold of the computed result and of nothing else, round trips, conservation.

What the network computes is a function parameter nothing is assumed about, and so is the noise of
the forecast. What the normal distribution gives for a bucket is one too; `ScoreIsBounded` and the
module `EndToEnd` make scores of it. Clocks, failures of databases, hooks that raise, crashes and
the workers are adversaries: parameters or steps that can be anything. Floating-point numbers are
reals; timestamps and intervals of the pipeline are whole numbers of the smallest unit of time (a
`datetime` has microseconds).

## Findings

Points where the code does less, or other, than its names and documentation suggest.

- A bucket without an observed value gets the highest score, 100, since `min` and `max` drop a NaN
  (`AnomalyDetection.ScoreIsBounded`).
- A hook that raises in `on_anomaly_end` aborts the detection with the anomaly still open, and
  nothing else does (`AnomalyDetection.DonutModel.DetectAnomalies`). When that model goes on with
  later buckets, hooks are told the end once more, also those that had been told
  (`AnomalyDetection.EndIsToldAgain`).
- The recorded score of an anomaly leaves out buckets in the grace period of the preceding end. It is
  the highest exactly when none of those beats all the others
  (`AnomalyDetection.RecordedScoreIsPeakIff`). Within one detection none falls there; in a second
  detection by the same model, over an earlier range, one can
  (`AnomalyDetection.SecondDetectionLosesThePeak`).
- A missing observation is an anomaly of type high, also for a feature that looks for low values
  (`EndToEnd.MissingObservationIsAnomalous`).
- The value to predict is flagged as missing but shown to the network, in `predict` for every
  bucket and in `forecast` for the first (`Predictions.ObservedValueIsShown`).
- A reversed date range is accepted when it is reversed by less than the alignment adds
  (`DateRanges.RejectedRanges`).
- A `from_date` of zero counts as none (`MemBuckets.BucketsCoverRange`).
- The average of a bucket divides by the entries, also those without the field; if none has it the
  average is an observed zero instead of a missing value (`MemBuckets.AverageIsMean`).
- An abnormal period inside one bucket marks nothing (`AbnormalMask.OverlappedButUnmarked`).
- String order of checkpoint names is numeric order only below 100
  (`CheckpointNames.StringSortIsNumericSort`).
- A save overwrites a checkpoint exactly when the one touched last does not have the largest number
  (`CheckpointStore.SaveOverwrites`, `CheckpointStore.RunOverwrites`). A restore leads there, and so
  does, without one, a crash during a save followed by an update in place
  (`CheckpointStore.CrashThenUpdateOverwrites`).
- A message delivered after a job was canceled puts the job back to running, for good
  (`Jobs.CanceledUntilDelivery`, `Jobs.CanceledCanComeBack`, `Jobs.ResurrectedNeverStops`); it stays
  canceled for sure exactly when no message is queued and its worker can send none
  (`Jobs.CanceledForeverIffQuiet`).
- In a feature request a second call is accepted: it replaces the argument of the first, and its
  name is ignored (`FeatureRequests.AcceptedFeatures`, `FeatureRequests.SecondCallReplacesArgument`).
- A buffer left alone for whole days does not commit by time (`WriteBuffer.CommitByTime`).
- The buffer of `MongoBucket` is safe against failing commits exactly as long as one collection at
  most has requests pending (`WriteBuffer.ConservedIffOneCollection`). `insert_data` uses a single
  one, so nothing is doubled (`WriteBuffer.OneCollectionConserves`); a caller of `enqueue` with
  several would have what was sent before a failure delivered twice.

## Model

| member | source | states |
|---|---|---|
| AnomalyDetection.ScoreIsBounded | loudml/donut.py:899-925 | whatever the distribution returns, a score is a number in [0, 100]; a missing observation scores 100; otherwise the score counts only deviations in the direction the feature asks for |
| AnomalyDetection.SplitRun | loudml/donut.py:1477-1578 | splitting is invisible: one run over a + b gives the state, hook events, statistics and (shifted) anomaly indices of a run over a followed by a run over b from the state left behind |
| AnomalyDetection.NeverOpenInGrace | loudml/donut.py:1487-1568 | no run in time order has an anomaly open during a grace period, at any later time |
| AnomalyDetection.TraceIsExact | loudml/donut.py:1487-1568 | in time order the positions at which hooks are called are exactly those of the episode rule (first score at the upper threshold a grace period after the preceding end, first score below both thresholds after the start), and no other list of positions obeys the rule |
| AnomalyDetection.EventsAreFired | loudml/donut.py:1516-1568 | the events a hook gets are those of the fired positions, ends exactly when an anomaly is open, each with the time, score and direction of its bucket |
| AnomalyDetection.StateMatchesEvents | loudml/donut.py:1490-1568 | the stored state says how many events there were: open or not, start time of the open anomaly, time of the last end |
| AnomalyDetection.HookEventsInOrder | loudml/donut.py:1516-1568 | for every hook starts and ends alternate, a start reaches the upper threshold and comes at least the grace period after the preceding end, an end is below both thresholds |
| AnomalyDetection.StatsDescribeBuckets | loudml/donut.py:1504-1578 | each statistic has its bucket's error and score and is anomalous exactly when the score reaches the upper threshold and the bucket is in an episode or out of the grace period; the anomaly indices list those buckets |
| AnomalyDetection.IndicesAreFlagged | loudml/donut.py:1512-1514 | anomaly_indices is strictly increasing and contains exactly the positions whose statistic says anomaly |
| AnomalyDetection.RecordedScoreIsPeak | loudml/donut.py:1487-1568 | the score recorded with an open anomaly is the maximum of all scores since its start, although only flagged buckets update it |
| AnomalyDetection.RecordedScoreIsPeakIff | loudml/donut.py:1487-1568 | in any run, whatever the order of its buckets, the recorded score is the maximum since the start if and only if no bucket from inside the grace period of the preceding end beats all those outside; so it is if none falls inside |
| AnomalyDetection.SecondDetectionLosesThePeak | loudml/donut.py:1487-1568 | two detections of a new model, each in time order, after which the recorded score is not the maximum: the second one has a bucket in the grace period of an end seen by the first |
| AnomalyDetection.EndIsToldAgain | loudml/donut.py:1552-1562 | an anomaly left open by a raising hook: going on with later buckets, hooks are told something if and only if some bucket is below both thresholds, and first of all the end, at the first such bucket |
| AnomalyDetection.DonutModel.DetectBucket | loudml/donut.py:1487-1575 | one bucket changes the state, the statistics and every hook as the machine says, unless an anomaly ends there and some hook raises: then the state stays, and the hooks up to the raising one have been told |
| AnomalyDetection.DonutModel.DetectAnomalies | loudml/donut.py:1477-1578 | the method aborts exactly at the first bucket at which an anomaly ends and some hook raises; if there is none, final state, statistics, indices and each hook's events are those of the run; otherwise those of the run up to that bucket, with the anomaly open, the prediction untouched, and the end told to the hooks up to the raising one |
| DateRanges.SmallestAlignedCover | loudml/misc.py:223-238 | the range built for a request is aligned, covers it, and lies within every other aligned range that does; a request in order is always accepted |
| DateRanges.RejectedRanges | loudml/misc.py:214-238 | a range is rejected if and only if its end is a whole interval or more before the aligned beginning |
| MemBuckets.InsertsSort | loudml/membucket.py:120-124 | after any inserts the list is sorted and keeps, for each timestamp, the order of insertion |
| MemBuckets.StableSortIsUnique | loudml/membucket.py:120-124 | there is only one such list |
| MemBuckets.MemBucket.InsertTimesData | loudml/membucket.py:120-124 | inserting keeps the list the stable sort of everything inserted |
| MemBuckets.MemBucket.GetTimesBuckets | loudml/membucket.py:187-216 | the single-cursor scan terminates with ceil((to - from) / interval) buckets, the k-th keyed from + k * interval and holding exactly the entries of its interval in order |
| MemBuckets.BucketsPartition | loudml/membucket.py:187-216 | the buckets joined together are the entries from the beginning to the end of the last bucket, in order, each once |
| MemBuckets.BucketIsStretch | loudml/membucket.py:187-216 | bucket k is the stretch of the sorted entries whose times lie in its interval, all of them and no others, in order |
| MemBuckets.BucketsCoverRange | loudml/membucket.py:194-199 | when the interval divides the range the buckets hold exactly its entries, if and only if the beginning is not zero or nothing was inserted with a negative timestamp |
| MemBuckets.AverageIsMean | loudml/membucket.py:165-178 | the average of a bucket is the mean of the field's values, or missing when there are none, if and only if every entry has the field or there are values and they add up to zero |
| MemBuckets.MinimumIsLeast | loudml/membucket.py:132-147 | the minimum of a bucket is v if and only if v is the field of some entry that has it and at most that of every such entry |
| MemBuckets.MaximumIsGreatest | loudml/membucket.py:149-163 | the maximum likewise, with at least |
| MemBuckets.CountIsEntries | loudml/membucket.py:180-185 | the count is the number of entries that have the field |
| MemBuckets.AverageIsSumOverEntries | loudml/membucket.py:165-178 | the average is v if and only if v times the number of entries is the sum of the field |
| MemBuckets.SumOfEntries | loudml/membucket.py:174-175 | that sum is zero for no entry, the field of a single entry or zero if it lacks it, and additive |
| MemBuckets.WhenNoNumber | loudml/membucket.py:217-238 | exactly when an aggregate is missing, when minimum or maximum fail, and when the metric is unknown |
| MemBuckets.RowOfQuery | loudml/membucket.py:240-287 | row k is k intervals after the first, has the time of its bucket, and the aggregates over the stretch of its entries |
| MemBuckets.MemBucket.GetTimesData | loudml/membucket.py:240-287 | a query yields one row per bucket with the offset from the first, one aggregate per feature and the bucket's time, or the error of a feature that cannot be computed on some bucket; it succeeds only if every feature can be computed on every bucket |
| AbnormalMask.FormatWindows | loudml/donut.py:170-178 | the mask written slice by slice marks bucket k if and only if some period [f, t] has f < from + (k + 1) * interval <= t |
| AbnormalMask.SliceIsMarks | loudml/donut.py:166-176 | the clamped slice of indices truncated towards zero covers exactly the buckets a period marks |
| AbnormalMask.MaskIsUnion | loudml/donut.py:170-178 | the mask is the disjunction of the masks of the single periods and does not depend on their order or repetition |
| AbnormalMask.OverlappedButUnmarked | loudml/donut.py:166-178 | so a bucket stays unmarked exactly when every period that overlaps it ends before the bucket does; a period inside one bucket marks none |
| Windows.ApplyDefaults | loudml/donut.py:597-610 | filling in place gives each missing cell the last number before it, the default, or leaves it |
| Windows.PreviousIsLastNumber | loudml/donut.py:602-608 | with the previous value as default a missing cell gets the last number before it |
| Windows.StillMissing | loudml/donut.py:597-610 | a cell stays missing exactly when there is no default, or the default is the previous value and there is no number up to it |
| Windows.FilledWith | loudml/donut.py:597-610 | a number stays; a missing cell gets the configured number, or what the cell before it got, or stays missing, as the default says |
| Windows.DefaultsAreIdempotent | loudml/donut.py:1255-1306 | filling again, the whole or only a tail as predict does, changes nothing |
| Windows.FormatDataset | loudml/donut.py:945-987 | the windows kept come in order, and each cell and flag is the source's, zero and true where missing or abnormal |
| Windows.AllStarts | loudml/donut.py:969-987 | when missing values are accepted there are max(0, n - W + 1) windows, one for each start |
| Windows.StrictStarts | loudml/donut.py:969-987 | otherwise exactly the windows without a NaN are kept, in order |
| Windows.WindowsAreCoherent | loudml/donut.py:969-987 | so in a formatted dataset a cell is flagged if and only if the source is missing or abnormal there; flagged cells are zero, the others the source; windows agree where they overlap, and none has a NaN |
| Windows.TrainTestSplit | loudml/donut.py:989-997 | for any train size the training windows are all those before the cut and the test windows all those after it, so they share no cell |
| Windows.CutIsNearest | loudml/donut.py:993-993 | for a train size in [0, 1] the cut is the whole number nearest to that share of the dataset, the even one of two |
| Predictions.FillDataset | loudml/donut.py:1238-1249 | the rows of the history query fill exactly the cells allocated, each with its bucket's value, and all their times lie in the range |
| Predictions.LoadHistory | loudml/donut.py:1215-1261 | the history has one filled value and one timestamp per bucket from W - 1 buckets before the range; there is no data only for an empty range and W = 1 |
| Predictions.Reconstruct | loudml/donut.py:1273-1280 | the batched rounds fill the missing cells of each window as it would be filled alone |
| Predictions.McmcKeepsPresent | loudml/donut.py:1273-1280 | the rounds change missing cells only |
| Predictions.Predict | loudml/donut.py:1187-1314 | timestamps, observed and predicted have one entry per bucket of the aligned range; entry i is bucket i's time, its filled value, and the unscaled last cell of ten rounds in which the network's answer replaces the missing cells of the scaled window which that bucket ends; it fails exactly when `FailsWith` has a failure, with that one |
| Predictions.FailureIsUnique | loudml/donut.py:1238-1268 | a prediction or forecast can fail in one way at most, so the failure is determined by the request and the data |
| Predictions.WhyItFails | loudml/donut.py:1199-1262 | each failure in terms of the request and the rows of the query: rejected range, no row, fewer rows than a window has cells, a feature that cannot be computed |
| Predictions.CellOfHistory | loudml/donut.py:1207-1255 | a cell of the history is the aggregate of the bucket at its time if that is a number, and the default otherwise |
| Predictions.ObservedIsOfItsBucket | loudml/donut.py:1298-1306 | the observed value at position i is the aggregate of the bucket that starts at timestamp i |
| Predictions.PredictedIsAnswer | loudml/donut.py:1264-1296 | the predicted value is what the network answers over ten rounds, cell by cell |
| Predictions.ConstantPrediction | loudml/donut.py:1264-1296 | a network that always answers c predicts the unscaled c, whatever was observed |
| Predictions.StepInPlace | loudml/donut.py:1412-1445 | one step in place fills the last cell by the network, applies the noise and records the last cell |
| Predictions.ForecastLoop | loudml/donut.py:1412-1449 | the loop with the rolled buffer records, at every step, the last cell of the window its specification rolls to |
| Predictions.LoopIsRecurrence | loudml/donut.py:1412-1449 | without noise forecast j is computed from the last W - 1 values of the history followed by the forecasts before it, and nothing else but, at j = 0, the value of the first bucket |
| Predictions.ForecastIsAnswer | loudml/donut.py:1412-1452 | the forecasts are what the network answers along the rolling window, cell by cell, with the noise as a factor |
| Predictions.ConstantForecast | loudml/donut.py:1412-1452 | without noise a network that always answers c forecasts the unscaled c |
| Predictions.NoLookAhead | loudml/donut.py:1395-1453 | datasets with the same entries up to the end of the first bucket of the range get the same forecast, whatever the noise |
| Predictions.ObservedValueIsShown | loudml/donut.py:1264-1287 | an identity network predicts every observed value, and forecasts the first: the cell to predict is not cleared |
| Predictions.Forecast | loudml/donut.py:1333-1475 | timestamps, observed and predicted have one entry per bucket of the aligned range; the forecasts are the unscaled last cells of a window that starts as the history's, gets ten rounds of the network's answer in its last cell, then the noise, and moves on by one cell; it fails exactly when `FailsWith` has a failure, with that one |
| Predictions.ScaleRoundTrip | loudml/donut.py:181-188 | unscaling undoes scaling |
| Predictions.TrainingSetMatchesMask | loudml/donut.py:1029-1067 | a training query fits into what is allocated, and has as many rows as the mask has cells |
| EndToEnd.ScoreOfObservation | loudml/donut.py:899-943 | the scored bucket of an observation o, a prediction q and the p of the distribution: score 100 * p if the deviation is on a side the feature looks for, else zero; below if and only if o < q; error the square of o - q |
| EndToEnd.ErrorOfMissing | loudml/donut.py:899-943 | without an observation or a prediction there is no error, and the bucket is not below |
| EndToEnd.ScoreAndDirection | loudml/donut.py:899-943 | the scored bucket of a prediction: a positive score means a deviation in the direction the feature looks for, unless the distribution gave no number; a missing observation scores 100 and counts as high |
| EndToEnd.DetectionOnPrediction | loudml/worker.py:227-258 | on any prediction, scored, the episodes are exact, the recorded score is the highest, and no anomaly is open in a grace period afterwards |
| EndToEnd.StartsHaveTheDirection | loudml/donut.py:1505-1549 | every start a hook is told is at a bucket of the prediction, reaches the upper threshold, and has the direction the feature looks for, unless the distribution gave no number there |
| EndToEnd.MissingObservationIsAnomalous | loudml/donut.py:899-920 | a bucket without an observation is anomalous exactly when it is in an episode or out of the grace period, and then of type high |
| CheckpointNames.NameRoundTrip | loudml/filestorage.py:57-69 | a printed checkpoint name reads back as its number, no two numbers share a name, and two digits are enough exactly below 100 |
| CheckpointNames.SameLengthOrder | loudml/filestorage.py:343-347 | names of the same length compare as strings as their numbers do |
| CheckpointNames.StringSortIsNumericSort | loudml/filestorage.py:343-347 | the string sort of checkpoints 0..m is the numeric one if and only if m is below 100 |
| CheckpointStore.EventIsSound | loudml/filestorage.py:103-110 | cut short after any file-system call, an operation leaves the directory sound and every JSON file with its old content or the complete new one |
| CheckpointStore.RunIsSound | loudml/filestorage.py:103-236 | in every run of operations with crashes anywhere the checkpoint numbers are contiguous from 0, the link is absent or names an existing checkpoint, and all files are complete |
| CheckpointStore.RunIsTidy | loudml/filestorage.py:125-236 | in every run without crashes, restores included, the current checkpoint is the one touched last |
| CheckpointStore.SaveThenLoad | loudml/filestorage.py:147-163 | without crashes a save writes the number after the current one, makes it current, leaves all others as they are, and loading gives back what was saved |
| CheckpointStore.CreateWritesSettings | loudml/filestorage.py:173-180 | creating a model that is not there succeeds, its settings load back, and nothing else changes; one that is there is refused and unchanged |
| CheckpointStore.ConfigureWritesSettings | loudml/filestorage.py:147-163 | saving without the state writes the settings and leaves checkpoints and link alone |
| CheckpointStore.InPlaceWritesBoth | loudml/filestorage.py:147-163 | saving without a new checkpoint writes the settings and replaces the current state alone; without a current one it fails with the settings written |
| CheckpointStore.WhenOthersFail | loudml/filestorage.py:125-145 | exactly when an update and a restore fail, and that they then change nothing |
| CheckpointStore.WritesAreWritten | loudml/filestorage.py:103-163 | after a completed operation its documents are in place and every other file has its old content |
| CheckpointStore.SaveCutShort | loudml/filestorage.py:147-163 | what a save that crashes after k of its ten calls has done, for every k: settings before checkpoint before link, with no current checkpoint after the eighth call |
| CheckpointStore.UpdateReplacesState | loudml/filestorage.py:208-210 | updating in place replaces the current state and nothing else |
| CheckpointStore.RestoreBringsBack | loudml/filestorage.py:212-236 | restoring brings back what that checkpoint held and changes no content |
| CheckpointStore.SaveOverwrites | loudml/filestorage.py:60-69 | in every sound directory, also in what a crash leaves, the next save overwrites a checkpoint if and only if the one with the latest modification time does not have the largest number |
| CheckpointStore.RunOverwrites | loudml/filestorage.py:60-163 | in every run, crashes and restores included, the next save writes the number after the checkpoint touched last, and overwrites one if and only if that does not have the largest number |
| CheckpointStore.NoRestoreNoOverwrite | loudml/filestorage.py:60-163 | in a run without restores and crashes no save overwrites a checkpoint |
| CheckpointStore.RestoreThenSave | loudml/server.py:890-904 | after restoring v the next save makes v + 1 current and changes the content of no other checkpoint |
| CheckpointStore.CrashThenUpdateOverwrites | loudml/filestorage.py:147-223 | after a save that crashed before its checkpoint became current and an update in place, the next save overwrites that checkpoint |
| CheckpointStore.FileStorage.GetNextCkptName | loudml/filestorage.py:60-69 | the next name is one more than the checkpoint modified last |
| CheckpointStore.FileStorage.WriteModelState | loudml/filestorage.py:125-145 | writes the given or the current checkpoint completely, or fails without a change when there is neither |
| CheckpointStore.FileStorage.SaveModel | loudml/filestorage.py:147-206 | makes exactly the file-system calls of its operation, in order, for each setting of its flags |
| CheckpointStore.FileStorage.CreateModel | loudml/filestorage.py:173-180 | refuses an existing directory without touching it, else makes exactly its calls, with the settings loaded back |
| CheckpointStore.FileStorage.SaveState | loudml/filestorage.py:208-210 | makes exactly the calls of an update in place, and fails when nothing is current |
| CheckpointStore.FileStorage.RestoreVersion | loudml/filestorage.py:212-227 | makes exactly the calls of a restore, and fails for an unknown version |
| Jobs.EveryRunIsOk | loudml/server.py:362-387 | in every interleaving a stopped job has its completion time, its future has completed and its callback has run, and its state is what the future says |
| Jobs.StartedIsWaiting | loudml/server.py:331-346 | a job that is started is waiting, registered and created now; nothing else changes |
| Jobs.CancelIsRequested | loudml/server.py:348-360 | in every reachable state a cancel leaves a stopped job alone and makes any other canceling, its future completed, as cancelled unless it had completed before; the callback then makes it canceled |
| Jobs.CallbackFinishes | loudml/server.py:362-387 | the callback stamps a job with the time and the state its future's outcome stands for |
| Jobs.DeliveredIsShown | loudml/server.py:408-425 | reading a message shows its progress and makes the job running, unless it is done, failed or unknown; no other job changes |
| Jobs.WorkersSend | loudml/worker.py:35-86 | the messages of a worker: started without progress, zero evaluations with the requested max_evals, then each evaluation with the one training goes by |
| Jobs.DoneAndFailedAreFinal | loudml/server.py:348-425 | nothing changes a done or failed job any more |
| Jobs.SweepDropsExpired | loudml/server.py:1881-1893 | the sweep drops a job if and only if it is stopped and its time is up, and then its future has completed |
| Jobs.CanceledUntilDelivery | loudml/server.py:408-425 | a canceled job stays canceled if and only if no message for it is delivered while it is registered; until then it does not change, after that it never stops again |
| Jobs.CanceledForeverIffQuiet | loudml/server.py:348-425 | a canceled job that is registered stays as it is in every run from there if and only if no message for it is queued and its worker can send none |
| Jobs.CanceledCanComeBack | loudml/server.py:420-425 | a reachable run in which the worker of a canceled job is gone and a message still queued puts the job back to running |
| Jobs.ResurrectedNeverStops | loudml/server.py:348-425 | a job put back after its callback never stops again and is never swept |
| Jobs.RunKeepsFifo | loudml/worker.py:35-86 | for every job the messages read followed by those queued are those its worker has sent, in order |
| Jobs.ProgressNeverDecreases | loudml/server.py:408-446 | in every run the progress a job shows never goes back |
| Jobs.ShownIsLastRead | loudml/server.py:408-446 | in every run a registered job that is not done or failed shows the last message read for it |
| Jobs.RemainingTimeInRange | loudml/server.py:283-311 | in every run a job shows a remaining time as soon as something was evaluated, between zero and the time elapsed: the share of the time elapsed that is left to evaluate, zero once the announced number is reached |
| JobServer.JobObject.CancelJob | loudml/server.py:348-360 | a stopped job is a conflict and unchanged, any other is canceling and its future completed, as cancelled unless it had completed before |
| JobServer.JobObject.DoneCb | loudml/server.py:362-387 | the callback sets the state the future's outcome says, and the completion time |
| JobServer.Server.StartJob | loudml/server.py:331-346 | a started job is waiting, registered and given a worker; no other job changes |
| JobServer.Server.CancelById | loudml/server.py:396-405 | a cancel request is one step of the protocol; without a conflict the job is canceling and its future completed; an unknown job is reported and nothing changes |
| JobServer.Server.DeliverMessage | loudml/server.py:408-425 | delivering a message is one step of the protocol on the job objects |
| JobServer.Server.ReadMessages | loudml/server.py:428-446 | the loop delivers every queued message, first in first out |
| JobServer.Server.ClearJobs | loudml/server.py:1881-1893 | the two-phase sweep is one step of the protocol |
| Expressions.ParseExpression | loudml/misc.py:334-342 | for every string the stack loop yields level and contents of exactly the matching pairs of parentheses, matching defined by counting; each once, by closing position, with the number of parentheses still open before it as level |
| Expressions.PairsAreMatches | loudml/misc.py:334-342 | the pairs found by the stack machine are exactly the matches, in order, with their levels |
| Expressions.OnlyOneListing | loudml/misc.py:334-342 | that description leaves only one list |
| Expressions.StackIsStillOpen | loudml/misc.py:334-342 | the stack holds exactly the parentheses that no later one has matched |
| FeatureRequests.ParseFeature | loudml/server.py:1182-1198 | the loop over the parenthesized contents parses one feature, with the error of the first content that is wrong |
| FeatureRequests.ParseRequest | loudml/server.py:1181-1207 | the request parses to its features in order, or to the error of the first that does not parse |
| FeatureRequests.RequestMeaning | loudml/server.py:1181-1207 | a request parses if and only if every feature does, to their meanings in order; its error is that of the first that does not |
| FeatureRequests.RequestRoundTrip | loudml/server.py:1181-1207 | printing a nonempty list of features and parsing the request gives the list back |
| FeatureRequests.FeatureRoundTrip | loudml/server.py:1182-1207 | the same for one feature, with or without a measurement |
| FeatureRequests.AcceptedFeatures | loudml/server.py:1182-1207 | a feature is accepted if and only if nothing is nested deeper than one call, no argument has more than one dot, the last call has a name and the last argument a field; these, and the last measurement given, are its meaning |
| FeatureRequests.RejectedFeatures | loudml/server.py:1182-1203 | which error a feature gets: the first content that is nested too deep or has too many dots decides, and otherwise a missing name or field is the client's error |
| FeatureRequests.SecondCallReplacesArgument | loudml/server.py:1182-1207 | of two calls in one feature the first gives the metric and the second the field; what stands between them is ignored |
| FeatureRequests.DeepNestingIsRejected | loudml/server.py:1186-1189 | a feature with a call nested in a call is rejected |
| FeatureRequests.SplitUndoesJoin | loudml/server.py:1182-1182 | splitting a joined list gives back its parts |
| FeatureRequests.JoinUndoesSplit | loudml/server.py:1182-1182 | joining what a string splits into gives it back, and no part contains the separator |
| WriteBuffer.NothingLostNothingDoubled | loudml/bucket.py:110-146 | for every sequence of calls and failures, delivered requests followed by pending ones are the enqueued ones in order |
| WriteBuffer.PendingAfterCall | loudml/bucket.py:116-146 | an enqueue that returns leaves fewer than 1000 pending, and none if it had to commit, a commit none; a call that raises has sent nothing, and raises only if sending failed; the time of the last commit is that of the last call that left nothing pending |
| WriteBuffer.CommitByTime | loudml/bucket.py:125-137 | within a day count time makes a buffer commit if and only if a second has passed beyond the whole days |
| WriteBuffer.Bucket.EnqueueRequest | loudml/bucket.py:139-146 | the method is the enqueue of the buffer, raising exactly when it had to send and could not |
| WriteBuffer.Bucket.CommitPending | loudml/bucket.py:116-123 | commit sends and clears, or raises and keeps everything |
| WriteBuffer.DictRun | loudml/mongo.py:157-167 | in every run the counter that is never reset counts everything enqueued, pending is what was enqueued since the last commit that succeeded, and with all-or-nothing sending the law holds for every collection |
| WriteBuffer.FlushDelivers | loudml/mongo.py:199-204 | a commit that gets through has delivered everything enqueued and leaves nothing pending; otherwise everything stays pending and exactly the collections it got through with are delivered |
| WriteBuffer.ConservedIffOneCollection | loudml/mongo.py:199-204 | a commit keeps the law, whatever fails, if and only if at most one collection has requests pending |
| WriteBuffer.OneCollectionConserves | loudml/mongo.py:157-204 | a bucket used with one collection keeps the law in every run, whatever fails |
| WriteBuffer.EveryRequestSurvives | loudml/mongo.py:157-204 | no request is ever lost, not even by a commit that fails half way |
| WriteBuffer.MongoBucket.Commit | loudml/bucket.py:116-123 | a commit over a dictionary is the flush of the collections whose bulk write succeeded before one failed; it raises if and only if something was ever enqueued and a pending collection fails |
| WriteBuffer.MongoBucket.SendBulk | loudml/mongo.py:199-204 | the loop delivers the collections one by one and stops at the first failure; it succeeds if and only if none of them fails |

## Left out

- The network: training, hyperparameter search, sampling, the normal distribution and the bounds derived from it are foreign numerics; a decoder function and a distribution function stand for them.
- Database clients and their queries: what they mean depends on servers not part of this model.
- HTTP routes, pagination, field filters, schemas (also the validation of a parsed feature's names), configuration and templates: thin wrappers.
- Date strings, time zones and `now`: the model starts from numbers; formatting a row's time to milliseconds and reading it back is taken to lose nothing.
- A span found by training that differs from the configured one after a reload: the model has one span.
- AnomalyDetection.DonutModel.DetectAnomalies: does not pass predicted and observed values on to the hooks, which only repeat the prediction.
- Predictions.LoadHistory: does not model cutting the dataset down to the rows found, which the row count shows never happens with the in-memory bucket.
- MemBuckets.MemBucket.GetTimesBuckets: returns all buckets at once; inserts between two buckets of the lazy generator are not modelled, nor the `insert_data` path of unordered entries.
- CheckpointStore.FileStorage.SaveModel: does not model saving a null state, nor the legacy plain-file state and single-file models, nor `.broken` renames and deleting a model.
- CheckpointStore.RunIsSound: assumes one writer, and a clock that ticks with every call, so that no two files have the same modification time.
- Jobs.RemainingTimeInRange: takes it that the optimiser evaluates nothing when its budget is not positive, so that evaluations are only reported with a positive `max_evals`.
- Jobs.RunKeepsFifo: one queue read in the order of sending; a job not yet started is not part of the system.
- JobServer.JobObject.CancelJob: the future is a field of the job; the pool that runs it, schedules and repeats jobs is the environment.
- WriteBuffer.MongoBucket.SendBulk: takes the bulk write of one collection as all or nothing.
- FeatureRequests.ParseFeature: an unpacking error the server does not catch is an error value of its own.
- Telemetry, packaging, plotting and the command line.
