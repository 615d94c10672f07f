# kofer-monitor change-detection core, in Dafny

This project models the change-detection engine of kofer-monitor, a monitor that watches the deployment configurations of an OpenShift namespace and reports when their image triggers change. Each poll does four things:

1. It fetches the deployment-configuration list.
2. The **extractor** turns each raw item into a snapshot (`DeploymentConfigInfo`). A snapshot holds the name, the latest version and one trigger (`ImageTriggerInfo`) per cause.
3. The **change filter** prunes the triggers that are not image changes. It keeps the snapshots that still have at least one trigger.
4. The **diff step** compares each candidate with the snapshot cached under the same name. It emits the candidate, and overwrites the cache entry, when the name is not cached or the candidate is not `==` to the cached snapshot.

The poll loops wrap these steps:
- The two tracker scripts poll until ten snapshots have been emitted. They print fetch errors and carry on.
- `track()` in `src/app.py` polls forever. It ends at the first fetch error.

Modules:

- `Wrappers`: `Option` and `Result`.
- `Seqs`: order-preserving subsequences.
- `Dao`: the trigger and snapshot values.
  - `Snapshot.Equal` is `__eq__`. `Pruned` is what `prune` leaves.
  - The `DeploymentConfigInfo` class is the object the extractor builds and `prune` rewrites in place.
  - The dictionary form is `to_dict`, with its inverse.
- `RawResource`: the raw nested item as datatypes whose lookups fall back to `None`.
  - It also holds the per-cause trigger conversion and the cause-appending inner loop that both extractors share.
  - It defines the error kinds: the caught fetch exceptions, and the uncaught `AttributeError`s of the extractor.
- `ChangeFilter`: `filter_changes`. It is stated by the function `Candidates`, and the method prunes the objects in place.
- `OpenshiftTracker`: `src/openshift_utils/tracker.py`. Its extractor keeps only the names that start with `mod-`.
- `Tracker`: `src/tracker.py`. Its extractor keeps every item.
- `SnapshotCache`: the diff step.
  - The function `Diff` is the specification.
  - The `Cache` class and its `Step` method are the imperative loop body.
- `PollLoop`: the counted `__main__` loops of both tracker files.
- `App`: `track()`.

Each poll loop takes as input a finite sequence of per-poll outcomes of `track_changes`: a batch of candidate snapshots, or the error raised. Both extractor variants produce the same kind of outcome, so the loops do not depend on which variant produced it. The cluster fetch enters `track_changes` as a parameter: either the raw list, or the fetch exception.

In four places the code does something other than what one might expect. The model follows the code:

- **Snapshot equality is one-way.** One might expect `__eq__` to compare the two trigger sets. It checks only that the candidate's trigger set minus the cached trigger set is empty, not equality in both directions. So a snapshot that lost a trigger is not reported (`Dao.StrictSubsetEqualsOneWay`, `SnapshotCache.SubsetNotEmitted`).
- **Set matching uses the trigger type.** `ImageTriggerInfo.__eq__` compares image names only, so one might expect triggers to match by image name. But inside the set difference, two triggers match only when their repr-based hashes also agree, and the repr shows both fields. So triggers with the same image and different types are different set elements (`Dao.SameImageIgnoresType`). After `prune` every type is `ImageChange`, and matching reduces to image names (`Dao.PrunedEqualIff`).
- **A malformed item is fatal.** One might expect a malformed item to be skipped. The code raises instead, and nothing catches that error, so the whole poll loop ends (`RawResource.ExtractError`). The two variants differ in what they reject. The `mod-` variant raises on a missing `metadata` (src/openshift_utils/tracker.py:54) and on a missing name, at the `startswith` call (src/openshift_utils/tracker.py:57). The no-prefix variant raises only on a missing `metadata` (src/tracker.py:117). There an item without a name gives a snapshot named `None` (src/tracker.py:122).
- **`app.py` and the `tracker` module.** `src/app.py` imports `DeploymetConfigManager` from `tracker`, but calls it with the constructor of `src/openshift_utils/tracker.py` (namespace only). As written, that call raises `TypeError` before the first poll (see `App.Track` under "## Left out"). `App.Track` takes outcomes of either variant.

## Model

| member | source | states |
|---|---|---|
| Dao.ImageTrigger.IsImageChange | src/dao.py:54-55 | defines `is_image_change`: the trigger type is exactly the string `"ImageChange"`; a missing type is not |
| Dao.ImageTrigger.SameImage | src/dao.py:63-64 | defines `ImageTriggerInfo.__eq__`: the image names are equal, whatever the types |
| Dao.AnyImageChange | src/dao.py:22-23 | defines `any([trigger.is_image_change() for trigger in ...])` over a trigger list |
| Dao.PruneTriggers | src/dao.py:35-36 | defines the comprehension that keeps, in order, the triggers with `is_image_change` |
| Dao.Snapshot.HasImageChange | src/dao.py:21-23 | defines `has_image_change` as `any` over the triggers' `is_image_change` |
| Dao.Snapshot.Pruned | src/dao.py:33-37 | defines the value `prune` leaves: the same name and latest version, and only the image-change triggers, in order |
| Dao.TriggerSet | src/dao.py:29 | defines `set(self.image_triggers)`: the triggers as a set, order and duplicates dropped |
| Dao.Snapshot.Equal | src/dao.py:25-31 | defines `DeploymentConfigInfo.__eq__`: equal names, and an empty difference of the first snapshot's trigger set and the second's |
| Dao.AnyImageChangeIff | src/dao.py:21-23 | `has_image_change` holds iff some trigger is an image change, that is, its type is exactly `"ImageChange"`; it is false for an empty trigger list |
| Dao.PruneKeepsImageChanges | src/dao.py:33-37 | after `prune`, every trigger has type `"ImageChange"`; each image-change trigger keeps its multiplicity and every other trigger is gone; the kept triggers stay in their original relative order |
| Dao.PruneKeepsAllImageChanges | src/dao.py:35-36 | pruning a list that holds only image-change triggers leaves it unchanged |
| Dao.PruneIdempotent | src/dao.py:33-37 | pruning twice gives the same result as pruning once |
| Dao.PrunedHasImageChange | src/dao.py:21-23 | after `prune`, `has_image_change` holds iff triggers remain, and iff it held before; name and latest version are kept |
| Dao.DeploymentConfigInfo.constructor | src/dao.py:4-7 | a new object has the given name and latest version and no triggers |
| Dao.DeploymentConfigInfo.AppendTrigger | src/openshift_utils/tracker.py:70 | appending adds the trigger at the end and changes nothing else |
| Dao.DeploymentConfigInfo.Prune | src/dao.py:33-37 | `prune` rewrites the object's own trigger list to its pruned form, keeps name and latest version, and returns the object itself |
| Dao.EqualIff | src/dao.py:25-31 | `__eq__` holds iff the names are equal and every trigger of the first snapshot occurs in the second (a one-way subset test); it is false whenever the names differ |
| Dao.EqualReflexive | src/dao.py:25-31 | every snapshot is `==` to itself |
| Dao.EqualSeesOnlyNamesAndTriggerSets | src/dao.py:28-31 | `__eq__` depends only on the names and the trigger sets, so trigger order, duplicates and latest versions do not matter |
| Dao.PermutedTriggersEqual | src/dao.py:28-31 | two snapshots with the same name whose trigger lists are permutations of each other are equal in both directions |
| Dao.StrictSubsetEqualsOneWay | src/dao.py:28-31 | with equal names, a strict subset of triggers is `==` to the superset, but the superset is not `==` to the subset |
| Dao.EqualNotSymmetric | src/dao.py:25-31 | there are snapshots `a` and `b` with `a == b` and `b != a` |
| Dao.SameImageIgnoresType | src/dao.py:63-67 | `ImageTriggerInfo.__eq__` compares image names only, yet snapshot equality tells apart two triggers of one image that have different types |
| Dao.PrunedEqualIff | src/dao.py:63-64 | when all triggers are image changes, `__eq__` holds iff the names are equal and every image name of the first snapshot occurs among the second's |
| Dao.EqualIgnoresLatestVersion | src/dao.py:25-31 | changing only the latest version leaves snapshots equal in both directions |
| Dao.TriggerToDict | src/dao.py:57-61 | defines `ImageTriggerInfo.to_dict`: a dictionary with the keys `image_name` and `trigger_type` |
| Dao.TriggersToDicts | src/dao.py:17-18 | defines `[trigger.to_dict() for trigger in self.image_triggers]` |
| Dao.SnapshotToDict | src/dao.py:13-19 | defines `DeploymentConfigInfo.to_dict`: a dictionary with the keys `name`, `latest_version` and `image_triggers`, the last one a list of trigger dictionaries |
| Dao.TriggersToDictsPointwise | src/dao.py:17-18 | the dictionary form has one trigger entry per trigger, in order |
| Dao.TriggersDictRoundTrip | src/dao.py:57-61 | the trigger dictionaries give back the triggers, with their count, order and both fields |
| Dao.SnapshotDictRoundTrip | src/dao.py:13-19 | `to_dict` loses nothing: the whole snapshot can be read back from its dictionary |
| RawResource.Items | src/openshift_utils/tracker.py:53 | defines `deployment_config_list.get('items', [])`: no items when the key is missing |
| RawResource.ItemName | src/openshift_utils/tracker.py:54 | defines `item.get('metadata').get('name')` for an item with `metadata`; a missing `metadata`, on which the code raises, reads as a missing name, and the function is used only for items with `metadata` and in the assumption that item names are distinct |
| RawResource.LatestVersion | src/openshift_utils/tracker.py:59-62 | defines `item.get('status', {}).get('latestVersion')`: `None` when `status` or `latestVersion` is missing |
| RawResource.Causes | src/openshift_utils/tracker.py:59-61 | defines the causes the inner loop iterates: none when `status`, `details` or `causes` is missing |
| RawResource.CauseTrigger | src/openshift_utils/tracker.py:65-69 | defines the trigger built from one cause: the image name under `imageTrigger.from.name` and the cause's `type`, each `None` when a key on the way is missing |
| RawResource.CauseTriggers | src/openshift_utils/tracker.py:64-70 | defines the trigger list the inner loop builds: one trigger per cause, in order |
| RawResource.ItemSnapshot | src/openshift_utils/tracker.py:59-70 | defines the snapshot built for one item under a given name: its latest version and the triggers of its causes |
| RawResource.CauseTriggersPointwise | src/openshift_utils/tracker.py:64-70 | one trigger per cause, in document order; each trigger is built from its own cause |
| RawResource.AbsentFieldsDefault | src/openshift_utils/tracker.py:59-67 | a missing `imageTrigger` or `from` gives image name `None`; a missing `type` gives type `None`; a missing `status` gives latest version `None` and no triggers; a missing `details` or `causes` gives no triggers |
| RawResource.AppendCauseTriggers | src/openshift_utils/tracker.py:64-70 | the inner loop appends exactly the triggers of the causes, in order, and keeps name and latest version |
| RawResource.NewInfo | src/openshift_utils/tracker.py:59-71 | a new object holds the item's latest version and one trigger per cause |
| RawResource.AppendNewInfo | src/openshift_utils/tracker.py:71 | `parsed_data.append` adds one new object holding the item's snapshot at the end; the objects already parsed keep their values and stay distinct |
| OpenshiftTracker.IsModelName | src/openshift_utils/tracker.py:57 | defines `dc_name.startswith('mod-')` as `mod-` being a prefix of the name |
| OpenshiftTracker.ModelItems | src/openshift_utils/tracker.py:53-58 | defines the items the loop keeps: in order, the items with `metadata`, a name and the `mod-` prefix |
| OpenshiftTracker.ExtractModels | src/openshift_utils/tracker.py:52-72 | defines `_process_deployment_config_list` of this variant: items in order; a missing `metadata` or name raises; a name without the `mod-` prefix is skipped; every other item gives its snapshot |
| OpenshiftTracker.Changes | src/openshift_utils/tracker.py:81-85 | defines `track_changes` of this variant: the fetch error, or the extraction error, or the candidates of the extracted snapshots |
| OpenshiftTracker.OnlyModelNames | src/openshift_utils/tracker.py:57-58 | every output snapshot has a name that starts with `mod-` |
| OpenshiftTracker.ExtractModelsSelects | src/openshift_utils/tracker.py:52-72 | extraction succeeds iff every item has `metadata` with a name; on success the output is one snapshot per `mod-` item, in input order |
| OpenshiftTracker.MissingItemsExtractNothing | src/openshift_utils/tracker.py:53 | a list without `items` gives no snapshots and no error |
| OpenshiftTracker.ModelItemsDistinct | src/openshift_utils/tracker.py:53-58 | the selected items are items of the input, and distinct item names stay distinct |
| OpenshiftTracker.ProcessDeploymentConfigList | src/openshift_utils/tracker.py:52-72 | the loop builds fresh objects whose values are the extraction result, or it raises the first missing-`metadata` or missing-name error |
| OpenshiftTracker.TrackChanges | src/openshift_utils/tracker.py:81-85 | `track_changes` is the filter applied to the extraction of the fetched list; a fetch error or an extraction error is passed on |
| OpenshiftTracker.ChangesDistinctModels | src/openshift_utils/tracker.py:81-85 | with distinct item names, the candidates have distinct `mod-` names and each one holds an image-change trigger |
| ChangeFilter.Candidates | src/openshift_utils/tracker.py:74-79 | defines `filter_changes` on values: prune each snapshot, then keep, in order, those that still have an image-change trigger |
| ChangeFilter.CandidatesInvariant | src/openshift_utils/tracker.py:74-79 | every candidate holds only image-change triggers, and at least one |
| ChangeFilter.CandidatesSelect | src/openshift_utils/tracker.py:74-79 | the candidates are a subsequence of the pruned inputs, so they keep input order; the pruned form of every snapshot that had an image-change trigger is a candidate, and every candidate is such a pruned form (multiplicity is stated by `CandidatesMultiset`) |
| ChangeFilter.CandidatesMultiset | src/openshift_utils/tracker.py:76-78 | each pruned snapshot with an image-change trigger is kept as many times as it occurs among the pruned inputs, and one without is never kept; with the subsequence clause of `CandidatesSelect` this fixes the result exactly |
| ChangeFilter.CandidatesAppend | src/openshift_utils/tracker.py:76-78 | the filter works item by item: filtering a concatenation concatenates the results |
| ChangeFilter.CandidatesNames | src/tracker.py:133-138 | the candidates carry only names from the input, and distinct names stay distinct |
| ChangeFilter.PruneAll | src/openshift_utils/tracker.py:76 | defines `[dc_info.prune() for dc_info in info]` on values: every snapshot pruned, in order |
| ChangeFilter.FilterChanges | src/openshift_utils/tracker.py:74-79 | every object is pruned in place; the kept objects are input objects, and their values are the candidates of the input values |
| ChangeFilter.PruneEach | src/openshift_utils/tracker.py:76 | the comprehension prunes every object in place |
| ChangeFilter.SelectImageChanges | src/openshift_utils/tracker.py:78 | `filter` keeps, in order, the pruned objects that have an image-change trigger |
| Tracker.ExtractAll | src/tracker.py:115-131 | defines `_process_deployment_config_list` of this variant: items in order; a missing `metadata` raises; every other item gives its snapshot, with a name of `None` allowed |
| Tracker.Changes | src/tracker.py:140-144 | defines `track_changes` of this variant: the fetch error, or the extraction error, or the candidates of the extracted snapshots |
| Tracker.ExtractAllPointwise | src/tracker.py:115-131 | without a prefix filter, extraction succeeds iff every item has `metadata`; it gives one snapshot per item, in order, named after the item, with a name of `None` allowed |
| Tracker.ExtractAllDistinctNames | src/tracker.py:116-130 | distinct item names give snapshots with distinct names |
| Tracker.ProcessDeploymentConfigList | src/tracker.py:115-131 | the loop builds fresh objects whose values are the extraction result, or it raises on a missing `metadata` |
| Tracker.TrackChanges | src/tracker.py:140-144 | `track_changes` is the filter applied to the extraction of the fetched list; errors are passed on |
| Tracker.ChangesDistinctNames | src/tracker.py:140-144 | with distinct item names, the candidates have distinct names and each one holds an image-change trigger |
| SnapshotCache.Changed | src/app.py:31-32 | defines the test `not cached or dc_info != cached` against the cache entry under the candidate's name |
| SnapshotCache.Diff | src/app.py:30-35 | defines the `for` loop over one batch: candidates in order; a changed candidate is emitted and overwrites the entry under its name, so later candidates of the batch see it; an unchanged one is passed over |
| SnapshotCache.ChangedIff | src/app.py:31-32 | for a cache keyed by name, a candidate counts as changed iff its name is not cached or it has a trigger the cached snapshot lacks |
| SnapshotCache.DiffCache | src/app.py:30-35 | after a pass, the keys are the old keys plus every candidate name; entries for other names are untouched; the cache stays keyed by name |
| SnapshotCache.DiffEmitsInOrder | src/app.py:30-33 | the emitted snapshots are candidates, in candidate order |
| SnapshotCache.DiffDistinct | src/app.py:30-35 | with distinct names, a candidate is emitted iff it is uncached or not `==` to the entry found before the pass; each candidate's entry afterwards is the candidate if it was emitted, otherwise the old entry |
| SnapshotCache.UnchangedPass | src/app.py:31-35 | a pass in which no candidate changed emits nothing and leaves the cache as it was |
| SnapshotCache.DiffIdempotent | src/app.py:30-35 | repeating a pass on the same candidates (distinct names) emits nothing and leaves the cache alone |
| SnapshotCache.DuplicateNamesReemit | src/app.py:30-35 | two candidates with the same name can be emitted again on a repeated pass |
| SnapshotCache.SubsetNotEmitted | src/app.py:32 | a candidate whose triggers all occur in the cached snapshot is not emitted, and its entry stays |
| SnapshotCache.AllNewEmitted | src/app.py:31-32 | candidates with names not yet cached (distinct names) are all emitted |
| SnapshotCache.Cache.constructor | src/app.py:24 | the cache starts empty |
| SnapshotCache.Cache.Step | src/app.py:30-35 | the loop body's emissions and the new cache are exactly the `Diff` of the old cache and the candidates |
| PollLoop.Counted | src/tracker.py:147-166 | defines the counted `__main__` loop of both tracker files (also src/openshift_utils/tracker.py:106-122): stop when the counter is at least 10 or the polls run out; a caught fetch error is skipped; an extraction error ends the run; a batch is diffed and adds its emissions to the counter |
| PollLoop.IsFetchError | src/tracker.py:165 | defines the outcomes the `except (client.rest.ApiException, exceptions.UnauthorizedError)` clause catches: the fetch errors, and not the extraction errors |
| PollLoop.CountedPoll | src/tracker.py:147-166 | the counted loop gives the emissions, counter, poll count, ending and cache that `Counted` specifies |
| PollLoop.CounterCountsEmissions | src/tracker.py:163 | `i` equals the number of emissions |
| PollLoop.CountedPolls | src/tracker.py:151-166 | no more polls are taken than there are outcomes, and at least one when the counter starts below 10 and an outcome is there |
| PollLoop.CounterReachedIff | src/tracker.py:151 | the run ends at the `while` check iff the counter is at least 10 at the end |
| PollLoop.StopsAtFirstCheck | src/tracker.py:151 | a run that stops on the counter took at least one poll, and the same polls without the last one ran out with the counter still below 10 |
| PollLoop.ExceedsWithinBatch | src/tracker.py:157-164 | a first batch of more than ten new names is emitted in full, so the counter passes 10 within that batch |
| PollLoop.FetchErrorsSkipped | src/tracker.py:165-166 | a caught fetch error is printed and polling goes on: the run equals the run without the failed polls, except for the poll count |
| App.Tracked | src/app.py:22-38 | defines `track()`: each poll's batch is diffed against the cache left so far; the first fetch error stops the run; an extraction error ends it uncaught |
| App.Track | src/app.py:22-38 | `track()` gives the emissions, poll count, ending and cache that `Tracked` specifies |
| App.TrackEndsAtFirstFailure | src/app.py:25-38 | the run ends by an error iff some poll failed; it then stops at the first failed poll, with that poll's error; otherwise every poll is taken |
| App.FailureEndsTrack | src/app.py:37-38 | after a failure, later polls change nothing: the `try` encloses the whole loop |
| App.TrackSplits | src/app.py:27-36 | after successful polls, the run continues from the cache they left |
| App.TrackKeepsNames | src/app.py:24-35 | cache keys are never removed; the cache stays keyed by name, and every emitted name is cached |
| App.RepeatedPollLogsNothing | src/app.py:30-35 | an identical second poll (distinct names) logs nothing |
| App.ModAChanges | src/openshift_utils/tracker.py:52-85 | `track_changes` on the one-item list `mod-a` gives that item's snapshot |
| App.ChangeDetectionExample | src/app.py:29-35 | polls on `mod-a` with image `img:5`, then `img:6`, then `img:6` again log exactly the `img:5` snapshot and then the `img:6` snapshot |

## Left out

- **Cluster access.** The fetch and the client and config loading are not modelled: `_get_deployment_configs_list`, `get_openshift_client`, `DynamicClient`, `kubernetes` config and the service-account namespace file. Each is network or file I/O through foreign libraries. The fetch is an input: the raw list, or one of the caught exceptions.
- **Timing and the endless loops.** `time.sleep` and `asyncio.sleep` are left out. Every loop runs over a finite sequence of polls. `track()`'s `while True` never ends on its own, and its `Exhausted` ending marks where that sequence stops. The counted `while (i < 10)` loops (src/tracker.py:151, src/openshift_utils/tracker.py:109) never end either while fewer than ten snapshots are emitted, for example on a steady cluster or when every fetch fails. `PollLoop.Counted` then stops only because the outcomes run out (`PollsExhausted`).
- **Output.** Not modelled: `print`, `logger.info`, `__repr__`, and the printed `__hash__`. Emitted snapshots are returned as a sequence instead.
- **Configuration.** `src/config.py` and `src/app.py:15-19` are not modelled. They read environment variables.
- **Sinks.** `src/services/serializers.py` and `src/models/faust_dao.py` copy fields into records of a library that is outside this model. That copy is covered by the `to_dict` round trip.
- **Duplicate classes.** `src/tracker.py` holds the same model classes as `src/dao.py`, line for line (8-74). They are modelled once, in `Dao`.
- **Explicit JSON nulls.** The raw item has no "present but null" case: a key present with a `None` value is read as an absent key. For the keys read with a plain `.get(key)` (`name`, `latestVersion`, `type`, and the `name` under `from`) the code gives `None` either way, as the model does. For the keys read with a `{}` or `[]` default the code behaves differently. An explicit null under `status`, `details`, `imageTrigger` or `from` makes the next `.get` raise `AttributeError` (src/openshift_utils/tracker.py:60-61 and 65-66, src/tracker.py:119-120 and 124-125). An explicit null under `items` or `causes` makes the `for` raise `TypeError` (src/openshift_utils/tracker.py:53 and 64, src/tracker.py:116 and 123). An explicit null `metadata` raises like an absent one, and the model has that case. The model cannot represent these inputs, so it has no such crash.
- **Other exceptions.** Only the extractor's `AttributeError` on a missing `metadata` or name is modelled. Anything else the fetch or the client constructors may raise is not.
- **Python hashing.** `ImageTriggerInfo.__hash__` is not modelled. Set membership is modelled as equality on the pair (image name, type). In Python two triggers match in a set exactly when the repr-based hash and `__eq__` both agree, and this pair equality is how that combination is modelled. It is not exact before `prune`: the repr prints the type `None` and the string `"None"` alike, so Python matches two triggers of one image whose types are `None` and `"None"`, and the model does not (`Dao.SameImageIgnoresType` treats them as different). After `prune` every type is `"ImageChange"` and the model is exact.
- App.Track: assumes that the manager was built. As written, `src/app.py:8` imports `DeploymetConfigManager` from `tracker`, which is `src/tracker.py` when run from `src/`. That class's `__init__(self, client, namespace)` (src/tracker.py:81) requires `client`, so `DeploymetConfigManager(namespace=NAMESPACE)` at src/app.py:26 raises `TypeError`. The `except` at src/app.py:37 does not catch it, so `track()` ends before its first poll. Manager construction is client plumbing and is not modelled; `App.Track` models the loop as it would run with a manager built as in `src/openshift_utils/tracker.py`.
- **Object identity of cache entries.** The cache holds snapshot values rather than objects. Each poll builds fresh objects, and none of them is changed after it has been filtered, so values behave the same as the objects would.
