# OCI stopped-instance lister, modelled in Dafny

This project models the core of `oci_instance_deallocated_analysis.py`, a
tool that lists the STOPPED compute instances of an Oracle Cloud tenancy and
reports how long they have existed. It covers:

- how the lister finds the subscribed regions and the compartments, and caches them;
- how it scans every region × compartment pair, retrying on transient errors;
- how it turns raw instance records into report records: owner from tags, age in days, compartment name;
- how it filters the records by a minimum age and sorts them oldest first;
- the statistics behind the HTML and text reports: age histogram, priorities, breakdowns, top 20, oldest record.

The cloud services are not called. Their replies are inputs of the model:

- for the compute listing, a function from attempt number to `CallOutcome` for each scan;
- `Option<seq<RegionSubscription>>` for the region subscriptions;
- `IdentityReplies` for the compartment lookups.

The current time is a parameter `now`, in seconds since the epoch.

Modules (one file each):

| module | file | contents |
|---|---|---|
| `Model` | model.dfy | raw instance, report record, service replies |
| `PyDict` | dict.dfy | insertion-ordered dictionary |
| `Owner` | owner.dfy | `get_owner_from_tags` |
| `Age` | age.dfy | `calculate_days_since_created` |
| `Ordering` | ordering.dfy | stable descending sort, top-N, first maximum |
| `Retry` | retry.dfy | the retry loop of one scan |
| `Discovery` | discovery.dfy | task list and collection of scan results |
| `Processing` | processing.dfy | `process_stopped_instance`, `process_instances` |
| `Report` | report.dfy | report statistics |
| `Lookup` | lookup.dfy | what the region and compartment lookups cache |
| `Lister` | lister.dfy | the lister class, with its caches and counters |

## Model

| member | source | states |
|---|---|---|
| PyDict.Put | oci_instance_deallocated_analysis.py:424-427 | `d[k] = v` keeps the dictionary well formed. It maps `k` to `v`, leaves every other entry alone, keeps the position of an existing key and appends a new one. |
| Owner.FirstPresent | oci_instance_deallocated_analysis.py:230-232 | The key scan finds nothing exactly when no listed key is present. Otherwise it returns the value of the first present key in list order. |
| Owner.ScanNamespaces | oci_instance_deallocated_analysis.py:235-240 | The defined-tag scan finds nothing exactly when no namespace is a dictionary holding an owner key. Otherwise the first such namespace decides, through the defined-key order. |
| Owner.GetOwnerFromTags | oci_instance_deallocated_analysis.py:226-242 | A present freeform owner key decides. Without one, a defined-tag namespace decides. The owner is "Unknown", a freeform value, or a value of some namespace's tags. |
| Owner.FreeformPriority | oci_instance_deallocated_analysis.py:229-232 | The first present key of Owner, CreatedBy, Contact, Maintainer, Team gives the owner, whatever its value and whatever the defined tags hold. |
| Owner.DefinedNamespacePriority | oci_instance_deallocated_analysis.py:235-240 | Without a freeform hit, the first namespace that is a dictionary with an owner key decides. Within it, Owner, CreatedBy, Contact, ApplicationOwner are tried in that order. |
| Owner.LaterNamespacesIgnored | oci_instance_deallocated_analysis.py:236-240 | Once a namespace yields an owner, the namespaces after it do not matter. |
| Owner.NoMatchIsUnknown | oci_instance_deallocated_analysis.py:242 | With no owner key anywhere, the owner is "Unknown". |
| Owner.OwnerExamples | oci_instance_deallocated_analysis.py:226-242 | Examples: key matching is case-sensitive, an empty freeform value is returned, a non-dictionary namespace is skipped, and a higher-priority key wins. |
| Age.DaysSinceCreated | oci_instance_deallocated_analysis.py:244-273 | A missing or unparseable time gives 0. Otherwise the result is the floor of the elapsed time in days, and 0 when the creation time is in the future. |
| Age.OlderIsNotYounger | oci_instance_deallocated_analysis.py:264-267 | An instance created earlier is at least as many days old. |
| Age.AgeGrowsWithTime | oci_instance_deallocated_analysis.py:264-267 | An instance's age never decreases as the clock advances. |
| Age.ThresholdInSeconds | oci_instance_deallocated_analysis.py:264-267 | For `min_days >= 1`, an age of at least `min_days` means exactly that at least `min_days`·86400 seconds have elapsed. |
| Age.AgeExamples | oci_instance_deallocated_analysis.py:244-273 | Examples: 86399 s is 0 days, 86400 s is 1 day, a future creation time is 0, a missing or unparseable time is 0. |
| Ordering.InsertKeepsSorted | oci_instance_deallocated_analysis.py:384 | Inserting a record into an oldest-first list keeps it oldest-first. |
| Ordering.InsertPermutes | oci_instance_deallocated_analysis.py:384 | Insertion adds exactly the new record and loses nothing. |
| Ordering.SortByAgeDesc | oci_instance_deallocated_analysis.py:384 | `sort(key=days_since_created, reverse=True)` gives an oldest-first permutation of its input. |
| Ordering.InsertIsStable | oci_instance_deallocated_analysis.py:384 | An insertion places the new record after every record of the same age. |
| Ordering.SortIsStable | oci_instance_deallocated_analysis.py:384 | The sort is stable: records of equal age keep their input order. |
| Ordering.SortOfSortedIsIdentity | oci_instance_deallocated_analysis.py:384 | Sorting a list that is already oldest-first changes nothing. |
| Ordering.SortSwapsYoungerPair | oci_instance_deallocated_analysis.py:384 | A younger record followed by an older one comes out swapped. |
| Ordering.TopOldest | oci_instance_deallocated_analysis.py:580 | `sorted(...)[:20]` has `min(20, len)` records. They are oldest-first, they are the first records of the sorted list, and they are drawn from the input. |
| Ordering.TopOldestDominates | oci_instance_deallocated_analysis.py:580 | Every record in the top N is at least as old as every record left out. |
| Ordering.TopOldestOfSorted | oci_instance_deallocated_analysis.py:580 | On an oldest-first list the top N is its first N records. |
| Ordering.FirstOldest | oci_instance_deallocated_analysis.py:415 | `max(results, key=days_since_created)` is a record of greatest age, and the first one in list order. |
| Ordering.FirstOldestOfSorted | oci_instance_deallocated_analysis.py:415 | On an oldest-first list the oldest record is its head. |
| Retry.Lower | oci_instance_deallocated_analysis.py:215 | Lower-casing keeps the length and lowers each ASCII letter in place. |
| Retry.LowerOccurrence | oci_instance_deallocated_analysis.py:215 | Searching the lower-cased text for a keyword is the same as comparing the text with the keyword character by character, with upper-case letters read as lower case. |
| Retry.IsTransient | oci_instance_deallocated_analysis.py:215 | A message counts as transient exactly when "timeout", "connection" or "max retries" occurs somewhere in its text, in any letter case. Whether a transient error is actually retried also depends on the attempt number, as stated for `GetStoppedInstancesWithRetry`. |
| Retry.GetStoppedInstancesWithRetry | oci_instance_deallocated_analysis.py:188-224 | At most three calls and at most two sleeps, of 5 then 10 seconds. Every call before the last raised a transient error. The last call decides: its instances if it returned, `[]` if it raised. The result matches the recursive specification `RetryFrom`. |
| Retry.FailingScanYieldsNothing | oci_instance_deallocated_analysis.py:211-224 | A scan whose calls all raise yields `[]`. |
| Retry.PermanentErrorIsNotRetried | oci_instance_deallocated_analysis.py:214-224 | A first call that raises a non-transient error ends the scan with no instances and no sleep. |
| Retry.TransientIgnoresCase | oci_instance_deallocated_analysis.py:215 | Keyword matching ignores case: "TIMEOUT" is transient. |
| Retry.ShortMessageIsNotTransient | oci_instance_deallocated_analysis.py:215 | "denied" contains no keyword, so it is not retried. |
| Discovery.TasksLength | oci_instance_deallocated_analysis.py:321-325 | There are `len(regions)`·`len(compartment_ids)` tasks. |
| Discovery.TaskCell | oci_instance_deallocated_analysis.py:321-325 | The task list is region-major: entry i·\|C\| + j is (regions[i], compartment_ids[j]). |
| Discovery.Tasks | oci_instance_deallocated_analysis.py:321-325 | Every task pairs one of the given regions with one of the given compartment ids. Its order and length are stated by `TaskCell` and `TasksLength`. |
| Discovery.BuildTasks | oci_instance_deallocated_analysis.py:321-325 | The nested loop builds exactly the region-major task list, of length \|R\|·\|C\|. |
| Discovery.Merged | oci_instance_deallocated_analysis.py:338-347 | Every collected instance carries the region of one of the tasks. Which task it comes from is stated by `MergedRegions`. |
| Discovery.MergedConcat | oci_instance_deallocated_analysis.py:338-347 | Collecting the results of two task lists concatenates their results. |
| Discovery.MergedRegions | oci_instance_deallocated_analysis.py:338-347 | Every collected instance is an instance that the scan of some task returned, with `region` set to that task's region. |
| Discovery.FailedScanIsSkipped | oci_instance_deallocated_analysis.py:343-347 | A task whose scan yields nothing contributes nothing. |
| Discovery.CollectScans | oci_instance_deallocated_analysis.py:329-354 | The collection loop returns every scan's instances, stamped with their region and in task order. Every instance is one that the scan of some task returned, with that task's region. |
| Processing.ProcessStoppedInstance | oci_instance_deallocated_analysis.py:285-315 | A record is built exactly when the attributes read without a default are present. It carries the given region, and the instance's id, display name, shape, compartment id and creation time. The compartment name is the cached one or "Unknown". Availability domain, fault domain and image id are copied, or "Unknown" when absent. The age is `DaysSinceCreated` and the owner is `GetOwnerFromTags`. |
| Processing.Process | oci_instance_deallocated_analysis.py:373 | Processing a discovered instance succeeds exactly when its required attributes are present. The record's region is the one stamped by discovery, or "unknown" when the instance carries none. |
| Processing.FilterMinDays | oci_instance_deallocated_analysis.py:376-377 | Filtering never lengthens the list. Which records it keeps is stated by `FilterMembers`, and that it keeps their order by `FilterConcat`. |
| Processing.FilterMembers | oci_instance_deallocated_analysis.py:376-377 | A record survives the threshold exactly when it is in the input and at least `min_days` old. |
| Processing.KeptStep | oci_instance_deallocated_analysis.py:370-381 | Each instance appends its record when processing succeeds and the record is old enough, and appends nothing otherwise. |
| Processing.ProcessInstancesResult | oci_instance_deallocated_analysis.py:365-387 | What `process_instances` returns is oldest-first and a permutation of the kept records. `ResultPassesThreshold` adds that every record meets the threshold. |
| Processing.KeptMembers | oci_instance_deallocated_analysis.py:370-381 | A record is kept exactly when some input instance processes to it and it is at least `min_days` old. |
| Processing.ProcessedMembers | oci_instance_deallocated_analysis.py:370-381 | The processed records are exactly those of the instances whose processing succeeds. |
| Processing.ProcessedAllConcat | oci_instance_deallocated_analysis.py:370-381 | Processing is done instance by instance: it distributes over concatenation. |
| Processing.FailingInstanceIsDropped | oci_instance_deallocated_analysis.py:379-381 | An instance whose processing raises is dropped, and the others are unaffected. |
| Processing.FilterConcat | oci_instance_deallocated_analysis.py:376-377 | The threshold filter distributes over concatenation, so it keeps the order. |
| Processing.FilterIdempotent | oci_instance_deallocated_analysis.py:376-377 | Applying the same threshold twice is the same as applying it once. |
| Processing.FilterKeepsQualified | oci_instance_deallocated_analysis.py:376-377 | A list whose records all meet the threshold passes through unchanged. |
| Processing.ResultPassesThreshold | oci_instance_deallocated_analysis.py:365-387 | Every record `process_instances` returns meets the threshold. |
| Processing.ResultCompartmentNames | oci_instance_deallocated_analysis.py:365-387 | Every returned record's compartment name is the cached name of its compartment id, or "Unknown". |
| Processing.FilterExample | oci_instance_deallocated_analysis.py:376-377 | Example: with a 30-day threshold, ages 10, 45, 400 keep 45 and 400. |
| Processing.ThresholdExample | oci_instance_deallocated_analysis.py:376-384 | Example: ages 10, 45, 400 with threshold 30 give 400 then 45. |
| Processing.KeptAsWritten | oci_instance_deallocated_analysis.py:370-381 | The loop as written fails as a whole exactly when some instance fails processing and has no `id`. Otherwise it keeps the same records as `Kept`. |
| Processing.MissingIdAbortsAsWritten | oci_instance_deallocated_analysis.py:379-380 | Counterexample: one instance without `id` makes the loop as written fail. The corrected loop returns `[]` for it. |
| Report.RangeOf | oci_instance_deallocated_analysis.py:431-441 | The age range an age falls into: it starts at or below the age, and a bounded range ends after it. |
| Report.RangePriority | oci_instance_deallocated_analysis.py:534-545 | A histogram row's priority is the age class of every age its range holds. |
| Report.AgeClass | oci_instance_deallocated_analysis.py:582-589 | The rank of an instance row's age class (low, medium, high, critical) is the number of the thresholds 90, 180 and 365 days its age reaches. |
| Report.RangeIsUnique | oci_instance_deallocated_analysis.py:431-441 | The five ranges partition the ages: the range whose bounds hold an age is the one chosen. |
| Report.AgeClassMatchesRange | oci_instance_deallocated_analysis.py:582-589 | An instance row's age class is the priority of its histogram range: both use 90, 180 and 365 days. |
| Report.AgeClassMonotone | oci_instance_deallocated_analysis.py:582-589 | An older instance never gets a lower priority class. |
| Report.Bump | oci_instance_deallocated_analysis.py:433-441 | `age_ranges[label] += 1` adds one to that range, leaves the others and adds one to the total. |
| Report.RangeCountsSumToTotal | oci_instance_deallocated_analysis.py:430-441 | The five range counts add up to the number of records. |
| Report.CountAgeRanges | oci_instance_deallocated_analysis.py:430-441 | The histogram loop counts, for each range, the records whose age falls in it. The counts add up to the total. |
| Report.Breakdown | oci_instance_deallocated_analysis.py:423-427 | A breakdown dictionary is well formed. Its keys are exactly the values of the field among the results, each count is the number of records with that value, and the counts add up to the number of results. |
| Report.TallyStep | oci_instance_deallocated_analysis.py:423-427 | One more record keeps the breakdown exact and adds one to its total. |
| Report.GenerateHtmlStats | oci_instance_deallocated_analysis.py:404-441 | No report for an empty list. Otherwise: the total, the first oldest record, the four exact breakdowns (region, compartment, shape, owner), the age histogram, and the 20 oldest records. |
| Report.GenerateSummary | oci_instance_deallocated_analysis.py:788-807 | "No stopped instances found." exactly for an empty list. Otherwise: the total, the first oldest record, and the exact region and compartment breakdowns. |
| Report.HistogramExample | oci_instance_deallocated_analysis.py:430-441 | Example: ages 400 and 45 fall into the 365+ and 30-89 ranges. |
| Lookup.ReadyRegionsMembers | oci_instance_deallocated_analysis.py:127-131 | A region is cached exactly when one of its subscriptions is READY. |
| Lookup.ReadyRegions | oci_instance_deallocated_analysis.py:127-131 | The READY filter never yields more regions than there are subscriptions. Which regions it keeps is stated by `ReadyRegionsMembers`. |
| Lookup.ReadyRegionsConcat | oci_instance_deallocated_analysis.py:127-131 | The READY filter distributes over concatenation, so it keeps the listing order. |
| Lookup.ReadyRegionsExample | oci_instance_deallocated_analysis.py:127-131 | Example: a READY and an IN_PROGRESS subscription give only the READY region. |
| Lookup.CompartmentLookup | oci_instance_deallocated_analysis.py:142-186 | The compartment cache built from an empty one is a well-formed ordered dictionary. |
| Lookup.NamedIdsEntries | oci_instance_deallocated_analysis.py:150-158 | With requested ids, the keys are exactly those ids. Each id maps to its name, or "Unknown" when `get_compartment` raises. |
| Lookup.ActiveEntriesKeys | oci_instance_deallocated_analysis.py:168-170 | From a listing, a compartment id becomes a key exactly when one of its listings is ACTIVE. |
| Lookup.ActiveEntriesNames | oci_instance_deallocated_analysis.py:168-170 | A listed key's name comes from the last ACTIVE listing of that id. |
| Lookup.LookupIsNeverEmpty | oci_instance_deallocated_analysis.py:142-186 | Whatever the replies, the lookup leaves a non-empty cache. So the next call returns the cache without asking again. |
| Lookup.FailedLookupIsRootOnly | oci_instance_deallocated_analysis.py:158-186 | When the client or the listing raises, the cache holds only the tenancy, as "Root Compartment". |
| Lookup.ListedLookup | oci_instance_deallocated_analysis.py:158-177 | After a listing, the tenancy is a key named "<name> (Root)" or "Root Compartment", even if the listing holds it. The other keys are exactly the ACTIVE listed compartments, and each is named after its last ACTIVE listing. |
| Lister.LookUpIds | oci_instance_deallocated_analysis.py:150-158 | The `get_compartment` loop builds `NamedIds`, whose keys are exactly the requested ids. |
| Lister.RecordActive | oci_instance_deallocated_analysis.py:168-170 | The listing loop builds `ActiveEntries`, whose keys are exactly the ids with an ACTIVE listing. |
| Lister.SimpleStoppedInstanceLister.constructor | oci_instance_deallocated_analysis.py:54-81 | A new lister has empty caches and zero counters. |
| Lister.SimpleStoppedInstanceLister.GetSubscribedRegions | oci_instance_deallocated_analysis.py:114-140 | A non-empty region cache is returned unchanged. Otherwise the cache becomes the READY regions, or the two fallback regions when listing raises. Nothing else changes. |
| Lister.SimpleStoppedInstanceLister.GetAllCompartments | oci_instance_deallocated_analysis.py:142-186 | A non-empty compartment cache is returned unchanged. Otherwise it becomes `CompartmentLookup` of the replies. It is never empty afterwards, and nothing else changes. |
| Lister.SimpleStoppedInstanceLister.DiscoverStoppedInstances | oci_instance_deallocated_analysis.py:317-363 | The result is every scan's instances in task order, stamped with a scanned region. Its length is recorded as `stopped_instances_found`. |
| Lister.SimpleStoppedInstanceLister.ProcessInstances | oci_instance_deallocated_analysis.py:365-387 | The result is the kept records, sorted oldest-first and stably: a permutation of the kept records, each at least `min_days` old. |
| Lister.SimpleStoppedInstanceLister.ListStoppedInstances | oci_instance_deallocated_analysis.py:827-862 | Without explicit regions, the region cache is filled as by `get_subscribed_regions`, and the compartment cache as by `get_all_compartments`. The counters record the regions and compartments scanned. The instances found are the merged scans of those regions and the cached compartments. There are three outcomes: no instances found, none over the threshold, or the sorted results together with the statistics of both reports computed from them. |

## Left out

- Configuration, logging and the SDK clients are not modelled: reading the OCI config file, validating it, `sys.exit`, `log_progress`, and the timeouts and retry strategy set on the clients. The service replies are inputs.
- The thread pool and `as_completed` are not modelled. Scans run one after the other in task order, so the order of the discovered instances is the task order. The source's order depends on completion times. The `except` around `future.result()` cannot fire, because the scan catches its own errors, so it is not modelled.
- `api_calls_made`, elapsed-time figures, `time.sleep`, the timestamps in file names and the wall clock are not modelled. The sleeps of the retry loop are returned as a list instead. `now` is one parameter per run, whereas the source reads the clock once per record.
- Floating-point figures are not computed: average age, percentages, instances per second.
- Parsing of ISO-8601 times is not modelled. A creation time is given as seconds since the epoch, as "missing" or as "unparseable". `Age.DaysSinceCreated` works on whole seconds, so a difference of less than a second at a day boundary is not represented.
- HTML, CSV and text templating and file writing are left out. The display order of breakdowns (by count, except the summary's regions, which are sorted by name) and the truncation of breakdown tables to 15 or 10 rows are left out. Date formatting is left out. `generate_csv_report` is not modelled. Only the statistics the reports print are modelled.
- Retry.Lower lowers ASCII letters only. Python's `str.lower` also lowers other scripts.
- Absent or `None` tag attributes are treated as empty tag sets. In the source they are falsy, so they are skipped.
- `list_stopped_instances` returns a 3-tuple on its early returns and a 4-tuple otherwise. The model uses the datatype `RunOutcome` instead of tuples.
- The in-place stamping of `instance.region` is modelled as a new value per instance, so object identity and aliasing are not captured.
- The `test_date_calculation` debug helper and the `main` command-line entry point are not modelled.
- Report.Breakdown computes one field per call. The source fills the four breakdowns in one loop, with the same result.
- Lister.SimpleStoppedInstanceLister.ProcessInstances: it models the corrected loop of the Findings table. An instance that fails processing and has no `id` is dropped, whereas the source's handler raises and the whole call fails.
- Lister.SimpleStoppedInstanceLister.ListStoppedInstances: it processes the instances through the corrected loop of the Findings table, so an instance that fails processing and has no `id` is dropped instead of failing the run.

## Findings

| source | as written | input that shows it | evidently intended | confidence | as-written member | corrected member |
|---|---|---|---|---|---|---|
| oci_instance_deallocated_analysis.py:379-380 | The `except` handler of `process_instances` formats its warning with `instance.id`. | An instance record that lacks `id`: processing raises, then the handler raises again, so the whole call fails. | A record that fails processing is skipped and the loop carries on. | low, not executed | Processing.KeptAsWritten, Processing.MissingIdAbortsAsWritten | Processing.ProcessInstancesResult |
