# OpenCensus Java: view registry, exported view data, stats collection state, identity-document and query parsers, span context

This project is a Dafny model of a slice of the OpenCensus Java library, with proofs about it:

- **The no-op view manager** of the stats SPI (`ViewManager`). It registers views by name and rejects a different view under a taken name. It answers `getView` with an empty snapshot, and it caches the set of exported views (the views whose window is not an interval). The manager is the class `ViewRegistry.NoopViewManager`. Its fields are the registered-view map and the optional cache. Its invariant `Valid()` says that every name maps to a view of that name and that the cache is either absent or equal to the exported set.
- **Exported view data** (`ViewDescription`, `ViewData`). A description is a view without its window. `ViewData.create` checks every aggregation value against the description's aggregation and measure kind, then copies the map.
- **The OpenCensus view-data source** (`OpenCensusViewDataSource`). It collects a `ViewData` for every exported cumulative view that the view manager knows. It fails on the first interval window or type mismatch. The source reads the stats API's `ViewManager` and `View` (`io.opencensus.stats`), which are different classes from the SPI no-op manager modelled in `ViewRegistry`; the model uses one `View` type for both, and the lemma `ViewDataSource.CollectFromNoopManager` relies on the API-side manager answering `getView` as the SPI no-op manager does.
- **Stats collection state.** The no-op SPI component (`SpiStatsComponent`) is a class with a read latch: `setState` fails once `getState` has been called. The implementation base (`SpiStatsComponentImplBase`) stores the new state, then clears the stats or resumes collection when the state changed. The view manager's side of that is recorded as a ghost event log.
- **The AWS instance identity document parser** (`AwsIdentityDocUtils`). It splits the document into lines, keeps the lines with exactly one colon, removes quotes and spaces from the key and quotes, spaces and commas from the value, and puts the pairs into a map. It also has value lookups with a `""` default.
- **The tracez query parser** (`TracezHttpHandler.queryToMap`). It splits the query on `&` and each parameter on `=`, using Java's `String.split`.
- **The span context** (`SpanContextImpl`). Its `equals` and `hashCode` use the trace id, the span id and the options, but not the tracestate.

Where the modelled code checks an argument for `null` (`registerView`, `getView`, both `setState`s, the identity-document map, the tracez query), the argument is an `Option` value; exceptions are `Err`/`Fail` values of the `Error` datatype in `Wrappers`. Java's `String.split` is modelled in `Strings`: `Split` is the limit -1 form, and `SplitJava` is the default form, which drops trailing empty pieces. A run of `HashMap.put` calls is modelled by `MapPuts.PutAll`, where a later put overwrites an earlier one. The scenarios `ViewRegistry.RegistryScenario` and `SpiStatsComponent.LatchScenario` replay parts of the unit tests of the view manager and of the no-op SPI component as verified clients of the classes.

## Model

| member | source | states |
|---|---|---|
| ViewRegistry.NoopViewManager.constructor | spi/src/main/java/io/opencensus/spi/stats/export/ViewManager.java:88-95 | a new manager has no registered views and no cached exported set, and its invariant holds |
| ViewRegistry.NoopViewManager.RegisterView | spi/src/main/java/io/opencensus/spi/stats/export/ViewManager.java:98-110 | a null view fails with a null-pointer error and changes nothing. Otherwise the exported-view cache is dropped and then: a new name is registered; the same view again changes nothing; a different view under a taken name fails with the "A different view with the same name already exists." argument error and leaves the map unchanged. The invariant is kept |
| ViewRegistry.NoopViewManager.GetView | spi/src/main/java/io/opencensus/spi/stats/export/ViewManager.java:115-135 | a null name fails; an unknown name gives no data; a registered name gives that view with an empty aggregation map and zero timestamps (cumulative start and end, or interval end, by the view's window) |
| ViewRegistry.NoopViewManager.GetAllExportedViews | spi/src/main/java/io/opencensus/spi/stats/export/ViewManager.java:138-146 | the result is exactly the set of registered views whose window is not an interval, and it is now the cached set |
| ViewRegistry.FilterExportedViews | spi/src/main/java/io/opencensus/spi/stats/export/ViewManager.java:150-159 | the result holds exactly the input views whose window is not an interval |
| ViewRegistry.ExportedAfterRegister | spi/src/main/java/io/opencensus/spi/stats/export/ViewManager.java:101-108 | registering a view under a new name adds it to the exported set if it is exported, and otherwise leaves that set unchanged |
| ViewRegistry.ExportedIsCumulative | spi/src/main/java/io/opencensus/spi/stats/export/ViewManager.java:150-159 | a view is exported exactly when it is registered under some name with a cumulative window |
| ViewDescriptions.Create | exporters/stats/api/src/main/java/io/opencensus/exporter/stats/ViewDescription.java:96-104 | the description holds exactly the five given fields |
| ViewDescriptions.CreateFromView | exporters/stats/api/src/main/java/io/opencensus/exporter/stats/ViewDescription.java:114-122 | the description of a view is the five-field description of its name, description, measure, aggregation and columns |
| ViewDescriptions.DescriptionRoundTrip | exporters/stats/api/src/main/java/io/opencensus/exporter/stats/ViewDescription.java:114-122 | putting a view's window back on its description gives the view; the description of a view built from a description is that description |
| ViewDescriptions.SameDescription | exporters/stats/api/src/main/java/io/opencensus/exporter/stats/ViewDescription.java:114-122 | two views have the same description exactly when they differ at most in their window |
| ExportedViewData.CheckAggregation | exporters/stats/api/src/main/java/io/opencensus/exporter/stats/ViewData.java:131-188 | `checkAggregation`; `ExportedViewData.CheckAggregationKind` states that it passes exactly for the data kind the aggregation and measure call for, and fails with the mismatch argument error otherwise |
| ExportedViewData.CheckAggregationKind | exporters/stats/api/src/main/java/io/opencensus/exporter/stats/ViewData.java:131-188 | the check passes exactly when the data's kind is the one the aggregation and measure call for (a Sum of a double measure takes double sums, of a long measure long sums; Count, Mean and Distribution take their own kinds); a failure is the "Aggregation and AggregationData types mismatch." argument error |
| ExportedViewData.Create | exporters/stats/api/src/main/java/io/opencensus/exporter/stats/ViewData.java:113-129 | it succeeds exactly when every value of the map matches the description; then it keeps the description, the times and the map; otherwise it is the mismatch error |
| ViewDataSource.GetName | exporters/stats/api/src/main/java/io/opencensus/exporter/stats/OpenCensusViewDataSource.java:41-43 | the source's name is "opencensus.io" |
| ViewDataSource.GetStartTime | exporters/stats/api/src/main/java/io/opencensus/exporter/stats/OpenCensusViewDataSource.java:64-80 | cumulative window data gives its start; interval window data fails with "IntervalData not supported" |
| ViewDataSource.GetEndTime | exporters/stats/api/src/main/java/io/opencensus/exporter/stats/OpenCensusViewDataSource.java:82-98 | cumulative window data gives its end; interval window data fails with "IntervalData not supported" |
| ViewDataSource.IsCumulativeView | exporters/stats/api/src/main/java/io/opencensus/exporter/stats/OpenCensusViewDataSource.java:100-102 | `isCumulativeView`; `ViewDataSource.CollectOk`, `ViewDataSource.CollectLength` and `ViewDataSource.CollectElement` state that only views for which it holds (and that have a snapshot) yield output |
| ViewDataSource.GetViewData | exporters/stats/api/src/main/java/io/opencensus/exporter/stats/OpenCensusViewDataSource.java:46-62 | the loop over the exported views computes the fold `Collect`: one entry per cumulative view the manager knows, in order, and the first failure stops the loop |
| ViewDataSource.CollectAppend | exporters/stats/api/src/main/java/io/opencensus/exporter/stats/OpenCensusViewDataSource.java:48-60 | collecting a concatenation collects the first part, then, if that succeeded, the second part, and joins the lists; a failure in the first part is the result |
| ViewDataSource.CollectLength | exporters/stats/api/src/main/java/io/opencensus/exporter/stats/OpenCensusViewDataSource.java:48-60 | on success the list has one entry per contributing view (cumulative and known to the manager), so no more entries than views |
| ViewDataSource.CollectOk | exporters/stats/api/src/main/java/io/opencensus/exporter/stats/OpenCensusViewDataSource.java:48-60 | collection succeeds exactly when every contributing view has cumulative window data and aggregation values that match its description |
| ViewDataSource.CollectElement | exporters/stats/api/src/main/java/io/opencensus/exporter/stats/OpenCensusViewDataSource.java:50-58 | every entry of a successful result is the snapshot of some contributing view: its description, its start and end times and its aggregation map |
| ViewDataSource.CollectFromNoopManager | exporters/stats/api/src/main/java/io/opencensus/exporter/stats/OpenCensusViewDataSource.java:46-62 | with the no-op manager, cumulative exported views give one entry each, with the view's description, zero times and an empty map |
| SpiStatsComponent.NoopExportComponent.GetViewManager | spi/src/main/java/io/opencensus/spi/stats/SpiStatsComponent.java:79 | the no-op export component hands out its own view manager |
| SpiStatsComponent.NoopSpiStatsComponent.constructor | spi/src/main/java/io/opencensus/spi/stats/SpiStatsComponent.java:78-80 | a new component has not been read, and its new export component holds a new, empty no-op view manager (no registered views, no cached exported set) whose invariant holds, so clients can register views on it |
| SpiStatsComponent.NoopSpiStatsComponent.GetExportComponent | spi/src/main/java/io/opencensus/spi/stats/SpiStatsComponent.java:83-85 | the component's export component is returned |
| SpiStatsComponent.NoopSpiStatsComponent.GetState | spi/src/main/java/io/opencensus/spi/stats/SpiStatsComponent.java:88-91 | the state is DISABLED and the component is now read |
| SpiStatsComponent.NoopSpiStatsComponent.SetState | spi/src/main/java/io/opencensus/spi/stats/SpiStatsComponent.java:95-98 | a null state fails with a null-pointer error; otherwise it succeeds exactly when the state has not been read, and after a read it fails with "State was already read, cannot set state."; nothing changes |
| StatsComponentImpl.StatsStateToState | impl_core/src/main/java/io/opencensus/implcore/stats/SpiStatsComponentImplBase.java:78-80 | `statsStateToState`; `StatsComponentImpl.ConversionsInverse` states that it and `StateToStatsState` undo each other |
| StatsComponentImpl.StateToStatsState | impl_core/src/main/java/io/opencensus/implcore/stats/SpiStatsComponentImplBase.java:82-84 | `stateToStatsState`; `StatsComponentImpl.ConversionsInverse` states that it and `StatsStateToState` undo each other |
| StatsComponentImpl.ConversionsInverse | impl_core/src/main/java/io/opencensus/implcore/stats/SpiStatsComponentImplBase.java:78-84 | the two state conversions are inverse to each other |
| StatsComponentImpl.SetStateEventsCases | impl_core/src/main/java/io/opencensus/implcore/stats/SpiStatsComponentImplBase.java:69-75 | at most one view-manager call is made, and none when the state is unchanged; going from ENABLED to DISABLED clears the stats, and going from DISABLED to ENABLED resumes collection |
| StatsComponentImpl.CurrentState.Set | impl_core/src/main/java/io/opencensus/implcore/stats/SpiStatsComponentImplBase.java:65-68 | the new state is stored, and the result says whether it differs from the old one |
| StatsComponentImpl.SpiStatsComponentImplBase.constructor | impl_core/src/main/java/io/opencensus/implcore/stats/SpiStatsComponentImplBase.java:35-44 | a fresh view manager with no events, and an export component that hands out that view manager |
| StatsComponentImpl.SpiStatsComponentImplBase.GetExportComponent | impl_core/src/main/java/io/opencensus/implcore/stats/SpiStatsComponentImplBase.java:52-55 | the export component returned hands out the component's own view manager |
| StatsComponentImpl.SpiStatsComponentImplBase.GetState | impl_core/src/main/java/io/opencensus/implcore/stats/SpiStatsComponentImplBase.java:58-60 | the returned state converts to the current state |
| StatsComponentImpl.SpiStatsComponentImplBase.SetState | impl_core/src/main/java/io/opencensus/implcore/stats/SpiStatsComponentImplBase.java:64-76 | a null state fails with a null-pointer error and changes nothing; otherwise the converted state is stored, and the view manager is cleared or resumed exactly when the state changed |
| AwsIdentityDoc.LinePairCases | contrib/resource_util/src/main/java/io/opencensus/contrib/resource/util/AwsIdentityDocUtils.java:103-108 | a line gives a pair exactly when it has one colon; the key has no quote or space, and the value has no quote, space or comma |
| AwsIdentityDoc.ParseAwsIdentityDocument | contrib/resource_util/src/main/java/io/opencensus/contrib/resource/util/AwsIdentityDocUtils.java:97-112 | the loop computes the puts of the pairs of the document's lines, in order |
| AwsIdentityDoc.ParseClean | contrib/resource_util/src/main/java/io/opencensus/contrib/resource/util/AwsIdentityDocUtils.java:107-109 | no key of the result has a quote or space, and no value has a quote, space or comma |
| AwsIdentityDoc.ParseLastLineWins | contrib/resource_util/src/main/java/io/opencensus/contrib/resource/util/AwsIdentityDocUtils.java:100-110 | the last line with a given key supplies its value |
| AwsIdentityDoc.ParseNoColon | contrib/resource_util/src/main/java/io/opencensus/contrib/resource/util/AwsIdentityDocUtils.java:101-106 | a document without a colon gives the empty map |
| AwsIdentityDoc.GetValueFromAwsIdentityDocument | contrib/resource_util/src/main/java/io/opencensus/contrib/resource/util/AwsIdentityDocUtils.java:114-119 | "" when there is no map or the key is missing; the stored value otherwise |
| AwsIdentityDoc.GetAccountId | contrib/resource_util/src/main/java/io/opencensus/contrib/resource/util/AwsIdentityDocUtils.java:121-123 | `getAccountId`; `AwsIdentityDoc.GettersFromDocument` states it gives the value of the last document line with key accountId, or "", and `AwsIdentityDoc.GettersWithoutDocument` that it gives "" without a document |
| AwsIdentityDoc.GetRegion | contrib/resource_util/src/main/java/io/opencensus/contrib/resource/util/AwsIdentityDocUtils.java:125-127 | `getRegion`; the same two lemmas state it for the key region |
| AwsIdentityDoc.GetAvailabilityZone | contrib/resource_util/src/main/java/io/opencensus/contrib/resource/util/AwsIdentityDocUtils.java:129-131 | `getAvailabilityZone`; the same two lemmas state it for the key availabilityZone |
| AwsIdentityDoc.GetInstanceId | contrib/resource_util/src/main/java/io/opencensus/contrib/resource/util/AwsIdentityDocUtils.java:133-135 | `getInstanceId`; the same two lemmas state it for the key instanceId |
| AwsIdentityDoc.GetMachineType | contrib/resource_util/src/main/java/io/opencensus/contrib/resource/util/AwsIdentityDocUtils.java:137-139 | `getMachineType`; the same two lemmas state it for the key instanceType |
| AwsIdentityDoc.LastValue | contrib/resource_util/src/main/java/io/opencensus/contrib/resource/util/AwsIdentityDocUtils.java:100-110 | the value a key ends up with after the line scan, defined line by line from the end: "" when no line puts the key, otherwise the value of the last line that puts it |
| AwsIdentityDoc.LookupLastValue | contrib/resource_util/src/main/java/io/opencensus/contrib/resource/util/AwsIdentityDocUtils.java:97-119 | looking a key up in the parsed lines gives the value of the last line that puts it, or "" when no line does |
| AwsIdentityDoc.GettersFromDocument | contrib/resource_util/src/main/java/io/opencensus/contrib/resource/util/AwsIdentityDocUtils.java:121-139 | on the parsed document, each getter gives the value of the last line with its key (accountId, region, availabilityZone, instanceId, instanceType), or "" when no line has it |
| AwsIdentityDoc.GettersWithoutDocument | contrib/resource_util/src/main/java/io/opencensus/contrib/resource/util/AwsIdentityDocUtils.java:114-139 | when the document could not be read, every getter gives "" |
| MapPuts.PutAllKeys | contrib/resource_util/src/main/java/io/opencensus/contrib/resource/util/AwsIdentityDocUtils.java:98-110 | a key is in the map exactly when some put used it |
| MapPuts.PutAllLastWins | contrib/resource_util/src/main/java/io/opencensus/contrib/resource/util/AwsIdentityDocUtils.java:98-110 | the last put of a key supplies its value |
| MapPuts.PutAllEntry | contrib/resource_util/src/main/java/io/opencensus/contrib/resource/util/AwsIdentityDocUtils.java:98-110 | every entry of the map was put by some put |
| Strings.Split | contrib/resource_util/src/main/java/io/opencensus/contrib/resource/util/AwsIdentityDocUtils.java:100 | splitting with limit -1 gives one more piece than there are separators, and no piece holds the separator |
| Strings.JoinSplit | contrib/resource_util/src/main/java/io/opencensus/contrib/resource/util/AwsIdentityDocUtils.java:100 | joining the pieces with the separator gives back the string |
| Strings.SplitJoin | contrib/resource_util/src/main/java/io/opencensus/contrib/resource/util/AwsIdentityDocUtils.java:103 | splitting a join of pieces without the separator gives back the pieces |
| Strings.DropTrailingEmpty | contrib/zpages/src/main/java/io/opencensus/zpages/TracezHttpHandler.java:109-110 | the default split drops only empty trailing pieces, and keeps a last piece that is not empty |
| Strings.SplitJavaEmpty | contrib/zpages/src/main/java/io/opencensus/zpages/TracezHttpHandler.java:110 | the default split is empty exactly when the string is not empty and consists only of the separator |
| Strings.RemoveChars | contrib/resource_util/src/main/java/io/opencensus/contrib/resource/util/AwsIdentityDocUtils.java:107-108 | the result has none of the removed characters, is no longer than the input, and is the input when it had none of them; `Strings.RemoveCharsOne` and `Strings.RemoveCharsAppend` fix it completely |
| Strings.RemoveCharsOne | contrib/resource_util/src/main/java/io/opencensus/contrib/resource/util/AwsIdentityDocUtils.java:107-108 | a single character is kept exactly when it is not one of the removed characters |
| Strings.RemoveCharsAppend | contrib/resource_util/src/main/java/io/opencensus/contrib/resource/util/AwsIdentityDocUtils.java:107-108 | removing from a concatenation is the concatenation of the removals, in order; with `Strings.RemoveCharsOne` every character outside the removed set is kept, in order |
| Tracez.QueryToMap | contrib/zpages/src/main/java/io/opencensus/zpages/TracezHttpHandler.java:103-118 | a null query gives the empty map; otherwise the loop computes the fold `PutParams` of the query's parameters, which throws on a parameter made only of '=' |
| Tracez.PutParamsThrown | contrib/zpages/src/main/java/io/opencensus/zpages/TracezHttpHandler.java:109-116 | once a parameter has thrown, later parameters do not change the result |
| Tracez.PutParamsOk | contrib/zpages/src/main/java/io/opencensus/zpages/TracezHttpHandler.java:108-116 | the parse succeeds exactly when no parameter throws, and then it is the map of the puts, in order |
| Tracez.ParamEntry | contrib/zpages/src/main/java/io/opencensus/zpages/TracezHttpHandler.java:110-115 | what one parameter puts; `Tracez.ParamEntryParts` states the key and value it takes from the split, and `Tracez.ParamEntryNone` when reading part 0 throws |
| Tracez.ParamEntryParts | contrib/zpages/src/main/java/io/opencensus/zpages/TracezHttpHandler.java:110-115 | a parameter is put under the text before its first '=', with the text up to its second '=' as the value, or "" when it has no such text; later parts are ignored |
| Tracez.ParamEntryNone | contrib/zpages/src/main/java/io/opencensus/zpages/TracezHttpHandler.java:110-114 | reading part 0 throws exactly for a non-empty parameter made only of '=' |
| Tracez.PutParamsKeys | contrib/zpages/src/main/java/io/opencensus/zpages/TracezHttpHandler.java:108-116 | the keys are exactly the parameters' names, and the last parameter with a name supplies the value |
| Tracez.BareEqualsThrows | contrib/zpages/src/main/java/io/opencensus/zpages/TracezHttpHandler.java:110-114 | the query "=" makes the parse throw an index-out-of-bounds error at index 0 |
| Tracez.FixedKeys | contrib/zpages/src/main/java/io/opencensus/zpages/TracezHttpHandler.java:108-116 | in the corrected parse, the keys are exactly the parameters' names |
| Tracez.FixedAgrees | contrib/zpages/src/main/java/io/opencensus/zpages/TracezHttpHandler.java:108-116 | wherever the written parse succeeds, the corrected one gives the same map |
| SpanContexts.Create | api/src/main/java/io/opencensus/trace/SpanContextImpl.java:62-65 | the getters (trace id, span id, options, tracestate) return the arguments |
| SpanContexts.CreateWithoutTracestate | api/src/main/java/io/opencensus/trace/SpanContextImpl.java:47-50 | the getters return the arguments, and the tracestate is the default (empty) one |
| SpanContexts.CreateWithoutTracestateDefault | api/src/main/java/io/opencensus/trace/SpanContextImpl.java:47-50 | the three-argument create is the four-argument one with the default tracestate, and it equals the four-argument one with any tracestate |
| SpanContexts.IsValid | api/src/main/java/io/opencensus/trace/SpanContextImpl.java:103-106 | `isValid`; `SpanContexts.IsValidNonZero` states it holds exactly when both ids have a non-zero byte, and `SpanContexts.InvalidIsNotValid` that INVALID is not valid |
| SpanContexts.IsValidNonZero | api/src/main/java/io/opencensus/trace/SpanContextImpl.java:103-106 | a context is valid exactly when both its trace id and its span id have a non-zero byte |
| SpanContexts.InvalidIsNotValid | api/src/main/java/io/opencensus/trace/SpanContextImpl.java:35-36 | the invalid context is not valid |
| SpanContexts.Equals | api/src/main/java/io/opencensus/trace/SpanContextImpl.java:108-122 | `equals`; `SpanContexts.EqualsIgnoresOnlyTracestate`, `SpanContexts.EqualsOtherObjects` and `SpanContexts.EqualsEquivalence` state what it compares, that it rejects null and other objects, and that it is an equivalence |
| SpanContexts.EqualsIgnoresOnlyTracestate | api/src/main/java/io/opencensus/trace/SpanContextImpl.java:108-122 | two contexts are equal exactly when they are the same once the tracestate is disregarded |
| SpanContexts.EqualsOtherObjects | api/src/main/java/io/opencensus/trace/SpanContextImpl.java:114-116 | a context is not equal to null or to an object that is not a span context |
| SpanContexts.EqualsEquivalence | api/src/main/java/io/opencensus/trace/SpanContextImpl.java:108-122 | equality is reflexive, symmetric and transitive |
| SpanContexts.DifferentTracestatesEqual | api/src/main/java/io/opencensus/trace/SpanContextImpl.java:118-121 | two contexts that differ in tracestate are equal |
| SpanContexts.EqualsHashCode | api/src/main/java/io/opencensus/trace/SpanContextImpl.java:124-127 | equal contexts have equal hash codes, whatever the hash codes of the ids and options are |
| SpanContexts.HashCode | api/src/main/java/io/opencensus/trace/SpanContextImpl.java:124-127 | the hash code is a Java `int` |
| SpanContexts.ArraysHashCodeThree | api/src/main/java/io/opencensus/trace/SpanContextImpl.java:126 | the hash of three elements a, b, c is 29791 + 961a + 31b + c in 32-bit arithmetic |

## Left out

- Concurrency: `synchronized`, `volatile` and the double-checked exported-view cache are modelled sequentially; the model keeps only the cache invariant.
- Class loading, logging and the HTTP side: fetching and reading the AWS document, the tracez page handler, and the span annotation made by `queryToMap`. The AWS map is a parameter of the lookups, and the query is a parameter of `QueryToMap`.
- `TraceId`, `SpanId`, `TraceOptions` and `Tracestate` are not part of this model. The ids are 16 and 8 bytes, and an id is valid when it is not all zeros. The hash codes of the ids and options are parameters (`ComponentHashes`).
- `toTraceId`, `toSpanId` and `toString` of the span context: they only format the ids, whose classes are not part of this model.
- `CurrentState`, `StatsManager`, `ViewManagerImpl` and `MetricProducerImpl` are not part of this model. `CurrentState.set` stores the state and reports a change. The view manager's `clearStats` and `resumeStatsCollection` only append to a ghost event log. The metric producer registration in the constructor is left out.
- ExportedViewData.Create: the mismatch message is only its fixed opening sentence. The source appends the `toString()` of the aggregation and the data, which are not modelled.
- ExportedViewData.CheckAggregation: the same shortened mismatch message as `ExportedViewData.Create`.
- ExportedViewData.CheckAggregationKind: the same shortened mismatch message as `ExportedViewData.Create`.
- The `isRead` latch of `CurrentState` itself (as opposed to the no-op component's): its class is not shown.
- Unmodifiable and deep-copied collections: Dafny values are immutable, so `Collections.unmodifiableMap`/`unmodifiableSet` and the deep copy in `ViewData.create` have no separate counterpart.
- Java `String.split` takes a regular expression. The model handles only the single-character separators used here ("\n", ":", "&", "="), and `replaceAll` handles only the character classes used here.
- The aggregation accumulators and their floating-point folding: they are not in this code.
- Null arguments that the code does not check itself: `ViewData.create`, both `ViewDescription.create`s and both `SpanContextImpl.create`s take non-null values in the model. In the source a null tag-value list in `ViewData.create` throws a null-pointer error when it is copied, and a null aggregation value fails the type check; these paths are not modelled.

## Findings

| source | as written | input that shows it | evidently intended | confidence | as-written member | corrected member |
|---|---|---|---|---|---|---|
| contrib/zpages/src/main/java/io/opencensus/zpages/TracezHttpHandler.java:110-114 | a parameter made only of '=' splits into no parts, and `pair[0]` throws `ArrayIndexOutOfBoundsException` | the query "=" (a request for `/tracez?=`) | the parameter is read as an empty name with an empty value, as a parameter with no '=' is read | medium; not executed | Tracez.BareEqualsThrows | Tracez.FixedKeys |
