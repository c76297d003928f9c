# CK.Core sortedness checks and activity-monitor groups, in Dafny

This project models two self-contained pieces of CK.Core and proves
properties of them.

**Sortedness checks** (`enumerable_extension.dfy`, module `EnumerableExtension`).
`IsSortedStrict` and `IsSortedLarge` walk an enumerable once. They keep the
previous element and answer false at the first adjacent pair that compares
`>= 0` (strict) or `> 0` (large). The model keeps that loop as a Dafny
`while` over a `seq<T>`. It is proved against pure "every adjacent pair is
ordered" predicates. Lemmas lift the adjacent check to a global order when
the comparison is transitive, and show that strict order means no
duplicates. A null `Comparison<T>` delegate is `None` and yields the
`ArgumentNullException("comparison")` error before the sequence is read. A
null enumerable is `None` too: asking it for its enumerator yields the
`NullReferenceException` error. The parameterless overloads are the
comparison overloads called with the default comparer, modelled for `int`.

**Activity-monitor groups** (`activity_monitor_group.dfy`, module
`ActivityMonitorGroup`). A `Group` is one frame of the stack of nested log
groups of an activity monitor. `Group` is a class whose methods update its
fields in place: `Initialize`, the `ExceptionData` getter,
`EnsureExceptionData`, `ConsumeConclusionText`, `GroupClosing`,
`GroupClosed` and `Dispose`. `Depth`, `Parent` and
`IsGroupTextTheExceptionMessage` are functions over the fields. The owning
`ActivityMonitor` is reduced to a class `Monitor` that holds these pieces:
- the groups it created, where a group's index is its position;
- how many of them are open;
- the current group;
- the configured `LogLevelFilter`;
- the automatic tags;
- the closings it has reported.

Its `OpenGroup` and `CloseGroup` are reductions of the monitor's own
methods. Beside the classes is a pure specification:
- `GroupView` holds the fields of one group.
- `MonitorState` holds the monitor's state.
- `Stacked` is the stack invariant: exactly the first `depth` groups are open.
  Its `CacheConsistent` part constrains open groups only. A closed group
  keeps its exception-data cache, as the source does
  (`ClosedKeepsExceptionData`), so its `ExceptionData` can be non-null while
  its `Exception` is null, which the getter's documentation
  (ActivityMonitor.Group.cs:113-116) does not foresee.
- `OpenGroupSpec`, `CloseTop` and `DisposeSpec` are functions over these values.

Every class method is proved to move its state as the matching function
does. `OpenGroup` also states which group objects the monitor holds
afterwards, so a caller keeps its groups across nested opens; `NestedUsing`
disposes an outer group after opening an inner one. Lemmas state what disposing a group does overall: every group opened
after it is closed, innermost first. The groups below it are untouched. The
filter and tags it saved are restored. Disposing twice is disposing once.

`log_level_filter.dfy` (module `LogLevels`) holds `LogLevel` and
`LogLevelFilter`. `LogLevelFilter` is an ordered enumeration
(CK.Core/ActivityMonitor/LogLevelFilter.cs:29-66). `nullable.dfy` holds the
`Option` type that stands for a .NET reference that may be null.

## Model

| member | source | states |
|---|---|---|
| EnumerableExtension.IsSortedStrict | CK.Core/EnumerableExtension.cs:65-81 | a null comparison gives the ArgumentNull("comparison") error whatever the sequence, even a null one; otherwise a null sequence gives the NullReference error; otherwise the answer is true if and only if every adjacent pair (prev, current) compares below zero; an empty or one-element sequence gives true |
| EnumerableExtension.IsSortedLarge | CK.Core/EnumerableExtension.cs:90-106 | a null comparison gives the ArgumentNull("comparison") error, even for a null sequence; otherwise a null sequence gives the NullReference error; otherwise true if and only if every adjacent pair compares at most zero; an empty or one-element sequence gives true |
| EnumerableExtension.IsSortedStrictDefault | CK.Core/EnumerableExtension.cs:42-45 | a null sequence gives the NullReference error; otherwise the comparison overload's answer under the default comparer, which is also "every i < j has source[i] < source[j]" |
| EnumerableExtension.IsSortedLargeDefault | CK.Core/EnumerableExtension.cs:53-56 | a null sequence gives the NullReference error; otherwise the comparison overload's answer under the default comparer, which is also "every i < j has source[i] <= source[j]" |
| EnumerableExtension.DefaultCompare | CK.Core/EnumerableExtension.cs:44 | Comparer<int>.Default.Compare: negative, zero or positive exactly when a < b, a == b or a > b |
| EnumerableExtension.StrictBetween | CK.Core/EnumerableExtension.cs:72-80 | when every adjacent pair compares below zero and the comparison is transitive, every pair of positions i < j compares below zero |
| EnumerableExtension.LargeBetween | CK.Core/EnumerableExtension.cs:97-105 | when every adjacent pair compares at most zero and the comparison is transitive, every pair of positions i < j does |
| EnumerableExtension.AdjacentStrictIsGlobal | CK.Core/EnumerableExtension.cs:36-41 | for a transitive comparison, the adjacent check holds if and only if the sequence is in strict ascending order |
| EnumerableExtension.AdjacentLargeIsGlobal | CK.Core/EnumerableExtension.cs:47-52 | for a transitive comparison, the adjacent check holds if and only if the sequence is in large ascending order |
| EnumerableExtension.StrictMeansNoDuplicates | CK.Core/EnumerableExtension.cs:58-64 | "strict (no duplicates)": a strictly sorted sequence holds no value twice, for a transitive comparison under which each value equals itself |
| EnumerableExtension.StrictImpliesLarge | CK.Core/EnumerableExtension.cs:65-106 | a sequence accepted by the strict check is accepted by the large check |
| EnumerableExtension.EqualNeighboursAreLargeNotStrict | CK.Core/EnumerableExtension.cs:65-106 | an adjacent pair that compares equal makes the strict check fail; the large check then holds exactly when it holds on both sides of that pair |
| ActivityMonitorGroup.FilterAfterInitialize | CK.Core/ActivityMonitor/Impl/ActivityMonitor.Group.cs:79-83 | the configured filter becomes Trace if and only if the level is at least Error or it already was Trace; it changes only for a level at least Error |
| ActivityMonitorGroup.Initialized | CK.Core/ActivityMonitor/Impl/ActivityMonitor.Group.cs:77-91 | after Initialize the group is open; its text is the given text or "" when null; its tags are the given tags or the empty tag; its close time is DateTime.MinValue; it holds the monitor's filter and tags from before the switch to Trace, the level, the log time, the callback and the exception; it has no cached exception data |
| ActivityMonitorGroup.Group.Initialize | CK.Core/ActivityMonitor/Impl/ActivityMonitor.Group.cs:77-91 | the group's fields become Initialized of the monitor's filter and tags before the call, and the monitor's configured filter becomes FilterAfterInitialize; it follows the corrected Initialize of the finding below, so it also clears the exception-data cache, which the source does not |
| ActivityMonitorGroup.InitializeAsWritten | CK.Core/ActivityMonitor/Impl/ActivityMonitor.Group.cs:77-91 | Initialize as the source writes it: every field as in Initialized except the exception-data cache, which keeps its previous value |
| ActivityMonitorGroup.StaleExceptionDataAsWritten | CK.Core/ActivityMonitor/Impl/ActivityMonitor.Group.cs:117-131 | a group object reused after a group whose CKException data was read answers that data, although the new group has no exception |
| ActivityMonitorGroup.InitializedHasNoStaleData | CK.Core/ActivityMonitor/Impl/ActivityMonitor.Group.cs:112-141 | with the cache cleared, a group opened without an exception answers null from ExceptionData and EnsureExceptionData |
| ActivityMonitorGroup.ExceptionDataOf | CK.Core/ActivityMonitor/Impl/ActivityMonitor.Group.cs:117-131 | the ExceptionData getter: the cache when set; otherwise the data of a CKException; otherwise null |
| ActivityMonitorGroup.Group.GetExceptionData | CK.Core/ActivityMonitor/Impl/ActivityMonitor.Group.cs:117-131 | returns ExceptionDataOf the cache and the exception and stores it in the cache; a consistent cache stays consistent; the monitor stays valid and its state changes only in this group's view |
| ActivityMonitorGroup.EnsuredExceptionData | CK.Core/ActivityMonitor/Impl/ActivityMonitor.Group.cs:132-141 | EnsureExceptionData: the cache when set; otherwise the data created from the exception; null exactly when there is no exception |
| ActivityMonitorGroup.Group.EnsureExceptionData | CK.Core/ActivityMonitor/Impl/ActivityMonitor.Group.cs:138-141 | returns EnsuredExceptionData and stores it in the cache; a consistent cache stays consistent; the monitor stays valid and its state changes only in this group's view |
| ActivityMonitorGroup.Group.Depth | CK.Core/ActivityMonitor/Impl/ActivityMonitor.Group.cs:148-151 | index + 1: at least 1, and exactly 1 for a top-level group (index 0) |
| ActivityMonitorGroup.Group.Parent | CK.Core/ActivityMonitor/Impl/ActivityMonitor.Group.cs:146-151 | Parent is null exactly when Depth is 1; otherwise it is the monitor's group one position lower, of depth Depth - 1 |
| ActivityMonitorGroup.Group.IsGroupTextTheExceptionMessage | CK.Core/ActivityMonitor/Impl/ActivityMonitor.Group.cs:183-186 | false without an exception; when true, the group text is the exception's message |
| ActivityMonitorGroup.ConsumedText | CK.Core/ActivityMonitor/Impl/ActivityMonitor.Group.cs:229-245 | no callback gives null; a callback that returns gives its (possibly null) text; a callback that throws gives the non-null error text built from the exception message |
| ActivityMonitorGroup.Group.ConsumeConclusionText | CK.Core/ActivityMonitor/Impl/ActivityMonitor.Group.cs:225-245 | returns ConsumedText of the callback and clears the callback, so a second call returns null |
| ActivityMonitorGroup.WithConclusion | CK.Core/ActivityMonitor/Impl/ActivityMonitor.Group.cs:209-218 | without a text the list reference is unchanged (null stays null); with a text the list exists, keeps its items and gains exactly one conclusion at its end, tagged as the callback's conclusion |
| ActivityMonitorGroup.Group.GroupClosing | CK.Core/ActivityMonitor/Impl/ActivityMonitor.Group.cs:209-218 | returns WithConclusion of the given list and the consumed text; the callback is consumed |
| ActivityMonitorGroup.Closed | CK.Core/ActivityMonitor/Impl/ActivityMonitor.Group.cs:220-224 | a group closed by the monitor is not open, has no exception and no callback, and carries the close time |
| ActivityMonitorGroup.ClosedKeepsExceptionData | CK.Core/ActivityMonitor/Impl/ActivityMonitor.Group.cs:117-131 | closing keeps the exception-data cache, so a closed group whose cache was filled still answers that data from ExceptionData although its Exception is null |
| ActivityMonitorGroup.Group.GroupClosed | CK.Core/ActivityMonitor/Impl/ActivityMonitor.Group.cs:220-224 | the group text and the exception become null, so the group is closed |
| ActivityMonitorGroup.Group.constructor | CK.Core/ActivityMonitor/Impl/ActivityMonitor.Group.cs:59-63 | a new group is bound to its monitor and index and holds the default field values (closed) |
| ActivityMonitorGroup.OpenGroupSpec | CK.Core/ActivityMonitor/Impl/ActivityMonitor.Group.cs:252-263 | opening initializes the group at index depth (created when there is none yet), makes it current and keeps the stack invariant; the other groups, tags and closings are unchanged |
| ActivityMonitorGroup.Monitor.OpenGroup | CK.Core/ActivityMonitor/Impl/ActivityMonitor.Group.cs:252-263 | the monitor's state becomes OpenGroupSpec of its old state; the returned group is current and sits at the old depth; the group objects already held keep their positions, and a new one is appended only when there was none at that depth |
| ActivityMonitorGroup.Monitor.CreateGroup | CK.Core/ActivityMonitor/Impl/ActivityMonitor.Group.cs:252-263 | a fresh group bound to this monitor at the given index |
| ActivityMonitorGroup.CloseTop | CK.Core/ActivityMonitor/Impl/ActivityMonitor.Group.cs:168-178 | closing the current group keeps the stack invariant and lowers the depth by one |
| ActivityMonitorGroup.CloseTopRestores | CK.Core/ActivityMonitor/Impl/ActivityMonitor.Group.cs:168-178 | closing the current group closes it and leaves every other group as it was, restores the filter and the tags the group saved, and reports exactly one closing, for that group at its depth |
| ActivityMonitorGroup.Monitor.CloseGroup | CK.Core/ActivityMonitor/Impl/ActivityMonitor.Group.cs:168-178 | the monitor's state becomes CloseTop of its old state: the group is closed, its saved filter and tags are restored, its closing is reported, its parent becomes current |
| ActivityMonitorGroup.DisposeSpec | CK.Core/ActivityMonitor/Impl/ActivityMonitor.Group.cs:197-207 | disposing a closed group changes nothing; disposing an open group leaves the depth at its index; the stack invariant holds |
| ActivityMonitorGroup.Group.Dispose | CK.Core/ActivityMonitor/Impl/ActivityMonitor.Group.cs:197-207 | the monitor's state becomes DisposeSpec of its old state; an open group's index becomes the depth |
| ActivityMonitorGroup.Group.CloseGroupsOpenedAfter | CK.Core/ActivityMonitor/Impl/ActivityMonitor.Group.cs:204 | the loop of Dispose leaves this group current without changing what disposing it produces |
| ActivityMonitorGroup.NestedUsing | CK.Core/ActivityMonitor/Impl/ActivityMonitor.Group.cs:197-207 | two nested groups left through the outer one's Dispose: both are closed, the inner one reported first, and the filter the outer Error group switched to Trace is given back |
| ActivityMonitorGroup.DisposeStep | CK.Core/ActivityMonitor/Impl/ActivityMonitor.Group.cs:204 | disposing the current group closes it alone, and closing it first does not change what disposing a lower group produces |
| ActivityMonitorGroup.DisposeClosesAbove | CK.Core/ActivityMonitor/Impl/ActivityMonitor.Group.cs:197-207 | disposing an open group closes it and every group opened after it; groups below and above the old depth are untouched; the filter and tags it saved are restored |
| ActivityMonitorGroup.ClosingsDown | CK.Core/ActivityMonitor/Impl/ActivityMonitor.Group.cs:204-205 | the closings of the groups from one depth down to another, one per group, innermost first |
| ActivityMonitorGroup.DisposeReportsInnermostFirst | CK.Core/ActivityMonitor/Impl/ActivityMonitor.Group.cs:197-207 | disposing an open group reports the closings of the groups from the current depth down to it, innermost first, after the earlier ones |
| ActivityMonitorGroup.DisposeIsIdempotent | CK.Core/ActivityMonitor/Impl/ActivityMonitor.Group.cs:200-207 | disposing a group again right after, whatever the time, changes nothing (a group object reopened in between is open again, and disposing it closes it as DisposeClosesAbove states) |
| ActivityMonitorGroup.OpenThenDisposeRestores | CK.Core/ActivityMonitor/Impl/ActivityMonitor.Group.cs:166-178 | opening a group and disposing it restores the depth, the groups below, the filter (an Error group's switch to Trace lasts as long as the group) and the tags, and reports one closing with the callback's conclusion |

## Left out

- The plugin activation engine, `CKSortedArrayList`, the reflection helpers, configuration and discovery are not part of this model.
- `LogLevel.cs` is not part of this model. The levels are taken in the order None < Trace < Info < Warn < Error < Fatal.
- `ActivityMonitor.cs` is not part of this model. `Monitor.OpenGroup` and `Monitor.CloseGroup` are reductions of its methods. Their restoring of the saved filter and tags follows the documentation of `SavedMonitorFilter` and `SavedMonitorTags`. Reporting to clients is a `closings` sequence. The explicit conclusions passed to `CloseGroup` are the null that `Dispose` passes.
- `DoSetConfiguredFilter` is an assignment of the configured filter. Its other effects are not modelled.
- ActivityMonitorGroup.Initialized: saves the monitor's configured filter, not its actual `Filter`. The actual filter also depends on client filters, which are not modelled.
- ActivityMonitorGroup.Group.Dispose: every group it closes gets the same `now`. The source reads `DateTime.UtcNow` once per close. Times are integer ticks.
- `CKExceptionData.CreateFrom` is a parameter of `EnsureExceptionData`. A `CKException` carries its `CKExceptionData` as a field.
- The text of the resource `ActivityMonitorErrorWhileGetConclusionText` is a stand-in prefix. So is the text of the tag `TagGetTextConclusion`.
- ActivityMonitorGroup.Group.IsGroupTextTheExceptionMessage: compares the texts by value, not by `ReferenceEquals`. It can answer true where the source, comparing references, answers false.
- `CKTrait` is a sequence of atomic tags. Combining and normalising tags is not modelled.
- The protected `GetConclusionText` setter is not modelled. The callback is set only by `Initialize`.
- The protected setters of `SavedMonitorFilter` and `SavedMonitorTags` are not modelled. The saved filter and tags are set only by `Initialize`.
- ActivityMonitorGroup.Group.GroupClosing: returns the list of conclusions as a new value. The source adds the conclusion to the caller's list in place, through a `ref` parameter, so a list shared with other holders is not modelled.
- The default-comparer overloads are modelled for `int` elements only.
- Comparison delegates and enumerators that throw, and enumerables that change while they are enumerated, are not modelled.
- Thread checks and concurrent use of a monitor are not modelled.
- ActivityMonitorGroup.Group.Initialize: clears the exception-data cache, which the source's `Initialize` does not (see the finding below). The stack invariant `Stacked`, whose `CacheConsistent` says an open group without an exception has no exception data, holds for this corrected program only.

## Findings

| source | as written | input that shows it | evidently intended | confidence | as-written member | corrected member |
|---|---|---|---|---|---|---|
| CK.Core/ActivityMonitor/Impl/ActivityMonitor.Group.cs:77-91 | `Initialize` sets every field except `_exceptionData`. Only the `ExceptionData` getter (line 126) and `EnsureExceptionData` (line 140) assign that field, and it is private to `Group`. | Open a group with a `CKException` and read its `ExceptionData`. Close it, then reuse the same group object for a group with no exception. `ExceptionData` still returns the first group's data. | `Initialize` clears the cache, so a group without an exception answers null, as the getter's documentation promises (lines 112-116). | medium, not executed: reuse of a disposed group object is stated by the documentation of `Initialize` (line 66, "initializes or reinitializes") | ActivityMonitorGroup.InitializeAsWritten | ActivityMonitorGroup.Initialized, ActivityMonitorGroup.Group.Initialize |
