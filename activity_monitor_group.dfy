/**
 * Model of ActivityMonitor.Group: one frame of the stack of nested log
 * groups of an activity monitor.
 *
 * The owning monitor is reduced to what a group reads and changes: the
 * groups it has created (a group's index is its position), how many of them
 * are open, the current (innermost open) group, the configured filter, the
 * automatic tags, and the sequence of closings it has reported.
 *
 * The pure part (GroupView, MonitorState and the functions over them) is the
 * specification; the classes Group and Monitor update their fields in place
 * and are proved to follow it.
 */
module ActivityMonitorGroup {

  import opened Nullable
  import LogLevels

  type LogLevel = LogLevels.LogLevel
  type LogLevelFilter = LogLevels.LogLevelFilter

  /** A CKTrait, kept as its atomic tags. */
  type Tags = seq<string>

  /** ActivityMonitor.EmptyTag. */
  const EmptyTag: Tags := []

  /** The tag of a conclusion produced by the group's callback (its text is a stand-in). */
  const TagGetTextConclusion: Tags := ["c:GetText"]

  /** DateTime.MinValue in ticks: CloseLogTimeUtc while the group is not closed. */
  const MinValue: int := 0

  /** CKExceptionData: serializable information about an exception. */
  datatype ExceptionData = ExceptionData(message: string)

  /** An exception: a CKException already carries its CKExceptionData. */
  datatype Exception =
    | PlainException(message: string)
    | CKException(message: string, data: ExceptionData)

  /** The Func<string> conclusion callback: it returns a text (possibly null) or throws. */
  datatype ConclusionCallback = Returns(result: Option<string>) | Throws(error: Exception)

  /** ActivityLogGroupConclusion. */
  datatype Conclusion = Conclusion(tag: Tags, text: string)

  /** What the monitor reports when it closes a group: its depth and its conclusions list. */
  datatype Closing = Closing(depth: nat, conclusions: Option<seq<Conclusion>>)

  /** The fields of a Group (null is None). */
  datatype GroupView = GroupView(
    text: Option<string>,
    tags: Option<Tags>,
    level: LogLevel,
    logTime: int,
    closeLogTime: int,
    exception: Option<Exception>,
    exceptionData: Option<ExceptionData>,
    getConclusion: Option<ConclusionCallback>,
    savedFilter: LogLevelFilter,
    savedTags: Option<Tags>)

  /** The fields of a group just created by the monitor: the .NET defaults. */
  const NewGroup: GroupView :=
    GroupView(None, None, LogLevels.LogLevel.None, MinValue, MinValue, None, None, None,
              LogLevels.LogLevelFilter.None, None)

  /** GroupText is non-null if and only if the group is open. */
  predicate IsOpen(v: GroupView) {
    v.text.Some?
  }

  /**
   * The promise of ExceptionData and EnsureExceptionData ("null if no
   * Exception exists"), for an open group: no exception, no exception data.
   */
  predicate CacheConsistent(v: GroupView) {
    IsOpen(v) && v.exception.None? ==> v.exceptionData.None?
  }

  // ---------------------------------------------------------------------
  // Initialize
  // ---------------------------------------------------------------------

  /** The monitor's configured filter after a group of `level` is initialized. */
  function FilterAfterInitialize(configured: LogLevelFilter, level: LogLevel): (r: LogLevelFilter)
    ensures r == LogLevels.LogLevelFilter.Trace <==> level.AtLeastError() || configured == LogLevels.LogLevelFilter.Trace
    ensures r != configured ==> level.AtLeastError()
  {
    if level.AtLeastError() && configured != LogLevels.LogLevelFilter.Trace then LogLevels.LogLevelFilter.Trace
    else configured
  }

  /**
   * The group's fields after Initialize, with the exception-data cache
   * cleared (the corrected Initialize, see InitializeAsWritten).
   */
  function Initialized(monitorFilter: LogLevelFilter, monitorTags: Tags, tags: Option<Tags>, level: LogLevel,
                       text: Option<string>, getConclusionText: Option<ConclusionCallback>, logTimeUtc: int,
                       ex: Option<Exception>): (r: GroupView)
    ensures IsOpen(r) && r.tags.Some? && r.closeLogTime == MinValue
    ensures text.Some? ==> r.text == text
    ensures text.None? ==> r.text == Some("")
    ensures tags.Some? ==> r.tags == tags
    ensures tags.None? ==> r.tags == Some(EmptyTag)
    ensures r.savedFilter == monitorFilter && r.savedTags == Some(monitorTags)
    ensures r.level == level && r.logTime == logTimeUtc && r.getConclusion == getConclusionText && r.exception == ex
    ensures r.exceptionData.None? && CacheConsistent(r)
  {
    GroupView(Some(text.GetOr("")), Some(tags.GetOr(EmptyTag)), level, logTimeUtc, MinValue, ex, None,
              getConclusionText, monitorFilter, Some(monitorTags))
  }

  /**
   * The group's fields after Initialize as the source writes it: every field
   * is set except the exception-data cache, which keeps what a previous use of
   * the same group object left there.
   */
  function InitializeAsWritten(previous: GroupView, monitorFilter: LogLevelFilter, monitorTags: Tags,
                               tags: Option<Tags>, level: LogLevel, text: Option<string>,
                               getConclusionText: Option<ConclusionCallback>, logTimeUtc: int,
                               ex: Option<Exception>): (r: GroupView)
    ensures r.exceptionData == previous.exceptionData
    ensures r.(exceptionData := None) == Initialized(monitorFilter, monitorTags, tags, level, text, getConclusionText, logTimeUtc, ex)
  {
    Initialized(monitorFilter, monitorTags, tags, level, text, getConclusionText, logTimeUtc, ex)
      .(exceptionData := previous.exceptionData)
  }

  // ---------------------------------------------------------------------
  // Exception data
  // ---------------------------------------------------------------------

  /** The ExceptionData getter: the cache, else the data a CKException carries. */
  function ExceptionDataOf(cache: Option<ExceptionData>, ex: Option<Exception>): (r: Option<ExceptionData>)
    ensures cache.Some? ==> r == cache
    ensures cache.None? && (ex.None? || ex.value.PlainException?) ==> r.None?
    ensures cache.None? && ex.Some? && ex.value.CKException? ==> r == Some(ex.value.data)
  {
    if cache.None? && ex.Some? && ex.value.CKException? then Some(ex.value.data) else cache
  }

  /** EnsureExceptionData: the cache, else CKExceptionData.CreateFrom(exception), null for no exception. */
  function EnsuredExceptionData(cache: Option<ExceptionData>, ex: Option<Exception>,
                                createFrom: Exception -> ExceptionData): (r: Option<ExceptionData>)
    ensures cache.Some? ==> r == cache
    ensures cache.None? ==> (r.Some? <==> ex.Some?)
    ensures cache.None? && ex.Some? ==> r == Some(createFrom(ex.value))
  {
    if cache.Some? then cache
    else if ex.Some? then Some(createFrom(ex.value))
    else None
  }

  // ---------------------------------------------------------------------
  // Conclusion callback and closing
  // ---------------------------------------------------------------------

  /** The text of the resource ActivityMonitorErrorWhileGetConclusionText, formatted with a message. */
  function ErrorWhileGetConclusionText(message: string): string {
    "Error: " + message
  }

  /** What ConsumeConclusionText returns for a callback. */
  function ConsumedText(callback: Option<ConclusionCallback>): (r: Option<string>)
    ensures callback.None? ==> r.None?
    ensures callback.Some? && callback.value.Returns? ==> r == callback.value.result
    ensures callback.Some? && callback.value.Throws? ==>
              r.Some? && r.value == ErrorWhileGetConclusionText(callback.value.error.message)
  {
    match callback
    case None => None
    case Some(Returns(result)) => result
    case Some(Throws(error)) => Some(ErrorWhileGetConclusionText(error.message))
  }

  /** The conclusions held by a list reference that may be null. */
  function Items(list: Option<seq<Conclusion>>): seq<Conclusion> {
    list.GetOr([])
  }

  /** GroupClosing's effect on the conclusions list, given the consumed text. */
  function WithConclusion(list: Option<seq<Conclusion>>, auto: Option<string>): (r: Option<seq<Conclusion>>)
    ensures auto.None? ==> r == list
    ensures auto.Some? ==> r.Some? && |Items(r)| == |Items(list)| + 1
    ensures Items(list) <= Items(r)
    ensures auto.Some? ==> Items(r)[|Items(list)|] == Conclusion(TagGetTextConclusion, auto.value)
  {
    if auto.None? then list
    else Some(Items(list) + [Conclusion(TagGetTextConclusion, auto.value)])
  }

  /** The closing the monitor reports for a group at `depth`, with the conclusion its callback gives. */
  function ClosingOf(v: GroupView, depth: nat): Closing {
    Closing(depth, WithConclusion(None, ConsumedText(v.getConclusion)))
  }

  /** A group after the monitor closed it at `now`: callback consumed, close time set, GroupClosed. */
  function Closed(v: GroupView, now: int): (r: GroupView)
    ensures !IsOpen(r) && r.exception.None? && r.getConclusion.None? && r.closeLogTime == now
  {
    v.(text := None, exception := None, getConclusion := None, closeLogTime := now)
  }

  /**
   * Closing forgets the exception but keeps the exception-data cache: once
   * that cache was filled, the closed group's ExceptionData getter still
   * answers it although its Exception is null.
   */
  lemma ClosedKeepsExceptionData(v: GroupView, now: int)
    ensures ExceptionDataOf(Closed(v, now).exceptionData, Closed(v, now).exception) == v.exceptionData
  {
  }

  // ---------------------------------------------------------------------
  // The monitor's stack of groups
  // ---------------------------------------------------------------------

  /** The monitor's state as far as groups are concerned. */
  datatype MonitorState = MonitorState(
    groups: seq<GroupView>,
    depth: nat,
    configuredFilter: LogLevelFilter,
    autoTags: Tags,
    closings: seq<Closing>)

  /**
   * The stack invariant: exactly the first `depth` groups are open; an open
   * group has its tags and saved tags; every cache is consistent.
   */
  predicate Stacked(s: MonitorState) {
    && s.depth <= |s.groups|
    && forall i :: 0 <= i < |s.groups| ==> InPlace(s.groups[i], i < s.depth)
  }

  /** A group below the depth is open with its tags and saved tags, one above is closed; its cache is consistent. */
  predicate InPlace(v: GroupView, belowDepth: bool) {
    && (IsOpen(v) <==> belowDepth)
    && (belowDepth ==> v.tags.Some? && v.savedTags.Some?)
    && CacheConsistent(v)
  }

  /**
   * Opening a group: the group at index `depth` (created when there is none
   * yet) is initialized and becomes the current one.
   */
  function OpenGroupSpec(s: MonitorState, tags: Option<Tags>, level: LogLevel, text: Option<string>,
                         getConclusionText: Option<ConclusionCallback>, logTimeUtc: int,
                         ex: Option<Exception>): (r: MonitorState)
    requires Stacked(s)
    ensures Stacked(r) && r.depth == s.depth + 1
    ensures |r.groups| == if s.depth == |s.groups| then |s.groups| + 1 else |s.groups|
    ensures r.groups[s.depth] ==
              Initialized(s.configuredFilter, s.autoTags, tags, level, text, getConclusionText, logTimeUtc, ex)
    ensures forall i :: 0 <= i < |s.groups| && i != s.depth ==> r.groups[i] == s.groups[i]
    ensures r.configuredFilter == FilterAfterInitialize(s.configuredFilter, level)
    ensures r.autoTags == s.autoTags && r.closings == s.closings
  {
    var g := Initialized(s.configuredFilter, s.autoTags, tags, level, text, getConclusionText, logTimeUtc, ex);
    s.(groups := if s.depth == |s.groups| then s.groups + [g] else s.groups[s.depth := g],
       depth := s.depth + 1,
       configuredFilter := FilterAfterInitialize(s.configuredFilter, level))
  }

  /**
   * Closing the current group: its conclusion is consumed and reported, it is
   * closed, the filter and tags it saved are restored and its parent becomes
   * the current group.
   */
  function CloseTop(s: MonitorState, now: int): (r: MonitorState)
    requires Stacked(s) && s.depth > 0
    ensures Stacked(r) && r.depth == s.depth - 1 && |r.groups| == |s.groups|
  {
    var top := s.groups[s.depth - 1];
    s.(groups := s.groups[s.depth - 1 := Closed(top, now)],
       depth := s.depth - 1,
       configuredFilter := top.savedFilter,
       autoTags := top.savedTags.value,
       closings := s.closings + [ClosingOf(top, s.depth)])
  }

  /**
   * What closing the top group does: that group is closed, every other group
   * is left as it was, the monitor gets back the filter and the tags saved
   * when the group was opened, and one closing is reported.
   */
  lemma CloseTopRestores(s: MonitorState, now: int)
    requires Stacked(s) && s.depth > 0
    ensures CloseTop(s, now).groups[s.depth - 1] == Closed(s.groups[s.depth - 1], now)
    ensures forall i :: 0 <= i < |s.groups| && i != s.depth - 1 ==> CloseTop(s, now).groups[i] == s.groups[i]
    ensures CloseTop(s, now).configuredFilter == s.groups[s.depth - 1].savedFilter
    ensures CloseTop(s, now).autoTags == s.groups[s.depth - 1].savedTags.value
    ensures CloseTop(s, now).closings == s.closings + [ClosingOf(s.groups[s.depth - 1], s.depth)]
  {
  }

  /**
   * Disposing the group at `index`: nothing when it is closed; otherwise the
   * current group is closed until this one has been closed too.
   */
  function DisposeSpec(s: MonitorState, index: nat, now: int): (r: MonitorState)
    requires Stacked(s) && index < |s.groups|
    ensures Stacked(r) && |r.groups| == |s.groups|
    ensures !IsOpen(s.groups[index]) ==> r == s
    ensures IsOpen(s.groups[index]) ==> r.depth == index
    decreases s.depth
  {
    if !IsOpen(s.groups[index]) then s
    else
      var t := CloseTop(s, now);
      if t.depth == index then t else DisposeSpec(t, index, now)
  }

  /**
   * The closings reported while the groups at depths `from` down to `to + 1`
   * are closed one after the other, innermost first.
   */
  function ClosingsDown(groups: seq<GroupView>, from: nat, to: nat): (trace: seq<Closing>)
    requires to <= from <= |groups|
    ensures |trace| == from - to
    ensures forall k :: 0 <= k < |trace| ==> trace[k] == ClosingOf(groups[from - 1 - k], from - k)
    decreases from - to
  {
    if from == to then [] else [ClosingOf(groups[from - 1], from)] + ClosingsDown(groups, from - 1, to)
  }

  /**
   * One step of Dispose's loop: disposing the current group closes it alone,
   * and closing it first does not change what disposing a group below does.
   */
  lemma DisposeStep(s: MonitorState, index: nat, now: int)
    requires Stacked(s) && index < s.depth
    ensures DisposeSpec(s, s.depth - 1, now) == CloseTop(s, now)
    ensures index < s.depth - 1 ==> DisposeSpec(CloseTop(s, now), index, now) == DisposeSpec(s, index, now)
  {
  }

  /**
   * Disposing an open group closes every group opened after it and then the
   * group itself; the groups below are untouched, and the filter and tags
   * are those the group saved when it was opened.
   */
  lemma {:induction false} DisposeClosesAbove(s: MonitorState, index: nat, now: int)
    requires Stacked(s) && index < |s.groups| && IsOpen(s.groups[index])
    ensures var r := DisposeSpec(s, index, now);
      && r.depth == index
      && (forall i :: 0 <= i < index ==> r.groups[i] == s.groups[i])
      && (forall i :: index <= i < s.depth ==> r.groups[i] == Closed(s.groups[i], now))
      && (forall i :: s.depth <= i < |s.groups| ==> r.groups[i] == s.groups[i])
      && r.configuredFilter == s.groups[index].savedFilter
      && r.autoTags == s.groups[index].savedTags.value
    decreases s.depth
  {
    var t := CloseTop(s, now);
    if t.depth != index {
      DisposeClosesAbove(t, index, now);
    }
  }

  /** The closings that disposing an open group reports: one per group closed, innermost first. */
  lemma {:induction false} DisposeReportsInnermostFirst(s: MonitorState, index: nat, now: int)
    requires Stacked(s) && index < |s.groups| && IsOpen(s.groups[index])
    ensures DisposeSpec(s, index, now).closings == s.closings + ClosingsDown(s.groups, s.depth, index)
    decreases s.depth
  {
    var t := CloseTop(s, now);
    if t.depth != index {
      DisposeReportsInnermostFirst(t, index, now);
      var below := ClosingsDown(s.groups, t.depth, index);
      assert ClosingsDown(t.groups, t.depth, index) == below;
      assert ClosingsDown(s.groups, s.depth, index) == [ClosingOf(s.groups[s.depth - 1], s.depth)] + below;
      assert t.closings + below == s.closings + ([ClosingOf(s.groups[s.depth - 1], s.depth)] + below);
    }
  }

  /** Disposing twice is disposing once: the second call finds the group closed. */
  lemma DisposeIsIdempotent(s: MonitorState, index: nat, now: int, later: int)
    requires Stacked(s) && index < |s.groups|
    ensures DisposeSpec(DisposeSpec(s, index, now), index, later) == DisposeSpec(s, index, now)
  {
    if IsOpen(s.groups[index]) {
      DisposeClosesAbove(s, index, now);
    }
  }

  /**
   * Opening a group and disposing it puts the monitor back as it was (depth,
   * groups below, filter, tags) and reports one closing, with the callback's
   * conclusion if any: an Error group's switch to Trace lasts as long as the group.
   */
  lemma OpenThenDisposeRestores(s: MonitorState, tags: Option<Tags>, level: LogLevel, text: Option<string>,
                                getConclusionText: Option<ConclusionCallback>, logTimeUtc: int,
                                ex: Option<Exception>, now: int)
    requires Stacked(s)
    ensures var o := OpenGroupSpec(s, tags, level, text, getConclusionText, logTimeUtc, ex);
      var r := DisposeSpec(o, s.depth, now);
      && r.depth == s.depth
      && (forall i :: 0 <= i < s.depth ==> r.groups[i] == s.groups[i])
      && r.configuredFilter == s.configuredFilter
      && r.autoTags == s.autoTags
      && r.closings == s.closings + [Closing(s.depth + 1, WithConclusion(None, ConsumedText(getConclusionText)))]
  {
    var o := OpenGroupSpec(s, tags, level, text, getConclusionText, logTimeUtc, ex);
    DisposeClosesAbove(o, s.depth, now);
    DisposeReportsInnermostFirst(o, s.depth, now);
  }

  // ---------------------------------------------------------------------
  // The exception-data cache across reuse of a group object
  // ---------------------------------------------------------------------

  /**
   * As written, a group object reused after a group whose CKException data
   * was read still answers that data, although the new group has no exception.
   */
  lemma StaleExceptionDataAsWritten()
    ensures var data := ExceptionData("first failure");
      var first := Initialized(LogLevels.LogLevelFilter.Info, EmptyTag, None, LogLevels.LogLevel.Error,
                               None, None, 1, Some(CKException("first failure", data)));
      var read := first.(exceptionData := ExceptionDataOf(first.exceptionData, first.exception));
      var closed := Closed(read, 2);
      var reused := InitializeAsWritten(closed, LogLevels.LogLevelFilter.Info, EmptyTag, None,
                                        LogLevels.LogLevel.Info, Some("second"), None, 3, None);
      && IsOpen(reused) && reused.exception.None?
      && ExceptionDataOf(reused.exceptionData, reused.exception) == Some(data)
      && !CacheConsistent(reused)
  {
  }

  /** With the cache cleared by Initialize, a group opened without an exception has no exception data. */
  lemma InitializedHasNoStaleData(monitorFilter: LogLevelFilter, monitorTags: Tags, tags: Option<Tags>,
                                  level: LogLevel, text: Option<string>,
                                  getConclusionText: Option<ConclusionCallback>, logTimeUtc: int,
                                  createFrom: Exception -> ExceptionData)
    ensures var g := Initialized(monitorFilter, monitorTags, tags, level, text, getConclusionText, logTimeUtc, None);
      && ExceptionDataOf(g.exceptionData, g.exception).None?
      && EnsuredExceptionData(g.exceptionData, g.exception, createFrom).None?
  {
  }

  // ---------------------------------------------------------------------
  // The classes
  // ---------------------------------------------------------------------

  /** The part of ActivityMonitor a Group reads and changes. */
  class Monitor {
    var groups: seq<Group>
    var depth: nat
    var current: Group?
    var configuredFilter: LogLevelFilter
    var autoTags: Tags
    var closings: seq<Closing>
    /** The fields of each group, position by position. */
    ghost var views: seq<GroupView>

    /** Every group knows this monitor and its own position. */
    ghost predicate Indexed()
      reads this
    {
      forall i :: 0 <= i < |groups| ==> groups[i].monitor == this && groups[i].index == i
    }

    ghost function State(): MonitorState
      reads this
    {
      MonitorState(views, depth, configuredFilter, autoTags, closings)
    }

    ghost predicate Valid()
      reads this, groups
    {
      && Indexed()
      && |views| == |groups|
      && (forall i :: 0 <= i < |groups| ==> groups[i].View() == views[i])
      && Stacked(State())
      && current == (if depth == 0 then null else groups[depth - 1])
    }

    constructor (filter: LogLevelFilter, tags: Tags)
      ensures Valid() && State() == MonitorState([], 0, filter, tags, [])
    {
      groups, depth, current := [], 0, null;
      configuredFilter, autoTags, closings := filter, tags, [];
      views := [];
    }

    /** Opening a group, reduced: CreateGroup at the next index when needed, then Initialize. */
    method OpenGroup(tags: Option<Tags>, level: LogLevel, text: Option<string>,
                     getConclusionText: Option<ConclusionCallback>, logTimeUtc: int,
                     ex: Option<Exception>) returns (g: Group)
      requires Valid()
      modifies this, groups
      ensures Valid() && g == current && g.index == old(depth)
      ensures State() == OpenGroupSpec(old(State()), tags, level, text, getConclusionText, logTimeUtc, ex)
      ensures old(depth) < old(|groups|) ==> groups == old(groups)
      ensures old(depth) == old(|groups|) ==> groups == old(groups) + [g]
    {
      ghost var s0 := State();
      if depth == |groups| {
        g := CreateGroup(depth);
        groups, views := groups + [g], views + [g.View()];
      } else {
        g := groups[depth];
      }
      g.Initialize(tags, level, text, getConclusionText, logTimeUtc, ex);
      depth, current, views := depth + 1, g, views[depth := g.View()];
      forall i | 0 <= i < |groups|
        ensures groups[i].View() == views[i]
      {
        if i != g.index {
          assert groups[i].index != g.index;
        }
      }
      assert State() == OpenGroupSpec(s0, tags, level, text, getConclusionText, logTimeUtc, ex);
    }

    /**
     * Records in the ghost views that group `g` filled its exception-data
     * cache: the only field the cache operations change.
     */
    ghost method Refresh(g: Group)
      requires Indexed() && |views| == |groups| && g.index < |groups| && groups[g.index] == g
      requires forall i :: 0 <= i < |groups| && i != g.index ==> groups[i].View() == views[i]
      requires views[g.index].(exceptionData := g.exceptionData) == g.View()
      requires Stacked(State().(groups := views[g.index := g.View()]))
      requires current == (if depth == 0 then null else groups[depth - 1])
      modifies this`views
      ensures Valid() && views == old(views)[g.index := g.View()]
    {
      views := views[g.index := g.View()];
    }

    /** CreateGroup: a new group bound to this monitor at `index`. */
    method CreateGroup(index: nat) returns (g: Group)
      ensures fresh(g) && g.monitor == this && g.index == index && g.View() == NewGroup
    {
      g := new Group(this, index);
    }

    /**
     * CloseGroup, reduced: the current group's conclusion is collected, its
     * close time set and it is closed; the filter and tags it saved are
     * restored, the closing is reported and its parent becomes current.
     */
    method CloseGroup(now: int)
      requires Valid() && depth > 0
      modifies this, groups
      ensures Valid() && groups == old(groups)
      ensures State() == CloseTop(old(State()), now)
    {
      ghost var s0 := State();
      var g := current;
      ghost var top := views[depth - 1];
      assert g == groups[depth - 1] && g.View() == top && top.savedTags.Some?;
      var conclusions := g.GroupClosing(None);
      g.closeLogTime := now;
      g.GroupClosed();
      assert g.View() == Closed(top, now);
      var d := depth - 1;
      configuredFilter, autoTags, closings := g.savedMonitorFilter, g.savedMonitorTags.value, closings + [Closing(depth, conclusions)];
      depth, current, views := d, if d == 0 then null else groups[d - 1], views[d := g.View()];
      forall i | 0 <= i < |groups|
        ensures groups[i].View() == views[i]
      {
        if i != g.index {
          assert groups[i].index != g.index;
        }
      }
      assert views == s0.groups[d := Closed(top, now)];
      assert State() == CloseTop(s0, now);
    }
  }

  /** ActivityMonitor.Group. */
  class Group {
    const monitor: Monitor
    const index: nat
    var text: Option<string>
    var tags: Option<Tags>
    var level: LogLevel
    var logTime: int
    var closeLogTime: int
    var exception: Option<Exception>
    var exceptionData: Option<ExceptionData>
    var getConclusion: Option<ConclusionCallback>
    var savedMonitorFilter: LogLevelFilter
    var savedMonitorTags: Option<Tags>

    ghost function View(): GroupView
      reads this
    {
      GroupView(text, tags, level, logTime, closeLogTime, exception, exceptionData, getConclusion,
                savedMonitorFilter, savedMonitorTags)
    }

    constructor (monitor: Monitor, index: nat)
      ensures this.monitor == monitor && this.index == index && View() == NewGroup
    {
      this.monitor, this.index := monitor, index;
      text, tags, level := None, None, LogLevels.LogLevel.None;
      logTime, closeLogTime := MinValue, MinValue;
      exception, exceptionData, getConclusion := None, None, None;
      savedMonitorFilter, savedMonitorTags := LogLevels.LogLevelFilter.None, None;
    }

    /**
     * Initializes or reinitializes the group: saves the monitor's filter and
     * tags, switches the monitor to Trace for an error group, and opens.
     */
    method Initialize(tags: Option<Tags>, level: LogLevel, text: Option<string>,
                      getConclusionText: Option<ConclusionCallback>, logTimeUtc: int, ex: Option<Exception>)
      modifies this, monitor`configuredFilter
      ensures View() == Initialized(old(monitor.configuredFilter), old(monitor.autoTags), tags, level, text,
                                    getConclusionText, logTimeUtc, ex)
      ensures monitor.configuredFilter == FilterAfterInitialize(old(monitor.configuredFilter), level)
    {
      savedMonitorFilter := monitor.configuredFilter;
      savedMonitorTags := Some(monitor.autoTags);
      var switchToTrace := level.AtLeastError() && monitor.configuredFilter != LogLevels.LogLevelFilter.Trace;
      this.level := level;
      logTime := logTimeUtc;
      closeLogTime := MinValue;
      this.text := Some(text.GetOr(""));
      this.tags := Some(tags.GetOr(EmptyTag));
      getConclusion := getConclusionText;
      exception := ex;
      exceptionData := None;
      assert View() == Initialized(old(monitor.configuredFilter), old(monitor.autoTags), tags, level, text,
                                   getConclusionText, logTimeUtc, ex);
      if switchToTrace {
        monitor.configuredFilter := LogLevels.LogLevelFilter.Trace;
      }
    }

    /** Depth: 1 for a top-level group. */
    function Depth(): (d: int)
      ensures d >= 1
      ensures d == 1 <==> index == 0
    {
      index + 1
    }

    /** Parent: the previous group of the monitor, null for a top-level group. */
    function Parent(): (p: Group?)
      reads monitor
      requires monitor.Indexed() && index < |monitor.groups| && monitor.groups[index] == this
      ensures p == null <==> Depth() == 1
      ensures p != null ==> p.monitor == monitor && p.Depth() == Depth() - 1 && p == monitor.groups[p.index]
    {
      if index > 0 then monitor.groups[index - 1] else null
    }

    /** IsGroupTextTheExceptionMessage. */
    function IsGroupTextTheExceptionMessage(): (b: bool)
      reads this
      ensures exception.None? ==> !b
      ensures b ==> text.Some? && exception.Some? && text.value == exception.value.message
    {
      exception.Some? && text == Some(exception.value.message)
    }

    /** The ExceptionData getter, which fills the cache from a CKException. */
    method GetExceptionData() returns (d: Option<ExceptionData>)
      requires monitor.Valid() && index < |monitor.groups| && monitor.groups[index] == this
      modifies this`exceptionData, monitor`views
      ensures d == exceptionData == ExceptionDataOf(old(exceptionData), exception)
      ensures CacheConsistent(old(View())) ==> CacheConsistent(View())
      ensures monitor.Valid()
      ensures monitor.State() == old(monitor.State()).(groups := old(monitor.State()).groups[index := View()])
    {
      if exceptionData.None? && exception.Some? {
        match exception.value {
          case CKException(_, data) =>
            exceptionData := Some(data);
          case PlainException(_) =>
        }
      }
      d := exceptionData;
      monitor.Refresh(this);
    }

    /** EnsureExceptionData, with CKExceptionData.CreateFrom as a parameter. */
    method EnsureExceptionData(createFrom: Exception -> ExceptionData) returns (d: Option<ExceptionData>)
      requires monitor.Valid() && index < |monitor.groups| && monitor.groups[index] == this
      modifies this`exceptionData, monitor`views
      ensures d == exceptionData == EnsuredExceptionData(old(exceptionData), exception, createFrom)
      ensures CacheConsistent(old(View())) ==> CacheConsistent(View())
      ensures monitor.Valid()
      ensures monitor.State() == old(monitor.State()).(groups := old(monitor.State()).groups[index := View()])
    {
      if exceptionData.None? {
        exceptionData := if exception.Some? then Some(createFrom(exception.value)) else None;
      }
      d := exceptionData;
      monitor.Refresh(this);
    }

    /** Calls the conclusion callback, at most once: it is cleared in every case. */
    method ConsumeConclusionText() returns (autoText: Option<string>)
      modifies this`getConclusion
      ensures autoText == ConsumedText(old(getConclusion))
      ensures getConclusion.None?
    {
      autoText := None;
      if getConclusion.Some? {
        match getConclusion.value {
          case Returns(result) =>
            autoText := result;
          case Throws(error) =>
            autoText := Some(ErrorWhileGetConclusionText(error.message));
        }
        getConclusion := None;
      }
    }

    /** GroupClosing: adds the callback's conclusion, if any, creating the list only then. */
    method GroupClosing(conclusions: Option<seq<Conclusion>>) returns (result: Option<seq<Conclusion>>)
      modifies this`getConclusion
      ensures result == WithConclusion(conclusions, ConsumedText(old(getConclusion)))
      ensures getConclusion.None?
    {
      var auto := ConsumeConclusionText();
      result := conclusions;
      if auto.Some? {
        var list := if result.None? then [] else result.value;
        result := Some(list + [Conclusion(TagGetTextConclusion, auto.value)]);
      }
    }

    /** GroupClosed: the text and the exception are released. */
    method GroupClosed()
      modifies this`text, this`exception
      ensures !IsOpen(View()) && exception.None?
    {
      text := None;
      exception := None;
    }

    /** Dispose: closes every group opened after this one, then this one; nothing when closed. */
    method Dispose(now: int)
      requires monitor.Valid() && index < |monitor.groups| && monitor.groups[index] == this
      modifies monitor, monitor.groups
      ensures monitor.Valid() && monitor.groups == old(monitor.groups)
      ensures monitor.State() == DisposeSpec(old(monitor.State()), index, now)
      ensures index < old(monitor.depth) ==> monitor.depth == index
      decreases monitor.depth - index, 1
    {
      if text.Some? {
        CloseGroupsOpenedAfter(now);
        monitor.CloseGroup(now);
      }
    }

    /** Dispose's loop: while this open group is not the current one, the current one is disposed. */
    method CloseGroupsOpenedAfter(now: int)
      requires monitor.Valid() && index < |monitor.groups| && monitor.groups[index] == this && text.Some?
      modifies monitor, monitor.groups
      ensures monitor.Valid() && monitor.groups == old(monitor.groups)
      ensures monitor.depth == index + 1
      ensures DisposeSpec(monitor.State(), index, now) == DisposeSpec(old(monitor.State()), index, now)
      decreases monitor.depth - index, 0
    {
      ghost var target := DisposeSpec(monitor.State(), index, now);
      ghost var groups := monitor.groups;
      while monitor.current != this
        invariant monitor.Valid() && monitor.groups == groups && index < monitor.depth
        invariant DisposeSpec(monitor.State(), index, now) == target
        decreases monitor.depth
      {
        var top := monitor.current;
        assert top == monitor.groups[monitor.depth - 1] && top.index == monitor.depth - 1;
        assert index != top.index;
        ghost var s1 := monitor.State();
        top.Dispose(now);
        DisposeStep(s1, index, now);
      }
    }
  }

  /**
   * Two nested `using` blocks left through the outer one: disposing the
   * outer group closes the inner group first, then the outer one, and gives
   * the monitor back the filter it had before the Error group switched it
   * to Trace.
   */
  method NestedUsing(filter: LogLevelFilter, tags: Tags) returns (m: Monitor)
    ensures m.Valid() && m.depth == 0 && |m.groups| == 2
    ensures m.closings == [Closing(2, None), Closing(1, None)]
    ensures m.configuredFilter == filter && m.autoTags == tags
  {
    m := new Monitor(filter, tags);
    var outer := m.OpenGroup(None, LogLevels.LogLevel.Error, Some("outer"), None, 1, None);
    var inner := m.OpenGroup(None, LogLevels.LogLevel.Info, Some("inner"), None, 2, None);
    ghost var s2 := m.State();
    outer.Dispose(3);
    DisposeClosesAbove(s2, 0, 3);
    DisposeReportsInnermostFirst(s2, 0, 3);
    assert ClosingsDown(s2.groups, 2, 0) == [Closing(2, None), Closing(1, None)];
  }
}
