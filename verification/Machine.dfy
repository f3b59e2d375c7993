/** What the daemon's handlers do, stated on the cache alone.  The published tree is not part of this state:
    `Render` gives the tree that the state stands for, built from scratch.  What the cache does not record, it takes
    from history variables: which changes were clears, and the published creation times. */
module Machine {
  import opened Wrappers
  import opened Key
  import opened ShelfMatch
  import opened Alarms
  import opened Filters
  import opened Inventories
  import opened Control
  import opened Trees

  /** One state change of an alarm, with the clearance flag that the cached history does not record. */
  datatype Logged = Logged(time: Time, severity: int, text: string, cleared: bool)
  {
    function Cached(): StatusChange { StatusChange(time, severity, text) }
    function Published(): StatusChange { StatusChange(time, if cleared then CLEARED else severity, text) }
  }

  /** History variables of one alarm: all its changes since creation, and its published creation time. */
  datatype Trace = Trace(log: seq<Logged>, shown: Time)

  datatype Notification = Notification(key: InstanceKey, time: Time, severity: int, text: string)

  /** History variables of the inventory: the inventories stored before the current one, oldest first; which of all of
      them the cache was parsed from; and how many `alarm-inventory-changed` notifications were sent. */
  datatype InventoryHistory = InventoryHistory(past: seq<seq<InventoryEntry>>, read: nat, announced: nat)

  /** The inventory cache, the stored inventory, and the invalidation callbacks still on their way. */
  datatype InventoryState = InventoryState(cache: Inventory, dirty: bool, store: seq<InventoryEntry>, pending: nat,
                                           history: InventoryHistory)
  {
    /** All inventories that were ever stored, oldest first. */
    function Stores(): seq<seq<InventoryEntry>> { history.past + [store] }
  }

  datatype State = State(
    alarms: map<InstanceKey, Entry>,
    traces: map<InstanceKey, Trace>,
    alarmListLastChanged: Time,
    shelfListLastChanged: Time,
    rules: Option<seq<Shelf>>,
    settings: Settings,
    config: Settings,
    inventory: InventoryState,
    sent: seq<Notification>,
    clock: Time)

  // ---------- The tree a state stands for ----------

  function TraceAt(traces: map<InstanceKey, Trace>, key: InstanceKey): Trace {
    if key in traces then traces[key] else Trace([], 0)
  }

  function Min(a: nat, b: nat): nat { if a <= b then a else b }

  /** The newest `n` changes, newest first. */
  function NewestFirst(log: seq<Logged>, n: nat): (list: seq<StatusChange>)
    ensures |list| == Min(n, |log|)
  {
    seq(Min(n, |log|), i requires 0 <= i < Min(n, |log|) => log[|log| - 1 - i].Published())
  }

  function NodeOf(e: Entry, t: Trace): Node {
    Node(e.isCleared, e.lastRaised, e.lastChanged, e.lastSeverity, e.text,
         if e.shelf.None? then Some(t.shown) else None, e.shelf,
         NewestFirst(t.log, |e.statusChanges|))
  }

  function RenderList(alarms: map<InstanceKey, Entry>, traces: map<InstanceKey, Trace>,
                      inShelf: bool): map<InstanceKey, Node> {
    map k | k in alarms && alarms[k].shelf.Some? == inShelf :: NodeOf(alarms[k], TraceAt(traces, k))
  }

  function Listed(alarms: map<InstanceKey, Entry>, inShelf: bool): set<InstanceKey> {
    set k | k in alarms && alarms[k].shelf.Some? == inShelf
  }

  /** Unshelved alarms of a severity. */
  function OfSeverity(alarms: map<InstanceKey, Entry>, severity: int): set<InstanceKey> {
    set k | k in alarms && alarms[k].shelf.None? && alarms[k].lastSeverity == severity
  }

  function OfSeverityBy(alarms: map<InstanceKey, Entry>, severity: int, cleared: bool): set<InstanceKey> {
    set k | k in alarms && alarms[k].shelf.None? && alarms[k].lastSeverity == severity && alarms[k].isCleared == cleared
  }

  function CountersOf(alarms: map<InstanceKey, Entry>, severity: int): Counters {
    Counters(|OfSeverity(alarms, severity)|, |OfSeverityBy(alarms, severity, true)|,
             |OfSeverityBy(alarms, severity, false)|)
  }

  function Render(s: State): Tree {
    Tree(RenderList(s.alarms, s.traces, false), RenderList(s.alarms, s.traces, true),
         map severity | 2 <= severity <= 6 :: CountersOf(s.alarms, severity),
         |Listed(s.alarms, false)|, s.alarmListLastChanged,
         |Listed(s.alarms, true)|, s.shelfListLastChanged)
  }

  // ---------- Handlers ----------

  /** Subscribing delivers an inventory that is already stored as if it had just been written. */
  function StartCallbacks(store: seq<InventoryEntry>): nat { if store == [] then 0 else 1 }

  /** The daemon right after it started: nothing cached, no shelving rules read yet. */
  function Initial(now: Time, shelfNow: Time, store: seq<InventoryEntry>): State {
    State(map[], map[], now, shelfNow, None, Settings(All, None, None), Settings(All, None, None),
          InventoryState(map[], true, store, StartCallbacks(store), InventoryHistory([], 0, 0)), [], shelfNow)
  }

  datatype Report = Report(key: InstanceKey, severity: LevelOrCleared, text: string)

  datatype SubmitCode = Ok | InvalidArgument | OperationFailed(problem: InventoryProblem)

  function Cached(alarms: map<InstanceKey, Entry>, key: InstanceKey): Option<Entry> {
    if key in alarms then Some(alarms[key]) else None
  }

  function Refreshed(i: InventoryState): InventoryState {
    if i.dirty then i.(cache := Parsed(i.store), dirty := false, history := i.history.(read := |i.history.past|)) else i
  }

  /** A clear of an alarm that is not active. */
  predicate ClearsNothing(s: State, r: Report) {
    r.severity == CLEARED && (r.key !in s.alarms || s.alarms[r.key].isCleared)
  }

  function SubmitOutcome(s: State, r: Report): SubmitCode {
    if !r.key.Printable() then InvalidArgument
    else match ValidationError(Refreshed(s.inventory).cache, r.key, r.severity)
      case Some(problem) => OperationFailed(problem)
      case None => Ok
  }

  /** The report gets past every check. */
  predicate Accepted(s: State, r: Report) {
    SubmitOutcome(s, r).Ok? && !ClearsNothing(s, r)
  }

  /** What the handler dereferences without checking: the shelving rules, and the threshold in severity mode. */
  predicate CanSubmit(s: State, r: Report) {
    Accepted(s, r) ==>
      s.rules.Some? && (s.settings.mode.BySeverity? && r.severity != CLEARED ==> s.settings.threshold.Some?)
  }

  /** An accepted report that changes its alarm. */
  predicate Records(s: State, r: Report) {
    Accepted(s, r) && Changes(Cached(s.alarms, r.key), r.severity, r.text)
  }

  function Recorded(s: State, r: Report, now: Time): State
    requires s.rules.Some? && !ClearsNothing(s, r)
    requires s.settings.mode.BySeverity? && r.severity != CLEARED ==> s.settings.threshold.Some?
  {
    var was := Cached(s.alarms, r.key);
    var shelf := FindMatchingShelf(r.key, s.rules.value);
    var e := Updated(was, now, r.severity, r.text, shelf, s.settings.limit);
    var log := TraceAt(s.traces, r.key).log + [Logged(now, e.lastSeverity, r.text, e.isCleared)];
    var note := Notification(r.key, now, r.severity, r.text);
    s.(alarms := s.alarms[r.key := e],
       traces := s.traces[r.key := Trace(log, e.created)],
       alarmListLastChanged := if e.shelf.None? then now else s.alarmListLastChanged,
       shelfListLastChanged := if e.shelf.Some? then now else s.shelfListLastChanged,
       sent := s.sent + if Announces(was, r.severity, s.settings.mode, s.settings.threshold) then [note] else [])
  }

  function Submitted(s: State, r: Report, now: Time): State
    requires CanSubmit(s, r)
  {
    var s1 := s.(clock := now);
    var s2 := if r.key.Printable() then s1.(inventory := Refreshed(s.inventory)) else s1;
    if Records(s, r) then Recorded(s2, r, now) else s2
  }

  /** The alarms a purge removes. */
  function Purgeable(s: State, inShelf: bool, input: PurgeInput, filterNow: Time): set<InstanceKey> {
    set k | k in s.alarms && s.alarms[k].shelf.Some? == inShelf && PurgeSelects(input, filterNow, s.alarms[k])
  }

  function Purged(s: State, inShelf: bool, input: PurgeInput, now: Time, filterNow: Time): State {
    var gone := if PurgeProblem(input).None? then Purgeable(s, inShelf, input, filterNow) else {};
    s.(alarms := s.alarms - gone, traces := s.traces - gone,
       alarmListLastChanged := if gone != {} && !inShelf then now else s.alarmListLastChanged,
       shelfListLastChanged := if gone != {} && inShelf then now else s.shelfListLastChanged,
       clock := now)
  }

  predicate CompressSelected(e: Entry, inShelf: bool, input: CompressInput, key: InstanceKey) {
    e.shelf.Some? == inShelf && CompressSelects(input, key)
  }

  function CompressedEntry(e: Entry, inShelf: bool, input: CompressInput, key: InstanceKey): Entry {
    if CompressSelected(e, inShelf, input, key) then Trimmed(e, Some(1)) else e
  }

  function Compressed(s: State, inShelf: bool, input: CompressInput): State {
    s.(alarms := map k | k in s.alarms :: CompressedEntry(s.alarms[k], inShelf, input, k))
  }

  /** The selected alarms that have something to discard. */
  function Compressible(s: State, inShelf: bool, input: CompressInput): set<InstanceKey> {
    set k | k in s.alarms && CompressSelected(s.alarms[k], inShelf, input, k) && |s.alarms[k].statusChanges| > 1
  }

  /** The alarms whose shelf changes under new rules. */
  function Moved(alarms: map<InstanceKey, Entry>, rules: seq<Shelf>): set<InstanceKey> {
    set k | k in alarms && alarms[k].shelf != FindMatchingShelf(k, rules)
  }

  /** Those that change lists, rather than only their shelf. */
  function Crossing(alarms: map<InstanceKey, Entry>, rules: seq<Shelf>): set<InstanceKey> {
    set k | k in alarms && alarms[k].shelf.Some? != FindMatchingShelf(k, rules).Some?
  }

  function ReshelvedAlarms(alarms: map<InstanceKey, Entry>, rules: seq<Shelf>): map<InstanceKey, Entry> {
    map k | k in alarms :: alarms[k].(shelf := FindMatchingShelf(k, rules))
  }

  /** Unshelving publishes a new creation time. */
  function ReshelvedTraces(alarms: map<InstanceKey, Entry>, traces: map<InstanceKey, Trace>, rules: seq<Shelf>,
                           now: Time): map<InstanceKey, Trace> {
    map k | k in traces :: if k in alarms && alarms[k].shelf.Some? && FindMatchingShelf(k, rules).None?
                           then traces[k].(shown := now) else traces[k]
  }

  function Reshelved(s: State, rules: seq<Shelf>, now: Time): State {
    s.(alarms := ReshelvedAlarms(s.alarms, rules),
       traces := ReshelvedTraces(s.alarms, s.traces, rules, now),
       rules := Some(rules),
       alarmListLastChanged := if Crossing(s.alarms, rules) != {} then now else s.alarmListLastChanged,
       shelfListLastChanged := if Moved(s.alarms, rules) != {} then now else s.shelfListLastChanged)
  }

  /** The alarms whose history exceeds a limit. */
  function Shrinkable(alarms: map<InstanceKey, Entry>, limit: Option<Uint16>): set<InstanceKey> {
    set k | k in alarms && Excess(|alarms[k].statusChanges|, limit) > 0
  }

  /** All histories cut to a limit. */
  function AllTrimmed(alarms: map<InstanceKey, Entry>, limit: Option<Uint16>): map<InstanceKey, Entry> {
    map k | k in alarms :: Trimmed(alarms[k], limit)
  }

  function Resettled(s: State, batch: seq<Change>, now: Time): State {
    s.(settings := Folded(s.settings, batch), config := ApplyAll(s.config, batch), clock := now)
  }

  function AfterShelving(s: State, batch: seq<Change>, rules: seq<Shelf>, now: Time): State {
    if Shelving in batch then Reshelved(Resettled(s, batch, now), rules, now) else Resettled(s, batch, now)
  }

  /** Every batch ends with all histories within the limit, whether or not the daemon goes over them. */
  function Reconfigured(s: State, batch: seq<Change>, rules: seq<Shelf>, now: Time): State {
    var s2 := AfterShelving(s, batch, rules, now);
    s2.(alarms := AllTrimmed(s2.alarms, s2.settings.limit))
  }

  /** Another session changes the stored inventory; the invalidation callback is still to come. */
  function InventoryWritten(s: State, store: seq<InventoryEntry>): State {
    var i := s.inventory;
    s.(inventory := i.(store := store, pending := i.pending + 1, history := i.history.(past := i.Stores())))
  }

  function InventoryInvalidated(s: State): State
    requires s.inventory.pending > 0
  {
    var i := s.inventory;
    s.(inventory := i.(dirty := true, pending := i.pending - 1,
                       history := i.history.(announced := i.history.announced + 1)))
  }

  // ---------- The invariant ----------

  predicate Increasing(log: seq<Logged>) {
    forall i, j :: 0 <= i < j < |log| ==> log[i].time < log[j].time
  }

  /** What can follow a change: something that shows differently; and a clear only after an active state, whose
      severity it keeps. */
  predicate Follows(a: Logged, b: Logged) {
    && (a.text != b.text || a.Published().perceivedSeverity != b.Published().perceivedSeverity)
    && (b.cleared ==> !a.cleared && b.severity == a.severity)
  }

  /** Every entry can follow the one before. */
  predicate NoStutter(log: seq<Logged>) {
    forall i, j :: 0 <= i < |log| && 0 <= j < |log| && j == i + 1 ==> Follows(log[i], log[j])
  }

  /** Severities are those of active alarms, also for clears. */
  predicate InRange(log: seq<Logged>) {
    forall i :: 0 <= i < |log| ==> 2 <= log[i].severity <= 6
  }

  /** The cached history is what is left of the full log at its newest end. */
  predicate SuffixOf(history: seq<StatusChange>, log: seq<Logged>) {
    |history| <= |log| && forall i :: 0 <= i < |history| ==> history[i] == log[|log| - |history| + i].Cached()
  }

  /** When the alarm last turned from cleared (or absent) to active. */
  function LastRaise(log: seq<Logged>): Time {
    if log == [] then 0
    else
      var n := |log| - 1;
      if !log[n].cleared && (n == 0 || log[n - 1].cleared) then log[n].time else LastRaise(log[..n])
  }

  /** An entry agrees with its log. */
  predicate EntryOk(e: Entry, t: Trace, limit: Option<Uint16>) {
    && 2 <= e.lastSeverity <= 6
    && t.log != [] && Increasing(t.log) && NoStutter(t.log) && InRange(t.log)
    && e.created == t.log[0].time && !t.log[0].cleared
    && e.lastRaised == LastRaise(t.log) && e.created <= e.lastRaised <= e.lastChanged
    && t.log[|t.log| - 1] == Logged(e.lastChanged, e.lastSeverity, e.text, e.isCleared)
    && SuffixOf(e.statusChanges, t.log) && Fits(|e.statusChanges|, limit)
    && (e.shelf.None? ==> t.shown == e.created || e.lastChanged < t.shown)
  }

  function ListStamp(s: State, inShelf: bool): Time {
    if inShelf then s.shelfListLastChanged else s.alarmListLastChanged
  }

  predicate AlarmOk(s: State, key: InstanceKey)
    requires key in s.alarms && key in s.traces
  {
    var e := s.alarms[key];
    && key.Printable()
    && EntryOk(e, s.traces[key], s.settings.limit)
    && e.lastChanged <= ListStamp(s, e.shelf.Some?)
    && (e.shelf.None? ==> s.traces[key].shown <= s.clock)
    && s.rules.Some? && e.shelf == FindMatchingShelf(key, s.rules.value)
  }

  /** A clean cache was parsed from one of the last `pending + 1` stored inventories, and every write, like an inventory
      stored at the start, is announced once its callback has run. */
  predicate InventoryOk(i: InventoryState) {
    && i.pending + i.history.announced == |i.history.past| + StartCallbacks(i.Stores()[0])
    && (!i.dirty ==>
          && |i.history.past| - i.pending <= i.history.read <= |i.history.past|
          && i.cache == Parsed(i.Stores()[i.history.read]))
  }

  predicate SentOk(s: State) {
    forall i :: 0 <= i < |s.sent| ==> s.sent[i].time <= s.clock
  }

  predicate Inv(s: State) {
    && s.traces.Keys == s.alarms.Keys
    && (forall k :: k in s.alarms ==> AlarmOk(s, k))
    && s.alarmListLastChanged <= s.clock && s.shelfListLastChanged <= s.clock
    && InventoryOk(s.inventory) && SentOk(s)
  }

  // ---------- Every handler keeps the invariant ----------

  lemma {:induction false} TrimKeepsEntryOk(e: Entry, t: Trace, limit: Option<Uint16>, next: Option<Uint16>)
    requires EntryOk(e, t, limit)
    ensures EntryOk(Trimmed(e, next), t, next)
    ensures EntryOk(Trimmed(e, next), t, limit)
  {
  }

  lemma {:induction false} NewEntryOk(now: Time, r: Report, shelf: Option<string>, limit: Option<Uint16>)
    requires r.severity != CLEARED
    ensures var e := Updated(None, now, r.severity, r.text, shelf, limit);
            EntryOk(e, Trace([Logged(now, e.lastSeverity, r.text, e.isCleared)], e.created), limit)
  {
  }

  lemma {:induction false} LogExtends(log: seq<Logged>, l: Logged)
    requires log != [] && Increasing(log) && log[|log| - 1].time < l.time
    ensures Increasing(log + [l])
    ensures LastRaise(log + [l]) == if !l.cleared && log[|log| - 1].cleared then l.time else LastRaise(log)
  {
    assert (log + [l])[..|log|] == log;
  }

  lemma {:induction false} HistoryExtends(history: seq<StatusChange>, log: seq<Logged>, l: Logged)
    requires SuffixOf(history, log)
    ensures SuffixOf(history + [l.Cached()], log + [l])
  {
  }

  lemma {:induction false} UpdateKeepsEntryOk(e: Entry, t: Trace, now: Time, r: Report, shelf: Option<string>,
                                              limit: Option<Uint16>)
    requires EntryOk(e, t, limit) && e.lastChanged < now
    requires Changes(Some(e), r.severity, r.text) && !(r.severity == CLEARED && e.isCleared)
    ensures var e' := Updated(Some(e), now, r.severity, r.text, shelf, limit);
            EntryOk(e', Trace(t.log + [Logged(now, e'.lastSeverity, r.text, e'.isCleared)], e'.created), limit)
  {
    var full := Reported(Some(e), now, r.severity, r.text, shelf);
    var l := Logged(now, full.lastSeverity, r.text, full.isCleared);
    LogExtends(t.log, l);
    HistoryExtends(e.statusChanges, t.log, l);
    assert EntryOk(full, Trace(t.log + [l], full.created), None);
    TrimKeepsEntryOk(full, Trace(t.log + [l], full.created), None, limit);
  }

  /** An alarm that a step leaves alone stays well-formed while stamps and clock advance. */
  lemma {:induction false} UntouchedAlarmOk(s: State, s': State, key: InstanceKey)
    requires key in s.alarms && key in s.traces && AlarmOk(s, key)
    requires key in s'.alarms && key in s'.traces
    requires s'.alarms[key] == s.alarms[key] && s'.traces[key] == s.traces[key]
    requires s'.rules == s.rules && s'.settings == s.settings && s.clock <= s'.clock
    requires forall inShelf :: ListStamp(s, inShelf) <= ListStamp(s', inShelf)
    ensures AlarmOk(s', key)
  {
  }

  /** The entry and the log of a recorded report, and what else the report changes. */
  lemma {:induction false} RecordedParts(s: State, r: Report, now: Time)
    requires CanSubmit(s, r) && Records(s, r)
    ensures s.rules.Some? && Changes(Cached(s.alarms, r.key), r.severity, r.text)
    ensures (r.severity == CLEARED ==> r.key in s.alarms)
    ensures !ClearsNothing(s, r) && r.key.Printable()
    ensures var s' := Submitted(s, r, now);
            var shelf := FindMatchingShelf(r.key, s.rules.value);
            var e := Updated(Cached(s.alarms, r.key), now, r.severity, r.text, shelf, s.settings.limit);
            var l := Logged(now, e.lastSeverity, r.text, e.isCleared);
            var t := Trace(TraceAt(s.traces, r.key).log + [l], e.created);
            && s'.alarms == s.alarms[r.key := e] && s'.traces == s.traces[r.key := t]
            && s' == s.(alarms := s'.alarms, traces := s'.traces, inventory := Refreshed(s.inventory),
                        sent := s'.sent, clock := now,
                        alarmListLastChanged := if e.shelf.None? then now else s.alarmListLastChanged,
                        shelfListLastChanged := if e.shelf.Some? then now else s.shelfListLastChanged)
            && (s'.sent == s.sent || s'.sent == s.sent + [Notification(r.key, now, r.severity, r.text)])
  {
    hide FindMatchingShelf, Updated, ValidationError, Announces, Parsed;
    assert s.sent + [] == s.sent;
  }

  lemma {:induction false} UpdatedStamps(was: Option<Entry>, now: Time, r: Report, shelf: Option<string>,
                                         limit: Option<Uint16>)
    requires (r.severity == CLEARED ==> was.Some?) && Changes(was, r.severity, r.text)
    ensures var e := Updated(was, now, r.severity, r.text, shelf, limit);
            && e.lastChanged == now && e.shelf == (if was.Some? then was.value.shelf else shelf)
            && e.created == (if was.Some? then was.value.created else now)
  {
  }

  lemma {:induction false} RecordedAlarmOk(s: State, r: Report, now: Time)
    requires Inv(s) && CanSubmit(s, r) && s.clock < now && Records(s, r)
    ensures var s' := Submitted(s, r, now);
            r.key in s'.alarms && r.key in s'.traces && AlarmOk(s', r.key)
  {
    hide Inv, EntryOk, Records, CanSubmit, Submitted, Updated, FindMatchingShelf, Changes, Refreshed;
    RecordedParts(s, r, now);
    StateBounds(s);
    InvAt(s, r.key);
    var shelf := FindMatchingShelf(r.key, s.rules.value);
    UpdatedStamps(Cached(s.alarms, r.key), now, r, shelf, s.settings.limit);
    if r.key in s.alarms {
      UpdateKeepsEntryOk(s.alarms[r.key], s.traces[r.key], now, r, shelf, s.settings.limit);
    } else {
      var e := Updated(None, now, r.severity, r.text, shelf, s.settings.limit);
      assert [] + [Logged(now, e.lastSeverity, r.text, e.isCleared)] ==
             [Logged(now, e.lastSeverity, r.text, e.isCleared)];
      NewEntryOk(now, r, shelf, s.settings.limit);
    }
  }

  /** What the invariant says about the state as a whole. */
  lemma {:induction false} StateBounds(s: State)
    requires Inv(s)
    ensures s.traces.Keys == s.alarms.Keys && SentOk(s)
    ensures s.alarmListLastChanged <= s.clock && s.shelfListLastChanged <= s.clock
  {
  }

  /** What it says about one key. */
  lemma {:induction false} InvAt(s: State, key: InstanceKey)
    requires Inv(s)
    ensures key in s.alarms <==> key in s.traces
    ensures key in s.alarms ==>
            key in s.traces && AlarmOk(s, key) && EntryOk(s.alarms[key], s.traces[key], s.settings.limit)
    ensures key in s.alarms ==>
              var e := s.alarms[key];
              && 2 <= e.lastSeverity <= 6 && e.created <= e.lastChanged <= s.clock
              && SuffixOf(e.statusChanges, s.traces[key].log)
  {
  }

  lemma {:induction false} SentGrows(s: State, note: Notification, s': State)
    requires SentOk(s) && s.clock <= s'.clock && note.time <= s'.clock
    requires (s'.sent == s.sent || s'.sent == s.sent + [note])
    ensures SentOk(s')
  {
  }

  lemma {:induction false} RefreshedOk(i: InventoryState)
    requires InventoryOk(i)
    ensures InventoryOk(Refreshed(i))
  {
  }

  lemma {:induction false} InventoryStepsOk(s: State, store: seq<InventoryEntry>)
    requires Inv(s)
    ensures InventoryOk(InventoryWritten(s, store).inventory)
    ensures s.inventory.pending > 0 ==> InventoryOk(InventoryInvalidated(s).inventory)
  {
    hide AlarmOk;
  }

  lemma {:induction false} UnrecordedState(s: State, r: Report, now: Time)
    requires CanSubmit(s, r) && !Records(s, r)
    ensures Submitted(s, r, now) ==
            s.(clock := now, inventory := if r.key.Printable() then Refreshed(s.inventory) else s.inventory)
  {
  }

  lemma {:induction false} SubmitKeepsInv(s: State, r: Report, now: Time)
    requires Inv(s) && CanSubmit(s, r) && s.clock < now
    ensures Inv(Submitted(s, r, now))
  {
    hide AlarmOk, SentOk, InventoryOk, Refreshed, Updated, FindMatchingShelf, CanSubmit, Records, Submitted;
    var s' := Submitted(s, r, now);
    RefreshedOk(s.inventory);
    if Records(s, r) {
      RecordedParts(s, r, now);
      RecordedAlarmOk(s, r, now);
      SentGrows(s, Notification(r.key, now, r.severity, r.text), s');
    } else {
      UnrecordedState(s, r, now);
      SentGrows(s, Notification(r.key, now, r.severity, r.text), s');
    }
    forall k | k in s'.alarms ensures AlarmOk(s', k) {
      if !(Records(s, r) && k == r.key) { UntouchedAlarmOk(s, s', k); }
    }
  }

  lemma {:induction false} PurgeKeepsInv(s: State, inShelf: bool, input: PurgeInput, now: Time, filterNow: Time)
    requires Inv(s) && s.clock < now
    ensures Inv(Purged(s, inShelf, input, now, filterNow))
  {
    var s' := Purged(s, inShelf, input, now, filterNow);
    forall k | k in s'.alarms ensures AlarmOk(s', k) {
      assert AlarmOk(s, k);
    }
  }

  lemma {:induction false} CompressKeepsInv(s: State, inShelf: bool, input: CompressInput)
    requires Inv(s)
    ensures Inv(Compressed(s, inShelf, input))
  {
    var s' := Compressed(s, inShelf, input);
    forall k | k in s'.alarms ensures AlarmOk(s', k) {
      assert AlarmOk(s, k);
      TrimKeepsEntryOk(s.alarms[k], s.traces[k], s.settings.limit, Some(1));
    }
  }

  lemma {:induction false} ReshelvedAlarmOk(s: State, rules: seq<Shelf>, now: Time, key: InstanceKey)
    requires key in s.alarms && key in s.traces && AlarmOk(s, key)
    requires s.clock < now && s.alarmListLastChanged <= s.clock && s.shelfListLastChanged <= s.clock
    ensures AlarmOk(Reshelved(s.(clock := now), rules, now), key)
  {
    var s1 := s.(clock := now);
    var s' := Reshelved(s1, rules, now);
    var shelf := FindMatchingShelf(key, rules);
    var e := s.alarms[key];
    assert s'.alarms[key] == e.(shelf := shelf);
    assert e.lastChanged <= ListStamp(s', shelf.Some?) by {
      if e.shelf != shelf {
        assert key in Moved(s.alarms, rules);
        if e.shelf.Some? != shelf.Some? { assert key in Crossing(s.alarms, rules); }
      }
    }
    assert s'.traces[key] == if e.shelf != shelf && shelf.None? then s.traces[key].(shown := now) else s.traces[key];
    assert EntryOk(e.(shelf := shelf), s'.traces[key], s.settings.limit);
  }

  lemma {:induction false} ReshelveKeepsInv(s: State, rules: seq<Shelf>, now: Time)
    requires Inv(s) && s.clock < now
    ensures Inv(Reshelved(s.(clock := now), rules, now))
  {
    var s' := Reshelved(s.(clock := now), rules, now);
    assert s'.alarms.Keys == s.alarms.Keys && s'.traces.Keys == s.traces.Keys;
    forall k | k in s'.alarms ensures AlarmOk(s', k) { ReshelvedAlarmOk(s, rules, now, k); }
    assert SentOk(s');
  }

  lemma {:induction false} TrimKeepsInv(s: State, next: Settings)
    requires Inv(s)
    ensures Inv(s.(settings := next, alarms := AllTrimmed(s.alarms, next.limit)))
  {
    var s' := s.(settings := next, alarms := AllTrimmed(s.alarms, next.limit));
    forall k | k in s'.alarms ensures AlarmOk(s', k) {
      assert AlarmOk(s, k);
      TrimKeepsEntryOk(s.alarms[k], s.traces[k], s.settings.limit, next.limit);
    }
  }

  lemma {:induction false} ReconfigureKeepsInv(s: State, batch: seq<Change>, rules: seq<Shelf>, now: Time)
    requires Inv(s) && s.clock < now
    ensures Inv(Reconfigured(s, batch, rules, now))
  {
    var s1 := s.(config := ApplyAll(s.config, batch), clock := now);
    forall k | k in s1.alarms ensures AlarmOk(s1, k) { UntouchedAlarmOk(s, s1, k); }
    var next := Folded(s.settings, batch);
    if Shelving in batch {
      ReshelveKeepsInv(s.(config := s1.config), rules, now);
      TrimKeepsInv(Reshelved(s1, rules, now), next);
      assert Reshelved(s1, rules, now).(settings := next) == Reshelved(s1.(settings := next), rules, now);
    } else {
      TrimKeepsInv(s1, next);
    }
  }
}
