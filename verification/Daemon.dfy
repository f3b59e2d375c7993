/** The alarm daemon: its mutable state and its handlers (src/alarms/Daemon.h, src/alarms/Daemon.cpp).
    Every handler edits the cache and the published tree side by side; nothing rebuilds the tree from the cache. */
module Daemons {
  import opened Wrappers
  import opened Key
  import opened ShelfMatch
  import opened Alarms
  import opened Filters
  import opened Inventories
  import opened Control
  import opened Trees
  import opened Machine
  import opened Mirror

  class Daemon {
    var notifyStatusChanges: NotifyStatusChanges
    var notifySeverityThreshold: Option<Level>
    var maxAlarmStatusChanges: Option<Uint16>
    var inventoryDirty: bool
    var inventory: Inventory
    var alarms: map<InstanceKey, Entry>
    var alarmListLastChanged: Time
    var shelfListLastChanged: Time
    var shelvingRules: Option<seq<Shelf>>
    var edit: Tree

    // The datastores around the daemon.
    var storedInventory: seq<InventoryEntry>   // written by other sessions
    ghost var pendingCallbacks: nat
    ghost var config: Settings
    ghost var published: Tree                  // what clients read
    ghost var pushes: nat                      // how often the tree was pushed
    ghost var paths: map<string, Node>         // the nodes of the tree, under their printed paths

    // History.
    ghost var inventoryHistory: InventoryHistory
    ghost var traces: map<InstanceKey, Trace>
    ghost var sent: seq<Notification>
    ghost var clock: Time

    ghost function Abs(): State
      reads this`notifyStatusChanges, this`notifySeverityThreshold, this`maxAlarmStatusChanges, this`config
      reads this`inventory, this`inventoryDirty, this`storedInventory, this`pendingCallbacks, this`inventoryHistory
      reads this`alarms, this`traces, this`alarmListLastChanged, this`shelfListLastChanged, this`shelvingRules
      reads this`sent, this`clock
    {
      State(alarms, traces, alarmListLastChanged, shelfListLastChanged, shelvingRules,
            Settings(notifyStatusChanges, notifySeverityThreshold, maxAlarmStatusChanges), config,
            InventoryState(inventory, inventoryDirty, storedInventory, pendingCallbacks, inventoryHistory), sent, clock)
    }

    lemma AbsLists()
      ensures Abs().alarms == alarms && Abs().traces == traces && Abs().settings.limit == maxAlarmStatusChanges
    {
    }

    lemma AbsControl()
      ensures Abs().settings == Settings(notifyStatusChanges, notifySeverityThreshold, maxAlarmStatusChanges)
      ensures Abs().rules == shelvingRules
    {
    }

    /** What an update of alarms, stamps and notifications leaves of the state. */
    twostate lemma AbsFramed()
      requires unchanged(`config) && unchanged(`notifyStatusChanges) && unchanged(`notifySeverityThreshold)
      requires unchanged(`maxAlarmStatusChanges) && unchanged(`shelvingRules) && unchanged(`clock)
      requires unchanged(`inventory)
      requires unchanged(`inventoryDirty) && unchanged(`storedInventory) && unchanged(`pendingCallbacks)
      requires unchanged(`inventoryHistory)
      ensures Abs() == old(Abs()).(alarms := alarms, traces := traces, sent := sent,
                                   alarmListLastChanged := alarmListLastChanged,
                                   shelfListLastChanged := shelfListLastChanged)
      ensures old(Abs()).alarms == old(alarms) && old(Abs()).sent == old(sent)
      ensures old(Abs()).alarmListLastChanged == old(alarmListLastChanged)
      ensures old(Abs()).shelfListLastChanged == old(shelfListLastChanged)
    {
    }

    /** A store that is addressed by printed paths only holds the nodes of the tree. */
    ghost predicate PathsFollow()
      reads this`paths, this`edit
    {
      Addressed(paths, edit.alarms, edit.shelved)
    }

    /** The incrementally edited tree is the tree rendered from scratch, and clients see exactly that tree. */
    ghost predicate Valid()
      reads this
    {
      Inv(Abs()) && edit == Render(Abs()) && published == edit && PathsFollow()
    }

    /** The two lists mirror the cache; counters and stamps may lag behind in the middle of a handler. */
    ghost predicate ListsMirror()
      reads this`alarms, this`traces, this`edit, this`paths
    {
      && PathsFollow() && traces.Keys == alarms.Keys
      && edit.alarms == RenderList(alarms, traces, false)
      && edit.shelved == RenderList(alarms, traces, true)
    }

    /** What that says, for proofs that do without its definition. */
    lemma ListsMirrored()
      requires ListsMirror()
      ensures edit.alarms == RenderList(alarms, traces, false) && edit.shelved == RenderList(alarms, traces, true)
      ensures PathsFollow() && traces.Keys == alarms.Keys
    {
    }

    constructor (now: Time, shelfNow: Time, store: seq<InventoryEntry>)
      requires now <= shelfNow
      ensures Valid() && Abs() == Initial(now, shelfNow, store) && pushes == 1
    {
      notifyStatusChanges, notifySeverityThreshold, maxAlarmStatusChanges := All, None, None;
      inventoryDirty, inventory := true, map[];
      alarms := map[];
      alarmListLastChanged, shelfListLastChanged := now, shelfNow;
      shelvingRules := None;
      edit := EMPTY_TREE;
      storedInventory, pendingCallbacks := store, StartCallbacks(store);
      inventoryHistory := InventoryHistory([], 0, 0);
      config := Settings(All, None, None);
      traces, sent, clock, pushes, paths := map[], [], shelfNow, 0, map[];
      new;
      hide Inv, Countable, Render, Initial, Addressed;
      InitialFacts(now, shelfNow, store);
      NothingAddressed();
      assert ListsMirror();
      Recount();
      Push();
    }

    method Push()
      modifies this`published, this`pushes
      ensures published == edit && pushes == old(pushes) + 1
    {
      published := edit;
      pushes := pushes + 1;
    }

    // ---------- Editing through paths ----------

    /** Writes a node at its path. */
    method PutNode(inShelf: bool, key: InstanceKey, node: Node)
      requires PathsFollow() && key.Printable()
      modifies this`edit, this`paths
      ensures edit == old(edit).Put(inShelf, key, node) && paths == old(paths)[Address(inShelf, key) := node]
      ensures PathsFollow()
    {
      hide Address, Addressed;
      PutAddressedNode(paths, edit, inShelf, key, node);
      edit := edit.Put(inShelf, key, node);
      paths := paths[Address(inShelf, key) := node];
    }

    /** Finds the node at a path and unlinks it. */
    method UnlinkNode(inShelf: bool, key: InstanceKey)
      requires PathsFollow() && edit.Has(inShelf, key)
      modifies this`edit, this`paths
      ensures edit == old(edit).Unlink(inShelf, key) && PathsFollow()
      ensures key.Printable() && Address(inShelf, key) in old(paths) && paths == old(paths) - {Address(inShelf, key)}
    {
      hide Address, Addressed;
      NodeAddressed(paths, edit, inShelf, key);
      UnlinkAddressedNode(paths, edit, inShelf, key);
      edit := edit.Unlink(inShelf, key);
      paths := paths - {Address(inShelf, key)};
    }

    /** Writes a copy of a node into the other list and unlinks the node. */
    method MoveNode(inShelf: bool, key: InstanceKey, copy: Node)
      requires PathsFollow() && edit.Has(inShelf, key)
      modifies this`edit, this`paths
      ensures var (from, to) := (old(edit).List(inShelf) - {key}, old(edit).List(!inShelf)[key := copy]);
              edit == old(edit).(alarms := if inShelf then to else from, shelved := if inShelf then from else to)
      ensures PathsFollow()
    {
      hide Addressed;
      NodeAddressed(paths, edit, inShelf, key);
      PutNode(!inShelf, key, copy);
      UnlinkNode(inShelf, key);
    }

    // ---------- Statistics ----------

    method UpdateStatistics()
      requires forall k :: k in alarms ==> 2 <= alarms[k].lastSeverity <= 6
      modifies this`edit, this`alarmListLastChanged, this`shelfListLastChanged
      ensures IsLatest(alarmListLastChanged, old(alarmListLastChanged), alarms, false)
      ensures IsLatest(shelfListLastChanged, old(shelfListLastChanged), alarms, true)
      ensures edit == Tree(old(edit).alarms, old(edit).shelved,
                           map severity | 2 <= severity <= 6 :: CountersOf(alarms, severity),
                           |Listed(alarms, false)|, alarmListLastChanged,
                           |Listed(alarms, true)|, shelfListLastChanged)
    {
      hide OfSeverity, OfSeverityBy, Listed, CountersOf, IsLatest;
      var total, cleared, totalList, totalShelved := CountAlarms();
      var summary := Summarize(total, cleared, totalList, totalShelved);
      edit := edit.(summary := summary, numberOfAlarms := totalList, lastChanged := alarmListLastChanged,
                    numberOfShelvedAlarms := totalShelved, shelvedAlarmsLastChanged := shelfListLastChanged);
    }

    /** The counters of every severity; the subtraction is one of unsigned numbers in the source. */
    method Summarize(total: map<int, nat>, cleared: map<int, nat>, totalList: nat, totalShelved: nat)
      returns (summary: map<int, Counters>)
      requires Tallies(alarms, total, cleared, totalList, totalShelved)
      ensures summary == map severity | 2 <= severity <= 6 :: CountersOf(alarms, severity)
    {
      hide OfSeverity, OfSeverityBy, Listed;
      summary := map[];
      for i := 2 to 7
        invariant forall v :: v in summary <==> 2 <= v < i
        invariant forall v :: v in summary ==> summary[v] == CountersOf(alarms, v)
      {
        ClearedPlusNotCleared(alarms, i);
        summary := summary[i := Counters(total[i], cleared[i], total[i] - cleared[i])];
      }
    }

    /** Once the stamps are set, a recount completes the tree of the state. */
    method Recount()
      requires ListsMirror() && Countable(Abs())
      modifies this`edit, this`alarmListLastChanged, this`shelfListLastChanged
      ensures Abs() == old(Abs()) && edit == Render(Abs()) && ListsMirror()
    {
      ghost var s := Abs();
      UpdateStatistics();
      RecountKeepsStamp(s, false, alarmListLastChanged);
      RecountKeepsStamp(s, true, shelfListLastChanged);
    }

    /** All severities are present and start at zero. */
    method ZeroCounters() returns (total: map<int, nat>, cleared: map<int, nat>)
      ensures Tallies(map[], total, cleared, 0, 0)
    {
      total, cleared := map[], map[];
      for i := 2 to 7
        invariant forall v :: v in total <==> 2 <= v < i
        invariant forall v :: v in cleared <==> 2 <= v < i
        invariant forall v :: v in total ==> total[v] == 0
        invariant forall v :: v in cleared ==> cleared[v] == 0
      {
        total, cleared := total[i := 0], cleared[i := 0];
      }
      TallyNothing(total, cleared);
    }

    /** The counting loop: one pass over the alarms in arbitrary order. */
    method CountAlarms() returns (total: map<int, nat>, cleared: map<int, nat>, totalList: nat, totalShelved: nat)
      requires forall k :: k in alarms ==> 2 <= alarms[k].lastSeverity <= 6
      modifies this`alarmListLastChanged, this`shelfListLastChanged
      ensures Tallies(alarms, total, cleared, totalList, totalShelved)
      ensures IsLatest(alarmListLastChanged, old(alarmListLastChanged), alarms, false)
      ensures IsLatest(shelfListLastChanged, old(shelfListLastChanged), alarms, true)
    {
      total, cleared := ZeroCounters();
      totalList, totalShelved := 0, 0;
      var todo := alarms.Keys;
      assert alarms - todo == map[];
      LatestNothing(alarmListLastChanged, false);
      LatestNothing(shelfListLastChanged, true);
      while todo != {}
        invariant todo <= alarms.Keys
        invariant Tallies(alarms - todo, total, cleared, totalList, totalShelved)
        invariant IsLatest(alarmListLastChanged, old(alarmListLastChanged), alarms - todo, false)
        invariant IsLatest(shelfListLastChanged, old(shelfListLastChanged), alarms - todo, true)
      {
        var key :| key in todo;
        total, cleared, totalList, totalShelved :=
          CountAlarm(alarms[key], total, cleared, totalList, totalShelved, alarms - todo, key,
                     old(alarmListLastChanged), old(shelfListLastChanged));
        assert (alarms - todo)[key := alarms[key]] == alarms - (todo - {key});
        todo := todo - {key};
      }
      assert alarms - todo == alarms;
    }

    /** The body of that loop. */
    method CountAlarm(entry: Entry, total: map<int, nat>, cleared: map<int, nat>, totalList: nat, totalShelved: nat,
                      ghost part: map<InstanceKey, Entry>, ghost key: InstanceKey,
                      ghost listWas: Time, ghost shelfWas: Time)
      returns (total': map<int, nat>, cleared': map<int, nat>, totalList': nat, totalShelved': nat)
      requires 2 <= entry.lastSeverity <= 6 && key !in part
      requires Tallies(part, total, cleared, totalList, totalShelved)
      requires IsLatest(alarmListLastChanged, listWas, part, false)
      requires IsLatest(shelfListLastChanged, shelfWas, part, true)
      modifies this`alarmListLastChanged, this`shelfListLastChanged
      ensures Tallies(part[key := entry], total', cleared', totalList', totalShelved')
      ensures IsLatest(alarmListLastChanged, listWas, part[key := entry], false)
      ensures IsLatest(shelfListLastChanged, shelfWas, part[key := entry], true)
    {
      LatestOneMore(alarmListLastChanged, listWas, part, false, key, entry);
      LatestOneMore(shelfListLastChanged, shelfWas, part, true, key, entry);
      total', cleared', totalList', totalShelved' := total, cleared, totalList, totalShelved;
      if entry.shelf.Some? {
        TallyShelved(part, total, cleared, totalList, totalShelved, key, entry);
        totalShelved' := totalShelved + 1;
        if entry.lastChanged >= shelfListLastChanged {
          shelfListLastChanged := entry.lastChanged;
        }
        return;
      }
      TallyUnshelved(part, total, cleared, totalList, totalShelved, key, entry);
      totalList' := totalList + 1;
      total' := total[entry.lastSeverity := total[entry.lastSeverity] + 1];
      if entry.isCleared {
        cleared' := cleared[entry.lastSeverity := cleared[entry.lastSeverity] + 1];
      }
      if entry.lastChanged >= alarmListLastChanged {
        alarmListLastChanged := entry.lastChanged;
      }
    }

    // ---------- Trimming histories ----------

    /** Unlinks the status changes with the given times, one by one. */
    method DiscardChanges(inShelf: bool, key: InstanceKey, times: seq<Time>)
      requires PathsFollow() && edit.Has(inShelf, key)
      requires Descending(edit.At(inShelf, key).statusChanges)
      requires OldestTimes(times, edit.At(inShelf, key).statusChanges)
      modifies this`edit, this`paths
      ensures PathsFollow()
      ensures var node := old(edit).At(inShelf, key);
              edit == old(edit).Put(inShelf, key,
                node.(statusChanges := node.statusChanges[..|node.statusChanges| - |times|]))
      ensures times == [] ==> edit == old(edit)
    {
      hide Descending, OldestTimes, HasTime, UnlinkTime, Addressed;
      NodeAddressed(paths, edit, inShelf, key);
      ghost var list := edit.At(inShelf, key).statusChanges;
      var i := 0;
      OldestTimesFit(times, list);
      assert list[..|list|] == list;
      while i < |times|
        invariant 0 <= i <= |times| && PathsFollow()
        invariant edit == old(edit).Put(inShelf, key, old(edit).At(inShelf, key).(statusChanges := list[..|list| - i]))
      {
        var node := edit.At(inShelf, key);
        UnlinkNthOldest(list, times, i);
        PutNode(inShelf, key, node.(statusChanges := UnlinkTime(node.statusChanges, times[i])));
        i := i + 1;
      }
    }

    /** Trims the history of one alarm in the cache and in the tree; says how many changes went. */
    method TrimHistory(key: InstanceKey, limit: Option<Uint16>) returns (discarded: nat)
      requires ListsMirror() && key in alarms
      requires Increasing(traces[key].log) && SuffixOf(alarms[key].statusChanges, traces[key].log)
      modifies this`alarms, this`edit, this`paths
      ensures alarms == old(alarms)[key := Trimmed(old(alarms)[key], limit)]
      ensures ListsMirror() && edit == old(edit).(alarms := edit.alarms, shelved := edit.shelved)
      ensures discarded == Excess(|old(alarms)[key].statusChanges|, limit)
      ensures discarded == 0 ==> edit == old(edit)
    {
      hide RenderList, Addressed, Trimmed, TrimmedTimes, Increasing, SuffixOf, Descending, OldestTimes;
      var inShelf := alarms[key].shelf.Some?;
      TrimmedSize(alarms[key], limit);
      var alarm := new AlarmEntry(alarms[key]);
      var times := alarm.ShrinkStatusChanges(limit);
      TrimOneShows(alarms, traces, key, limit, false);
      TrimOneShows(alarms, traces, key, limit, true);
      DiscardChanges(inShelf, key, times);
      alarms := alarms[key := alarm.Value()];
      discarded := |times|;
    }

    method ShrinkStatusChangesLists() returns (changed: bool)
      requires ListsMirror() && HistoriesOk(alarms, traces)
      modifies this`alarms, this`edit, this`paths
      ensures maxAlarmStatusChanges.Some? ==> alarms == AllTrimmed(old(alarms), maxAlarmStatusChanges)
      ensures maxAlarmStatusChanges.Some? ==> (changed <==> Shrinkable(old(alarms), maxAlarmStatusChanges) != {})
      ensures maxAlarmStatusChanges.None? ==> !changed && alarms == old(alarms)
      ensures !changed ==> edit == old(edit)
      ensures ListsMirror() && edit == old(edit).(alarms := edit.alarms, shelved := edit.shelved)
      ensures Abs() == old(Abs()).(alarms := alarms)
    {
      hide ListsMirror, AllTrimmed, Shrinkable, Trimmed, Passing, HistoriesOk, Increasing, SuffixOf;
      changed := false;
      if maxAlarmStatusChanges.None? {
        return;
      }
      ghost var was, limit, n := alarms, maxAlarmStatusChanges, 0;
      ghost var target, longer := AllTrimmed(was, limit), Shrinkable(was, limit);
      var todo := alarms.Keys;
      AllTrimmedKeys(was, limit);
      PassStarts(was, target, longer);
      while todo != {}
        invariant Passing(was, target, longer, todo, alarms, n)
        invariant ListsMirror() && edit == old(edit).(alarms := edit.alarms, shelved := edit.shelved)
        invariant changed <==> n > 0
        invariant !changed ==> edit == old(edit)
      {
        var key :| key in todo;
        PassSteps(was, target, longer, todo, alarms, n, key);
        AllTrimmedAt(was, limit, key);
        HistoryOkAt(was, traces, key);
        var discarded := TrimHistory(key, maxAlarmStatusChanges);
        if discarded > 0 {
          changed := true;
          n := n + 1;
        }
        todo := todo - {key};
      }
      PassEnds(was, target, longer, alarms, n);
    }

    // ---------- Purge and compress ----------

    /** `purge-alarms` and `purge-shelved-alarms`: erases while iterating over the cache. */
    method PurgeAlarms(inShelf: bool, input: PurgeInput, now: Time, filterNow: Time)
      returns (r: Result<nat, FilterError>)
      requires Valid() && clock < now
      modifies this
      ensures Valid() && Abs() == Purged(old(Abs()), inShelf, input, now, filterNow)
      ensures PurgeProblem(input).None? ==> r == Success(|Purgeable(old(Abs()), inShelf, input, filterNow)|)
      ensures PurgeProblem(input).Some? ==> r == Failure(PurgeProblem(input).value)
      ensures pushes == old(pushes) + if edit == old(edit) then 0 else 1
    {
      hide Inv, Render, RenderList, Addressed, Purged, Purgeable, PurgeSelects, PurgeProblem;
      ghost var s := Abs();
      ghost var t := Purged(s, inShelf, input, now, filterNow);
      StateFacts(s);
      PurgeShape(s, inShelf, input, now, filterNow);
      PurgeKeepsInv(s, inShelf, input, now, filterNow);
      PurgeTreeChange(s, inShelf, input, now, filterNow);
      ClockDoesNotShow(s, now);
      clock := now;
      var built := PurgeFilter(input, filterNow);
      if built.Failure? {
        assert Abs() == t;
        return Failure(built.error);
      }
      var purgedAlarms := PurgeMatching(inShelf, built.value, now, Purgeable(s, inShelf, input, filterNow), Abs(), t);
      r := Success(purgedAlarms);
    }

    /** The part under the lock: the purging loop and the push. */
    method PurgeMatching(inShelf: bool, filter: AlarmFilter, now: Time, ghost gone: set<InstanceKey>, ghost s: State,
                         ghost t: State)
      returns (purgedAlarms: nat)
      requires Abs() == s && ListsMirror() && edit == Render(s) && published == edit && gone <= alarms.Keys
      requires forall k :: k in alarms ==>
               (k in gone <==> alarms[k].shelf.Some? == inShelf && filter.Matches(k, alarms[k]))
      requires Inv(t) && t == s.(alarms := s.alarms - gone, traces := s.traces - gone,
                                 alarmListLastChanged := if gone != {} && !inShelf then now else s.alarmListLastChanged,
                                 shelfListLastChanged := if gone != {} && inShelf then now else s.shelfListLastChanged)
      modifies this
      ensures Abs() == t && edit == Render(t) && published == edit && PathsFollow() && purgedAlarms == |gone|
      ensures pushes == old(pushes) + if gone == {} then 0 else 1
    {
      hide Inv, Render, RenderList, Addressed, Countable;
      purgedAlarms := ErasePurged(inShelf, filter, gone);
      if purgedAlarms > 0 {
        FinishPurge(inShelf, now, t);
      } else {
        assert gone == {};
        assert s.alarms - {} == s.alarms && s.traces - {} == s.traces;
      }
    }

    /** Sets the stamp of the list, recounts and pushes. */
    method FinishPurge(inShelf: bool, now: Time, ghost t: State)
      requires ListsMirror() && Inv(t)
      requires t == if inShelf then Abs().(shelfListLastChanged := now) else Abs().(alarmListLastChanged := now)
      modifies this`edit, this`alarmListLastChanged, this`shelfListLastChanged, this`published, this`pushes
      ensures Abs() == t && edit == Render(t) && published == edit && PathsFollow() && pushes == old(pushes) + 1
    {
      hide Inv, Render, RenderList, Countable, Addressed;
      if inShelf {
        shelfListLastChanged := now;
      } else {
        alarmListLastChanged := now;
      }
      InvCountable(t);
      Recount();
      Push();
    }

    /** The purging loop. */
    method ErasePurged(inShelf: bool, filter: AlarmFilter, ghost gone: set<InstanceKey>) returns (purgedAlarms: nat)
      requires ListsMirror() && gone <= alarms.Keys
      requires forall k :: k in alarms ==>
               (k in gone <==> alarms[k].shelf.Some? == inShelf && filter.Matches(k, alarms[k]))
      modifies this`alarms, this`traces, this`edit, this`paths
      ensures alarms == old(alarms) - gone && traces == old(traces) - gone && purgedAlarms == |gone|
      ensures ListsMirror() && edit == old(edit).(alarms := edit.alarms, shelved := edit.shelved)
      ensures gone == {} ==> edit == old(edit)
    {
      hide RenderList, Addressed;
      purgedAlarms := 0;
      var todo := alarms.Keys;
      ChosenEnds(alarms, gone);
      ChosenEnds(traces, gone);
      while todo != {}
        invariant todo <= alarms.Keys
        invariant alarms == old(alarms) - (gone - todo) && traces == old(traces) - (gone - todo)
        invariant ListsMirror() && edit == old(edit).(alarms := edit.alarms, shelved := edit.shelved)
        invariant gone == {} ==> edit == old(edit)
        invariant purgedAlarms == |gone - todo|
      {
        var key :| key in todo;
        ChosenSteps(old(alarms), gone, todo, key);
        ChosenSteps(old(traces), gone, todo, key);
        assert alarms[key] == old(alarms)[key];
        if inShelf == alarms[key].shelf.Some? && filter.Matches(key, alarms[key]) {
          purgedAlarms := purgedAlarms + 1;
          Unlink(inShelf, key);
        }
        todo := todo - {key};
      }
    }

    /** Erases one alarm from the cache and unlinks its node. */
    method Unlink(inShelf: bool, key: InstanceKey)
      requires ListsMirror() && key in alarms && alarms[key].shelf.Some? == inShelf
      modifies this`alarms, this`traces, this`edit, this`paths
      ensures alarms == old(alarms) - {key} && traces == old(traces) - {key}
      ensures ListsMirror() && edit == old(edit).(alarms := edit.alarms, shelved := edit.shelved)
    {
      hide RenderList, Addressed;
      NodeAt(alarms, traces, key);
      EraseShows(alarms, traces, key, false);
      EraseShows(alarms, traces, key, true);
      UnlinkNode(inShelf, key);
      assert RenderList(alarms, traces, !inShelf) - {key} == RenderList(alarms, traces, !inShelf);
      alarms := alarms - {key};
      traces := traces - {key};
    }

    /** `compress-alarms` and `compress-shelved-alarms`. */
    method CompressAlarms(inShelf: bool, input: CompressInput) returns (compressedAlarmEntries: nat)
      requires Valid()
      modifies this
      ensures Valid() && Abs() == Compressed(old(Abs()), inShelf, input)
      ensures compressedAlarmEntries == |Compressible(old(Abs()), inShelf, input)|
      ensures pushes == old(pushes) + if edit == old(edit) then 0 else 1
    {
      hide Inv, Render, RenderList, Addressed, Compressed, Compressible, HistoriesOk;
      ghost var s := Abs();
      StateFacts(s);
      CompressShape(s, inShelf, input);
      CompressKeepsInv(s, inShelf, input);
      CompressTreeChange(s, inShelf, input);
      compressedAlarmEntries := CompressMatching(inShelf, input, s);
      if compressedAlarmEntries > 0 {
        Push();
      }
    }

    /** The compressing loop. */
    method CompressMatching(inShelf: bool, input: CompressInput, ghost s: State) returns (n: nat)
      requires ListsMirror() && HistoriesOk(alarms, traces) && s.alarms == alarms
      modifies this`alarms, this`edit, this`paths
      ensures alarms == Compressed(s, inShelf, input).alarms && n == |Compressible(s, inShelf, input)|
      ensures ListsMirror() && edit == old(edit).(alarms := edit.alarms, shelved := edit.shelved)
    {
      hide ListsMirror, Compressed, Compressible, CompressedEntry, CompressSelects, Passing, HistoriesOk, Increasing,
           SuffixOf;
      ghost var was, target, longer := alarms, Compressed(s, inShelf, input).alarms, Compressible(s, inShelf, input);
      var filter := CompressFilter(input);
      n := 0;
      var todo := alarms.Keys;
      CompressedKeys(s, inShelf, input);
      PassStarts(was, target, longer);
      while todo != {}
        invariant Passing(was, target, longer, todo, alarms, n)
        invariant forall k, e :: filter.Matches(k, e) <==> CompressSelects(input, k)
        invariant ListsMirror() && edit == old(edit).(alarms := edit.alarms, shelved := edit.shelved)
      {
        var key :| key in todo;
        PassSteps(was, target, longer, todo, alarms, n, key);
        CompressedAt(s, inShelf, input, key);
        HistoryOkAt(was, traces, key);
        var counted := CompressOne(inShelf, input, filter, key);
        if counted {
          n := n + 1;
        }
        todo := todo - {key};
      }
      PassEnds(was, target, longer, alarms, n);
    }

    /** The body of that loop; says whether the alarm had anything to discard. */
    method CompressOne(inShelf: bool, input: CompressInput, filter: AlarmFilter, key: InstanceKey)
      returns (counted: bool)
      requires ListsMirror() && key in alarms
      requires Increasing(traces[key].log) && SuffixOf(alarms[key].statusChanges, traces[key].log)
      requires filter.Matches(key, alarms[key]) <==> CompressSelects(input, key)
      modifies this`alarms, this`edit, this`paths
      ensures alarms == old(alarms)[key := CompressedEntry(old(alarms)[key], inShelf, input, key)]
      ensures counted <==>
              CompressSelected(old(alarms)[key], inShelf, input, key) && |old(alarms)[key].statusChanges| > 1
      ensures ListsMirror() && edit == old(edit).(alarms := edit.alarms, shelved := edit.shelved)
    {
      hide RenderList, Addressed, Trimmed, CompressSelects, Increasing, SuffixOf;
      counted := false;
      if inShelf == alarms[key].shelf.Some? && filter.Matches(key, alarms[key]) {
        var discarded := TrimHistory(key, Some(1));
        counted := discarded > 0;
      }
    }

    // ---------- Shelving ----------

    /** Moves alarms between the lists after the rules changed; says whether any alarm moved. */
    method Reshelve(rules: seq<Shelf>, now: Time) returns (change: bool)
      requires ListsMirror() && HistoriesOk(alarms, traces) && edit == Render(Abs())
      requires Countable(Reshelved(Abs(), rules, now))
      modifies this`alarms, this`traces, this`edit, this`paths, this`shelvingRules, this`alarmListLastChanged,
               this`shelfListLastChanged
      ensures Abs() == Reshelved(old(Abs()), rules, now) && edit == Render(Abs()) && ListsMirror()
      ensures change <==> Moved(old(alarms), rules) != {}
      ensures !change ==> edit == old(edit)
    {
      hide Countable, Render, RenderList, Addressed, HistoriesOk, Moved, Crossing, ReshelvedAlarms, ReshelvedTraces,
           FindMatchingShelf;
      ghost var s := Abs();
      shelvingRules := Some(rules);
      change := ReshelveLoop(rules, now);
      assert Abs() == Reshelved(s, rules, now);
      if change {
        Recount();
      } else {
        NothingMoved(s, rules, now);
        RulesDoNotShow(s, rules);
      }
    }

    method ReshelveLoop(rules: seq<Shelf>, now: Time) returns (change: bool)
      requires ListsMirror() && HistoriesOk(alarms, traces) && traces.Keys == alarms.Keys
      modifies this`alarms, this`traces, this`edit, this`paths, this`alarmListLastChanged, this`shelfListLastChanged
      ensures alarms == ReshelvedAlarms(old(alarms), rules)
      ensures traces == ReshelvedTraces(old(alarms), old(traces), rules, now)
      ensures alarmListLastChanged == if Crossing(old(alarms), rules) != {} then now else old(alarmListLastChanged)
      ensures shelfListLastChanged == if Moved(old(alarms), rules) != {} then now else old(shelfListLastChanged)
      ensures change <==> Moved(old(alarms), rules) != {}
      ensures ListsMirror() && edit == old(edit).(alarms := edit.alarms, shelved := edit.shelved)
      ensures !change ==> edit == old(edit)
    {
      hide ListsMirror, Moved, Crossing, ReshelvedAlarms, ReshelvedTraces, FindMatchingShelf, Passing, HistoriesOk,
           Increasing,
           SuffixOf;
      ghost var was, traced, moves, crosses := alarms, traces, 0, 0;
      ghost var target, target' := ReshelvedAlarms(was, rules), ReshelvedTraces(was, traced, rules, now);
      ghost var moved, crossing := Moved(was, rules), Crossing(was, rules);
      change := false;
      var todo := alarms.Keys;
      ReshelvedKeys(was, traced, rules, now);
      PassStarts(was, target, moved);
      PassStarts(traced, target', crossing);
      while todo != {}
        invariant Passing(was, target, moved, todo, alarms, moves)
        invariant Passing(traced, target', crossing, todo, traces, crosses)
        invariant alarmListLastChanged == if crosses > 0 then now else old(alarmListLastChanged)
        invariant shelfListLastChanged == if moves > 0 then now else old(shelfListLastChanged)
        invariant change <==> moves > 0
        invariant ListsMirror() && edit == old(edit).(alarms := edit.alarms, shelved := edit.shelved)
        invariant !change ==> edit == old(edit)
      {
        var key :| key in todo;
        PassSteps(was, target, moved, todo, alarms, moves, key);
        PassSteps(traced, target', crossing, todo, traces, crosses, key);
        ReshelvedAt(was, traced, rules, now, key);
        HistoryOkAt(was, traced, key);
        var movedNow := ReshelveOne(key, FindMatchingShelf(key, rules), now);
        if movedNow {
          change := true;
          moves := moves + 1;
        }
        crosses := crosses + if key in crossing then 1 else 0;
        todo := todo - {key};
      }
      PassEnds(was, target, moved, alarms, moves);
      PassEnds(traced, target', crossing, traces, crosses);
    }

    /** Builds the copy of a node; every copied status change is a new list entry. */
    method CreateCommonAlarmNodeProps(alarm: Node) returns (node: Node)
      requires Descending(alarm.statusChanges)
      ensures node == CopyOf(alarm)
    {
      node := EMPTY_NODE.(isCleared := alarm.isCleared, lastRaised := alarm.lastRaised,
                          lastChanged := alarm.lastChanged,
                          perceivedSeverity := alarm.perceivedSeverity, text := alarm.text);
      for i := 0 to |alarm.statusChanges|
        invariant node == CopyOf(alarm).(statusChanges := alarm.statusChanges[..i])
      {
        var change := alarm.statusChanges[i];
        assert !HasTime(node.statusChanges, change.time);
        assert alarm.statusChanges[..i + 1] == alarm.statusChanges[..i] + [change];
        node := node.(statusChanges := node.statusChanges + [change]);
      }
      assert alarm.statusChanges[..|alarm.statusChanges|] == alarm.statusChanges;
    }

    /** The body of that loop. */
    method ReshelveOne(key: InstanceKey, shelf: Option<string>, now: Time) returns (moves: bool)
      requires ListsMirror() && key in alarms && Increasing(traces[key].log)
      modifies this`alarms, this`traces, this`edit, this`paths, this`alarmListLastChanged, this`shelfListLastChanged
      ensures moves <==> old(alarms)[key].shelf != shelf
      ensures alarms == old(alarms)[key := old(alarms)[key].(shelf := shelf)]
      ensures traces == old(traces)[key := if old(alarms)[key].shelf.Some? && shelf.None?
                                           then old(traces)[key].(shown := now) else old(traces)[key]]
      ensures alarmListLastChanged ==
              if old(alarms)[key].shelf.Some? != shelf.Some? then now else old(alarmListLastChanged)
      ensures shelfListLastChanged == if old(alarms)[key].shelf != shelf then now else old(shelfListLastChanged)
      ensures ListsMirror() && edit == old(edit).(alarms := edit.alarms, shelved := edit.shelved)
      ensures !moves ==> edit == old(edit)
    {
      hide RenderList, Addressed, NodeOf, Increasing, Descending;
      var alarm := alarms[key];
      ghost var t := traces[key];
      moves := alarm.shelf != shelf;
      NodeAt(alarms, traces, key);
      NodeAddressed(paths, edit, alarm.shelf.Some?, key);
      NodeDescends(alarm, t);
      if alarm.shelf.Some? && shelf.None? {
        MoveShows(alarms, traces, key, shelf, t.(shown := now));
        var node := CreateCommonAlarmNodeProps(edit.At(true, key));
        alarms := alarms[key := alarm.(shelf := None)];
        traces := traces[key := t.(shown := now)];
        alarmListLastChanged, shelfListLastChanged := now, now;
        MoveNode(true, key, node.(timeCreated := Some(now)));
      } else if alarm.shelf.None? && shelf.Some? {
        MoveShows(alarms, traces, key, shelf, t);
        var node := CreateCommonAlarmNodeProps(edit.At(false, key));
        alarms := alarms[key := alarm.(shelf := shelf)];
        traces := traces[key := t];
        alarmListLastChanged, shelfListLastChanged := now, now;
        MoveNode(false, key, node.(shelfName := shelf));
      } else if alarm.shelf.Some? && shelf.Some? && alarm.shelf.value != shelf.value {
        MoveShows(alarms, traces, key, shelf, t);
        alarms := alarms[key := alarm.(shelf := shelf)];
        traces := traces[key := t];
        shelfListLastChanged := now;
        PutNode(true, key, edit.At(true, key).(shelfName := shelf));
      } else {
        assert alarms[key := alarm.(shelf := shelf)] == alarms && traces[key := t] == traces;
      }
    }

    // ---------- Control ----------

    /** The callback for changes of the control container. */
    method ControlChanged(batch: seq<Change>, rules: seq<Shelf>, now: Time)
      requires Valid() && clock < now
      modifies this
      ensures Valid() && Abs() == Reconfigured(old(Abs()), batch, rules, now)
      ensures pushes == old(pushes) + if edit == old(edit) then 0 else 1
    {
      hide Inv, Countable, Render, RenderList, Addressed, Reshelved, Resettled, AfterShelving, Reconfigured;
      hide AllTrimmed, Moved, Shrinkable, HistoriesOk, ApplyAll, Folded, Lowers;
      ghost var s := Abs();
      StateFacts(s);
      ReconfigureKeepsInv(s, batch, rules, now);
      ResettledFacts(s, batch, now);
      ReshelvedCountable(s, batch, rules, now);
      AfterShelvingFacts(s, batch, rules, now);
      TrimFacts(s, batch, rules, now);
      ReconfigureTreeChange(s, batch, rules, now);
      clock := now;
      config := ApplyAll(config, batch);
      var next, needsReshelve, needsShrink :=
        ReadChanges(Settings(notifyStatusChanges, notifySeverityThreshold, maxAlarmStatusChanges), batch);
      notifyStatusChanges, notifySeverityThreshold, maxAlarmStatusChanges := next.mode, next.threshold, next.limit;
      ReconfiguredParts(s, batch, rules, now);
      ApplyBatch(needsReshelve, needsShrink, rules, now, Abs(), AfterShelving(s, batch, rules, now),
        Reconfigured(s, batch, rules, now));
    }

    /** The rest of the callback: reshelves and trims as needed, and pushes what changed. */
    method ApplyBatch(needsReshelve: bool, needsShrink: bool, rules: seq<Shelf>, now: Time, ghost s1: State,
                      ghost s2: State, ghost t: State)
      requires Abs() == s1 && edit == Render(s1) && published == edit && ListsMirror()
      requires HistoriesOk(s1.alarms, s1.traces) && HistoriesOk(s2.alarms, s2.traces)
      requires Countable(Reshelved(s1, rules, now))
      requires s2 == if needsReshelve then Reshelved(s1, rules, now) else s1
      requires t == s2.(alarms := AllTrimmed(s2.alarms, s2.settings.limit))
      requires (s2.settings.limit.None? || !needsShrink ==> t == s2)
      requires Render(t) ==
               Render(s2).(alarms := RenderList(t.alarms, t.traces, false),
                           shelved := RenderList(t.alarms, t.traces, true))
      modifies this
      ensures Abs() == t && edit == Render(t) && published == edit && PathsFollow()
      ensures pushes == old(pushes) + if (needsReshelve && Moved(s1.alarms, rules) != {}) ||
                                         (needsShrink && s2.settings.limit.Some? &&
                                          Shrinkable(s2.alarms, s2.settings.limit) != {}) then 1 else 0
    {
      hide *;
      var changed := false;
      AbsLists();
      if needsReshelve {
        changed := Reshelve(rules, now);
      }
      assert Abs() == s2 && edit == Render(s2);
      AbsLists();
      if needsShrink {
        var shrunk := ShrinkStatusChangesLists();
        changed := changed || shrunk;
      }
      AbsLists();
      assert Abs() == t;
      ListsMirrored();
      if changed {
        Push();
      }
    }

    // ---------- Inventory ----------

    /** Another session writes the stored inventory. */
    method ExternalInventoryWrite(store: seq<InventoryEntry>)
      requires Valid()
      modifies this`storedInventory, this`inventoryHistory, this`pendingCallbacks
      ensures Valid() && Abs() == InventoryWritten(old(Abs()), store)
    {
      hide Inv, InventoryOk, Render, Addressed;
      InventoryStepsOk(Abs(), store);
      inventoryHistory := inventoryHistory.(past := inventoryHistory.past + [storedInventory]);
      storedInventory := store;
      pendingCallbacks := pendingCallbacks + 1;
      OnlyInventory(old(Abs()), Abs());
    }

    /** The invalidation callback for such a write. */
    method InventoryChanged()
      requires Valid() && pendingCallbacks > 0
      modifies this`inventoryDirty, this`pendingCallbacks, this`inventoryHistory
      ensures Valid() && Abs() == InventoryInvalidated(old(Abs()))
    {
      hide Inv, InventoryOk, Render, Addressed;
      InventoryStepsOk(Abs(), []);
      inventoryDirty := true;
      pendingCallbacks := pendingCallbacks - 1;
      inventoryHistory := inventoryHistory.(announced := inventoryHistory.announced + 1);
      OnlyInventory(old(Abs()), Abs());
    }

    method RebuildInventory()
      modifies this`inventory, this`inventoryDirty, this`inventoryHistory
      ensures inventory == Parsed(storedInventory) && !inventoryDirty
      ensures inventoryHistory == old(inventoryHistory).(read := |old(inventoryHistory).past|)
    {
      inventory := Parse(storedInventory);
      inventoryDirty := false;
      inventoryHistory := inventoryHistory.(read := |inventoryHistory.past|);
    }

    // ---------- Reports ----------

    /** Handles `create-or-update-alarm`. */
    method SubmitAlarm(r: Report, now: Time) returns (code: SubmitCode)
      requires Valid() && clock < now && CanSubmit(Abs(), r)
      modifies this
      ensures Valid() && Abs() == Submitted(old(Abs()), r, now)
      ensures code == SubmitOutcome(old(Abs()), r)
      ensures pushes == old(pushes) + if edit == old(edit) then 0 else 1
    {
      hide Inv, Countable, Render, RenderList, Addressed, Submitted, Recorded, Changes, HistoriesOk, ValidationError,
           Parsed,
           FindMatchingShelf, EscapeListKey, Refreshed;
      PrintsExactlyWhenPrintable(r.key);
      ghost var s := Abs();
      StateFacts(s);
      SubmitKeepsInv(s, r, now);
      SubmitShape(s, r, now);
      InvCountable(Submitted(s, r, now));
      clock := now;
      if r.key.XPathIndex().Failure? {
        return InvalidArgument;
      }
      var inventoryError := CheckInventory(r);
      if inventoryError.Some? {
        return OperationFailed(inventoryError.value);
      }
      code := Ok;
      if r.severity == CLEARED && (r.key !in alarms || alarms[r.key].isCleared) {
        return;
      }
      RecordReport(r, now, s);
    }

    /** Looks a report up in the inventory cache, which is rebuilt first if it is dirty. */
    method CheckInventory(r: Report) returns (inventoryError: Option<InventoryProblem>)
      modifies this`inventory, this`inventoryDirty, this`inventoryHistory
      ensures Abs() == old(Abs()).(inventory := Refreshed(old(Abs()).inventory))
      ensures inventoryError == ValidationError(Refreshed(old(Abs()).inventory).cache, r.key, r.severity)
    {
      hide ValidationError, Parsed;
      if inventoryDirty {
        RebuildInventory();
      }
      inventoryError := ValidationError(inventory, r.key, r.severity);
    }

    /** The part of the handler after all checks. */
    method RecordReport(r: Report, now: Time, ghost s: State)
      requires Inv(s) && s.clock < now && Abs() == s.(clock := now, inventory := Abs().inventory) && CanRecord(Abs(), r)
      requires ListsMirror() && edit == Render(Abs()) && published == edit && r.key.Printable()
      requires Changes(Cached(alarms, r.key), r.severity, r.text) ==> Countable(Recorded(Abs(), r, now))
      modifies this
      ensures Abs() == if Changes(Cached(old(alarms), r.key), r.severity, r.text) then Recorded(old(Abs()), r, now)
                       else old(Abs())
      ensures edit == Render(Abs()) && published == edit && PathsFollow()
      ensures pushes == old(pushes) + if edit == old(edit) then 0 else 1
    {
      hide Inv, Countable, Render, RenderList, Addressed, Reportable, NodeBefore, Recorded, Updated, TrimmedTimes,
           Reported, Changes,
           Announces, FindMatchingShelf, ListsMirror, PathsFollow, Abs;
      ghost var s2 := Abs();
      AbsLists();
      AbsControl();
      ReportableLater(s, s2, r, now);
      ListsMirrored();
      ListsOfState(s2);
      var matchedShelf := FindMatchingShelf(r.key, shelvingRules.value);
      NodeBeforeListed(s2, r.key, matchedShelf.Some?);
      CreateNode(matchedShelf.Some?, r.key);
      var res := UpdateEntry(r, now, matchedShelf);
      ghost var was := Cached(s2.alarms, r.key);
      if res.changed {
        RecordTreeChange(s2, r, now);
        ghost var full := Reported(was, now, r.severity, r.text, matchedShelf);
        PublishReport(r, now, matchedShelf, alarms[r.key], res, s2, full, Recorded(s2, r, now));
      } else {
        UnchangedEntry(was, now, r, matchedShelf, maxAlarmStatusChanges);
        assert s2.alarms[r.key := s2.alarms[r.key]] == s2.alarms;
      }
    }

    /** Makes sure that there is a node at a path. */
    method CreateNode(inShelf: bool, key: InstanceKey)
      requires PathsFollow() && key.Printable()
      modifies this`edit, this`paths
      ensures edit == (if old(edit).Has(inShelf, key) then old(edit) else old(edit).Put(inShelf, key, EMPTY_NODE))
      ensures PathsFollow()
    {
      hide Addressed;
      if !edit.Has(inShelf, key) {
        PutNode(inShelf, key, EMPTY_NODE);
      }
    }

    /** Finds or creates the cached entry and takes the report over into it. */
    method UpdateEntry(r: Report, now: Time, shelf: Option<string>) returns (res: WhatChanged)
      requires r.key in alarms ==> 2 <= alarms[r.key].lastSeverity <= 6
      requires r.severity == CLEARED ==> r.key in alarms
      requires notifyStatusChanges.BySeverity? && r.severity != CLEARED ==> notifySeverityThreshold.Some?
      modifies this`alarms
      ensures Abs() == old(Abs()).(alarms := alarms)
      ensures var was := Cached(old(alarms), r.key);
              && alarms == old(alarms)[r.key := Updated(was, now, r.severity, r.text, shelf, maxAlarmStatusChanges)]
              && res.changed == Changes(was, r.severity, r.text)
              && res.shouldNotify == Announces(was, r.severity, notifyStatusChanges, notifySeverityThreshold)
              && res.removedStatusChanges == (if res.changed
                   then TrimmedTimes(Reported(was, now, r.severity, r.text, shelf), maxAlarmStatusChanges) else [])
    {
      hide Updated, TrimmedTimes, Reported, Changes, Announces;
      var wasPresent := r.key in alarms;
      var alarm := new AlarmEntry(if wasPresent then alarms[r.key] else BLANK);
      res := alarm.UpdateByRpc(wasPresent, now, r.severity, r.text, shelf,
                               notifyStatusChanges, notifySeverityThreshold, maxAlarmStatusChanges);
      alarms := alarms[r.key := alarm.Value()];
    }

    /** Writes a recorded report to the tree, pushes the tree and sends the notification. */
    method PublishReport(r: Report, now: Time, shelf: Option<string>, e: Entry, res: WhatChanged, ghost s: State,
                         ghost full: Entry, ghost t: State)
      requires Recording(s, r, now, shelf, full, e, t) && Countable(t) && Abs() == s.(alarms := s.alarms[r.key := e])
      requires res.removedStatusChanges == TrimmedTimes(full, s.settings.limit)
      requires res.shouldNotify == Announces(Cached(s.alarms, r.key), r.severity, s.settings.mode, s.settings.threshold)
      requires edit ==
               if Render(s).Has(shelf.Some?, r.key) then Render(s) else Render(s).Put(shelf.Some?, r.key, EMPTY_NODE)
      requires PathsFollow()
      modifies this
      ensures Abs() == t && edit == Render(t) && published == edit && PathsFollow() && pushes == old(pushes) + 1
    {
      hide *;
      AbsFramed();
      WriteReport(r, now, shelf, e, res.removedStatusChanges, s, full, t);
      Push();
      if res.shouldNotify {
        sent := sent + [CreateStatusChangeNotification(r.key, edit.At(shelf.Some?, r.key))];
      }
      AbsFramed();
      RecordedState(s, r, now, shelf, full, e, t, Abs());
    }

    /** Writes the leaves and the status changes of the node, then recounts. */
    method WriteReport(r: Report, now: Time, shelf: Option<string>, e: Entry, removed: seq<Time>, ghost s: State,
                       ghost full: Entry, ghost t: State)
      requires Recording(s, r, now, shelf, full, e, t) && Countable(t)
      requires alarms == s.alarms[r.key := e] && removed == TrimmedTimes(full, s.settings.limit)
      requires alarmListLastChanged == s.alarmListLastChanged && shelfListLastChanged == s.shelfListLastChanged
      requires edit ==
               if Render(s).Has(shelf.Some?, r.key) then Render(s) else Render(s).Put(shelf.Some?, r.key, EMPTY_NODE)
      requires PathsFollow()
      modifies this`traces, this`edit, this`paths, this`alarmListLastChanged, this`shelfListLastChanged
      ensures traces == t.traces && edit == Render(t) && PathsFollow()
      ensures alarmListLastChanged == t.alarmListLastChanged && shelfListLastChanged == t.shelfListLastChanged
      ensures edit.Has(shelf.Some?, r.key)
      ensures CreateStatusChangeNotification(r.key, edit.At(shelf.Some?, r.key)) ==
              Notification(r.key, now, r.severity, r.text)
    {
      hide Recording, Countable, Render, RenderList, Addressed, NodeBefore, Recorded, Announces, TrimmedTimes,
           Descending, HasTime,
           OldestTimes;
      var inShelf := shelf.Some?;
      RecordShows(s, r, now, shelf, full, e, t);
      RecordChanges(s, r, now, shelf, full, e, t);
      RecordFields(s, r, now, shelf, full, e, t);
      NodeBeforeListed(s, r.key, inShelf);
      ListsOfState(s);
      NodeAddressed(paths, edit, inShelf, r.key);
      traces := t.traces;
      var node := WriteLeaves(edit.At(inShelf, r.key), e);
      node := UpdateStatusChangeList(node, e, removed);
      PutNode(inShelf, r.key, node);
      RecountRecorded(r, now, inShelf, t);
      ListsOfState(t);
    }

    method WriteLeaves(node: Node, e: Entry) returns (node': Node)
      ensures node' == WithLeaves(node, e)
    {
      node' := node.(isCleared := e.isCleared);
      node' := node'.(lastRaised := e.lastRaised);
      node' := node'.(lastChanged := e.lastChanged);
      node' := node'.(perceivedSeverity := e.lastSeverity);
      node' := node'.(text := e.text);
      if e.shelf.Some? {
        node' := node'.(shelfName := e.shelf);
      } else {
        node' := node'.(timeCreated := Some(e.created));
      }
    }

    /** Puts the new change in front of the others and unlinks the discarded ones. */
    method UpdateStatusChangeList(node: Node, alarm: Entry, removed: seq<Time>) returns (node': Node)
      requires !HasTime(node.statusChanges, alarm.lastChanged)
      requires Descending([NewestChange(alarm)] + node.statusChanges)
      requires OldestTimes(removed, [NewestChange(alarm)] + node.statusChanges)
      ensures var list := [NewestChange(alarm)] + node.statusChanges;
              node' == node.(statusChanges := list[..|list| - |removed|])
    {
      hide Descending, OldestTimes, HasTime, UnlinkTime;
      var list := node.statusChanges;
      var firstExisting := list != [];
      var severity := if alarm.isCleared then CLEARED else alarm.lastSeverity;
      list := list + [StatusChange(alarm.lastChanged, severity, alarm.text)];
      if firstExisting {
        list := [list[|list| - 1]] + list[..|list| - 1];
      }
      ghost var longer := [NewestChange(alarm)] + node.statusChanges;
      OldestTimesFit(removed, longer);
      assert list == longer == longer[..|longer|];
      for i := 0 to |removed|
        invariant list == longer[..|longer| - i]
      {
        UnlinkNthOldest(longer, removed, i);
        list := UnlinkTime(list, removed[i]);
      }
      node' := node.(statusChanges := list);
    }

    function CreateStatusChangeNotification(key: InstanceKey, node: Node): Notification {
      Notification(key, node.lastChanged, if node.isCleared then CLEARED else node.perceivedSeverity, node.text)
    }

    /** The recount after a report: the stamp of the alarm's list becomes the time of the report. */
    method RecountRecorded(r: Report, now: Time, inShelf: bool, ghost t: State)
      requires Countable(t) && r.key in t.alarms && t.alarms[r.key].shelf.Some? == inShelf
      requires t.alarms[r.key].lastChanged == now == ListStamp(t, inShelf)
      requires alarms == t.alarms && traces == t.traces && ListsMirror()
      requires (if inShelf then shelfListLastChanged else alarmListLastChanged) < now
      requires (if inShelf then alarmListLastChanged else shelfListLastChanged) == ListStamp(t, !inShelf)
      modifies this`edit, this`alarmListLastChanged, this`shelfListLastChanged
      ensures alarmListLastChanged == t.alarmListLastChanged && shelfListLastChanged == t.shelfListLastChanged
      ensures edit == Render(t) && PathsFollow()
    {
      UpdateStatistics();
      if inShelf {
        RecountFindsStamp(t, true, old(shelfListLastChanged), shelfListLastChanged, r.key);
        RecountKeepsStamp(t, false, alarmListLastChanged);
      } else {
        RecountFindsStamp(t, false, old(alarmListLastChanged), alarmListLastChanged, r.key);
        RecountKeepsStamp(t, true, shelfListLastChanged);
      }
    }
  }
}
