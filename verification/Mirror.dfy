/** How single edits of the cache show in the tree rendered from it. */
module Mirror {
  import opened Wrappers
  import opened Key
  import opened Alarms
  import opened ShelfMatch
  import opened Filters
  import opened Inventories
  import opened Control
  import opened Trees
  import opened Machine

  /** Storing one alarm writes its node into the list its shelf names, and clears it from the other. */
  lemma {:induction false} StoreShows(alarms: map<InstanceKey, Entry>, traces: map<InstanceKey, Trace>,
                                      key: InstanceKey, e: Entry, t: Trace, inShelf: bool)
    ensures RenderList(alarms[key := e], traces[key := t], inShelf) ==
            if e.shelf.Some? == inShelf then RenderList(alarms, traces, inShelf)[key := NodeOf(e, t)]
            else RenderList(alarms, traces, inShelf) - {key}
  {
  }

  /** Erasing one alarm removes its node. */
  lemma {:induction false} EraseShows(alarms: map<InstanceKey, Entry>, traces: map<InstanceKey, Trace>,
                                      key: InstanceKey, inShelf: bool)
    ensures RenderList(alarms - {key}, traces - {key}, inShelf) == RenderList(alarms, traces, inShelf) - {key}
  {
  }

  /** A pass over the cache that has not reached the keys in `todo` yet. */
  function Partly<V>(was: map<InstanceKey, V>, target: map<InstanceKey, V>, todo: set<InstanceKey>): map<InstanceKey, V>
    requires was.Keys == target.Keys
  {
    map k | k in was :: if k in todo then was[k] else target[k]
  }

  /** A pass that has turned `was` into `target` everywhere but at the keys in `todo`, and has met `n` of the chosen
      keys. */
  ghost predicate Passing<V>(was: map<InstanceKey, V>, target: map<InstanceKey, V>, chosen: set<InstanceKey>,
                             todo: set<InstanceKey>, current: map<InstanceKey, V>, n: nat)
  {
    && target.Keys == was.Keys && todo <= was.Keys && chosen <= was.Keys
    && current == Partly(was, target, todo) && n == |chosen - todo|
  }

  lemma {:induction false} PassStarts<V>(was: map<InstanceKey, V>, target: map<InstanceKey, V>,
                                         chosen: set<InstanceKey>)
    requires target.Keys == was.Keys && chosen <= was.Keys
    ensures Passing(was, target, chosen, was.Keys, was, 0)
  {
    assert chosen - was.Keys == {};
  }

  lemma {:induction false} PassSteps<V>(was: map<InstanceKey, V>, target: map<InstanceKey, V>,
                                        chosen: set<InstanceKey>, todo: set<InstanceKey>,
                                        current: map<InstanceKey, V>, n: nat, key: InstanceKey)
    requires Passing(was, target, chosen, todo, current, n) && key in todo
    ensures key in was && key in target && key in current && current[key] == was[key]
    ensures current[key := was[key]] == current
    ensures Passing(was, target, chosen, todo - {key}, current[key := target[key]], n + if key in chosen then 1 else 0)
  {
    assert chosen - (todo - {key}) == chosen - todo + if key in chosen then {key} else {};
    assert current[key := target[key]] == Partly(was, target, todo - {key});
  }

  lemma {:induction false} PassEnds<V>(was: map<InstanceKey, V>, target: map<InstanceKey, V>,
                                       chosen: set<InstanceKey>, current: map<InstanceKey, V>, n: nat)
    requires Passing(was, target, chosen, {}, current, n)
    ensures current == target && n == |chosen| && (n > 0 <==> chosen != {})
  {
    assert chosen - {} == chosen;
  }

  /** One step of a pass that erases or counts the keys in `chosen`. */
  lemma {:induction false} ChosenSteps<V>(was: map<InstanceKey, V>, chosen: set<InstanceKey>, todo: set<InstanceKey>,
                                          key: InstanceKey)
    requires key in todo
    ensures was - (chosen - (todo - {key})) ==
            if key in chosen then (was - (chosen - todo)) - {key} else was - (chosen - todo)
    ensures |chosen - (todo - {key})| == |chosen - todo| + if key in chosen then 1 else 0
  {
    assert chosen - (todo - {key}) == chosen - todo + if key in chosen then {key} else {};
  }

  lemma {:induction false} ChosenEnds<V>(was: map<InstanceKey, V>, chosen: set<InstanceKey>)
    requires chosen <= was.Keys
    ensures was - (chosen - was.Keys) == was && |chosen - was.Keys| == 0
    ensures chosen - {} == chosen
  {
    assert chosen - was.Keys == {};
  }

  predicate Descending(list: seq<StatusChange>) {
    forall i, j :: 0 <= i < j < |list| ==> list[i].time > list[j].time
  }

  /** The times are those of the oldest entries of a newest-first list, oldest first. */
  predicate OldestTimes(times: seq<Time>, list: seq<StatusChange>) {
    |times| <= |list| && forall i :: 0 <= i < |times| ==> times[i] == list[|list| - 1 - i].time
  }

  /** After `i` unlinks the next oldest entry is at the end. */
  lemma {:induction false} UnlinkNthOldest(list: seq<StatusChange>, times: seq<Time>, i: nat)
    requires Descending(list) && OldestTimes(times, list) && i < |times| <= |list|
    ensures var rest := list[..|list| - i];
            HasTime(rest, times[i]) && UnlinkTime(rest, times[i]) == list[..|list| - (i + 1)]
  {
    UnlinkOldest(list[..|list| - i]);
    assert list[..|list| - i][..|list| - i - 1] == list[..|list| - (i + 1)];
  }

  lemma {:induction false} OldestTimesFit(times: seq<Time>, list: seq<StatusChange>)
    requires OldestTimes(times, list)
    ensures |times| <= |list|
  {
  }

  /** The published history is newest first, and what a trim discards are its last entries. */
  lemma {:induction false} TrimShows(e: Entry, t: Trace, limit: Option<Uint16>)
    requires Increasing(t.log) && SuffixOf(e.statusChanges, t.log)
    ensures var list := NewestFirst(t.log, |e.statusChanges|);
            && Descending(list) && OldestTimes(TrimmedTimes(e, limit), list)
            && NewestFirst(t.log, |Trimmed(e, limit).statusChanges|) == list[..|list| - |TrimmedTimes(e, limit)|]
  {
    hide Increasing, Descending;
    TrimmedSize(e, limit);
    NewestFirstDescends(t.log, |e.statusChanges|);
    var list := NewestFirst(t.log, |e.statusChanges|);
    forall i | 0 <= i < |list| ensures list[i].time == t.log[|t.log| - 1 - i].time {
      assert list[i] == t.log[|t.log| - 1 - i].Published();
    }
  }

  lemma {:induction false} TrimmedSize(e: Entry, limit: Option<Uint16>)
    ensures |TrimmedTimes(e, limit)| == Excess(|e.statusChanges|, limit) && Trimmed(e, limit).shelf == e.shelf
  {
  }

  /** Trimming one alarm shortens the published history of its node and changes nothing else. */
  lemma {:induction false} TrimOneShows(alarms: map<InstanceKey, Entry>, traces: map<InstanceKey, Trace>,
                                        key: InstanceKey, limit: Option<Uint16>, inShelf: bool)
    requires key in alarms && key in traces
    requires Increasing(traces[key].log) && SuffixOf(alarms[key].statusChanges, traces[key].log)
    ensures var times := TrimmedTimes(alarms[key], limit);
            var nodes := RenderList(alarms, traces, inShelf);
            var nodes' := RenderList(alarms[key := Trimmed(alarms[key], limit)], traces, inShelf);
            if alarms[key].shelf.Some? == inShelf then
              && key in nodes && Descending(nodes[key].statusChanges) && OldestTimes(times, nodes[key].statusChanges)
              && var list := nodes[key].statusChanges;
                 nodes' == nodes[key := nodes[key].(statusChanges := list[..|list| - |times|])]
            else nodes' == nodes
  {
    var e' := Trimmed(alarms[key], limit);
    TrimShows(alarms[key], traces[key], limit);
    StoreShows(alarms, traces, key, e', traces[key], inShelf);
    assert traces[key := traces[key]] == traces;
  }

  /** A new change goes to the front of the published history, and its time is not in use yet. */
  lemma {:induction false} ChangeShows(log: seq<Logged>, n: nat, l: Logged)
    requires n <= |log| && (forall i :: 0 <= i < |log| ==> log[i].time < l.time)
    ensures NewestFirst(log + [l], n + 1) == [l.Published()] + NewestFirst(log, n)
    ensures !HasTime(NewestFirst(log, n), l.time)
  {
    var list := NewestFirst(log, n);
    forall i | 0 <= i < |list| ensures list[i].time != l.time {
      assert list[i] == log[|log| - 1 - i].Published();
    }
  }

  // ---------- Counting ----------

  /** The effect of one more alarm on the sets that are counted. */
  lemma {:induction false} CountOneMore(alarms: map<InstanceKey, Entry>, key: InstanceKey, e: Entry)
    requires key !in alarms
    ensures forall b :: Listed(alarms[key := e], b) == Listed(alarms, b) + if e.shelf.Some? == b then {key} else {}
    ensures forall v :: OfSeverity(alarms[key := e], v) ==
                        OfSeverity(alarms, v) + if e.shelf.None? && e.lastSeverity == v then {key} else {}
    ensures forall v, c :: OfSeverityBy(alarms[key := e], v, c) ==
                           OfSeverityBy(alarms, v, c) + if e.shelf.None? && e.lastSeverity == v && e.isCleared == c
                             then {key} else {}
  {
  }

  /** Counters that agree with the alarms counted so far. */
  ghost predicate Tallies(part: map<InstanceKey, Entry>, total: map<int, nat>, cleared: map<int, nat>, totalList: nat,
                          totalShelved: nat) {
    && totalList == |Listed(part, false)| && totalShelved == |Listed(part, true)|
    && (forall v :: v in total <==> 2 <= v <= 6) && (forall v :: v in cleared <==> 2 <= v <= 6)
    && (forall v :: v in total ==> total[v] == |OfSeverity(part, v)|)
    && (forall v :: v in cleared ==> cleared[v] == |OfSeverityBy(part, v, true)|)
  }

  lemma {:induction false} TallyNothing(total: map<int, nat>, cleared: map<int, nat>)
    requires forall v :: v in total <==> 2 <= v <= 6
    requires forall v :: v in cleared <==> 2 <= v <= 6
    requires (forall v :: v in total ==> total[v] == 0) && (forall v :: v in cleared ==> cleared[v] == 0)
    ensures Tallies(map[], total, cleared, 0, 0)
  {
    assert Listed(map[], false) == {} && Listed(map[], true) == {};
    assert forall v :: OfSeverity(map[], v) == {} && OfSeverityBy(map[], v, true) == {};
  }

  lemma {:induction false} CardinalOneMore(alarms: map<InstanceKey, Entry>, key: InstanceKey, e: Entry, v: int)
    requires key !in alarms
    ensures var next := alarms[key := e];
            && |Listed(next, false)| == |Listed(alarms, false)| + (if e.shelf.None? then 1 else 0)
            && |Listed(next, true)| == |Listed(alarms, true)| + (if e.shelf.Some? then 1 else 0)
            && |OfSeverity(next, v)| ==
               |OfSeverity(alarms, v)| + (if e.shelf.None? && e.lastSeverity == v then 1 else 0)
            && |OfSeverityBy(next, v, true)| ==
               |OfSeverityBy(alarms, v, true)| + (if e.shelf.None? && e.lastSeverity == v && e.isCleared then 1 else 0)
  {
    CountOneMore(alarms, key, e);
    assert key !in Listed(alarms, false) && key !in Listed(alarms, true);
    assert key !in OfSeverity(alarms, v) && key !in OfSeverityBy(alarms, v, true);
  }

  lemma {:induction false} TallyShelved(part: map<InstanceKey, Entry>, total: map<int, nat>, cleared: map<int, nat>,
                                        n: nat, m: nat, key: InstanceKey, e: Entry)
    requires Tallies(part, total, cleared, n, m) && key !in part && e.shelf.Some?
    ensures Tallies(part[key := e], total, cleared, n, m + 1)
  {
    var next := part[key := e];
    CardinalOneMore(part, key, e, 0);
    forall v | v in total ensures total[v] == |OfSeverity(next, v)| { CardinalOneMore(part, key, e, v); }
    forall v | v in cleared ensures cleared[v] == |OfSeverityBy(next, v, true)| { CardinalOneMore(part, key, e, v); }
  }

  lemma {:induction false} TallyUnshelved(part: map<InstanceKey, Entry>, total: map<int, nat>, cleared: map<int, nat>,
                                          n: nat, m: nat, key: InstanceKey, e: Entry)
    requires Tallies(part, total, cleared, n, m) && key !in part && e.shelf.None? && 2 <= e.lastSeverity <= 6
    ensures var v := e.lastSeverity;
            var cleared' := if e.isCleared then cleared[v := cleared[v] + 1] else cleared;
            Tallies(part[key := e], total[v := total[v] + 1], cleared', n + 1, m)
  {
    var next := part[key := e];
    var total' := total[e.lastSeverity := total[e.lastSeverity] + 1];
    var cleared' := if e.isCleared then cleared[e.lastSeverity := cleared[e.lastSeverity] + 1] else cleared;
    CardinalOneMore(part, key, e, 0);
    forall v | v in total' ensures total'[v] == |OfSeverity(next, v)| { CardinalOneMore(part, key, e, v); }
    forall v | v in cleared' ensures cleared'[v] == |OfSeverityBy(next, v, true)| { CardinalOneMore(part, key, e, v); }
  }

  /** A list stamp after a recount: the latest of its old value and the changes of the alarms in the list. */
  ghost predicate IsLatest(stamp: Time, was: Time, alarms: map<InstanceKey, Entry>, inShelf: bool) {
    && was <= stamp
    && (forall k :: k in Listed(alarms, inShelf) ==> alarms[k].lastChanged <= stamp)
    && (stamp == was || exists k :: k in Listed(alarms, inShelf) && alarms[k].lastChanged == stamp)
  }

  lemma {:induction false} LatestNothing(stamp: Time, inShelf: bool)
    ensures IsLatest(stamp, stamp, map[], inShelf)
  {
  }

  lemma {:induction false} LatestOneMore(stamp: Time, was: Time, part: map<InstanceKey, Entry>, inShelf: bool,
                                         key: InstanceKey, e: Entry)
    requires IsLatest(stamp, was, part, inShelf) && key !in part
    ensures IsLatest(if e.shelf.Some? == inShelf && e.lastChanged >= stamp then e.lastChanged else stamp,
                     was, part[key := e], inShelf)
  {
    CountOneMore(part, key, e);
    assert forall k :: k in part ==> part[key := e][k] == part[k];
    if stamp != was {
      var k :| k in Listed(part, inShelf) && part[k].lastChanged == stamp;
      assert k in Listed(part[key := e], inShelf);
    }
    if e.shelf.Some? == inShelf { assert key in Listed(part[key := e], inShelf); }
  }

  /** Per severity, cleared and not-cleared alarms add up: the subtraction in the summary cannot underflow. */
  lemma {:induction false} ClearedPlusNotCleared(alarms: map<InstanceKey, Entry>, severity: int)
    ensures |OfSeverity(alarms, severity)| ==
            |OfSeverityBy(alarms, severity, true)| + |OfSeverityBy(alarms, severity, false)|
  {
    assert OfSeverity(alarms, severity) == OfSeverityBy(alarms, severity, true) + OfSeverityBy(alarms, severity, false);
    assert OfSeverityBy(alarms, severity, true) !! OfSeverityBy(alarms, severity, false);
  }

  /** The facts about a well-formed state that the handlers work from. */
  lemma {:induction false} StateFacts(s: State)
    requires Inv(s)
    ensures s.traces.Keys == s.alarms.Keys
    ensures Render(s).alarms == RenderList(s.alarms, s.traces, false)
    ensures Render(s).shelved == RenderList(s.alarms, s.traces, true)
    ensures HistoriesOk(s.alarms, s.traces)
  {
    assert forall k :: k in s.alarms ==> AlarmOk(s, k);
  }

  lemma {:induction false} ClockDoesNotShow(s: State, now: Time)
    ensures Render(s.(clock := now)) == Render(s)
  {
  }

  /** A purge, split by whether its input is valid. */
  lemma {:induction false} PurgeShape(s: State, inShelf: bool, input: PurgeInput, now: Time, filterNow: Time)
    ensures var t := Purged(s, inShelf, input, now, filterNow);
            var gone := Purgeable(s, inShelf, input, filterNow);
            && gone <= s.alarms.Keys
            && (PurgeProblem(input).Some? ==> t == s.(clock := now))
            && (PurgeProblem(input).None? ==>
                  t == s.(alarms := s.alarms - gone, traces := s.traces - gone,
                          alarmListLastChanged := if gone != {} && !inShelf then now else s.alarmListLastChanged,
                          shelfListLastChanged := if gone != {} && inShelf then now else s.shelfListLastChanged,
                          clock := now))
            && forall k :: k in s.alarms ==>
               (k in gone <==> s.alarms[k].shelf.Some? == inShelf && PurgeSelects(input, filterNow, s.alarms[k]))
  {
    assert s.alarms - {} == s.alarms && s.traces - {} == s.traces;
  }

  ghost predicate HistoriesOk(alarms: map<InstanceKey, Entry>, traces: map<InstanceKey, Trace>) {
    traces.Keys == alarms.Keys && forall k :: k in alarms ==>
      Increasing(traces[k].log) && SuffixOf(alarms[k].statusChanges, traces[k].log)
  }

  lemma {:induction false} HistoryOkAt(alarms: map<InstanceKey, Entry>, traces: map<InstanceKey, Trace>,
                                       key: InstanceKey)
    requires HistoriesOk(alarms, traces) && key in alarms
    ensures key in traces && Increasing(traces[key].log) && SuffixOf(alarms[key].statusChanges, traces[key].log)
  {
  }

  lemma {:induction false} AllTrimmedKeys(alarms: map<InstanceKey, Entry>, limit: Option<Uint16>)
    ensures AllTrimmed(alarms, limit).Keys == alarms.Keys && Shrinkable(alarms, limit) <= alarms.Keys
  {
  }

  lemma {:induction false} AllTrimmedAt(alarms: map<InstanceKey, Entry>, limit: Option<Uint16>, key: InstanceKey)
    ensures key in alarms <==> key in AllTrimmed(alarms, limit)
    ensures key in alarms ==> AllTrimmed(alarms, limit)[key] == Trimmed(alarms[key], limit)
    ensures key in alarms ==> (key in Shrinkable(alarms, limit) <==> Excess(|alarms[key].statusChanges|, limit) > 0)
  {
  }

  lemma {:induction false} CompressedKeys(s: State, inShelf: bool, input: CompressInput)
    ensures Compressed(s, inShelf, input).alarms.Keys == s.alarms.Keys
    ensures Compressible(s, inShelf, input) <= s.alarms.Keys
  {
  }

  lemma {:induction false} CompressedAt(s: State, inShelf: bool, input: CompressInput, key: InstanceKey)
    ensures key in s.alarms <==> key in Compressed(s, inShelf, input).alarms
    ensures key in s.alarms ==>
            Compressed(s, inShelf, input).alarms[key] == CompressedEntry(s.alarms[key], inShelf, input, key)
    ensures key in s.alarms ==> (key in Compressible(s, inShelf, input)
              <==> CompressSelected(s.alarms[key], inShelf, input, key) && |s.alarms[key].statusChanges| > 1)
  {
  }

  /** A compression touches histories only. */
  lemma {:induction false} CompressShape(s: State, inShelf: bool, input: CompressInput)
    ensures var t := Compressed(s, inShelf, input);
            && t == s.(alarms := t.alarms)
            && Render(t) ==
               Render(s).(alarms := RenderList(t.alarms, t.traces, false),
                          shelved := RenderList(t.alarms, t.traces, true))
  {
    TrimRenders(s, Compressed(s, inShelf, input));
  }

  lemma {:induction false} ReshelvedKeys(alarms: map<InstanceKey, Entry>, traces: map<InstanceKey, Trace>,
                                         rules: seq<Shelf>, now: Time)
    ensures ReshelvedAlarms(alarms, rules).Keys == alarms.Keys
    ensures ReshelvedTraces(alarms, traces, rules, now).Keys == traces.Keys
    ensures Moved(alarms, rules) <= alarms.Keys && Crossing(alarms, rules) <= alarms.Keys
  {
  }

  lemma {:induction false} ReshelvedAt(alarms: map<InstanceKey, Entry>, traces: map<InstanceKey, Trace>,
                                       rules: seq<Shelf>, now: Time, key: InstanceKey)
    ensures key in alarms ==> key in ReshelvedAlarms(alarms, rules)
    ensures key in traces ==> key in ReshelvedTraces(alarms, traces, rules, now)
    ensures key in alarms ==>
              var shelf := FindMatchingShelf(key, rules);
              && ReshelvedAlarms(alarms, rules)[key] == alarms[key].(shelf := shelf)
              && (key in Moved(alarms, rules) <==> alarms[key].shelf != shelf)
              && (key in Crossing(alarms, rules) <==> alarms[key].shelf.Some? != shelf.Some?)
              && (key in traces ==> ReshelvedTraces(alarms, traces, rules, now)[key] ==
                                    if alarms[key].shelf.Some? && shelf.None?
                                      then traces[key].(shown := now) else traces[key])
  {
  }

  /** Rules that move nothing leave everything but the rules alone. */
  lemma {:induction false} NothingMoved(s: State, rules: seq<Shelf>, now: Time)
    requires Moved(s.alarms, rules) == {}
    ensures Reshelved(s, rules, now) == s.(rules := Some(rules))
  {
    forall k | k in s.alarms ensures s.alarms[k].shelf == FindMatchingShelf(k, rules) {
      assert k !in Moved(s.alarms, rules);
    }
    assert ReshelvedAlarms(s.alarms, rules) == s.alarms;
    assert ReshelvedTraces(s.alarms, s.traces, rules, now) == s.traces;
    assert Crossing(s.alarms, rules) == {};
  }

  /** What a recount relies on. */
  ghost predicate Countable(s: State) {
    forall k :: k in s.alarms ==>
      2 <= s.alarms[k].lastSeverity <= 6 && s.alarms[k].lastChanged <= ListStamp(s, s.alarms[k].shelf.Some?)
  }

  lemma {:induction false} InitialFacts(now: Time, shelfNow: Time, store: seq<InventoryEntry>)
    requires now <= shelfNow
    ensures var s := Initial(now, shelfNow, store);
            && Inv(s) && Countable(s)
            && s == State(map[], map[], now, shelfNow, None, Settings(All, None, None), Settings(All, None, None),
                          InventoryState(map[], true, store, StartCallbacks(store), InventoryHistory([], 0, 0)),
                          [], shelfNow)
    ensures forall b :: RenderList(map[], map[], b) == map[]
  {
  }

  lemma {:induction false} InvCountable(s: State)
    requires Inv(s)
    ensures Countable(s)
  {
    assert forall k :: k in s.alarms ==> AlarmOk(s, k);
  }

  /** A recount keeps a stamp that is up to date. */
  lemma {:induction false} RecountKeepsStamp(s: State, inShelf: bool, stamp: Time)
    requires Countable(s) && IsLatest(stamp, ListStamp(s, inShelf), s.alarms, inShelf)
    ensures stamp == ListStamp(s, inShelf)
  {
  }

  /** A recount finds the stamp that is due to an alarm in the list. */
  lemma {:induction false} RecountFindsStamp(s: State, inShelf: bool, was: Time, stamp: Time, key: InstanceKey)
    requires Countable(s) && IsLatest(stamp, was, s.alarms, inShelf) && was <= ListStamp(s, inShelf)
    requires key in s.alarms && s.alarms[key].shelf.Some? == inShelf
    requires s.alarms[key].lastChanged == ListStamp(s, inShelf)
    ensures stamp == ListStamp(s, inShelf)
  {
    assert key in Listed(s.alarms, inShelf);
  }

  // ---------- When a handler's effect shows in the tree ----------

  /** A purge changes the published tree exactly when it removes an alarm. */
  lemma {:induction false} PurgeTreeChange(s: State, inShelf: bool, input: PurgeInput, now: Time, filterNow: Time)
    ensures Render(Purged(s, inShelf, input, now, filterNow)) == Render(s)
            <==> PurgeProblem(input).Some? || Purgeable(s, inShelf, input, filterNow) == {}
  {
    var s' := Purged(s, inShelf, input, now, filterNow);
    var gone := Purgeable(s, inShelf, input, filterNow);
    if PurgeProblem(input).Some? || gone == {} {
      assert s'.alarms == s.alarms && s'.traces == s.traces;
    } else {
      var k :| k in gone;
      assert k in RenderList(s.alarms, s.traces, inShelf);
      assert k !in RenderList(s'.alarms, s'.traces, inShelf);
    }
  }

  /** A compression changes the published tree exactly when some selected alarm has more than one change. */
  lemma {:induction false} CompressTreeChange(s: State, inShelf: bool, input: CompressInput)
    requires Inv(s)
    ensures Render(Compressed(s, inShelf, input)) == Render(s) <==> Compressible(s, inShelf, input) == {}
    ensures Compressible(s, inShelf, input) == {} ==> Compressed(s, inShelf, input) == s
  {
    hide Inv, HistoriesOk, Render, RenderList, Compressed, Compressible, NodeOf;
    var s' := Compressed(s, inShelf, input);
    StateFacts(s);
    CompressKeepsInv(s, inShelf, input);
    StateFacts(s');
    CompressShape(s, inShelf, input);
    CompressedKeys(s, inShelf, input);
    if Compressible(s, inShelf, input) == {} {
      forall k | k in s.alarms ensures s'.alarms[k] == s.alarms[k] { CompressedAt(s, inShelf, input, k); }
      assert s'.alarms == s.alarms;
    } else {
      var k :| k in Compressible(s, inShelf, input);
      CompressedAt(s, inShelf, input, k);
      HistoryOkAt(s.alarms, s.traces, k);
      ShorterShows(s.alarms[k], s'.alarms[k], s.traces[k]);
      NodeAt(s.alarms, s.traces, k);
      NodeAt(s'.alarms, s'.traces, k);
    }
  }

  lemma {:induction false} ShorterShows(e: Entry, e': Entry, t: Trace)
    requires |e'.statusChanges| < |e.statusChanges| <= |t.log|
    ensures NodeOf(e, t) != NodeOf(e', t)
  {
    assert |NodeOf(e, t).statusChanges| == |e.statusChanges|;
    assert |NodeOf(e', t).statusChanges| == |e'.statusChanges|;
  }

  /** Compression keeps the counters: it touches histories only. */
  lemma {:induction false} SameCounts(alarms: map<InstanceKey, Entry>, alarms': map<InstanceKey, Entry>)
    requires alarms'.Keys == alarms.Keys
    requires forall k :: k in alarms ==> alarms'[k] == alarms[k].(statusChanges := alarms'[k].statusChanges)
    ensures forall b :: Listed(alarms', b) == Listed(alarms, b)
    ensures forall v :: CountersOf(alarms', v) == CountersOf(alarms, v)
  {
    assert forall k :: k in alarms ==>
           alarms'[k].shelf == alarms[k].shelf && alarms'[k].lastSeverity == alarms[k].lastSeverity
                                       && alarms'[k].isCleared == alarms[k].isCleared;
    forall v ensures CountersOf(alarms', v) == CountersOf(alarms, v) {
      assert OfSeverity(alarms', v) == OfSeverity(alarms, v);
      assert OfSeverityBy(alarms', v, true) == OfSeverityBy(alarms, v, true);
      assert OfSeverityBy(alarms', v, false) == OfSeverityBy(alarms, v, false);
    }
  }

  lemma {:induction false} ListsOfState(s: State)
    ensures Render(s).alarms == RenderList(s.alarms, s.traces, false)
    ensures Render(s).shelved == RenderList(s.alarms, s.traces, true)
  {
  }

  lemma {:induction false} ReshelvedHistoriesOk(s: State, rules: seq<Shelf>, now: Time)
    requires HistoriesOk(s.alarms, s.traces)
    ensures HistoriesOk(Reshelved(s, rules, now).alarms, Reshelved(s, rules, now).traces)
  {
  }

  /** Settings do not show in the tree. */
  lemma {:induction false} ResettledFacts(s: State, batch: seq<Change>, now: Time)
    requires Inv(s)
    ensures var s1 := Resettled(s, batch, now); Render(s1) == Render(s) && HistoriesOk(s1.alarms, s1.traces)
  {
    StateFacts(s);
  }

  lemma {:induction false} ReshelvedCountable(s: State, batch: seq<Change>, rules: seq<Shelf>, now: Time)
    requires Inv(s) && s.clock < now
    ensures Countable(Reshelved(Resettled(s, batch, now), rules, now))
  {
    hide FindMatchingShelf, Folded, EntryOk;
    var r := Reshelved(s.(clock := now), rules, now);
    ReshelveKeepsInv(s, rules, now);
    InvCountable(r);
    var r' := Reshelved(Resettled(s, batch, now), rules, now);
    assert r'.alarms == r.alarms && ListStamp(r', false) == ListStamp(r, false)
           && ListStamp(r', true) == ListStamp(r, true);
  }

  lemma {:induction false} AfterShelvingFacts(s: State, batch: seq<Change>, rules: seq<Shelf>, now: Time)
    requires Inv(s)
    ensures var s2 := AfterShelving(s, batch, rules, now);
            && HistoriesOk(s2.alarms, s2.traces) && s2.alarms.Keys == s.alarms.Keys
            && forall k :: k in s.alarms ==> s2.alarms[k].statusChanges == s.alarms[k].statusChanges
  {
    hide Inv, HistoriesOk, FindMatchingShelf, Folded, ApplyAll, Render, Crossing, Moved, ReshelvedTraces;
    ResettledFacts(s, batch, now);
    ReshelvedHistoriesOk(Resettled(s, batch, now), rules, now);
  }

  /** The three parts of a batch: the new settings, then shelving, then trimming. */
  lemma {:induction false} ReconfiguredParts(s: State, batch: seq<Change>, rules: seq<Shelf>, now: Time)
    ensures var s1, s2 := Resettled(s, batch, now), AfterShelving(s, batch, rules, now);
            && s1 == s.(settings := Folded(s.settings, batch), config := ApplyAll(s.config, batch), clock := now)
            && s2 == (if Shelving in batch then Reshelved(s1, rules, now) else s1) && s2.settings == s1.settings
            && Reconfigured(s, batch, rules, now) == s2.(alarms := AllTrimmed(s2.alarms, s2.settings.limit))
  {
  }

  /** Trimming at the end of a batch: it has no effect unless an applied change lowered the limit. */
  lemma {:induction false} TrimFacts(s: State, batch: seq<Change>, rules: seq<Shelf>, now: Time)
    requires Inv(s)
    ensures var s2 := AfterShelving(s, batch, rules, now);
            var t := Reconfigured(s, batch, rules, now);
            && t == s2.(alarms := AllTrimmed(s2.alarms, s2.settings.limit))
            && Render(t) ==
               Render(s2).(alarms := RenderList(t.alarms, t.traces, false),
                           shelved := RenderList(t.alarms, t.traces, true))
            && Shrinkable(s2.alarms, s2.settings.limit) == Shrinkable(s.alarms, s2.settings.limit)
            && (Shrinkable(s.alarms, s2.settings.limit) == {} ==> t == s2)
            && (s2.settings.limit.None? || !Lowers(s.settings, batch) ==> Shrinkable(s.alarms, s2.settings.limit) == {})
  {
    hide *;
    var s2 := AfterShelving(s, batch, rules, now);
    var limit := s2.settings.limit;
    AfterShelvingFacts(s, batch, rules, now);
    ReconfiguredParts(s, batch, rules, now);
    AllTrimmedRenders(s2, limit);
    SameShrinkable(s.alarms, s2.alarms, limit);
    NoTrimFits(s, batch);
  }

  /** What a configuration batch does to one alarm. */
  lemma {:induction false} ReconfiguredAt(s: State, batch: seq<Change>, rules: seq<Shelf>, now: Time, key: InstanceKey)
    requires Inv(s)
    ensures var s' := Reconfigured(s, batch, rules, now);
            && (key in s'.alarms <==> key in s.alarms)
            && (key in s.alarms ==>
                  var shelf := if Shelving in batch then FindMatchingShelf(key, rules) else s.alarms[key].shelf;
                  && s'.alarms[key] == Trimmed(s.alarms[key].(shelf := shelf), Folded(s.settings, batch).limit)
                  && TraceAt(s'.traces, key) ==
                     if s.alarms[key].shelf.Some? && shelf.None?
                       then TraceAt(s.traces, key).(shown := now) else TraceAt(s.traces, key))
  {
    hide Inv, FindMatchingShelf, Folded, ApplyAll, Moved, Crossing;
    StateBounds(s);
  }

  lemma {:induction false} SameShrinkable(alarms: map<InstanceKey, Entry>, alarms': map<InstanceKey, Entry>,
                                          limit: Option<Uint16>)
    requires alarms'.Keys == alarms.Keys && forall k :: k in alarms ==>
             alarms'[k].statusChanges == alarms[k].statusChanges
    ensures Shrinkable(alarms', limit) == Shrinkable(alarms, limit)
    ensures limit.None? ==> Shrinkable(alarms, limit) == {}
  {
    forall k ensures k in Shrinkable(alarms', limit) <==> k in Shrinkable(alarms, limit) {
      assert k in alarms ==> alarms'[k].statusChanges == alarms[k].statusChanges;
    }
  }

  lemma {:induction false} AllTrimmedRenders(s: State, limit: Option<Uint16>)
    ensures var t := s.(alarms := AllTrimmed(s.alarms, limit));
            Render(t) ==
            Render(s).(alarms := RenderList(t.alarms, t.traces, false),
                       shelved := RenderList(t.alarms, t.traces, true))
    ensures Shrinkable(s.alarms, limit) == {} ==> AllTrimmed(s.alarms, limit) == s.alarms
  {
    hide Render, RenderList, AllTrimmed, Shrinkable;
    var t := s.(alarms := AllTrimmed(s.alarms, limit));
    AllTrimmedKeys(s.alarms, limit);
    forall k | k in s.alarms ensures t.alarms[k] == s.alarms[k].(statusChanges := t.alarms[k].statusChanges) {
      AllTrimmedAt(s.alarms, limit, k);
    }
    TrimRenders(s, t);
    if Shrinkable(s.alarms, limit) == {} {
      forall k | k in s.alarms ensures t.alarms[k] == s.alarms[k] { AllTrimmedAt(s.alarms, limit, k); }
    }
  }

  lemma {:induction false} NoTrimFits(s: State, batch: seq<Change>)
    requires Inv(s)
    ensures !Lowers(s.settings, batch) ==> Shrinkable(s.alarms, Folded(s.settings, batch).limit) == {}
  {
    if !Lowers(s.settings, batch) {
      forall k | k in s.alarms ensures Fits(|s.alarms[k].statusChanges|, Folded(s.settings, batch).limit) {
        assert AlarmOk(s, k);
        NoTrimNeeded(s.settings, batch, |s.alarms[k].statusChanges|);
      }
    }
  }

  /** A batch changes the published tree exactly when it moves an alarm or cuts a history. */
  lemma {:induction false} ReconfigureTreeChange(s: State, batch: seq<Change>, rules: seq<Shelf>, now: Time)
    requires Inv(s) && s.clock < now
    ensures Render(Reconfigured(s, batch, rules, now)) == Render(s)
            <==>
            (Shelving in batch ==> Moved(s.alarms, rules) == {}) &&
            Shrinkable(s.alarms, Folded(s.settings, batch).limit) == {}
  {
    hide Inv, AllTrimmed, Shrinkable, RenderList, Folded, ApplyAll, Lowers, NodeOf, Resettled, AfterShelving,
         Reconfigured,
         HistoriesOk;
    var s1, s2, t := Resettled(s, batch, now), AfterShelving(s, batch, rules, now), Reconfigured(s, batch, rules, now);
    var limit := Folded(s.settings, batch).limit;
    ReconfigureKeepsInv(s, batch, rules, now);
    StateFacts(s);
    StateFacts(t);
    TrimFacts(s, batch, rules, now);
    ReconfiguredParts(s, batch, rules, now);
    if Shelving in batch && Moved(s.alarms, rules) != {} {
      var k :| k in Moved(s.alarms, rules);
      AllTrimmedAt(s2.alarms, limit, k);
      MovedShows(s.alarms, s.traces, t.alarms, t.traces, k);
    } else {
      ResettledFacts(s, batch, now);
      if Shelving in batch {
        NothingMoved(s1, rules, now);
        RulesDoNotShow(s1, rules);
      }
      assert Render(s2) == Render(s);
      if k :| k in Shrinkable(s.alarms, limit) {
        AllTrimmedAt(s2.alarms, limit, k);
        AllTrimmedKeys(s.alarms, limit);
        AllTrimmedAt(s.alarms, limit, k);
        HistoryOkAt(s.alarms, s.traces, k);
        ShorterShows(s.alarms[k], t.alarms[k], s.traces[k]);
        NodeAt(s.alarms, s.traces, k);
        NodeAt(t.alarms, t.traces, k);
      }
    }
  }

  /** An alarm with another shelf has its node elsewhere, or with another shelf name. */
  lemma {:induction false} MovedShows(alarms: map<InstanceKey, Entry>, traces: map<InstanceKey, Trace>,
                                      alarms': map<InstanceKey, Entry>, traces': map<InstanceKey, Trace>,
                                      key: InstanceKey)
    requires key in alarms && key in traces && key in alarms' && key in traces'
    requires alarms[key].shelf != alarms'[key].shelf
    ensures RenderList(alarms, traces, false) != RenderList(alarms', traces', false)
            || RenderList(alarms, traces, true) != RenderList(alarms', traces', true)
  {
    NodeAt(alarms, traces, key);
    NodeAt(alarms', traces', key);
  }

  lemma {:induction false} RulesDoNotShow(s: State, rules: seq<Shelf>)
    ensures Render(s.(rules := Some(rules))) == Render(s)
  {
  }

  /** The leaves and the history that a move copies, one status change after the other in document order. */
  function CopyOf(node: Node): Node {
    EMPTY_NODE.(isCleared := node.isCleared, lastRaised := node.lastRaised, lastChanged := node.lastChanged,
                perceivedSeverity := node.perceivedSeverity, text := node.text, statusChanges := node.statusChanges)
  }

  lemma {:induction false} NodeDescends(e: Entry, t: Trace)
    requires Increasing(t.log)
    ensures Descending(NodeOf(e, t).statusChanges)
  {
    NewestFirstDescends(t.log, |e.statusChanges|);
  }

  lemma {:induction false} NewestFirstDescends(log: seq<Logged>, n: nat)
    requires Increasing(log)
    ensures Descending(NewestFirst(log, n))
  {
    var list := NewestFirst(log, n);
    forall i, j | 0 <= i < j < |list| ensures list[i].time > list[j].time {
      assert list[i] == log[|log| - 1 - i].Published() && list[j] == log[|log| - 1 - j].Published();
    }
  }

  lemma {:induction false} NodeAt(alarms: map<InstanceKey, Entry>, traces: map<InstanceKey, Trace>, key: InstanceKey)
    requires key in alarms && key in traces
    ensures var b := alarms[key].shelf.Some?;
            && key in RenderList(alarms, traces, b)
               && RenderList(alarms, traces, b)[key] == NodeOf(alarms[key], traces[key])
            && key !in RenderList(alarms, traces, !b)
  {
  }

  // ---------- The tree against the cache, with no history variable in between ----------

  /** A published change against the cached one, which does not record clears as such. */
  predicate ShowsChange(shown: StatusChange, cached: StatusChange) {
    && shown.time == cached.time && shown.text == cached.text
    && shown.perceivedSeverity in {cached.perceivedSeverity, CLEARED}
  }

  /** The published history is the cached one in reverse.  Its newest entry is a clear exactly if the alarm is cleared,
      and a clear always follows an active state of the severity that is cached for the clear. */
  predicate HistoryMirrors(list: seq<StatusChange>, e: Entry) {
    var n := |e.statusChanges|;
    && |list| == n
    && (forall i :: 0 <= i < n ==> ShowsChange(list[i], e.statusChanges[n - 1 - i]))
    && (n > 0 ==> (list[0].perceivedSeverity == CLEARED <==> e.isCleared))
    && (forall i, j :: 0 <= i < n && 0 <= j < n && j == i + 1 ==>
          list[i].perceivedSeverity == CLEARED ==>
            list[j].perceivedSeverity == e.statusChanges[n - 1 - i].perceivedSeverity)
  }

  /** All leaves of a node against the entry; a creation time other than the cached one is later than the last
      change. */
  predicate NodeMirrors(node: Node, e: Entry) {
    && node.isCleared == e.isCleared && node.lastRaised == e.lastRaised && node.lastChanged == e.lastChanged
    && node.perceivedSeverity == e.lastSeverity && node.text == e.text && node.shelfName == e.shelf
    && (node.timeCreated.Some? <==> e.shelf.None?)
    && (node.timeCreated.Some? ==> node.timeCreated.value == e.created || e.lastChanged < node.timeCreated.value)
    && HistoryMirrors(node.statusChanges, e)
  }

  /** The summary and the list sizes count the nodes of the tree. */
  ghost predicate SummaryCounts(tree: Tree) {
    && (forall v :: v in tree.summary <==> 2 <= v <= 6)
    && (forall v :: v in tree.summary ==>
          tree.summary[v].total == |set k | k in tree.alarms && tree.alarms[k].perceivedSeverity == v|)
    && (forall v :: v in tree.summary ==>
          tree.summary[v].cleared ==
          |set k | k in tree.alarms && tree.alarms[k].perceivedSeverity == v && tree.alarms[k].isCleared|)
    && (forall v :: v in tree.summary ==>
          tree.summary[v].notCleared ==
          |set k | k in tree.alarms && tree.alarms[k].perceivedSeverity == v && !tree.alarms[k].isCleared|)
    && tree.numberOfAlarms == |tree.alarms| && tree.numberOfShelvedAlarms == |tree.shelved|
  }

  /** The counters of one severity, from the published nodes. */
  lemma {:induction false} CountersCountNodes(s: State, v: int)
    requires 2 <= v <= 6
    ensures var tree := Render(s);
            && v in tree.summary
            && tree.summary[v].total == |set k | k in tree.alarms && tree.alarms[k].perceivedSeverity == v|
            && tree.summary[v].cleared ==
               |set k | k in tree.alarms && tree.alarms[k].perceivedSeverity == v && tree.alarms[k].isCleared|
            && tree.summary[v].notCleared ==
               |set k | k in tree.alarms && tree.alarms[k].perceivedSeverity == v && !tree.alarms[k].isCleared|
  {
    hide NewestFirst, Listed;
    var nodes := Render(s).alarms;
    assert (set k | k in nodes && nodes[k].perceivedSeverity == v) == OfSeverity(s.alarms, v);
    assert (set k | k in nodes && nodes[k].perceivedSeverity == v && nodes[k].isCleared) ==
           OfSeverityBy(s.alarms, v, true);
    assert (set k | k in nodes && nodes[k].perceivedSeverity == v && !nodes[k].isCleared) ==
           OfSeverityBy(s.alarms, v, false);
  }

  lemma {:induction false} SizesCountNodes(s: State)
    ensures Render(s).numberOfAlarms == |Render(s).alarms| && Render(s).numberOfShelvedAlarms == |Render(s).shelved|
    ensures forall v :: v in Render(s).summary <==> 2 <= v <= 6
  {
    hide NodeOf, CountersOf;
    assert Render(s).alarms.Keys == Listed(s.alarms, false) && Render(s).shelved.Keys == Listed(s.alarms, true);
  }

  /** A rendered summary counts the nodes rendered with it. */
  lemma {:induction false} RenderCounts(s: State)
    ensures SummaryCounts(Render(s))
  {
    hide Render;
    SizesCountNodes(s);
    forall v | 2 <= v <= 6
      ensures var tree := Render(s);
              && v in tree.summary
              && tree.summary[v].total == |set k | k in tree.alarms && tree.alarms[k].perceivedSeverity == v|
              && tree.summary[v].cleared ==
                 |set k | k in tree.alarms && tree.alarms[k].perceivedSeverity == v && tree.alarms[k].isCleared|
              && tree.summary[v].notCleared ==
                 |set k | k in tree.alarms && tree.alarms[k].perceivedSeverity == v && !tree.alarms[k].isCleared|
    {
      CountersCountNodes(s, v);
    }
  }

  /** A tree that mirrors a cache: one node per alarm, in the list its shelf names, and the counters and stamps. */
  ghost predicate TreeMirrors(tree: Tree, alarms: map<InstanceKey, Entry>, listStamp: Time, shelfStamp: Time) {
    && (forall b: bool, k :: tree.Has(b, k) <==> k in alarms && alarms[k].shelf.Some? == b)
    && (forall b: bool, k :: tree.Has(b, k) ==> NodeMirrors(tree.At(b, k), alarms[k]))
    && SummaryCounts(tree)
    && tree.lastChanged == listStamp && tree.shelvedAlarmsLastChanged == shelfStamp
  }

  /** The entry of the published history that comes `i`-th, and the one after it. */
  lemma {:induction false} ChangeIsMirrored(e: Entry, t: Trace, i: nat)
    requires SuffixOf(e.statusChanges, t.log) && NoStutter(t.log) && InRange(t.log) && i < |e.statusChanges|
    ensures var list, n := NodeOf(e, t).statusChanges, |e.statusChanges|;
            && |list| == n && ShowsChange(list[i], e.statusChanges[n - 1 - i])
            && list[i] == t.log[|t.log| - 1 - i].Published()
            && (i + 1 < n && list[i].perceivedSeverity == CLEARED ==>
                  list[i + 1].perceivedSeverity == e.statusChanges[n - 1 - i].perceivedSeverity)
  {
    hide NewestFirst, Follows;
    var n, m := |e.statusChanges|, |t.log|;
    var change := t.log[m - 1 - i];
    NewestAt(t.log, n, i);
    assert e.statusChanges[n - 1 - i] == change.Cached();
    if i + 1 < n {
      NewestAt(t.log, n, i + 1);
      ClearFollowsActive(t.log[m - 2 - i], change);
    }
  }

  lemma {:induction false} NewestAt(log: seq<Logged>, n: nat, i: nat)
    requires i < n <= |log|
    ensures |NewestFirst(log, n)| == n && NewestFirst(log, n)[i] == log[|log| - 1 - i].Published()
  {
  }

  lemma {:induction false} ClearFollowsActive(a: Logged, b: Logged)
    requires Follows(a, b) && 2 <= b.severity
    ensures b.Published().perceivedSeverity == CLEARED ==> a.Published().perceivedSeverity == b.severity
  {
  }

  lemma {:induction false} EntryIsMirrored(e: Entry, t: Trace, limit: Option<Uint16>)
    requires EntryOk(e, t, limit)
    ensures NodeMirrors(NodeOf(e, t), e)
  {
    hide LastRaise, Increasing, NoStutter, InRange, SuffixOf, ShowsChange;
    var list, n := NodeOf(e, t).statusChanges, |e.statusChanges|;
    NoneOrNewest(e, t, limit);
    forall i | 0 <= i < n ensures |list| == n && ShowsChange(list[i], e.statusChanges[n - 1 - i]) {
      ChangeIsMirrored(e, t, i);
    }
    forall i, j | 0 <= i < n && 0 <= j < n && j == i + 1 && list[i].perceivedSeverity == CLEARED
      ensures list[j].perceivedSeverity == e.statusChanges[n - 1 - i].perceivedSeverity
    {
      ChangeIsMirrored(e, t, i);
    }
  }

  lemma {:induction false} NoneOrNewest(e: Entry, t: Trace, limit: Option<Uint16>)
    requires EntryOk(e, t, limit)
    ensures var list := NodeOf(e, t).statusChanges;
            |list| == |e.statusChanges| && (list != [] ==> (list[0].perceivedSeverity == CLEARED <==> e.isCleared))
  {
    if e.statusChanges != [] { NewestAt(t.log, |e.statusChanges|, 0); }
  }

  /** In every reachable state the rendered tree mirrors the cache. */
  lemma {:induction false} RenderMirrors(s: State)
    requires Inv(s)
    ensures TreeMirrors(Render(s), s.alarms, s.alarmListLastChanged, s.shelfListLastChanged)
  {
    hide Inv, NodeMirrors, NodeOf, EntryOk, CountersOf, SummaryCounts;
    RenderCounts(s);
    forall b: bool, k
      ensures Render(s).Has(b, k) <==> k in s.alarms && s.alarms[k].shelf.Some? == b
      ensures Render(s).Has(b, k) ==> NodeMirrors(Render(s).At(b, k), s.alarms[k])
    {
      InvAt(s, k);
      if k in s.alarms { EntryIsMirrored(s.alarms[k], s.traces[k], s.settings.limit); }
    }
  }

  /** An alarm that is not cached has no node. */
  lemma {:induction false} NotListed(s: State, key: InstanceKey)
    requires key !in s.alarms
    ensures forall b: bool :: key !in RenderList(s.alarms, s.traces, b)
  {
  }

  /** Moving an alarm unlinks its old node and writes the copy with the new list's own leaf. */
  lemma {:induction false} MoveShows(alarms: map<InstanceKey, Entry>, traces: map<InstanceKey, Trace>,
                                     key: InstanceKey, shelf: Option<string>, t: Trace)
    requires key in alarms && key in traces && t.log == traces[key].log
    ensures var e := alarms[key].(shelf := shelf);
            && (var created := if shelf.None? then Some(t.shown) else None;
                NodeOf(e, t) == CopyOf(NodeOf(alarms[key], traces[key])).(shelfName := shelf, timeCreated := created))
            && (shelf.Some? && alarms[key].shelf.Some? ==>
                  NodeOf(e, t) == NodeOf(alarms[key], traces[key]).(shelfName := shelf))
            && forall b :: RenderList(alarms[key := e], traces[key := t], b) ==
                           if shelf.Some? == b then RenderList(alarms, traces, b)[key := NodeOf(e, t)]
                           else RenderList(alarms, traces, b) - {key}
  {
    StoreShows(alarms, traces, key, alarms[key].(shelf := shelf), t, false);
    StoreShows(alarms, traces, key, alarms[key].(shelf := shelf), t, true);
  }

  /** What trimming the histories of some alarms does to the rendered tree: only the lists of nodes change. */
  lemma {:induction false} TrimRenders(s: State, s': State)
    requires s'.alarms.Keys == s.alarms.Keys
    requires forall k :: k in s.alarms ==> s'.alarms[k] == s.alarms[k].(statusChanges := s'.alarms[k].statusChanges)
    requires s'.alarmListLastChanged == s.alarmListLastChanged && s'.shelfListLastChanged == s.shelfListLastChanged
    ensures Render(s') ==
            Render(s).(alarms := RenderList(s'.alarms, s'.traces, false),
                       shelved := RenderList(s'.alarms, s'.traces, true))
  {
    SameCounts(s.alarms, s'.alarms);
  }

  // ---------- Reports ----------

  /** The history list of a node after a report: the new change in front, then whatever the limit leaves of the rest. */
  lemma {:induction false} ReportShows(was: Option<Entry>, log: seq<Logged>, now: Time, r: Report,
                                       shelf: Option<string>, limit: Option<Uint16>)
    requires r.severity == CLEARED ==> was.Some?
    requires was.Some? ==> Increasing(log) && SuffixOf(was.value.statusChanges, log)
    requires was.None? ==> log == []
    requires forall i :: 0 <= i < |log| ==> log[i].time < now
    ensures var full := Reported(was, now, r.severity, r.text, shelf);
            var l := Logged(now, full.lastSeverity, r.text, full.isCleared);
            var list := NewestFirst(log, |full.statusChanges| - 1);
            var longer := [l.Published()] + list;
            && !HasTime(list, now) && Descending(longer) && OldestTimes(TrimmedTimes(full, limit), longer)
            && NewestFirst(log + [l], |Trimmed(full, limit).statusChanges|) ==
               longer[..|longer| - |TrimmedTimes(full, limit)|]
  {
    var full := Reported(was, now, r.severity, r.text, shelf);
    var l := Logged(now, full.lastSeverity, r.text, full.isCleared);
    var history := if was.Some? then was.value.statusChanges else [];
    assert full.statusChanges == history + [l.Cached()];
    HistoryExtends(history, log, l);
    ChangeShows(log, |history|, l);
    TrimShows(full, Trace(log + [l], 0), limit);
  }

  /** Inventory steps keep the invariant and do not show in the alarm lists. */
  lemma {:induction false} OnlyInventory(s: State, s': State)
    requires Inv(s) && s' == s.(inventory := s'.inventory) && InventoryOk(s'.inventory)
    ensures Inv(s') && Render(s') == Render(s)
  {
    forall k | k in s'.alarms ensures AlarmOk(s', k) { UntouchedAlarmOk(s, s', k); }
  }

  /** The parts of an accepted report, as the handler computes them. */
  lemma {:induction false} SubmitShape(s: State, r: Report, now: Time)
    requires Inv(s) && CanSubmit(s, r) && s.clock < now
    ensures var t := Submitted(s, r, now);
            var s2 := s.(clock := now, inventory := if r.key.Printable() then Refreshed(s.inventory) else s.inventory);
            && Render(s2) == Render(s)
            && (Accepted(s, r) ==>
                  && CanRecord(s2, r)
                  && t == if Changes(Cached(s.alarms, r.key), r.severity, r.text) then Recorded(s2, r, now) else s2)
            && (!Accepted(s, r) ==> t == s2)
  {
  }

  /** What the recording part of a submit relies on. */
  ghost predicate CanRecord(s: State, r: Report) {
    && s.rules.Some? && !ClearsNothing(s, r)
    && (s.settings.mode.BySeverity? && r.severity != CLEARED ==> s.settings.threshold.Some?)
  }

  /** What a report relies on: if its alarm exists, the alarm is in the list to which the current rules send its key. */
  ghost predicate Reportable(s: State, r: Report, now: Time) {
    && s.rules.Some?
    && (r.key in s.alarms ==>
          && r.key in s.traces && s.alarms[r.key].shelf == FindMatchingShelf(r.key, s.rules.value)
          && 2 <= s.alarms[r.key].lastSeverity <= 6
          && Increasing(s.traces[r.key].log) && SuffixOf(s.alarms[r.key].statusChanges, s.traces[r.key].log))
    && (r.key !in s.alarms ==> r.key !in s.traces)
    && (forall i :: 0 <= i < |TraceAt(s.traces, r.key).log| ==> TraceAt(s.traces, r.key).log[i].time < now)
    && s.alarmListLastChanged < now && s.shelfListLastChanged < now
    && s.traces.Keys == s.alarms.Keys
  }

  lemma {:induction false} InvReportable(s: State, r: Report, now: Time)
    requires Inv(s) && s.clock < now && s.rules.Some?
    ensures Reportable(s, r, now)
  {
    if r.key in s.alarms {
      assert AlarmOk(s, r.key);
      var log := s.traces[r.key].log;
      assert forall i :: 0 <= i < |log| ==> log[i].time <= log[|log| - 1].time;
    }
  }

  /** The clock and the inventory cache play no part in that. */
  lemma {:induction false} ReportableLater(s: State, s2: State, r: Report, now: Time)
    requires Inv(s) && s.clock < now && s.rules.Some? && s2 == s.(clock := now, inventory := s2.inventory)
    ensures Reportable(s2, r, now)
    ensures r.key in s2.alarms ==>
              && s2.alarms[r.key].shelf == FindMatchingShelf(r.key, s2.rules.value)
              && 2 <= s2.alarms[r.key].lastSeverity <= 6
  {
    hide Inv, FindMatchingShelf, Increasing, SuffixOf;
    InvReportable(s, r, now);
  }

  /** The leaves a report writes, over those the node already has. */
  function WithLeaves(node: Node, e: Entry): Node {
    node.(isCleared := e.isCleared, lastRaised := e.lastRaised, lastChanged := e.lastChanged,
          perceivedSeverity := e.lastSeverity, text := e.text,
          shelfName := if e.shelf.Some? then e.shelf else node.shelfName,
          timeCreated := if e.shelf.None? then Some(e.created) else node.timeCreated)
  }

  /** What the newest change of an entry looks like in the tree. */
  function NewestChange(e: Entry): StatusChange { StatusChange(e.lastChanged, e.Effective(), e.text) }

  /** A report being recorded: where its alarm goes, the entry before trimming and after, and the resulting state. */
  ghost predicate Recording(s: State, r: Report, now: Time, shelf: Option<string>, full: Entry, e: Entry, t: State) {
    && CanRecord(s, r) && Changes(Cached(s.alarms, r.key), r.severity, r.text) && Reportable(s, r, now)
    && shelf == FindMatchingShelf(r.key, s.rules.value)
    && full == Reported(Cached(s.alarms, r.key), now, r.severity, r.text, shelf)
    && e == Updated(Cached(s.alarms, r.key), now, r.severity, r.text, shelf, s.settings.limit)
    && t == Recorded(s, r, now)
  }

  /** The node of the alarm before the report; a new alarm has none but the one just created. */
  function NodeBefore(s: State, key: InstanceKey): Node {
    if key in s.alarms then NodeOf(s.alarms[key], TraceAt(s.traces, key)) else EMPTY_NODE
  }

  lemma {:induction false} NodeBeforeListed(s: State, key: InstanceKey, inShelf: bool)
    requires key in s.alarms ==> s.alarms[key].shelf.Some? == inShelf
    ensures key in RenderList(s.alarms, s.traces, inShelf) <==> key in s.alarms
    ensures if key in s.alarms then RenderList(s.alarms, s.traces, inShelf)[key] == NodeBefore(s, key)
            else NodeBefore(s, key) == EMPTY_NODE
    ensures key !in RenderList(s.alarms, s.traces, !inShelf)
  {
  }

  /** The status changes that the handler adds and removes are the right ones. */
  lemma {:induction false} RecordChanges(s: State, r: Report, now: Time, shelf: Option<string>, full: Entry, e: Entry,
                                         t: State)
    requires Recording(s, r, now, shelf, full, e, t)
    ensures var list := [NewestChange(e)] + NodeBefore(s, r.key).statusChanges;
            && !HasTime(NodeBefore(s, r.key).statusChanges, now) && Descending(list)
            && OldestTimes(TrimmedTimes(full, s.settings.limit), list)
  {
    hide FindMatchingShelf, Announces, RenderList, Descending, OldestTimes, HasTime, Increasing, SuffixOf, NewestFirst;
    ReportShows(Cached(s.alarms, r.key), TraceAt(s.traces, r.key).log, now, r, shelf, s.settings.limit);
    ReportedNode(s, r, now, shelf);
  }

  /** Writing the leaves and the new status change into the node at the path derived from the rules is all
      it takes to show the recorded report. */
  lemma {:induction false} RecordShows(s: State, r: Report, now: Time, shelf: Option<string>, full: Entry, e: Entry,
                                       t: State)
    requires Recording(s, r, now, shelf, full, e, t)
    ensures e.shelf == shelf && e.lastChanged == now && e.Effective() == r.severity && e.text == r.text
    ensures t.alarms == s.alarms[r.key := e] && t.traces.Keys == t.alarms.Keys
    ensures RenderList(t.alarms, t.traces, shelf.None?) == RenderList(s.alarms, s.traces, shelf.None?)
    ensures var list := [NewestChange(e)] + NodeBefore(s, r.key).statusChanges;
            var n := |list| - |TrimmedTimes(full, s.settings.limit)|;
            && 0 <= n <= |list|
            && RenderList(t.alarms, t.traces, shelf.Some?) ==
               RenderList(s.alarms, s.traces,
                 shelf.Some?)[r.key := WithLeaves(NodeBefore(s, r.key), e).(statusChanges := list[..n])]
  {
    hide FindMatchingShelf, Announces, RenderList, Descending, HasTime, Increasing, SuffixOf, NewestFirst, WithLeaves;
    hide NodeOf, Updated, Reported, TrimmedTimes, Trimmed, Changes;
    ReportShows(Cached(s.alarms, r.key), TraceAt(s.traces, r.key).log, now, r, shelf, s.settings.limit);
    ReportedNode(s, r, now, shelf);
    NodeBeforeListed(s, r.key, shelf.Some?);
    StoreShows(s.alarms, s.traces, r.key, t.alarms[r.key], t.traces[r.key], false);
    StoreShows(s.alarms, s.traces, r.key, t.alarms[r.key], t.traces[r.key], true);
  }

  /** What a recorded report changes besides the lists. */
  lemma {:induction false} RecordFields(s: State, r: Report, now: Time, shelf: Option<string>, full: Entry, e: Entry,
                                        t: State)
    requires Recording(s, r, now, shelf, full, e, t)
    ensures s.alarmListLastChanged < now && s.shelfListLastChanged < now
    ensures r.key in s.alarms ==> s.alarms[r.key].shelf == shelf
    ensures s.settings.mode.BySeverity? && r.severity != CLEARED ==> s.settings.threshold.Some?
    ensures t == s.(alarms := s.alarms[r.key := e], traces := t.traces,
                    alarmListLastChanged := if shelf.Some? then s.alarmListLastChanged else now,
                    shelfListLastChanged := if shelf.Some? then now else s.shelfListLastChanged,
                    sent := s.sent
                      + if Announces(Cached(s.alarms, r.key), r.severity, s.settings.mode, s.settings.threshold)
                                     then [Notification(r.key, now, r.severity, r.text)] else [])
  {
    hide FindMatchingShelf, Announces, Updated, Reported, NewestFirst;
    ReportedNode(s, r, now, shelf);
  }

  /** A state that differs from the one before the report in just that is the recorded state. */
  lemma {:induction false} RecordedState(s: State, r: Report, now: Time, shelf: Option<string>, full: Entry, e: Entry,
                                         t: State, u: State)
    requires Recording(s, r, now, shelf, full, e, t)
    requires u.alarms == s.alarms[r.key := e] && u.traces == t.traces
    requires u.alarmListLastChanged == t.alarmListLastChanged && u.shelfListLastChanged == t.shelfListLastChanged
    requires u.rules == s.rules && u.settings == s.settings && u.config == s.config
    requires u.inventory == s.inventory && u.clock == s.clock
    requires u.sent == if Announces(Cached(s.alarms, r.key), r.severity, s.settings.mode, s.settings.threshold)
                       then s.sent + [Notification(r.key, now, r.severity, r.text)] else s.sent
    ensures u == t
  {
    hide Announces;
    RecordFields(s, r, now, shelf, full, e, t);
    assert s.sent + [] == s.sent;
  }

  /** The leaves of the node, written over the old ones, are those of the new entry. */
  lemma {:induction false} ReportedNode(s: State, r: Report, now: Time, shelf: Option<string>)
    requires CanRecord(s, r) && Changes(Cached(s.alarms, r.key), r.severity, r.text)
    requires r.key in s.alarms ==> s.alarms[r.key].shelf == shelf
    ensures var was := Cached(s.alarms, r.key);
            var full := Reported(was, now, r.severity, r.text, shelf);
            var e := Updated(was, now, r.severity, r.text, shelf, s.settings.limit);
            var log := TraceAt(s.traces, r.key).log;
            var l := Logged(now, e.lastSeverity, r.text, e.isCleared);
            var t := Trace(log + [l], e.created);
            var node := if was.Some? then NodeOf(was.value, TraceAt(s.traces, r.key)) else EMPTY_NODE;
            && e.shelf == shelf && e.lastChanged == now && e.Effective() == r.severity && e.text == r.text
            && e == Trimmed(full, s.settings.limit) && full.lastSeverity == e.lastSeverity
            && full.isCleared == e.isCleared
            && l.Published() == NewestChange(e)
            && (var kept := NewestFirst(log + [l], |Trimmed(full, s.settings.limit).statusChanges|);
                NodeOf(e, t) == WithLeaves(node, e).(statusChanges := kept))
            && NewestFirst(log, |full.statusChanges| - 1) ==
               if was.Some? then node.statusChanges else NewestFirst(log, 0)
  {
    hide NewestFirst;
  }

  lemma {:induction false} UnchangedEntry(was: Option<Entry>, now: Time, r: Report, shelf: Option<string>,
                                          limit: Option<Uint16>)
    requires !Changes(was, r.severity, r.text) && (r.severity == CLEARED ==> was.Some?)
    ensures was.Some? && Updated(was, now, r.severity, r.text, shelf, limit) == was.value
  {
  }

  /** A recorded report always shows: it moves the stamp of its list. */
  lemma {:induction false} RecordTreeChange(s: State, r: Report, now: Time)
    requires CanRecord(s, r) && Reportable(s, r, now)
    ensures Render(Recorded(s, r, now)) != Render(s)
  {
  }
}
