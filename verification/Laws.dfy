/** Laws of the single handlers, stated on what clients read. */
module Laws {
  import opened Wrappers
  import opened Key
  import opened ShelfMatch
  import opened Alarms
  import opened Filters
  import opened Inventories
  import opened Control
  import opened Trees
  import opened Machine
  import opened Mirror
  import opened Runs

  // ---------- Summary ----------

  function SumTotals(tree: Tree, upTo: int): nat
    requires forall v :: 2 <= v <= 6 ==> v in tree.summary
    requires upTo <= 6
    decreases upTo
  {
    if upTo < 2 then 0 else tree.summary[upTo].total + SumTotals(tree, upTo - 1)
  }

  /** The unshelved alarms up to a severity. */
  function UpToSeverity(alarms: map<InstanceKey, Entry>, severity: int): set<InstanceKey> {
    set k | k in alarms && alarms[k].shelf.None? && alarms[k].lastSeverity <= severity
  }

  lemma {:induction false} TotalIs(s: State, v: int)
    requires 2 <= v <= 6
    ensures v in Render(s).summary && Render(s).summary[v].total == |OfSeverity(s.alarms, v)|
  {
    hide RenderList, Listed, OfSeverity, OfSeverityBy;
  }

  lemma {:induction false} OneSeverityMore(alarms: map<InstanceKey, Entry>, v: int)
    ensures |UpToSeverity(alarms, v)| == |UpToSeverity(alarms, v - 1)| + |OfSeverity(alarms, v)|
  {
    assert UpToSeverity(alarms, v) == UpToSeverity(alarms, v - 1) + OfSeverity(alarms, v);
    assert UpToSeverity(alarms, v - 1) !! OfSeverity(alarms, v);
  }

  lemma {:induction false} NoneBelowTwo(alarms: map<InstanceKey, Entry>, v: int)
    requires v < 2 && forall k :: k in alarms ==> 2 <= alarms[k].lastSeverity
    ensures UpToSeverity(alarms, v) == {}
  {
  }

  lemma {:induction false} TotalsSum(s: State, upTo: int)
    requires upTo <= 6 && forall k :: k in s.alarms ==> 2 <= s.alarms[k].lastSeverity
    requires forall v :: 2 <= v <= 6 ==> v in Render(s).summary
    ensures SumTotals(Render(s), upTo) == |UpToSeverity(s.alarms, upTo)|
    decreases upTo
  {
    hide Render, UpToSeverity, OfSeverity;
    if upTo < 2 {
      NoneBelowTwo(s.alarms, upTo);
    } else {
      TotalsSum(s, upTo - 1);
      TotalIs(s, upTo);
      OneSeverityMore(s.alarms, upTo);
    }
  }

  /** Each list size counts the entries of its list, and together the lists hold the whole cache. */
  lemma {:induction false} ListSizes(s: State)
    ensures |Listed(s.alarms, false)| == |RenderList(s.alarms, s.traces, false)|
    ensures |Listed(s.alarms, true)| == |RenderList(s.alarms, s.traces, true)|
    ensures |Listed(s.alarms, false)| + |Listed(s.alarms, true)| == |s.alarms|
  {
    hide NodeOf;
    assert RenderList(s.alarms, s.traces, false).Keys == Listed(s.alarms, false);
    assert RenderList(s.alarms, s.traces, true).Keys == Listed(s.alarms, true);
    assert s.alarms.Keys == Listed(s.alarms, false) + Listed(s.alarms, true);
    assert Listed(s.alarms, false) !! Listed(s.alarms, true);
  }

  lemma {:induction false} AllUpToSix(alarms: map<InstanceKey, Entry>)
    requires forall k :: k in alarms ==> alarms[k].lastSeverity <= 6
    ensures UpToSeverity(alarms, 6) == Listed(alarms, false)
  {
  }

  lemma {:induction false} SeveritiesAddUp(s: State)
    ensures Render(s).summary.Keys == {2, 3, 4, 5, 6}
    ensures forall v :: v in Render(s).summary ==>
              Render(s).summary[v].cleared + Render(s).summary[v].notCleared == Render(s).summary[v].total
  {
    hide OfSeverity, OfSeverityBy, RenderList, Listed;
    forall v | 2 <= v <= 6
      ensures CountersOf(s.alarms, v).cleared + CountersOf(s.alarms, v).notCleared == CountersOf(s.alarms, v).total
    {
      ClearedPlusNotCleared(s.alarms, v);
    }
  }

  lemma {:induction false} SizesAre(s: State)
    ensures Render(s).numberOfAlarms == |Listed(s.alarms, false)|
    ensures Render(s).numberOfShelvedAlarms == |Listed(s.alarms, true)|
  {
  }

  /** The published summary adds up: per severity, over the severities, and over the two lists. */
  lemma {:induction false} SummaryConserves(s: State)
    requires Inv(s)
    ensures Render(s).summary.Keys == {2, 3, 4, 5, 6}
    ensures var tree := Render(s);
            && (forall v :: v in tree.summary ==>
               tree.summary[v].cleared + tree.summary[v].notCleared == tree.summary[v].total)
            && SumTotals(tree, 6) == tree.numberOfAlarms == |tree.alarms|
            && tree.numberOfShelvedAlarms == |tree.shelved|
            && tree.numberOfAlarms + tree.numberOfShelvedAlarms == |s.alarms|
  {
    hide Inv, Render, RenderList, Listed, UpToSeverity, SumTotals;
    SeveritiesAddUp(s);
    InvCountable(s);
    ListSizes(s);
    ListsOfState(s);
    SizesAre(s);
    AllUpToSix(s.alarms);
    TotalsSum(s, 6);
  }

  // ---------- Lookups by path ----------

  lemma {:induction false} Addressable(s: State)
    requires Inv(s)
    ensures AllPrintable(Render(s))
  {
    forall k | k in s.alarms ensures k.Printable() { assert AlarmOk(s, k); }
  }

  lemma {:induction false} CachedTimeShown(e: Entry, t: Trace, i: nat)
    requires SuffixOf(e.statusChanges, t.log) && i < |e.statusChanges|
    ensures HasTime(NodeOf(e, t).statusChanges, e.statusChanges[i].time)
  {
    var j := |e.statusChanges| - 1 - i;
    assert NodeOf(e, t).statusChanges[j] == t.log[|t.log| - 1 - j].Published();
  }

  lemma {:induction false} LaterTimeIsNew(e: Entry, t: Trace, limit: Option<Uint16>, now: Time)
    requires EntryOk(e, t, limit) && e.lastChanged < now
    ensures !HasTime(NodeOf(e, t).statusChanges, now)
  {
    var list := NodeOf(e, t).statusChanges;
    forall i | 0 <= i < |list| ensures list[i].time != now {
      assert list[i] == t.log[|t.log| - 1 - i].Published();
      assert t.log[|t.log| - 1 - i].time <= t.log[|t.log| - 1].time;
    }
  }

  /** Every path that a handler dereferences without a check hits, and every entry it creates is new.  A cached alarm
      has its node in the list its shelf names and none in the other, so it can be unlinked here and created there; all
      its cached changes are published, so they can be unlinked; and a change with a later time is not there yet. */
  lemma {:induction false} LookupsHit(s: State, flat: map<string, Node>, key: InstanceKey, now: Time)
    requires Inv(s) && AllPrintable(Render(s)) && SameNodes(flat, Render(s)) && key.Printable() && s.clock < now
    ensures key !in s.alarms ==> Address(false, key) !in flat && Address(true, key) !in flat
    ensures key in s.alarms ==>
              var e := s.alarms[key];
              && Address(e.shelf.Some?, key) in flat && Address(e.shelf.None?, key) !in flat
              && var list := flat[Address(e.shelf.Some?, key)].statusChanges;
                 && (forall i :: 0 <= i < |e.statusChanges| ==> HasTime(list, e.statusChanges[i].time))
                 && !HasTime(list, now)
  {
    hide Inv, Address, SameNodes, AllPrintable, EntryOk, HasTime, NodeOf;
    PathLookupExact(flat, Render(s), false, key);
    PathLookupExact(flat, Render(s), true, key);
    ListsOfState(s);
    InvAt(s, key);
    if key in s.alarms {
      var e, t := s.alarms[key], s.traces[key];
      NodeAt(s.alarms, s.traces, key);
      LookupAt(flat, Render(s), e.shelf.Some?, key);
      forall i | 0 <= i < |e.statusChanges| ensures HasTime(NodeOf(e, t).statusChanges, e.statusChanges[i].time) {
        CachedTimeShown(e, t, i);
      }
      LaterTimeIsNew(e, t, s.settings.limit, now);
    }
  }

  lemma {:induction false} LookupAt(flat: map<string, Node>, tree: Tree, b: bool, key: InstanceKey)
    requires AllPrintable(tree) && SameNodes(flat, tree) && tree.Has(b, key)
    ensures key.Printable() && Address(b, key) in flat && flat[Address(b, key)] == tree.At(b, key)
  {
  }

  // ---------- Purge ----------

  /** The entries of a published list whose alarms a purge asks for. */
  function Selected(s: State, inShelf: bool, input: PurgeInput, filterNow: Time): set<InstanceKey> {
    set k | k in Render(s).List(inShelf) && PurgeSelects(input, filterNow, s.alarms[k])
  }

  /** A purge removes exactly the alarms of its list that pass every filter, and leaves the other list alone. */
  lemma {:induction false} PurgeExact(s: State, inShelf: bool, input: PurgeInput, now: Time, filterNow: Time)
    requires PurgeProblem(input).None?
    ensures var tree, tree' := Render(s), Render(Purged(s, inShelf, input, now, filterNow));
            var gone := Purgeable(s, inShelf, input, filterNow);
            && tree'.List(inShelf) == tree.List(inShelf) - gone && tree'.List(!inShelf) == tree.List(!inShelf)
            && gone == Selected(s, inShelf, input, filterNow)
            && |gone| == |s.alarms| - |Purged(s, inShelf, input, now, filterNow).alarms|
  {
    hide Purged, Purgeable, PurgeSelects, NodeOf, Render, Selected;
    var gone := Purgeable(s, inShelf, input, filterNow);
    var s' := Purged(s, inShelf, input, now, filterNow);
    PurgeShape(s, inShelf, input, now, filterNow);
    ListsOfState(s);
    ListsOfState(s');
    ErasedKeys(s.alarms, gone);
    EraseAllShows(s.alarms, s.traces, gone, inShelf);
    EraseAllShows(s.alarms, s.traces, gone, !inShelf);
    NotInOtherList(s.alarms, s.traces, gone, inShelf);
    PurgeableIs(s, inShelf, input, filterNow);
  }

  lemma {:induction false} PurgeableIs(s: State, inShelf: bool, input: PurgeInput, filterNow: Time)
    ensures Purgeable(s, inShelf, input, filterNow) == Selected(s, inShelf, input, filterNow)
  {
    hide NodeOf, PurgeSelects;
  }

  lemma {:induction false} ErasedKeys(alarms: map<InstanceKey, Entry>, gone: set<InstanceKey>)
    requires gone <= alarms.Keys
    ensures |gone| == |alarms| - |alarms - gone|
  {
    assert alarms.Keys == (alarms - gone).Keys + gone;
  }

  lemma {:induction false} NotInOtherList(alarms: map<InstanceKey, Entry>, traces: map<InstanceKey, Trace>,
                                          gone: set<InstanceKey>, inShelf: bool)
    requires forall k :: k in gone ==> k in alarms && alarms[k].shelf.Some? == inShelf
    ensures RenderList(alarms, traces, !inShelf) - gone == RenderList(alarms, traces, !inShelf)
  {
  }

  lemma {:induction false} EraseAllShows(alarms: map<InstanceKey, Entry>, traces: map<InstanceKey, Trace>,
                                         gone: set<InstanceKey>, inShelf: bool)
    ensures RenderList(alarms - gone, traces - gone, inShelf) == RenderList(alarms, traces, inShelf) - gone
  {
  }

  /** The three severity purges at one level, in some order. */
  function ThreePurges(level: Level, order: nat): (SeveritySpec, SeveritySpec, SeveritySpec) {
    if order == 0 then (Below(level), Is(level), Above(level))
    else if order == 1 then (Below(level), Above(level), Is(level))
    else if order == 2 then (Is(level), Below(level), Above(level))
    else if order == 3 then (Is(level), Above(level), Below(level))
    else if order == 4 then (Above(level), Below(level), Is(level))
    else (Above(level), Is(level), Below(level))
  }

  function BySeverityOnly(spec: SeveritySpec): PurgeInput { PurgeInput(Any, Some(spec), None) }

  /** Purging below, at and above a level, in any order, empties the list; the counts sum to its size. */
  lemma {:induction false} PurgePartition(s: State, inShelf: bool, level: Level, order: nat, t1: Time, t2: Time,
                                          t3: Time)
    ensures var (a, b, c) := ThreePurges(level, order);
            var s1 := Purged(s, inShelf, BySeverityOnly(a), t1, t1);
            var s2 := Purged(s1, inShelf, BySeverityOnly(b), t2, t2);
            var s3 := Purged(s2, inShelf, BySeverityOnly(c), t3, t3);
            && Listed(s3.alarms, inShelf) == {}
            && |Purgeable(s, inShelf, BySeverityOnly(a), t1)| + |Purgeable(s1, inShelf, BySeverityOnly(b), t2)|
               + |Purgeable(s2, inShelf, BySeverityOnly(c), t3)| == |Listed(s.alarms, inShelf)|
  {
    var (a, b, c) := ThreePurges(level, order);
    PurgeShrinks(s, inShelf, a, t1);
    var s1 := Purged(s, inShelf, BySeverityOnly(a), t1, t1);
    PurgeShrinks(s1, inShelf, b, t2);
    var s2 := Purged(s1, inShelf, BySeverityOnly(b), t2, t2);
    PurgeShrinks(s2, inShelf, c, t3);
    var s3 := Purged(s2, inShelf, BySeverityOnly(c), t3, t3);
    forall k ensures k !in Listed(s3.alarms, inShelf) {
      if k in s.alarms { SeverityTrichotomy(level, s.alarms[k].lastSeverity); }
    }
  }

  lemma {:induction false} PurgeShrinks(s: State, inShelf: bool, spec: SeveritySpec, now: Time)
    requires !spec.NoLevel?
    ensures var s' := Purged(s, inShelf, BySeverityOnly(spec), now, now);
            && |Listed(s'.alarms, inShelf)| ==
               |Listed(s.alarms, inShelf)| - |Purgeable(s, inShelf, BySeverityOnly(spec), now)|
            && forall k :: k in Listed(s'.alarms, inShelf) <==>
                           k in Listed(s.alarms, inShelf) && !SeveritySelects(spec, s.alarms[k].lastSeverity)
  {
    var s' := Purged(s, inShelf, BySeverityOnly(spec), now, now);
    var gone := Purgeable(s, inShelf, BySeverityOnly(spec), now);
    assert Listed(s.alarms, inShelf) == Listed(s'.alarms, inShelf) + gone;
    assert Listed(s'.alarms, inShelf) !! gone;
  }

  // ---------- Compress ----------

  /** After a compression each selected alarm shows exactly its newest change; nothing else differs in either list. */
  lemma {:induction false} CompressExact(s: State, inShelf: bool, input: CompressInput, key: InstanceKey, b: bool)
    requires Inv(s)
    ensures var tree, tree' := Render(s), Render(Compressed(s, inShelf, input));
            && (tree'.Has(b, key) <==> tree.Has(b, key))
            && (tree.Has(b, key) ==>
                  var node := tree.At(b, key);
                  tree'.At(b, key) == if b == inShelf && CompressSelects(input, key) && node.statusChanges != []
                                      then node.(statusChanges := [node.statusChanges[0]]) else node)
  {
    hide Inv, HistoriesOk, Render, RenderList, NodeOf, Compressed, CompressSelects;
    var s' := Compressed(s, inShelf, input);
    StateFacts(s);
    ListsOfState(s');
    CompressedAt(s, inShelf, input, key);
    CompressShape(s, inShelf, input);
    if key in s.alarms {
      HistoryOkAt(s.alarms, s.traces, key);
      NodeAt(s.alarms, s.traces, key);
      NodeAt(s'.alarms, s'.traces, key);
      CompressedNode(s.alarms[key], s.traces[key]);
    } else {
      NotListed(s, key);
      NotListed(s', key);
    }
  }

  lemma {:induction false} CompressedNode(e: Entry, t: Trace)
    requires SuffixOf(e.statusChanges, t.log)
    ensures var node := NodeOf(e, t);
            NodeOf(Trimmed(e, Some(1)), t) ==
            if node.statusChanges != [] then node.(statusChanges := [node.statusChanges[0]]) else node
  {
  }

  /** A second identical compression finds nothing to do. */
  lemma {:induction false} CompressTwice(s: State, inShelf: bool, input: CompressInput)
    ensures var s' := Compressed(s, inShelf, input);
            Compressible(s', inShelf, input) == {} && Compressed(s', inShelf, input) == s'
  {
    var s' := Compressed(s, inShelf, input);
    forall k | k in s'.alarms ensures CompressedEntry(s'.alarms[k], inShelf, input, k) == s'.alarms[k] {}
    assert Compressed(s', inShelf, input).alarms == s'.alarms;
  }

  // ---------- Reshelving ----------

  /** Reshelving conserves: every alarm stays published in exactly one list, with the same flags, times, severity,
      text and history in order; only its list, its shelf name and, on leaving the shelf, its creation time change. */
  lemma {:induction false} ReshelveConserves(s: State, rules: seq<Shelf>, now: Time, key: InstanceKey)
    requires Inv(s)
    ensures var tree, tree' := Render(s), Render(Reshelved(s, rules, now));
            var shelf := FindMatchingShelf(key, rules);
            && (tree.Has(false, key) || tree.Has(true, key) <==> tree'.Has(shelf.Some?, key))
            && !tree'.Has(shelf.None?, key)
            && forall b: bool :: tree.Has(b, key) ==>
                 var node, node' := tree.At(b, key), tree'.At(shelf.Some?, key);
                 && node' == CopyOf(node).(shelfName := shelf, timeCreated := node'.timeCreated)
                 && node'.timeCreated == (if shelf.Some? then None else if b then Some(now) else node.timeCreated)
  {
    if key in s.alarms {
      assert key in s.traces;
      NodeAt(s.alarms, s.traces, key);
      var s' := Reshelved(s, rules, now);
      ReshelvedAt(s.alarms, s.traces, rules, now, key);
      NodeAt(s'.alarms, s'.traces, key);
      ListsOfState(s);
      ListsOfState(s');
    } else {
      assert key !in Reshelved(s, rules, now).alarms;
    }
  }

  /** Reshelving again with the same rules moves nothing and changes nothing. */
  lemma {:induction false} ReshelveTwice(s: State, rules: seq<Shelf>, now: Time, later: Time)
    ensures var s' := Reshelved(s, rules, now);
            Moved(s'.alarms, rules) == {} && Reshelved(s', rules, later) == s'
  {
    var s' := Reshelved(s, rules, now);
    NothingMoved(s', rules, later);
  }

  /** Only the latest rules matter for where alarms are. */
  lemma {:induction false} ReshelveLatestWins(s: State, first: seq<Shelf>, second: seq<Shelf>, t1: Time, t2: Time)
    ensures Reshelved(Reshelved(s, first, t1), second, t2).alarms == Reshelved(s, second, t2).alarms
    ensures forall k :: k in s.traces ==>
              Reshelved(Reshelved(s, first, t1), second, t2).traces[k].log == Reshelved(s, second, t2).traces[k].log
  {
    hide FindMatchingShelf, Moved, Crossing;
    assert ReshelvedAlarms(ReshelvedAlarms(s.alarms, first), second) == ReshelvedAlarms(s.alarms, second);
  }

  // ---------- Reports ----------

  /** Change detection is exact: an accepted report is recorded exactly when it changes its entry, and when it does
      not, the whole state but the clock (and a rebuilt inventory cache) stays as it was. */
  lemma {:induction false} ChangeDetectionExact(s: State, r: Report, now: Time)
    requires Inv(s) && CanSubmit(s, r) && s.clock < now
    ensures var s' := Submitted(s, r, now);
            && (Records(s, r) <==> Cached(s'.alarms, r.key) != Cached(s.alarms, r.key))
            && (Records(s, r) <==> Render(s') != Render(s))
            && (!Records(s, r) ==> s' == s.(clock := now, inventory := s'.inventory))
  {
    if Records(s, r) {
      assert r.key in s.alarms ==> AlarmOk(s, r.key);
      assert ListStamp(s, false) < now && ListStamp(s, true) < now;
    }
  }

  /** Repeating a report later changes neither cache nor tree and sends no notification. */
  lemma {:induction false} SubmitIdempotent(s: State, r: Report, now: Time, later: Time)
    requires Inv(s) && CanSubmit(s, r) && s.clock < now < later
    ensures var s' := Submitted(s, r, now);
            CanSubmit(s', r) && !Records(s', r) && Submitted(s', r, later) == s'.(clock := later)
  {
    hide Inv, AlarmOk, FindMatchingShelf, Parsed, ValidationError, Announces, Updated, Changes;
    InvAt(s, r.key);
    var was := Cached(s.alarms, r.key);
    if Records(s, r) {
      ReportIsShown(was, now, r, FindMatchingShelf(r.key, s.rules.value), s.settings.limit);
    }
  }

  /** An event that changes what an alarm shows: another report on it is recorded, or a purge takes it. */
  predicate Disturbs(s: State, ev: Event, key: InstanceKey) {
    match ev
    case Submit(r, _) => r.key == key && Records(s, r)
    case Purge(inShelf, input, _, filterNow) =>
      PurgeProblem(input).None? && key in Purgeable(s, inShelf, input, filterNow)
    case _ => false
  }

  ghost predicate Undisturbed(s: State, es: seq<Event>, key: InstanceKey)
    requires IsRun(s, es)
    decreases |es|
  {
    es == [] || (Undisturbed(s, Front(es), key) && !Disturbs(After(s, Front(es)), Last(es), key))
  }

  /** The alarm is in the state that a report asks for. */
  predicate AsReported(s: State, r: Report) {
    r.key in s.alarms &&
    var e := s.alarms[r.key];
    2 <= e.lastSeverity && e.text == r.text && e.Effective() == r.severity
  }

  /** Only recorded reports and purges change what an alarm shows. */
  lemma {:induction false} StaysAsReported(s: State, ev: Event, r: Report)
    requires Inv(s) && Enabled(s, ev) && AsReported(s, r) && !Disturbs(s, ev, r.key)
    ensures AsReported(Step(s, ev), r)
  {
    hide Inv, CanSubmit, Records, Submitted, Updated, FindMatchingShelf, Reconfigured, Purged, Purgeable, PurgeProblem,
         CompressSelects, Changes, EntryOk;
    match ev
    case Submit(other, now) =>
      if Records(s, other) { RecordedParts(s, other, now); } else { UnrecordedState(s, other, now); }
    case Purge(inShelf, input, now, filterNow) => PurgeShape(s, inShelf, input, now, filterNow);
    case Configure(batch, rules, now) => ReconfiguredAt(s, batch, rules, now, r.key);
    case Compress(_, _) =>
    case InventoryWrite(_) =>
    case InventoryCallback =>
  }

  lemma {:induction false} RunStaysAsReported(s: State, es: seq<Event>, r: Report)
    requires Inv(s) && IsRun(s, es) && AsReported(s, r) && Undisturbed(s, es, r.key)
    ensures AsReported(After(s, es), r)
    decreases |es|
  {
    hide Inv, Enabled, Step, AsReported, Disturbs;
    if es != [] {
      RunStaysAsReported(s, Front(es), r);
      RunKeepsInv(s, Front(es));
      StaysAsReported(After(s, Front(es)), Last(es), r);
    }
  }

  lemma {:induction false} RecordedIsShown(s: State, r: Report, now: Time)
    requires Inv(s) && CanSubmit(s, r) && s.clock < now && Records(s, r)
    ensures AsReported(Submitted(s, r, now), r)
  {
    hide Inv, CanSubmit, Records, Submitted, Changes, FindMatchingShelf, EntryOk, Updated;
    RecordedParts(s, r, now);
    InvAt(s, r.key);
    UpdatedShows(Cached(s.alarms, r.key), now, r, FindMatchingShelf(r.key, s.rules.value), s.settings.limit);
  }

  lemma {:induction false} UpdatedShows(was: Option<Entry>, now: Time, r: Report, shelf: Option<string>,
                                        limit: Option<Uint16>)
    requires (r.severity == CLEARED ==> was.Some?) && Changes(was, r.severity, r.text)
    requires was.Some? ==> 2 <= was.value.lastSeverity <= 6
    ensures var e := Updated(was, now, r.severity, r.text, shelf, limit);
            2 <= e.lastSeverity && e.text == r.text && e.Effective() == r.severity
  {
  }

  /** A report repeated after any run in which no other report on its alarm is recorded and no purge takes the alarm
      is not recorded again: it changes neither alarms nor tree and sends nothing, whatever happened to the shelves, the
      histories, the settings and the other alarms in between. */
  lemma {:induction false} RepeatIsNotRecorded(s: State, r: Report, now: Time, es: seq<Event>, later: Time)
    requires Inv(s) && CanSubmit(s, r) && s.clock < now && Records(s, r)
    requires IsRun(Submitted(s, r, now), es) && Undisturbed(Submitted(s, r, now), es, r.key)
    ensures var t := After(Submitted(s, r, now), es);
            && !Records(t, r)
            && (CanSubmit(t, r) ==>
                  Submitted(t, r, later) == t.(clock := later, inventory := Submitted(t, r, later).inventory)
                  && Render(Submitted(t, r, later)) == Render(t))
  {
    hide Inv, IsRun, Undisturbed, Submitted, Records, CanSubmit, AsReported, Render;
    var s1 := Submitted(s, r, now);
    SubmitKeepsInv(s, r, now);
    RecordedIsShown(s, r, now);
    RunStaysAsReported(s1, es, r);
    var t := After(s1, es);
    AsReportedIsNotRecorded(t, r);
    if CanSubmit(t, r) {
      UnrecordedState(t, r, later);
      NotShown(t, Submitted(t, r, later));
    }
  }

  lemma {:induction false} AsReportedIsNotRecorded(s: State, r: Report)
    requires AsReported(s, r)
    ensures !Records(s, r)
  {
    hide SubmitOutcome;
  }

  lemma {:induction false} NotShown(s: State, s': State)
    requires s' == s.(clock := s'.clock, inventory := s'.inventory)
    ensures Render(s') == Render(s)
  {
  }

  /** Once recorded, a report is shown: repeated, it changes nothing. */
  lemma {:induction false} ReportIsShown(was: Option<Entry>, now: Time, r: Report, shelf: Option<string>,
                                         limit: Option<Uint16>)
    requires r.severity == CLEARED ==> was.Some?
    requires Changes(was, r.severity, r.text)
    ensures var e := Updated(was, now, r.severity, r.text, shelf, limit);
            if r.severity == CLEARED then e.isCleared else !Changes(Some(e), r.severity, r.text)
  {
  }

  // ---------- The published creation time ----------

  /** The `time-created` leaf of an alarm in the alarm list. */
  function CreationLeaf(tree: Tree, key: InstanceKey): Option<Time> {
    if key in tree.alarms then tree.alarms[key].timeCreated else None
  }

  lemma {:induction false} CreationLeafIs(s: State, key: InstanceKey)
    requires Inv(s)
    ensures CreationLeaf(Render(s), key) ==
            if key in s.alarms && s.alarms[key].shelf.None? then Some(s.traces[key].shown) else None
    ensures CreationLeaf(Render(s), key).Some? ==> key in s.alarms && AlarmOk(s, key)
  {
    assert key in s.alarms ==> AlarmOk(s, key);
  }

  /** The standard says that state changes do not touch `time-created`.  For an alarm that stays in the alarm list
      the daemon changes it exactly when the alarm is reported anew while the leaf is later than `last-changed`,
      which is the mark of an alarm unshelved since its last change. */
  lemma {:induction false} TimeCreatedKeptExactly(s: State, ev: Event, key: InstanceKey)
    requires Inv(s) && Enabled(s, ev)
    requires CreationLeaf(Render(s), key).Some? && CreationLeaf(Render(Step(s, ev)), key).Some?
    ensures CreationLeaf(Render(Step(s, ev)), key) == CreationLeaf(Render(s), key) <==>
            !(ev.Submit? && ev.r.key == key && Records(s, ev.r)
              && CreationLeaf(Render(s), key).value > s.alarms[key].lastChanged)
  {
    hide Inv, Step, Enabled, Records, FindMatchingShelf, Render;
    var s' := Step(s, ev);
    StepKeepsInv(s, ev);
    CreationLeafIs(s, key);
    CreationLeafIs(s', key);
    ShownExactly(s, ev, key);
    assert AlarmOk(s, key);
  }

  /** The same for the history variable behind the leaf. */
  lemma {:induction false} ShownExactly(s: State, ev: Event, key: InstanceKey)
    requires Inv(s) && Enabled(s, ev) && key in s.alarms && key in Step(s, ev).alarms
    requires s.alarms[key].shelf.None? && Step(s, ev).alarms[key].shelf.None?
    ensures key in s.traces && key in Step(s, ev).traces
    ensures Step(s, ev).traces[key].shown ==
            if ev.Submit? && ev.r.key == key && Records(s, ev.r) then s.alarms[key].created else s.traces[key].shown
  {
    hide Inv, AlarmOk, EntryOk, Submitted, Records, CanSubmit, Reconfigured, Updated, FindMatchingShelf,
         CompressSelects,
         PurgeSelects;
    InvAt(s, key);
    match ev
    case Submit(r, now) =>
      if Records(s, r) {
        RecordedParts(s, r, now);
        UpdatedStamps(Cached(s.alarms, r.key), now, r, FindMatchingShelf(r.key, s.rules.value), s.settings.limit);
      } else {
        UnrecordedState(s, r, now);
      }
    case Configure(batch, rules, now) =>
      ReconfiguredAt(s, batch, rules, now, key);
      ReconfiguredKeys(s, batch, rules, now);
    case Purge(_, _, _, _) =>
    case Compress(_, _) =>
    case InventoryWrite(_) =>
    case InventoryCallback =>
  }

  lemma {:induction false} ReconfiguredKeys(s: State, batch: seq<Change>, rules: seq<Shelf>, now: Time)
    ensures Reconfigured(s, batch, rules, now).traces.Keys == s.traces.Keys
  {
    hide Folded, ApplyAll, FindMatchingShelf;
  }

  /** Any shelved alarm shows it when it is unshelved and then reported with another text: the published creation time
      jumps to the time of unshelving and back to the real one. */
  lemma {:induction false} TimeCreatedGoesBack(s: State, r: Report, t1: Time, t2: Time)
    requires Inv(s) && r.key in s.alarms && s.alarms[r.key].shelf.Some? && s.clock < t1 < t2
    requires SubmitOutcome(s, r).Ok? && r.severity != CLEARED && r.text != s.alarms[r.key].text
    requires !s.settings.mode.BySeverity?
    ensures var s1 := Reconfigured(s, [Shelving], [], t1);
            && CanSubmit(s1, r)
            && CreationLeaf(Render(s1), r.key) == Some(t1)
            && CreationLeaf(Render(Submitted(s1, r, t2)), r.key) == Some(s.alarms[r.key].created)
            && s.alarms[r.key].created < t1
  {
    hide Inv, Records, Reconfigured, Submitted, AlarmOk, CanSubmit;
    var key, s1 := r.key, Reconfigured(s, [Shelving], [], t1);
    ReconfigureKeepsInv(s, [Shelving], [], t1);
    UnshelvedBy(s, t1, key);
    UnshelvedReports(s, s1, r);
    InvAt(s, key);
    SubmitKeepsInv(s1, r, t2);
    var s2 := Submitted(s1, r, t2);
    RecordedParts(s1, r, t2);
    UpdatedStamps(Some(s1.alarms[key]), t2, r, FindMatchingShelf(key, []), s1.settings.limit);
    ShownExactly(s1, Submit(r, t2), key);
    CreationLeafIs(s1, key);
    CreationLeafIs(s2, key);
  }

  /** A report with another text is recorded, wherever its alarm has been moved. */
  lemma {:induction false} UnshelvedReports(s: State, s1: State, r: Report)
    requires SubmitOutcome(s, r).Ok? && r.severity != CLEARED && !s.settings.mode.BySeverity?
    requires r.key in s1.alarms && r.text != s1.alarms[r.key].text
    requires s1.inventory == s.inventory && s1.settings.mode == s.settings.mode && s1.rules.Some?
    ensures CanSubmit(s1, r) && Records(s1, r)
  {
    hide ValidationError, Parsed;
  }

  lemma {:induction false} UnshelvedBy(s: State, t1: Time, key: InstanceKey)
    requires Inv(s) && key in s.alarms && s.alarms[key].shelf.Some?
    ensures var s1 := Reconfigured(s, [Shelving], [], t1);
            && key in s1.alarms
            && s1.alarms[key] == s.alarms[key].(shelf := None, statusChanges := s1.alarms[key].statusChanges)
            && key in s1.traces && s1.traces[key].shown == t1 && s1.clock == t1 && s1.rules == Some([])
            && s1.inventory == s.inventory && s1.settings == s.settings
  {
    hide Inv;
    StateFacts(s);
    assert BeforeShelving([Shelving]) == [];
  }
}
