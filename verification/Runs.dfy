/** Runs of the daemon: any interleaving of its handlers, with strictly increasing times. */
module Runs {
  import opened Wrappers
  import opened Key
  import opened ShelfMatch
  import opened Alarms
  import opened Filters
  import opened Inventories
  import opened Control
  import opened Machine
  import opened Mirror

  datatype Event =
    | Submit(r: Report, now: Time)
    | Purge(inShelf: bool, purge: PurgeInput, now: Time, filterNow: Time)
    | Compress(inShelf: bool, compress: CompressInput)
    | Configure(batch: seq<Change>, rules: seq<Shelf>, now: Time)
    | InventoryWrite(store: seq<InventoryEntry>)
    | InventoryCallback

  predicate Enabled(s: State, ev: Event) {
    match ev
    case Submit(r, now) => s.clock < now && CanSubmit(s, r)
    case Purge(_, _, now, _) => s.clock < now
    case Compress(_, _) => true
    case Configure(_, _, now) => s.clock < now
    case InventoryWrite(_) => true
    case InventoryCallback => s.inventory.pending > 0
  }

  function Step(s: State, ev: Event): State
    requires Enabled(s, ev)
  {
    match ev
    case Submit(r, now) => Submitted(s, r, now)
    case Purge(inShelf, input, now, filterNow) => Purged(s, inShelf, input, now, filterNow)
    case Compress(inShelf, input) => Compressed(s, inShelf, input)
    case Configure(batch, rules, now) => Reconfigured(s, batch, rules, now)
    case InventoryWrite(store) => InventoryWritten(s, store)
    case InventoryCallback => InventoryInvalidated(s)
  }

  /** All events but the last. */
  function Front(es: seq<Event>): seq<Event>
    requires es != []
  {
    es[..|es| - 1]
  }

  function Last(es: seq<Event>): Event
    requires es != []
  {
    es[|es| - 1]
  }

  /** The events are possible one after the other. */
  predicate IsRun(s: State, es: seq<Event>)
    decreases |es|, 0
  {
    es == [] || (IsRun(s, Front(es)) && Enabled(After(s, Front(es)), Last(es)))
  }

  function After(s: State, es: seq<Event>): State
    requires IsRun(s, es)
    decreases |es|, 1
  {
    if es == [] then s else Step(After(s, Front(es)), Last(es))
  }

  lemma {:induction false} RunExtends(s: State, es: seq<Event>, ev: Event)
    requires IsRun(s, es) && Enabled(After(s, es), ev)
    ensures IsRun(s, es + [ev]) && After(s, es + [ev]) == Step(After(s, es), ev)
  {
    hide Enabled, Step;
    assert Front(es + [ev]) == es && Last(es + [ev]) == ev;
  }

  /** Two runs, one after the other, are a run. */
  lemma {:induction false} RunsJoin(s: State, a: seq<Event>, b: seq<Event>)
    requires IsRun(s, a) && IsRun(After(s, a), b)
    ensures IsRun(s, a + b) && After(s, a + b) == After(After(s, a), b)
    decreases |b|
  {
    hide Enabled, Step;
    if b == [] {
      assert a + b == a;
    } else {
      RunsJoin(s, a, Front(b));
      assert Front(a + b) == a + Front(b) && Last(a + b) == Last(b);
    }
  }

  // ---------- The invariant holds in every reachable state ----------

  lemma {:induction false} StepKeepsInv(s: State, ev: Event)
    requires Inv(s) && Enabled(s, ev)
    ensures Inv(Step(s, ev))
    ensures s.clock <= Step(s, ev).clock
  {
    hide Inv, InventoryOk;
    match ev
    case Submit(r, now) => SubmitKeepsInv(s, r, now);
    case Purge(inShelf, input, now, filterNow) => PurgeKeepsInv(s, inShelf, input, now, filterNow);
    case Compress(inShelf, input) => CompressKeepsInv(s, inShelf, input);
    case Configure(batch, rules, now) => ReconfigureKeepsInv(s, batch, rules, now);
    case InventoryWrite(store) => InventoryStepsOk(s, store); OnlyInventory(s, Step(s, ev));
    case InventoryCallback => InventoryStepsOk(s, []); OnlyInventory(s, Step(s, ev));
  }

  lemma {:induction false} InitialInv(now: Time, shelfNow: Time, store: seq<InventoryEntry>)
    requires now <= shelfNow
    ensures Inv(Initial(now, shelfNow, store))
  {
    InitialFacts(now, shelfNow, store);
  }

  lemma {:induction false} RunKeepsInv(s: State, es: seq<Event>)
    requires Inv(s) && IsRun(s, es)
    ensures Inv(After(s, es)) && s.clock <= After(s, es).clock
    decreases |es|
  {
    hide Inv, Enabled, Step;
    if es != [] {
      RunKeepsInv(s, Front(es));
      StepKeepsInv(After(s, Front(es)), Last(es));
    }
  }

  // ---------- Placement ----------

  /** The shelving rules of the latest batch that touched shelving. */
  function LatestRules(was: Option<seq<Shelf>>, es: seq<Event>): Option<seq<Shelf>>
    decreases |es|
  {
    if es == [] then was
    else if Last(es).Configure? && Shelving in Last(es).batch then Some(Last(es).rules)
    else LatestRules(was, Front(es))
  }

  /** Rules and settings change by configuration only. */
  lemma {:induction false} StepRules(s: State, ev: Event)
    requires Enabled(s, ev)
    ensures Step(s, ev).rules == if ev.Configure? && Shelving in ev.batch then Some(ev.rules) else s.rules
    ensures Step(s, ev).settings == if ev.Configure? then Folded(s.settings, ev.batch) else s.settings
    ensures Step(s, ev).config == if ev.Configure? then ApplyAll(s.config, ev.batch) else s.config
  {
    hide Updated, FindMatchingShelf, Purgeable, PurgeSelects, AllTrimmed, ReshelvedAlarms, ReshelvedTraces, Folded,
         ApplyAll,
         SubmitOutcome, Announces;
  }

  lemma {:induction false} RulesAreLatest(s: State, es: seq<Event>)
    requires IsRun(s, es)
    ensures After(s, es).rules == LatestRules(s.rules, es)
    decreases |es|
  {
    hide Enabled, Step;
    if es != [] {
      RulesAreLatest(s, Front(es));
      StepRules(After(s, Front(es)), Last(es));
    }
  }

  /** In every reachable state each alarm sits where the latest rules put its key, whatever rules it has lived
      through, and the published list that holds it is the list that a new report on it would write to. */
  lemma {:induction false} Placement(now: Time, shelfNow: Time, store: seq<InventoryEntry>, es: seq<Event>,
                                     key: InstanceKey)
    requires now <= shelfNow && IsRun(Initial(now, shelfNow, store), es)
    requires key in After(Initial(now, shelfNow, store), es).alarms
    ensures var s := After(Initial(now, shelfNow, store), es);
            && LatestRules(None, es).Some?
            && s.alarms[key].shelf == FindMatchingShelf(key, LatestRules(None, es).value)
            && Render(s).Has(FindMatchingShelf(key, LatestRules(None, es).value).Some?, key)
            && !Render(s).Has(FindMatchingShelf(key, LatestRules(None, es).value).None?, key)
  {
    var s0 := Initial(now, shelfNow, store);
    InitialInv(now, shelfNow, store);
    RunKeepsInv(s0, es);
    RulesAreLatest(s0, es);
    assert AlarmOk(After(s0, es), key);
  }

  /** The same, told from the criteria of the latest rules: a published shelved alarm is on a shelf of that name whose
      criteria its key meets, and an alarm that meets all criteria of any shelf is not in the alarm list. */
  lemma {:induction false} PlacementMeetsCriteria(now: Time, shelfNow: Time, store: seq<InventoryEntry>, es: seq<Event>,
                                                  key: InstanceKey, i: nat)
    requires now <= shelfNow && IsRun(Initial(now, shelfNow, store), es)
    ensures var tree := Render(After(Initial(now, shelfNow, store), es));
            tree.Has(true, key) ==>
              LatestRules(None, es).Some? &&
              exists shelf :: shelf in LatestRules(None, es).value && tree.At(true, key).shelfName == Some(shelf.name)
                && (shelf.resources == [] || key.resource in shelf.resources)
                && (shelf.alarmTypes == [] ||
                    exists c :: c in shelf.alarmTypes && c.qualifierMatch == key.alarmType.qualifier
                                && key.alarmType.id in c.derived)
    ensures LatestRules(None, es).Some? && i < |LatestRules(None, es).value| ==>
              var shelf := LatestRules(None, es).value[i];
              (shelf.resources == [] || key.resource in shelf.resources) &&
              (shelf.alarmTypes == [] ||
               exists c :: c in shelf.alarmTypes && c.qualifierMatch == key.alarmType.qualifier
                           && key.alarmType.id in c.derived) ==>
                !Render(After(Initial(now, shelfNow, store), es)).Has(false, key)
  {
    hide Inv, Initial, IsRun, After, LatestRules, Render, RenderList, FindMatchingShelf, NodeOf;
    var s := After(Initial(now, shelfNow, store), es);
    InitialInv(now, shelfNow, store);
    RunKeepsInv(Initial(now, shelfNow, store), es);
    ListsOfState(s);
    if key in s.alarms {
      Placement(now, shelfNow, store, es, key);
      InvAt(s, key);
      NodeAt(s.alarms, s.traces, key);
      ShelfNameShown(s.alarms[key], s.traces[key]);
      var rules := LatestRules(None, es).value;
      if FindMatchingShelf(key, rules).Some? { ShelfCriteriaMet(key, rules); }
      if i < |rules| && (rules[i].resources == [] || key.resource in rules[i].resources) &&
         (rules[i].alarmTypes == [] ||
          exists c :: c in rules[i].alarmTypes && c.qualifierMatch == key.alarmType.qualifier
                      && key.alarmType.id in c.derived) {
        MetCriteriaShelve(key, rules, i);
      }
    } else {
      NotListed(s, key);
    }
  }

  lemma {:induction false} ShelfNameShown(e: Entry, t: Trace)
    ensures NodeOf(e, t).shelfName == e.shelf
  {
  }

  // ---------- Settings over runs ----------

  /** Every configuration batch reports shelving changes last. */
  predicate SchemaOrdered(es: seq<Event>) {
    forall i :: 0 <= i < |es| && es[i].Configure? ==> ShelvingLast(es[i].batch)
  }

  /** Over such runs the daemon's settings are those of the configuration. */
  lemma {:induction false} SettingsTrackConfig(s: State, es: seq<Event>)
    requires IsRun(s, es) && SchemaOrdered(es) && s.settings == s.config
    ensures After(s, es).settings == After(s, es).config
    decreases |es|
  {
    hide Enabled, Step, ApplyAll, Folded;
    if es != [] {
      assert forall i :: 0 <= i < |Front(es)| ==> Front(es)[i] == es[i];
      SettingsTrackConfig(s, Front(es));
      StepRules(After(s, Front(es)), Last(es));
      if Last(es).Configure? {
        assert es[|es| - 1] == Last(es);
        TracksWhenShelvingLast(After(s, Front(es)).settings, Last(es).batch);
      }
    }
  }

  /** So if every configuration meets its `must` statement, the threshold is there whenever a report needs it:
      once rules have been read, every report can be submitted. */
  lemma {:induction false} SubmitAlwaysPossible(s: State, es: seq<Event>, r: Report)
    requires IsRun(s, es) && SchemaOrdered(es) && s.settings == s.config
    requires After(s, es).config.MeetsMust() && After(s, es).rules.Some?
    ensures CanSubmit(After(s, es), r)
  {
    SettingsTrackConfig(s, es);
  }

  // ---------- A short run ----------

  /** An inventory that allows one type of alarm, for any resource and severity. */
  function Allowing(key: InstanceKey): seq<InventoryEntry> { [InventoryEntry(key.alarmType, [])] }

  /** Rules are read, and an alarm is reported and reported again with another severity. */
  function TwoReports(key: InstanceKey, t: Time): seq<Event> {
    [Configure([Shelving], [], t + 1), Submit(Report(key, 2, "first"), t + 2), Submit(Report(key, 3, "second"), t + 3)]
  }

  lemma {:induction false} TwoReportsRun(key: InstanceKey, t: Time)
    requires key.Printable()
    ensures IsRun(Initial(t, t, Allowing(key)), TwoReports(key, t))
    ensures var s := After(Initial(t, t, Allowing(key)), TwoReports(key, t));
            && Inv(s) && key in s.alarms && s.alarms[key].shelf == None && |s.alarms[key].statusChanges| == 2
            && s.settings == Settings(All, None, None) && s.rules == Some([]) && s.clock == t + 3
  {
    hide Inv, Initial, Reconfigured, Submitted, SubmitOutcome, CanSubmit;
    var s0, es := Initial(t, t, Allowing(key)), TwoReports(key, t);
    ReportedTwice(key, t);
    RunExtends(s0, [], es[0]);
    RunExtends(s0, [es[0]], es[1]);
    RunExtends(s0, [es[0], es[1]], es[2]);
    assert [] + [es[0]] == [es[0]] && [es[0]] + [es[1]] == [es[0], es[1]] && [es[0], es[1]] + [es[2]] == es;
    InitialInv(t, t, Allowing(key));
    RunKeepsInv(s0, es);
  }

  lemma {:induction false} ReportedTwice(key: InstanceKey, t: Time)
    requires key.Printable()
    ensures var s0 := Initial(t, t, Allowing(key));
            var s1 := Reconfigured(s0, [Shelving], [], t + 1);
            var r, r' := Report(key, 2, "first"), Report(key, 3, "second");
            CanSubmit(s1, r) &&
            var s2 := Submitted(s1, r, t + 2);
            CanSubmit(s2, r') &&
            var s3 := Submitted(s2, r', t + 3);
            key in s3.alarms && s3.alarms[key].shelf == None && |s3.alarms[key].statusChanges| == 2
            && s0.clock == t && s1.clock == t + 1 && s2.clock == t + 2 && s3.clock == t + 3
            && s3.settings == Settings(All, None, None) && s3.rules == Some([])
  {
    var store := Allowing(key);
    var s0 := Initial(t, t, store);
    var s1 := Reconfigured(s0, [Shelving], [], t + 1);
    assert BeforeShelving([Shelving]) == [];
    assert s1.alarms == map[] && s1.settings == Settings(All, None, None) && s1.rules == Some([]);
    assert s1.inventory == s0.inventory;
    ParsedGivesVerdict(store, key, 2);
    ParsedGivesVerdict(store, key, 3);
    var r := Report(key, 2, "first");
    assert Records(s1, r);
    RecordedParts(s1, r, t + 2);
    var s2 := Submitted(s1, r, t + 2);
    var r' := Report(key, 3, "second");
    assert s2.alarms[key].statusChanges == [StatusChange(t + 2, 2, "first")];
    assert Records(s2, r');
    RecordedParts(s2, r', t + 3);
  }
}
