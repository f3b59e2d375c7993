/** The published history of an alarm against the reports that made it (src/alarms/Daemon.cpp:301-369). */
module History {
  import opened Wrappers
  import opened Key
  import opened ShelfMatch
  import opened Alarms
  import opened Filters
  import opened Inventories
  import opened Control
  import opened Machine
  import opened Mirror
  import opened Runs

  // ---------- Replaying the reports of one alarm ----------

  /** A report says something new to whoever saw the history so far. */
  predicate NewsTo(h: seq<StatusChange>, r: Report) {
    if r.severity == CLEARED then h != [] && h[|h| - 1].perceivedSeverity != CLEARED
    else h == [] || h[|h| - 1].perceivedSeverity != r.severity || h[|h| - 1].text != r.text
  }

  /** Where the rules of a run put a key. */
  predicate IsShelved(rules: Option<seq<Shelf>>, key: InstanceKey) {
    rules.Some? && FindMatchingShelf(key, rules.value).Some?
  }

  /** The parts of an entry that a purge looks at, read off the history. */
  function Told(h: seq<StatusChange>): Entry
    requires h != []
  {
    var last := h[|h| - 1];
    BLANK.(isCleared := last.perceivedSeverity == CLEARED, lastSeverity := LastActive(h), lastChanged := last.time)
  }

  /** A purge takes the alarm with this history. */
  predicate Takes(h: seq<StatusChange>, shelved: bool, ev: Event)
    requires ev.Purge?
  {
    PurgeProblem(ev.purge).None? && h != [] && shelved == ev.inShelf && PurgeSelects(ev.purge, ev.filterNow, Told(h))
  }

  /** The full history of one alarm since its creation, oldest first: the reports that passed the inventory and
      said something new, back to the latest purge that took it.  No cache entry is consulted. */
  function Replayed(s: State, es: seq<Event>, key: InstanceKey): seq<StatusChange>
    requires IsRun(s, es)
    decreases |es|
  {
    if es == [] then []
    else
      var h := Replayed(s, Front(es), key);
      match Last(es)
      case Submit(r, now) =>
        if r.key == key && SubmitOutcome(After(s, Front(es)), r).Ok? && NewsTo(h, r)
        then h + [StatusChange(now, r.severity, r.text)] else h
      case Purge(_, _, _, _) => if Takes(h, IsShelved(LatestRules(s.rules, Front(es)), key), Last(es)) then [] else h
      case _ => h
  }

  /** How much of that history is still kept. */
  function Kept(s: State, es: seq<Event>, key: InstanceKey): nat
    requires IsRun(s, es)
    decreases |es|
  {
    if es == [] then 0
    else
      var n, h := Kept(s, Front(es), key), Replayed(s, Front(es), key);
      var settings, shelved := After(s, Front(es)).settings, IsShelved(LatestRules(s.rules, Front(es)), key);
      match Last(es)
      case Submit(_, _) => if Replayed(s, es, key) != h then AtMost(n + 1, settings.limit) else n
      case Purge(_, _, _, _) => if Takes(h, shelved, Last(es)) then 0 else n
      case Compress(inShelf, input) =>
        if shelved == inShelf && CompressSelects(input, key) then AtMost(n, Some(1)) else n
      case Configure(batch, _, _) => AtMost(n, Folded(settings, batch).limit)
      case _ => n
  }

  /** A batch takes a key off its shelf. */
  predicate Unshelves(ev: Event, rules: Option<seq<Shelf>>, key: InstanceKey)
    requires ev.Configure?
  {
    Shelving in ev.batch && IsShelved(rules, key) && !IsShelved(Some(ev.rules), key)
  }

  /** The creation time that the alarm list shows for a key: that of the history, or the time of the latest unshelving
      since the last recorded report. */
  function CreationShown(s: State, es: seq<Event>, key: InstanceKey): Time
    requires IsRun(s, es)
    decreases |es|
  {
    if es == [] then 0
    else
      var was := CreationShown(s, Front(es), key);
      match Last(es)
      case Submit(_, _) =>
        if |Replayed(s, es, key)| > |Replayed(s, Front(es), key)| then Replayed(s, es, key)[0].time else was
      case Configure(_, _, now) => if Unshelves(Last(es), LatestRules(s.rules, Front(es)), key) then now else was
      case _ => was
  }

  function AtMost(n: nat, limit: Option<Uint16>): nat {
    if limit.Some? && n > limit.value then limit.value else n
  }

  /** The severity last reported with anything but a clear. */
  function LastActive(h: seq<StatusChange>): int
    decreases |h|
  {
    if h == [] then 0
    else if h[|h| - 1].perceivedSeverity != CLEARED then h[|h| - 1].perceivedSeverity
    else LastActive(h[..|h| - 1])
  }

  /** The time of the latest turn from cleared, or absent, to active. */
  function RaisedAt(h: seq<StatusChange>): Time
    decreases |h|
  {
    if h == [] then 0
    else
      var n := |h| - 1;
      if h[n].perceivedSeverity != CLEARED && (n == 0 || h[n - 1].perceivedSeverity == CLEARED) then h[n].time
      else RaisedAt(h[..n])
  }

  // ---------- The state agrees with the replay ----------

  /** A log that shows a history. */
  predicate Shows(log: seq<Logged>, h: seq<StatusChange>) {
    |log| == |h| && forall i :: 0 <= i < |log| ==> log[i].Published() == h[i] && log[i].severity != CLEARED
  }

  lemma {:induction false} SameRaise(log: seq<Logged>, h: seq<StatusChange>)
    requires Shows(log, h)
    ensures LastRaise(log) == RaisedAt(h)
    decreases |log|
  {
    if log != [] {
      var n := |log| - 1;
      assert log[n].Published() == h[n];
      if n > 0 { assert log[n - 1].Published() == h[n - 1]; }
      SameRaise(log[..n], h[..n]);
    }
  }

  /** The state of one alarm, as the replay has it. */
  ghost predicate Agrees(s: State, key: InstanceKey, h: seq<StatusChange>, kept: nat) {
    && (key in s.alarms <==> h != [])
    && (key in s.alarms ==>
          && key in s.traces && Shows(s.traces[key].log, h)
          && s.alarms[key].lastSeverity == LastActive(h) && |s.alarms[key].statusChanges| == kept)
    && (h == [] ==> kept == 0)
  }

  /** The same report is news to the replay and a change to the entry. */
  lemma {:induction false} NewsIsChange(s: State, r: Report, h: seq<StatusChange>, kept: nat)
    requires Inv(s) && Agrees(s, r.key, h, kept) && SubmitOutcome(s, r).Ok?
    ensures NewsTo(h, r) <==> Records(s, r)
  {
    if r.key in s.alarms {
      assert AlarmOk(s, r.key);
      var log := s.traces[r.key].log;
      assert log[|log| - 1].Published() == h[|h| - 1];
    }
  }

  lemma {:induction false} SubmitAgrees(s: State, r: Report, now: Time, key: InstanceKey, h: seq<StatusChange>,
                                        kept: nat)
    requires Inv(s) && Enabled(s, Submit(r, now)) && Agrees(s, key, h, kept)
    ensures var news := r.key == key && SubmitOutcome(s, r).Ok? && NewsTo(h, r);
            var h' := if news then h + [StatusChange(now, r.severity, r.text)] else h;
            var kept' := if h' != h then AtMost(kept + 1, s.settings.limit) else kept;
            Agrees(Submitted(s, r, now), key, h', kept')
  {
    if r.key == key && SubmitOutcome(s, r).Ok? {
      NewsIsChange(s, r, h, kept);
      if Records(s, r) {
        assert r.key in s.alarms ==> AlarmOk(s, r.key);
        RecordAgrees(s, r, now, h, kept);
      }
    }
  }

  lemma {:induction false} RecordAgrees(s: State, r: Report, now: Time, h: seq<StatusChange>, kept: nat)
    requires Inv(s) && Enabled(s, Submit(r, now)) && Agrees(s, r.key, h, kept) && Records(s, r)
    ensures var h' := h + [StatusChange(now, r.severity, r.text)];
            Agrees(Submitted(s, r, now), r.key, h', AtMost(kept + 1, s.settings.limit))
  {
    var s' := Submitted(s, r, now);
    var was, log := Cached(s.alarms, r.key), TraceAt(s.traces, r.key).log;
    InvAt(s, r.key);
    RecordedParts(s, r, now);
    EntryGrows(was, log, r, now, FindMatchingShelf(r.key, s.rules.value), s.settings.limit, h, kept);
  }

  lemma {:induction false} EntryGrows(was: Option<Entry>, log: seq<Logged>, r: Report, now: Time,
                                      shelf: Option<string>, limit: Option<Uint16>, h: seq<StatusChange>, kept: nat)
    requires r.severity == CLEARED ==> was.Some?
    requires Changes(was, r.severity, r.text) && Shows(log, h)
    requires was.None? ==> h == [] && kept == 0
    requires was.Some? ==> was.value.lastSeverity == LastActive(h) && was.value.lastSeverity != CLEARED
    requires was.Some? ==> |was.value.statusChanges| == kept
    ensures var e := Updated(was, now, r.severity, r.text, shelf, limit);
            var h' := h + [StatusChange(now, r.severity, r.text)];
            && Shows(log + [Logged(now, e.lastSeverity, r.text, e.isCleared)], h')
            && e.lastSeverity == LastActive(h') && |e.statusChanges| == AtMost(kept + 1, limit)
  {
    var h' := h + [StatusChange(now, r.severity, r.text)];
    assert h'[..|h|] == h;
  }

  /** An alarm is on a shelf exactly when the rules put its key there. */
  lemma {:induction false} ShelfAgrees(s: State, key: InstanceKey)
    requires Inv(s) && key in s.alarms
    ensures s.alarms[key].shelf.Some? == IsShelved(s.rules, key)
  {
    hide FindMatchingShelf, EntryOk;
    InvAt(s, key);
  }

  lemma {:induction false} ConfigureAgrees(s: State, batch: seq<Change>, rules: seq<Shelf>, now: Time,
                                           key: InstanceKey, h: seq<StatusChange>, kept: nat)
    requires Inv(s) && Agrees(s, key, h, kept)
    ensures Agrees(Reconfigured(s, batch, rules, now), key, h, AtMost(kept, Folded(s.settings, batch).limit))
  {
    hide Inv, FindMatchingShelf, Folded, ApplyAll, LastActive, Shows;
  }

  lemma {:induction false} CompressAgrees(s: State, inShelf: bool, input: CompressInput, key: InstanceKey,
                                          h: seq<StatusChange>, kept: nat)
    requires Inv(s) && Agrees(s, key, h, kept)
    ensures var chosen := IsShelved(s.rules, key) == inShelf && CompressSelects(input, key);
            Agrees(Compressed(s, inShelf, input), key, h, if chosen then AtMost(kept, Some(1)) else kept)
  {
    hide Inv, IsShelved, CompressSelects, LastActive, Shows;
    if key in s.alarms { ShelfAgrees(s, key); }
  }

  /** What a purge looks at is told by the history. */
  lemma {:induction false} ToldIs(s: State, key: InstanceKey, h: seq<StatusChange>, kept: nat)
    requires Inv(s) && Agrees(s, key, h, kept) && key in s.alarms
    ensures h != [] && var e := s.alarms[key];
            && Told(h).isCleared == e.isCleared && Told(h).lastSeverity == e.lastSeverity
            && Told(h).lastChanged == e.lastChanged
  {
    hide FindMatchingShelf;
    InvAt(s, key);
    var log := s.traces[key].log;
    assert log[|log| - 1].Published() == h[|h| - 1];
  }

  lemma {:induction false} PurgeAgrees(s: State, ev: Event, key: InstanceKey, h: seq<StatusChange>, kept: nat)
    requires Inv(s) && ev.Purge? && Enabled(s, ev) && Agrees(s, key, h, kept)
    ensures var gone := Takes(h, IsShelved(s.rules, key), ev);
            Agrees(Step(s, ev), key, if gone then [] else h, if gone then 0 else kept)
  {
    hide Inv, IsShelved, LastActive, Shows, Told, Purged, Purgeable, PurgeProblem;
    PurgeShape(s, ev.inShelf, ev.purge, ev.now, ev.filterNow);
    if key in s.alarms {
      ShelfAgrees(s, key);
      ToldIs(s, key, h, kept);
    }
  }

  /** Over every run, an alarm exists exactly when its replayed history is not empty, and agrees with it. */
  lemma {:induction false} ReplayAgrees(s: State, es: seq<Event>, key: InstanceKey)
    requires IsRun(s, es) && Inv(s) && s.alarms == map[]
    ensures Agrees(After(s, es), key, Replayed(s, es, key), Kept(s, es, key))
    decreases |es|
  {
    hide Inv, Agrees, Enabled, Purged, Submitted, Compressed, Reconfigured, SubmitOutcome, NewsTo, Takes, IsShelved,
         CompressSelects, Folded, AtMost, LatestRules;
    if es == [] {
      EmptyAgrees(s, key);
    } else {
      var t := After(s, Front(es));
      var h, kept := Replayed(s, Front(es), key), Kept(s, Front(es), key);
      ReplayAgrees(s, Front(es), key);
      RunKeepsInv(s, Front(es));
      RulesAreLatest(s, Front(es));
      match Last(es)
      case Submit(r, now) => SubmitAgrees(t, r, now, key, h, kept);
      case Purge(_, _, _, _) => PurgeAgrees(t, Last(es), key, h, kept);
      case Compress(inShelf, input) => CompressAgrees(t, inShelf, input, key, h, kept);
      case Configure(batch, rules, now) => ConfigureAgrees(t, batch, rules, now, key, h, kept);
      case InventoryWrite(_) => InventoryAgrees(t, Last(es), key, h, kept);
      case InventoryCallback => InventoryAgrees(t, Last(es), key, h, kept);
    }
  }

  /** How one event changes the published creation time of an alarm. */
  lemma {:induction false} ShownStep(s: State, ev: Event, key: InstanceKey, h: seq<StatusChange>, kept: nat)
    requires Inv(s) && Enabled(s, ev) && Agrees(s, key, h, kept) && key in Step(s, ev).alarms
    ensures key in Step(s, ev).traces
    ensures Step(s, ev).traces[key].shown ==
            if ev.Submit? && ev.r.key == key && SubmitOutcome(s, ev.r).Ok? && NewsTo(h, ev.r)
            then Step(s, ev).alarms[key].created
            else if ev.Configure? && Unshelves(ev, s.rules, key) then ev.now
            else TraceAt(s.traces, key).shown
    ensures key in s.alarms || (ev.Submit? && ev.r.key == key && SubmitOutcome(s, ev.r).Ok? && NewsTo(h, ev.r))
  {
    hide Inv, Agrees, EntryOk, CanSubmit, Records, Submitted, Updated, FindMatchingShelf, Reconfigured, Purged,
         Purgeable, PurgeProblem,
         CompressSelects, Changes, NewsTo, SubmitOutcome;
    StepKeepsInv(s, ev);
    StateBounds(Step(s, ev));
    KeyWasThere(s, ev, key);
    match ev
    case Submit(r, now) =>
      if r.key == key && SubmitOutcome(s, r).Ok? { NewsIsChange(s, r, h, kept); }
      RecordsOutcome(s, r);
      if Records(s, r) { RecordedParts(s, r, now); } else { UnrecordedState(s, r, now); }
    case Purge(inShelf, input, now, filterNow) => PurgeShape(s, inShelf, input, now, filterNow);
    case Configure(batch, rules, now) => ReconfiguredAt(s, batch, rules, now, key); ShelfAgrees(s, key);
    case Compress(_, _) =>
    case InventoryWrite(_) =>
    case InventoryCallback =>
  }

  lemma {:induction false} RecordsOutcome(s: State, r: Report)
    ensures Records(s, r) ==> SubmitOutcome(s, r).Ok?
  {
  }

  /** Over every run, the history variable behind the published creation time is that of the replay. */
  lemma {:induction false} ShownAgrees(s: State, es: seq<Event>, key: InstanceKey)
    requires IsRun(s, es) && Inv(s) && s.alarms == map[] && key in After(s, es).alarms
    ensures key in After(s, es).traces && After(s, es).traces[key].shown == CreationShown(s, es, key)
    decreases |es|
  {
    hide Inv, Agrees, Enabled, Step, SubmitOutcome, NewsTo, Takes, IsShelved, Unshelves, LatestRules;
    if es != [] {
      var t := After(s, Front(es));
      var h, kept := Replayed(s, Front(es), key), Kept(s, Front(es), key);
      ReplayAgrees(s, Front(es), key);
      ReplayAgrees(s, es, key);
      RunKeepsInv(s, Front(es));
      RunKeepsInv(s, es);
      RulesAreLatest(s, Front(es));
      ShownStep(t, Last(es), key, h, kept);
      CreatedIsFirst(After(s, es), key, Replayed(s, es, key), Kept(s, es, key));
      StateBounds(t);
      if key in t.alarms { ShownAgrees(s, Front(es), key); }
    }
  }

  lemma {:induction false} CreatedIsFirst(s: State, key: InstanceKey, h: seq<StatusChange>, kept: nat)
    requires Inv(s) && Agrees(s, key, h, kept) && key in s.alarms
    ensures h != [] && s.alarms[key].created == h[0].time
  {
    hide FindMatchingShelf;
    InvAt(s, key);
    assert s.traces[key].log[0].Published() == h[0];
  }

  lemma {:induction false} EmptyAgrees(s: State, key: InstanceKey)
    requires s.alarms == map[]
    ensures Agrees(s, key, [], 0)
  {
  }

  lemma {:induction false} InventoryAgrees(s: State, ev: Event, key: InstanceKey, h: seq<StatusChange>, kept: nat)
    requires Enabled(s, ev) && (ev.InventoryWrite? || ev.InventoryCallback?) && Agrees(s, key, h, kept)
    ensures Agrees(Step(s, ev), key, h, kept)
  {
  }

  /** The history refinement.  Over every run, what clients read about an alarm follows from the events alone: it is
      published exactly if its replayed history is not empty, in the list the latest rules name and in no other; the
      published changes are the newest end of that history in reverse, as many as are kept; their order is strict, their
      number within the limit; and the other leaves of the node are determined by the same history. */
  lemma {:induction false} PublishedHistory(now: Time, shelfNow: Time, store: seq<InventoryEntry>, es: seq<Event>,
                                            key: InstanceKey)
    requires now <= shelfNow && IsRun(Initial(now, shelfNow, store), es)
    ensures var s0 := Initial(now, shelfNow, store);
            var s := After(s0, es);
            var h := Replayed(s0, es, key);
            var inShelf := IsShelved(LatestRules(None, es), key);
            && (Render(s).Has(inShelf, key) <==> h != []) && !Render(s).Has(!inShelf, key)
            && (h != [] ==>
                  var node := Render(s).At(inShelf, key);
                  var changes := node.statusChanges;
                  && |changes| == Kept(s0, es, key) <= |h| && Fits(|changes|, s.settings.limit)
                  && (forall i :: 0 <= i < |changes| ==> changes[i] == h[|h| - 1 - i])
                  && (forall i, j :: 0 <= i < j < |h| ==> h[i].time < h[j].time)
                  && node.lastChanged == h[|h| - 1].time && node.text == h[|h| - 1].text
                  && node.isCleared == (h[|h| - 1].perceivedSeverity == CLEARED)
                  && node.perceivedSeverity == LastActive(h) && node.lastRaised == RaisedAt(h)
                  && key in s.alarms && s.alarms[key].created == h[0].time
                  && node.timeCreated == (if inShelf then None else Some(CreationShown(s0, es, key)))
                  && LatestRules(None, es).Some?
                  && node.shelfName == FindMatchingShelf(key, LatestRules(None, es).value))
  {
    hide Inv, Initial, Kept, Replayed, After, IsRun, Render, RenderList, NodeOf, LastActive, RaisedAt,
         FindMatchingShelf,
         IsShelved, LatestRules, CreationShown;
    var s0 := Initial(now, shelfNow, store);
    InitialInv(now, shelfNow, store);
    RunKeepsInv(s0, es);
    InitialEmpty(now, shelfNow, store);
    ReplayAgrees(s0, es, key);
    RulesAreLatest(s0, es);
    var s, h := After(s0, es), Replayed(s0, es, key);
    ListsOfState(s);
    if h != [] {
      StateFacts(s);
      ShelfAgrees(s, key);
      NodeAt(s.alarms, s.traces, key);
      InvAt(s, key);
      NodeShowsHistory(s.alarms[key], s.traces[key], s.settings.limit, h);
      ShownAgrees(s0, es, key);
    } else {
      NotListed(s, key);
    }
  }

  lemma {:induction false} InitialEmpty(now: Time, shelfNow: Time, store: seq<InventoryEntry>)
    ensures Initial(now, shelfNow, store).alarms == map[] && Initial(now, shelfNow, store).rules == None
  {
  }

  /** The node of one alarm, read against a history that its log shows. */
  lemma {:induction false} NodeShowsHistory(e: Entry, t: Trace, limit: Option<Uint16>, h: seq<StatusChange>)
    requires EntryOk(e, t, limit) && Shows(t.log, h)
    ensures var node := NodeOf(e, t);
            var changes := node.statusChanges;
            && h != [] && |changes| == |e.statusChanges| <= |h| && Fits(|changes|, limit)
            && (forall i :: 0 <= i < |changes| ==> changes[i] == h[|h| - 1 - i])
            && (forall i, j :: 0 <= i < j < |h| ==> h[i].time < h[j].time)
            && node.lastChanged == h[|h| - 1].time && node.text == h[|h| - 1].text
            && node.isCleared == (h[|h| - 1].perceivedSeverity == CLEARED)
            && node.perceivedSeverity == e.lastSeverity && node.lastRaised == RaisedAt(h) && e.created == h[0].time
            && node.timeCreated == (if e.shelf.None? then Some(t.shown) else None) && node.shelfName == e.shelf
  {
    SameRaise(t.log, h);
    var log := t.log;
    assert forall i :: 0 <= i < |h| ==> log[i].Published() == h[i] && log[i].time == h[i].time;
    var changes := NodeOf(e, t).statusChanges;
    forall i | 0 <= i < |changes| ensures changes[i] == h[|h| - 1 - i] {
      assert changes[i] == log[|log| - 1 - i].Published();
    }
  }

  // ---------- When the published history is empty ----------

  /** The YANG list asks for at least one status change.  A step empties the history of an alarm exactly when the
      limit is 0 where the step applies it. */
  lemma {:induction false} HistoryEmptyExactly(s: State, ev: Event, key: InstanceKey)
    requires Inv(s) && Enabled(s, ev) && key in Step(s, ev).alarms
    ensures Step(s, ev).alarms[key].statusChanges == [] <==>
            if ev.Configure? then Folded(s.settings, ev.batch).limit == Some(0) || s.alarms[key].statusChanges == []
            else if ev.Submit? && ev.r.key == key && Records(s, ev.r) then s.settings.limit == Some(0)
            else s.alarms[key].statusChanges == []
  {
    hide Inv, Submitted, Records, CanSubmit, Reconfigured, Updated, Folded, FindMatchingShelf, CompressSelects,
         PurgeSelects;
    KeyWasThere(s, ev, key);
    match ev
    case Submit(r, now) =>
      if Records(s, r) {
        RecordedParts(s, r, now);
        UpdatedEmpty(Cached(s.alarms, r.key), now, r, FindMatchingShelf(r.key, s.rules.value), s.settings.limit);
      } else {
        UnrecordedState(s, r, now);
      }
    case Configure(batch, rules, now) => ReconfiguredEmpty(s, batch, rules, now, key);
    case Purge(_, _, _, _) =>
    case Compress(_, _) =>
    case InventoryWrite(_) =>
    case InventoryCallback =>
  }

  /** So lowering the limit to 0 leaves any alarm without a published change, whatever its history. */
  lemma {:induction false} LimitZeroEmpties(s: State, rules: seq<Shelf>, now: Time, key: InstanceKey)
    requires Inv(s) && s.clock < now && key in s.alarms
    ensures var s' := Step(s, Configure([LimitIs(Some(0))], rules, now));
            var inShelf := s.alarms[key].shelf.Some?;
            Render(s').Has(inShelf, key) && Render(s').At(inShelf, key).statusChanges == []
  {
    hide Inv, AlarmOk, EntryOk, FindMatchingShelf, Folded, Reconfigured, Render, RenderList, NewestFirst;
    var batch: seq<Change> := [LimitIs(Some(0))];
    var s' := Reconfigured(s, batch, rules, now);
    ReconfiguredAt(s, batch, rules, now, key);
    ReconfigureKeepsInv(s, batch, rules, now);
    ZeroIsFolded(s.settings);
    ReconfiguredEmpty(s, batch, rules, now, key);
    InvAt(s', key);
    ListsOfState(s');
    NodeAt(s'.alarms, s'.traces, key);
  }

  lemma {:induction false} ZeroIsFolded(s: Settings)
    ensures Folded(s, [LimitIs(Some(0))]).limit == Some(0)
  {
    var batch: seq<Change> := [LimitIs(Some(0))];
    assert BeforeShelving(batch) == batch;
    assert ApplyAll(s, batch) == ApplyAll(Apply(s, batch[0]), []);
  }

  lemma {:induction false} UpdatedEmpty(was: Option<Entry>, now: Time, r: Report, shelf: Option<string>,
                                        limit: Option<Uint16>)
    requires (r.severity == CLEARED ==> was.Some?) && Changes(was, r.severity, r.text)
    ensures Updated(was, now, r.severity, r.text, shelf, limit).statusChanges == [] <==> limit == Some(0)
  {
  }

  lemma {:induction false} ReconfiguredEmpty(s: State, batch: seq<Change>, rules: seq<Shelf>, now: Time,
                                             key: InstanceKey)
    requires key in s.alarms
    ensures var s' := Reconfigured(s, batch, rules, now);
            key in s'.alarms &&
            (s'.alarms[key].statusChanges == [] <==>
               Folded(s.settings, batch).limit == Some(0) || s.alarms[key].statusChanges == [])
  {
    hide Folded, ApplyAll, FindMatchingShelf, ReshelvedTraces, Moved, Crossing;
  }

  /** No limit of 0 at any point of a run. */
  ghost predicate NeverZero(s: State, es: seq<Event>)
    requires IsRun(s, es)
    decreases |es|
  {
    After(s, es).settings.limit != Some(0) && (es != [] ==> NeverZero(s, Front(es)))
  }

  /** Runs that never set the limit to 0 keep a status change for every alarm, so the newest published change
      always is there and shows the current state. */
  lemma {:induction false} HistoryNeverEmpty(s: State, es: seq<Event>, key: InstanceKey)
    requires Inv(s) && IsRun(s, es) && NeverZero(s, es) && s.alarms == map[] && key in After(s, es).alarms
    ensures After(s, es).alarms[key].statusChanges != []
    decreases |es|
  {
    hide Inv, Step, Enabled, Folded, Records;
    if es != [] {
      var t := After(s, Front(es));
      RunKeepsInv(s, Front(es));
      HistoryEmptyExactly(t, Last(es), key);
      KeyWasThere(t, Last(es), key);
      StepRules(t, Last(es));
      if key in t.alarms { HistoryNeverEmpty(s, Front(es), key); }
    }
  }

  /** Alarms come into being by reports only. */
  lemma {:induction false} KeyWasThere(s: State, ev: Event, key: InstanceKey)
    requires Enabled(s, ev) && key in Step(s, ev).alarms
    ensures key in s.alarms || (ev.Submit? && ev.r.key == key && Records(s, ev.r))
  {
    hide FindMatchingShelf, Updated, Folded, ApplyAll, PurgeSelects, SubmitOutcome;
  }

  /** While an alarm has any published change, the newest one corresponds to its leaves. */
  lemma {:induction false} NewestCorresponds(s: State, key: InstanceKey)
    requires Inv(s) && key in s.alarms && s.alarms[key].statusChanges != []
    ensures var node := NodeOf(s.alarms[key], s.traces[key]);
            && node.statusChanges != []
            && node.statusChanges[0] ==
               StatusChange(node.lastChanged, if node.isCleared then CLEARED else node.perceivedSeverity, node.text)
  {
    assert AlarmOk(s, key);
    var log := s.traces[key].log;
    assert NewestFirst(log, |s.alarms[key].statusChanges|)[0] == log[|log| - 1].Published();
  }
}
