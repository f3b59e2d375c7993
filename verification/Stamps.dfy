/** The time leaves of the published lists (src/alarms/Daemon.cpp:255-305, 514-520, 613-634, 694-724). */
module Stamps {
  import opened Wrappers
  import opened Key
  import opened ShelfMatch
  import opened Alarms
  import opened Filters
  import opened Inventories
  import opened Control
  import opened Trees
  import opened Machine
  import opened Mirror
  import opened Runs

  /** No list stamp ever goes back. */
  lemma {:induction false} StampsNeverDecrease(s: State, ev: Event, inShelf: bool)
    requires Inv(s) && Enabled(s, ev)
    ensures ListStamp(s, inShelf) <= ListStamp(Step(s, ev), inShelf)
  {
    hide Updated, FindMatchingShelf, PurgeSelects, AllTrimmed, ReshelvedAlarms, ReshelvedTraces, Parsed, AlarmOk;
  }

  lemma {:induction false} RunStampsNeverDecrease(s: State, es: seq<Event>, inShelf: bool)
    requires Inv(s) && IsRun(s, es)
    ensures ListStamp(s, inShelf) <= ListStamp(After(s, es), inShelf)
    decreases |es|
  {
    hide Inv, Enabled, Step;
    if es != [] {
      RunStampsNeverDecrease(s, Front(es), inShelf);
      RunKeepsInv(s, Front(es));
      StampsNeverDecrease(After(s, Front(es)), Last(es), inShelf);
    }
  }

  /** The published time leaves of every alarm are in order, in every reachable state; a creation time later than
      the last change marks an alarm that was unshelved after its last change, and no other. */
  lemma {:induction false} TimestampOrder(s: State, key: InstanceKey)
    requires Inv(s) && key in s.alarms
    ensures var e := s.alarms[key];
            var inShelf := e.shelf.Some?;
            && Render(s).Has(inShelf, key)
            && var node := Render(s).At(inShelf, key);
               var stamp := if inShelf then Render(s).shelvedAlarmsLastChanged else Render(s).lastChanged;
               && e.created <= node.lastRaised <= node.lastChanged <= stamp <= s.clock
               && (node.timeCreated.Some? <==> !inShelf)
               && (!inShelf ==> (node.timeCreated == Some(e.created) <==> node.timeCreated.value <= node.lastChanged))
  {
    assert AlarmOk(s, key);
    NodeAt(s.alarms, s.traces, key);
  }

  // ---------- What moves a list stamp ----------

  /** A published list with its histories left out. */
  function WithoutHistories(list: map<InstanceKey, Node>): map<InstanceKey, Node> {
    map k | k in list :: list[k].(statusChanges := [])
  }

  /** The same, from the cache. */
  function Leaves(s: State, inShelf: bool): map<InstanceKey, Node> {
    map k | k in s.alarms && s.alarms[k].shelf.Some? == inShelf ::
      NodeOf(s.alarms[k], TraceAt(s.traces, k)).(statusChanges := [])
  }

  lemma {:induction false} LeavesAre(s: State, inShelf: bool)
    ensures WithoutHistories(Render(s).List(inShelf)) == Leaves(s, inShelf)
  {
    hide NodeOf;
  }

  /** How an alarm shows in a list, apart from its history. */
  function LeavesAt(s: State, inShelf: bool, key: InstanceKey): Option<Node> {
    if key in s.alarms && s.alarms[key].shelf.Some? == inShelf
    then Some(NodeOf(s.alarms[key], TraceAt(s.traces, key)).(statusChanges := [])) else None
  }

  lemma {:induction false} SameLeaves(s: State, s': State, inShelf: bool)
    ensures Leaves(s', inShelf) == Leaves(s, inShelf)
            <==> forall k :: LeavesAt(s', inShelf, k) == LeavesAt(s, inShelf, k)
  {
    hide NodeOf;
    if Leaves(s', inShelf) == Leaves(s, inShelf) {
      forall k ensures LeavesAt(s', inShelf, k) == LeavesAt(s, inShelf, k) {
        assert k in Leaves(s', inShelf) <==> k in Leaves(s, inShelf);
        if k in Leaves(s, inShelf) { assert Leaves(s', inShelf)[k] == Leaves(s, inShelf)[k]; }
      }
    }
    if forall k :: LeavesAt(s', inShelf, k) == LeavesAt(s, inShelf, k) {
      forall k ensures k in Leaves(s', inShelf) <==> k in Leaves(s, inShelf)
               ensures k in Leaves(s, inShelf) ==>
                       k in Leaves(s', inShelf) && Leaves(s', inShelf)[k] == Leaves(s, inShelf)[k] {
        assert LeavesAt(s', inShelf, k) == LeavesAt(s, inShelf, k);
      }
    }
  }

  /** A list's last-changed stamp moves exactly when something other than a history changes in that list: compressing
      and cutting histories are the changes of a list that its stamp does not tell. */
  lemma {:induction false} StampMovesExactly(s: State, ev: Event, inShelf: bool)
    requires Inv(s) && Enabled(s, ev)
    ensures var s' := Step(s, ev);
            ListStamp(s', inShelf) != ListStamp(s, inShelf)
            <==> WithoutHistories(Render(s').List(inShelf)) != WithoutHistories(Render(s).List(inShelf))
  {
    hide Inv, Enabled, Step, Render, WithoutHistories, Leaves, LeavesAt, ListStamp;
    var s' := Step(s, ev);
    LeavesAre(s, inShelf);
    LeavesAre(s', inShelf);
    SameLeaves(s, s', inShelf);
    match ev
    case Submit(r, now) => SubmitMoves(s, r, now, inShelf);
    case Purge(b, input, now, filterNow) => PurgeMoves(s, b, input, now, filterNow, inShelf);
    case Compress(_, _) => QuietMoves(s, ev, inShelf);
    case Configure(batch, rules, now) => ConfigureMoves(s, batch, rules, now, inShelf);
    case InventoryWrite(_) => QuietMoves(s, ev, inShelf);
    case InventoryCallback => QuietMoves(s, ev, inShelf);
  }

  /** When the published stamp of a list moves, it moves to the time of the event. */
  lemma {:induction false} MovedStampIsNow(s: State, ev: Event)
    requires Inv(s) && Enabled(s, ev)
    ensures var s' := Step(s, ev);
            && Render(s').lastChanged in {Render(s).lastChanged, s'.clock}
            && Render(s').shelvedAlarmsLastChanged in {Render(s).shelvedAlarmsLastChanged, s'.clock}
    ensures var s' := Step(s, ev);
            && ListStamp(s', false) == Render(s').lastChanged
            && ListStamp(s', true) == Render(s').shelvedAlarmsLastChanged
            && s'.clock == match ev
                           case Submit(_, now) => now
                           case Purge(_, _, now, _) => now
                           case Configure(_, _, now) => now
                           case _ => s.clock
  {
    hide Updated, FindMatchingShelf, PurgeSelects, AllTrimmed, ReshelvedAlarms, ReshelvedTraces, Parsed, AlarmOk,
         RenderList, CountersOf, SubmitOutcome, Announces;
  }

  /** Nothing but histories changes in a list, at any step of a run. */
  ghost predicate OnlyHistoriesChange(s: State, es: seq<Event>, inShelf: bool)
    requires IsRun(s, es)
    decreases |es|
  {
    es != [] ==>
      && OnlyHistoriesChange(s, Front(es), inShelf)
      && WithoutHistories(Render(After(s, es)).List(inShelf)) ==
         WithoutHistories(Render(After(s, Front(es))).List(inShelf))
  }

  /** What a client may conclude from a list stamp over a run: the stamp is the same at both ends if and only if nothing
      but histories changed in the list in between, and then the list shows the same at both ends but for histories. */
  lemma {:induction false} RunStampTells(s: State, es: seq<Event>, inShelf: bool)
    requires Inv(s) && IsRun(s, es)
    ensures ListStamp(After(s, es), inShelf) == ListStamp(s, inShelf) <==> OnlyHistoriesChange(s, es, inShelf)
    ensures OnlyHistoriesChange(s, es, inShelf) ==>
              WithoutHistories(Render(After(s, es)).List(inShelf)) == WithoutHistories(Render(s).List(inShelf))
    decreases |es|
  {
    hide Inv, Enabled, Step, Render, WithoutHistories, ListStamp;
    if es != [] {
      var t := After(s, Front(es));
      RunStampTells(s, Front(es), inShelf);
      RunKeepsInv(s, Front(es));
      RunStampsNeverDecrease(s, Front(es), inShelf);
      StampsNeverDecrease(t, Last(es), inShelf);
      StampMovesExactly(t, Last(es), inShelf);
    }
  }

  ghost predicate Moves(s: State, s': State, inShelf: bool) {
    ListStamp(s', inShelf) == ListStamp(s, inShelf) <==> forall k :: LeavesAt(s', inShelf, k) == LeavesAt(s, inShelf, k)
  }

  lemma {:induction false} SubmitMoves(s: State, r: Report, now: Time, inShelf: bool)
    requires Inv(s) && Enabled(s, Submit(r, now))
    ensures Moves(s, Step(s, Submit(r, now)), inShelf)
  {
    hide Inv, CanSubmit, Records, Submitted, Updated, FindMatchingShelf, Changes, EntryOk;
    var s' := Submitted(s, r, now);
    StateBounds(s);
    InvAt(s, r.key);
    if Records(s, r) {
      RecordedParts(s, r, now);
      UpdatedStamps(Cached(s.alarms, r.key), now, r, FindMatchingShelf(r.key, s.rules.value), s.settings.limit);
      if s'.alarms[r.key].shelf.Some? == inShelf {
        assert LeavesAt(s', inShelf, r.key) != LeavesAt(s, inShelf, r.key);
      }
    } else {
      UnrecordedState(s, r, now);
    }
  }

  lemma {:induction false} PurgeMoves(s: State, b: bool, input: PurgeInput, now: Time, filterNow: Time, inShelf: bool)
    requires Inv(s) && Enabled(s, Purge(b, input, now, filterNow))
    ensures Moves(s, Step(s, Purge(b, input, now, filterNow)), inShelf)
  {
    hide Inv, Purged, Purgeable, PurgeProblem, NodeOf;
    var gone, s' := Purgeable(s, b, input, filterNow), Purged(s, b, input, now, filterNow);
    PurgeShape(s, b, input, now, filterNow);
    StateBounds(s);
    if PurgeProblem(input).None? && b == inShelf {
      if k :| k in gone { assert LeavesAt(s', inShelf, k) != LeavesAt(s, inShelf, k); }
    }
  }

  lemma {:induction false} QuietMoves(s: State, ev: Event, inShelf: bool)
    requires Inv(s) && Enabled(s, ev) && (ev.Compress? || ev.InventoryWrite? || ev.InventoryCallback?)
    ensures Moves(s, Step(s, ev), inShelf)
  {
    hide Inv, CompressSelects;
  }

  lemma {:induction false} ReconfiguredStamp(s: State, batch: seq<Change>, rules: seq<Shelf>, now: Time, inShelf: bool)
    ensures var moving := if inShelf then Moved(s.alarms, rules) else Crossing(s.alarms, rules);
            ListStamp(Reconfigured(s, batch, rules, now), inShelf) ==
            if Shelving in batch && moving != {} then now else ListStamp(s, inShelf)
  {
    hide AllTrimmed, ReshelvedAlarms, ReshelvedTraces, FindMatchingShelf, Folded, ApplyAll, Moved, Crossing;
  }

  lemma {:induction false} ConfigureMoves(s: State, batch: seq<Change>, rules: seq<Shelf>, now: Time, inShelf: bool)
    requires Inv(s) && Enabled(s, Configure(batch, rules, now))
    ensures Moves(s, Step(s, Configure(batch, rules, now)), inShelf)
  {
    hide Inv, FindMatchingShelf, Reconfigured;
    var s' := Reconfigured(s, batch, rules, now);
    StateBounds(s);
    ReconfiguredStamp(s, batch, rules, now, inShelf);
    var moving := if inShelf then Moved(s.alarms, rules) else Crossing(s.alarms, rules);
    if Shelving in batch && moving != {} {
      var k :| k in moving;
      ReconfiguredAt(s, batch, rules, now, k);
      assert LeavesAt(s', inShelf, k) != LeavesAt(s, inShelf, k);
    } else {
      forall k ensures LeavesAt(s', inShelf, k) == LeavesAt(s, inShelf, k) {
        ReconfiguredAt(s, batch, rules, now, k);
        assert Shelving in batch ==> k !in moving;
      }
    }
  }

  // ---------- Changes that no stamp tells ----------

  /** How an alarm shows in a list. */
  function NodeIn(s: State, inShelf: bool, key: InstanceKey): Option<Node> {
    if key in s.alarms && s.alarms[key].shelf.Some? == inShelf
    then Some(NodeOf(s.alarms[key], TraceAt(s.traces, key))) else None
  }

  lemma {:induction false} NodeInList(s: State, inShelf: bool, key: InstanceKey)
    ensures var list := Render(s).List(inShelf);
            if key in list then NodeIn(s, inShelf, key) == Some(list[key]) else NodeIn(s, inShelf, key) == None
  {
    hide NodeOf, CountersOf, Listed;
  }

  lemma {:induction false} SameLists(s: State, s': State, inShelf: bool)
    ensures Render(s').List(inShelf) == Render(s).List(inShelf)
            <==> forall k :: NodeIn(s', inShelf, k) == NodeIn(s, inShelf, k)
  {
    hide NodeIn, Render;
    var list, list' := Render(s).List(inShelf), Render(s').List(inShelf);
    if list' == list {
      forall k ensures NodeIn(s', inShelf, k) == NodeIn(s, inShelf, k) {
        NodeInList(s, inShelf, k);
        NodeInList(s', inShelf, k);
      }
    }
    if forall k :: NodeIn(s', inShelf, k) == NodeIn(s, inShelf, k) {
      forall k ensures k in list' <==> k in list
               ensures k in list ==> k in list' && list'[k] == list[k] {
        assert NodeIn(s', inShelf, k) == NodeIn(s, inShelf, k);
        NodeInList(s, inShelf, k);
        NodeInList(s', inShelf, k);
      }
    }
  }

  /** A list changes while its stamp stays. */
  predicate Untold(s: State, s': State, inShelf: bool) {
    Render(s').List(inShelf) != Render(s).List(inShelf) && ListStamp(s', inShelf) == ListStamp(s, inShelf)
  }

  /** The alarms that a configuration batch moves in or out of a list, or within the shelves. */
  function Moving(s: State, batch: seq<Change>, rules: seq<Shelf>, inShelf: bool): set<InstanceKey> {
    if Shelving !in batch then {} else if inShelf then Moved(s.alarms, rules) else Crossing(s.alarms, rules)
  }

  /** The alarms of a list that a limit shortens. */
  function Shortened(s: State, inShelf: bool, limit: Option<Uint16>): set<InstanceKey> {
    Shrinkable(s.alarms, limit) * Listed(s.alarms, inShelf)
  }

  /** Exactly which steps change a list without moving its stamp, so that a client that watches the stamp misses them:
      a compression of the list that has something to discard, and a configuration batch that cuts a history in the
      list while it moves no alarm there. */
  lemma {:induction false} UntoldExactly(s: State, ev: Event, inShelf: bool)
    requires Inv(s) && Enabled(s, ev)
    ensures Untold(s, Step(s, ev), inShelf) <==>
            match ev
            case Compress(b, input) => b == inShelf && Compressible(s, b, input) != {}
            case Configure(batch, rules, _) =>
              Moving(s, batch, rules, inShelf) == {} && Shortened(s, inShelf, Folded(s.settings, batch).limit) != {}
            case _ => false
  {
    hide Inv, Enabled, Render, ListStamp, NodeIn, Step;
    SameLists(s, Step(s, ev), inShelf);
    match ev
    case Submit(r, now) => SubmitTold(s, r, now, inShelf);
    case Purge(b, input, now, filterNow) => PurgeTold(s, b, input, now, filterNow, inShelf);
    case Compress(b, input) => CompressUntold(s, b, input, inShelf);
    case Configure(batch, rules, now) => ConfigureUntold(s, batch, rules, now, inShelf);
    case InventoryWrite(_) => InventoryTold(s, ev, inShelf);
    case InventoryCallback => InventoryTold(s, ev, inShelf);
  }

  lemma {:induction false} InventoryTold(s: State, ev: Event, inShelf: bool)
    requires Enabled(s, ev) && (ev.InventoryWrite? || ev.InventoryCallback?)
    ensures forall k :: NodeIn(Step(s, ev), inShelf, k) == NodeIn(s, inShelf, k)
  {
  }

  lemma {:induction false} SubmitTold(s: State, r: Report, now: Time, inShelf: bool)
    requires Inv(s) && Enabled(s, Submit(r, now))
    ensures var s' := Step(s, Submit(r, now));
            ListStamp(s', inShelf) != ListStamp(s, inShelf)
              || forall k :: NodeIn(s', inShelf, k) == NodeIn(s, inShelf, k)
  {
    hide Inv, CanSubmit, Records, Submitted, Updated, FindMatchingShelf, Changes, EntryOk, NodeOf;
    StateBounds(s);
    InvAt(s, r.key);
    if Records(s, r) {
      RecordedParts(s, r, now);
      UpdatedStamps(Cached(s.alarms, r.key), now, r, FindMatchingShelf(r.key, s.rules.value), s.settings.limit);
    } else {
      UnrecordedState(s, r, now);
    }
  }

  lemma {:induction false} PurgeTold(s: State, b: bool, input: PurgeInput, now: Time, filterNow: Time, inShelf: bool)
    requires Inv(s) && Enabled(s, Purge(b, input, now, filterNow))
    ensures var s' := Step(s, Purge(b, input, now, filterNow));
            ListStamp(s', inShelf) != ListStamp(s, inShelf)
              || forall k :: NodeIn(s', inShelf, k) == NodeIn(s, inShelf, k)
  {
    hide Inv, Purged, Purgeable, PurgeProblem, NodeOf;
    PurgeShape(s, b, input, now, filterNow);
    StateBounds(s);
  }

  lemma {:induction false} CompressUntold(s: State, b: bool, input: CompressInput, inShelf: bool)
    requires Inv(s)
    ensures var s' := Step(s, Compress(b, input));
            && ListStamp(s', inShelf) == ListStamp(s, inShelf)
            && ((forall k :: NodeIn(s', inShelf, k) == NodeIn(s, inShelf, k))
               <==> !(b == inShelf && Compressible(s, b, input) != {}))
  {
    hide Inv, NodeIn, Compressed, Compressible;
    var s' := Compressed(s, b, input);
    CompressShape(s, b, input);
    if k :| b == inShelf && k in Compressible(s, b, input) {
      CompressedNodeIn(s, b, input, inShelf, k);
    } else {
      forall k ensures NodeIn(s', inShelf, k) == NodeIn(s, inShelf, k) { CompressedNodeIn(s, b, input, inShelf, k); }
    }
  }

  lemma {:induction false} CompressedNodeIn(s: State, b: bool, input: CompressInput, inShelf: bool, key: InstanceKey)
    requires Inv(s)
    ensures NodeIn(Compressed(s, b, input), inShelf, key) == NodeIn(s, inShelf, key)
            <==> !(b == inShelf && key in Compressible(s, b, input))
  {
    hide Inv, AlarmOk, EntryOk, CompressSelects, NodeOf, Compressed, Compressible, Render;
    var s' := Compressed(s, b, input);
    CompressShape(s, b, input);
    CompressedKeys(s, b, input);
    CompressedAt(s, b, input, key);
    InvAt(s, key);
    if key in Compressible(s, b, input) {
      SuffixFits(s.alarms[key], s.traces[key]);
      ShorterShows(s.alarms[key], s'.alarms[key], s.traces[key]);
    }
  }

  lemma {:induction false} SuffixFits(e: Entry, t: Trace)
    requires SuffixOf(e.statusChanges, t.log)
    ensures |e.statusChanges| <= |t.log|
  {
  }

  lemma {:induction false} ConfigureUntold(s: State, batch: seq<Change>, rules: seq<Shelf>, now: Time, inShelf: bool)
    requires Inv(s) && Enabled(s, Configure(batch, rules, now))
    ensures var s' := Step(s, Configure(batch, rules, now));
            && (ListStamp(s', inShelf) == ListStamp(s, inShelf) <==> Moving(s, batch, rules, inShelf) == {})
            && (Moving(s, batch, rules, inShelf) == {} ==>
                  ((forall k :: NodeIn(s', inShelf, k) == NodeIn(s, inShelf, k))
                   <==> Shortened(s, inShelf, Folded(s.settings, batch).limit) == {}))
  {
    hide Inv, AlarmOk, EntryOk, FindMatchingShelf, Folded, Reconfigured, NodeOf;
    var s', limit := Reconfigured(s, batch, rules, now), Folded(s.settings, batch).limit;
    StateBounds(s);
    ReconfiguredStamp(s, batch, rules, now, inShelf);
    if Moving(s, batch, rules, inShelf) == {} {
      if k :| k in Shortened(s, inShelf, limit) {
        ReconfiguredAt(s, batch, rules, now, k);
        InvAt(s, k);
        SuffixFits(s.alarms[k], s.traces[k]);
        ShorterShows(s.alarms[k], s'.alarms[k].(shelf := s.alarms[k].shelf), s.traces[k]);
        KeptInList(s, batch, rules, inShelf, k);
        assert NodeIn(s', inShelf, k) != NodeIn(s, inShelf, k);
      } else {
        forall k ensures NodeIn(s', inShelf, k) == NodeIn(s, inShelf, k) {
          ReconfiguredAt(s, batch, rules, now, k);
          if k in s.alarms { KeptInList(s, batch, rules, inShelf, k); }
          assert k !in Shortened(s, inShelf, limit);
        }
      }
    }
  }

  /** A batch that moves nothing in a list leaves its alarms on their shelves, and no other alarm there. */
  lemma {:induction false} KeptInList(s: State, batch: seq<Change>, rules: seq<Shelf>, inShelf: bool, key: InstanceKey)
    requires Moving(s, batch, rules, inShelf) == {} && key in s.alarms
    ensures var shelf := if Shelving in batch then FindMatchingShelf(key, rules) else s.alarms[key].shelf;
            && (shelf.Some? == s.alarms[key].shelf.Some? || (inShelf && shelf == s.alarms[key].shelf))
            && (s.alarms[key].shelf.Some? == inShelf ==> shelf == s.alarms[key].shelf)
  {
    hide FindMatchingShelf;
    assert key !in Moving(s, batch, rules, inShelf);
  }

  /** The published node of an alarm. */
  function NodeFor(s: State, key: InstanceKey): Node
    requires key in s.alarms
  {
    NodeOf(s.alarms[key], TraceAt(s.traces, key))
  }

  /** A tree shows a node for a key. */
  predicate Publishes(tree: Tree, key: InstanceKey, node: Node) {
    (tree.Has(false, key) && tree.At(false, key) == node) || (tree.Has(true, key) && tree.At(true, key) == node)
  }

  lemma {:induction false} NodeForIs(s: State, key: InstanceKey)
    requires key in s.alarms
    ensures Publishes(Render(s), key, NodeFor(s, key))
  {
    NodeInList(s, s.alarms[key].shelf.Some?, key);
  }

  /** The same for the `last-changed` leaf of a single alarm, which is to tell when its status-change list last changed:
      exactly which steps change that list and leave the leaf as it was. */
  lemma {:induction false} LastChangedExactly(s: State, ev: Event, key: InstanceKey)
    requires Inv(s) && Enabled(s, ev) && key in s.alarms && key in Step(s, ev).alarms
    ensures Publishes(Render(s), key, NodeFor(s, key))
    ensures Publishes(Render(Step(s, ev)), key, NodeFor(Step(s, ev), key))
    ensures var node, node' := NodeFor(s, key), NodeFor(Step(s, ev), key);
            node'.statusChanges != node.statusChanges && node'.lastChanged == node.lastChanged
            <==>
            match ev
            case Compress(inShelf, input) => key in Compressible(s, inShelf, input)
            case Configure(batch, _, _) => key in Shrinkable(s.alarms, Folded(s.settings, batch).limit)
            case _ => false
  {
    hide Inv, AlarmOk, EntryOk, CanSubmit, Records, Submitted, Updated, Changes, FindMatchingShelf, Compressed,
         Compressible,
         CompressSelects, Reconfigured, Purged, Purgeable, PurgeProblem, Folded, NewestFirst, Render, Publishes;
    NodeForIs(s, key);
    NodeForIs(Step(s, ev), key);
    InvAt(s, key);
    SuffixFits(s.alarms[key], s.traces[key]);
    match ev
    case Submit(r, now) =>
      if Records(s, r) {
        RecordedParts(s, r, now);
        UpdatedStamps(Cached(s.alarms, r.key), now, r, FindMatchingShelf(r.key, s.rules.value), s.settings.limit);
      } else {
        UnrecordedState(s, r, now);
      }
    case Purge(inShelf, input, now, filterNow) => PurgeShape(s, inShelf, input, now, filterNow);
    case Compress(inShelf, input) =>
      CompressShape(s, inShelf, input);
      CompressedAt(s, inShelf, input, key);
      CutShows(s.traces[key].log, |Step(s, ev).alarms[key].statusChanges|, |s.alarms[key].statusChanges|);
    case Configure(batch, rules, now) =>
      ReconfiguredAt(s, batch, rules, now, key);
      CutShows(s.traces[key].log, |Step(s, ev).alarms[key].statusChanges|, |s.alarms[key].statusChanges|);
    case InventoryWrite(_) =>
    case InventoryCallback =>
  }

  lemma {:induction false} CutShows(log: seq<Logged>, n: nat, m: nat)
    requires n <= m <= |log|
    ensures NewestFirst(log, n) == NewestFirst(log, m) <==> n == m
  {
    assert |NewestFirst(log, n)| == n && |NewestFirst(log, m)| == m;
  }

  /** A run that ends in one: a compression after two reports changes the alarm list, and neither the stamp of the list
      nor the time of the alarm's last change tells. */
  lemma {:induction false} CompressionIsUntold(key: InstanceKey, t: Time)
    requires key.Printable()
    ensures var s0, all := Initial(t, t, Allowing(key)), CompressInput(None, None, None);
            IsRun(s0, TwoReports(key, t)) &&
            var s := After(s0, TwoReports(key, t));
            var s' := Step(s, Compress(false, all));
            && Untold(s, s', false)
            && key in s.alarms && key in s'.alarms && NodeFor(s', key).lastChanged == NodeFor(s, key).lastChanged
            && NodeFor(s', key).statusChanges != NodeFor(s, key).statusChanges
  {
    hide Untold, Inv, Initial, After, IsRun, NodeFor, Compressed, Compressible;
    var s0, all := Initial(t, t, Allowing(key)), CompressInput(None, None, None);
    TwoReportsRun(key, t);
    var s := After(s0, TwoReports(key, t));
    CompressedAt(s, false, all, key);
    UntoldExactly(s, Compress(false, all), false);
    LastChangedExactly(s, Compress(false, all), key);
  }
}
