/** The lazily rebuilt inventory over runs (src/alarms/Daemon.cpp:185-225, 412-427, 648-675). */
module LazyInventory {
  import opened Key
  import opened ShelfMatch
  import opened Alarms
  import opened Filters
  import opened Inventories
  import opened Control
  import opened Machine
  import opened Runs

  /** The outcome of a report, judged by one stored inventory. */
  function OutcomeFrom(store: seq<InventoryEntry>, r: Report): SubmitCode {
    if !r.key.Printable() then InvalidArgument
    else match Verdict(store, r.key, r.severity)
      case Some(problem) => OperationFailed(problem)
      case None => Ok
  }

  /** A report is judged by the current inventory if the cache is dirty, and otherwise by the one the cache was parsed
      from, which is at most as many writes old as there are callbacks on their way.  So the outcome is that of the
      current inventory exactly if those writes left the verdict on this report unchanged. */
  lemma {:induction false} LazyInventoryExactly(s: State, r: Report)
    requires Inv(s)
    ensures !s.inventory.dirty ==>
            |s.inventory.history.past| - s.inventory.pending <= s.inventory.history.read <= |s.inventory.history.past|
    ensures var i := s.inventory;
            var source := if i.dirty then i.store else i.Stores()[i.history.read];
            && SubmitOutcome(s, r) == OutcomeFrom(source, r)
            && (SubmitOutcome(s, r) == OutcomeFrom(i.store, r) <==>
                  !r.key.Printable() || Verdict(source, r.key, r.severity) == Verdict(i.store, r.key, r.severity))
  {
    hide Verdict, ValidationError, Parsed, AlarmOk;
    var i := s.inventory;
    ParsedGivesVerdict(if i.dirty then i.store else i.Stores()[i.history.read], r.key, r.severity);
  }

  /** In particular, with no invalidation callback on its way the outcome is that of the stored inventory; so it is
      after any callback, however the cache was left. */
  lemma {:induction false} LazyInventoryAgrees(s: State, r: Report)
    requires Inv(s) && (s.inventory.pending == 0 || s.inventory.dirty)
    ensures SubmitOutcome(s, r) == OutcomeFrom(s.inventory.store, r)
  {
    hide Inv, Verdict, SubmitOutcome;
    LazyInventoryExactly(s, r);
  }

  /** The inventories that other sessions wrote during a run. */
  function Written(es: seq<Event>): seq<seq<InventoryEntry>>
    decreases |es|
  {
    if es == [] then []
    else Written(Front(es)) + if Last(es).InventoryWrite? then [Last(es).store] else []
  }

  /** The history of stored inventories is that of the run, and every write in it, like an inventory stored at the
      start, is announced by an `alarm-inventory-changed` notification as soon as its callback has run. */
  lemma {:induction false} WritesAreAnnounced(now: Time, shelfNow: Time, store: seq<InventoryEntry>, es: seq<Event>)
    requires now <= shelfNow && IsRun(Initial(now, shelfNow, store), es)
    ensures var i := After(Initial(now, shelfNow, store), es).inventory;
            && i.Stores() == [store] + Written(es)
            && i.history.announced + i.pending == |Written(es)| + if store == [] then 0 else 1
  {
    hide Enabled, Step, AlarmOk;
    InitialInv(now, shelfNow, store);
    RunKeepsInv(Initial(now, shelfNow, store), es);
    StoresAreWritten(Initial(now, shelfNow, store), es);
  }

  lemma {:induction false} StoresAreWritten(s: State, es: seq<Event>)
    requires IsRun(s, es)
    ensures After(s, es).inventory.Stores() == s.inventory.Stores() + Written(es)
    decreases |es|
  {
    hide Enabled, Step;
    if es != [] {
      StoresAreWritten(s, Front(es));
      StepStores(After(s, Front(es)), Last(es));
    }
  }

  lemma {:induction false} StepStores(s: State, ev: Event)
    requires Enabled(s, ev)
    ensures Step(s, ev).inventory.Stores() == s.inventory.Stores() + if ev.InventoryWrite? then [ev.store] else []
  {
    hide Updated, FindMatchingShelf, Purgeable, PurgeSelects, AllTrimmed, ReshelvedAlarms, ReshelvedTraces, Folded,
         ApplyAll,
         SubmitOutcome, Announces, Parsed;
  }

  // ---------- Which inventory judges a report, told from the events ----------

  /** The cache has to be rebuilt: no printable report came in since the start or the latest callback. */
  predicate Stale(es: seq<Event>)
    decreases |es|
  {
    if es == [] then true
    else match Last(es)
      case InventoryCallback => true
      case Submit(r, _) => !r.key.Printable() && Stale(Front(es))
      case _ => Stale(Front(es))
  }

  /** How many writes had happened when the cache was last rebuilt: at the first printable report after the start or
      after a callback. */
  function ReadAt(es: seq<Event>): (n: nat)
    ensures n <= |Written(es)|
    decreases |es|
  {
    if es == [] then 0
    else if Last(es).Submit? && Last(es).r.key.Printable() && Stale(Front(es)) then |Written(Front(es))|
    else ReadAt(Front(es))
  }

  /** The inventory stored after a run that starts with `store`. */
  function Current(store: seq<InventoryEntry>, es: seq<Event>): seq<InventoryEntry> {
    ([store] + Written(es))[|Written(es)|]
  }

  /** The inventory by which a report after the run is judged. */
  function Judging(store: seq<InventoryEntry>, es: seq<Event>): seq<InventoryEntry> {
    if Stale(es) then Current(store, es) else ([store] + Written(es))[ReadAt(es)]
  }

  lemma {:induction false} StepCache(s: State, ev: Event)
    requires Enabled(s, ev)
    ensures var i, i' := s.inventory, Step(s, ev).inventory;
            var rebuilds := ev.Submit? && ev.r.key.Printable();
            && i'.dirty == (ev.InventoryCallback? || (i.dirty && !rebuilds))
            && i'.history.read == if rebuilds && i.dirty then |i.history.past| else i.history.read
  {
    hide Updated, FindMatchingShelf, Purgeable, PurgeSelects, AllTrimmed, ReshelvedAlarms, ReshelvedTraces, Folded,
         ApplyAll,
         SubmitOutcome, Announces, Parsed;
  }

  lemma {:induction false} CacheFollowsEvents(now: Time, shelfNow: Time, store: seq<InventoryEntry>, es: seq<Event>)
    requires IsRun(Initial(now, shelfNow, store), es)
    ensures var i := After(Initial(now, shelfNow, store), es).inventory;
            && i.dirty == Stale(es) && i.history.read == ReadAt(es) && i.Stores() == [store] + Written(es)
    decreases |es|
  {
    hide Enabled, Step;
    var s0 := Initial(now, shelfNow, store);
    StoresAreWritten(s0, es);
    if es != [] {
      CacheFollowsEvents(now, shelfNow, store, Front(es));
      StepCache(After(s0, Front(es)), Last(es));
    }
  }

  /** Over every run the events alone tell which stored inventory judges a report, and so whether its outcome is the one
      that the inventory stored by then asks for: it is, if and only if both inventories give the same verdict on it. */
  lemma {:induction false} OutcomeOverRuns(now: Time, shelfNow: Time, store: seq<InventoryEntry>, es: seq<Event>,
                                           r: Report)
    requires now <= shelfNow && IsRun(Initial(now, shelfNow, store), es)
    ensures var s := After(Initial(now, shelfNow, store), es);
            var current, judging := Current(store, es), Judging(store, es);
            && s.inventory.store == current && SubmitOutcome(s, r) == OutcomeFrom(judging, r)
            && (SubmitOutcome(s, r) == OutcomeFrom(current, r) <==>
                  !r.key.Printable() || Verdict(judging, r.key, r.severity) == Verdict(current, r.key, r.severity))
  {
    hide Inv, Initial, IsRun, After, Stale, ReadAt, Written, OutcomeFrom, SubmitOutcome, Verdict;
    InitialInv(now, shelfNow, store);
    RunKeepsInv(Initial(now, shelfNow, store), es);
    CacheFollowsEvents(now, shelfNow, store, es);
    LazyInventoryExactly(After(Initial(now, shelfNow, store), es), r);
    var i := After(Initial(now, shelfNow, store), es).inventory;
    assert i.Stores()[|i.Stores()| - 1] == i.store;
  }

  /** While a callback is on its way, a clean cache accepts what the inventory just stored rejects: any report accepted
      before the inventory is emptied is accepted after it. */
  lemma {:induction false} PendingCallbackCanDiffer(s: State, r: Report)
    requires Inv(s) && !s.inventory.dirty && SubmitOutcome(s, r).Ok?
    ensures SubmitOutcome(InventoryWritten(s, []), r) == Ok && OutcomeFrom([], r) == OperationFailed(UnknownType)
  {
  }

  /** A run that ends so: two reports, then the inventory is emptied.  A third report is accepted, although the stored
      inventory knows no type at all. */
  lemma {:induction false} OutdatedAcceptance(key: InstanceKey, t: Time, r: Report)
    requires key.Printable() && r.key == key
    ensures var s0, es := Initial(t, t, Allowing(key)), TwoReports(key, t) + [InventoryWrite([])];
            && IsRun(s0, es) && SubmitOutcome(After(s0, es), r) == Ok
            && OutcomeFrom(Current(Allowing(key), es), r) == OperationFailed(UnknownType)
  {
    hide Inv, Initial, IsRun, After, OutcomeFrom, SubmitOutcome;
    var s0, es := Initial(t, t, Allowing(key)), TwoReports(key, t);
    TwoReportsRun(key, t);
    RunExtends(s0, es, InventoryWrite([]));
    OutcomeOverRuns(t, t, Allowing(key), es + [InventoryWrite([])], r);
    NothingWritten(key, t);
    EmptyAllowsNothing(r);
  }

  lemma {:induction false} NothingWritten(key: InstanceKey, t: Time)
    requires key.Printable()
    ensures var es := TwoReports(key, t) + [InventoryWrite([])];
            Written(es) == [[]] && !Stale(es) && ReadAt(es) == 0
  {
    var es := TwoReports(key, t);
    assert Front(es + [InventoryWrite([])]) == es && Front(es) == es[..2] && Front(es[..2]) == es[..1]
           && Front(es[..1]) == [];
    assert Written(es[..1]) == [] && Stale(es[..1]) && ReadAt(es[..1]) == 0;
    assert Written(es[..2]) == [] && !Stale(es[..2]) && ReadAt(es[..2]) == 0;
    assert Written(es) == [] && !Stale(es) && ReadAt(es) == 0;
  }

  lemma {:induction false} EmptyAllowsNothing(r: Report)
    requires r.key.Printable()
    ensures OutcomeFrom([], r) == OperationFailed(UnknownType)
    ensures OutcomeFrom(Allowing(r.key), r) == Ok
  {
  }
}
