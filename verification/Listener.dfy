/** What a client that only hears notifications knows (src/alarms/Daemon.cpp:268-299, 462-485). */
module Listener {
  import opened Wrappers
  import opened Key
  import opened ShelfMatch
  import opened Alarms
  import opened Inventories
  import opened Control
  import opened Machine
  import opened Mirror
  import opened Runs
  import History

  /** The notifications about one alarm since a point in time. */
  function About(sent: seq<Notification>, key: InstanceKey, since: Time): seq<Notification>
    decreases |sent|
  {
    if sent == [] then []
    else
      var n := |sent| - 1;
      About(sent[..n], key, since) + if sent[n].key == key && sent[n].time >= since then [sent[n]] else []
  }

  lemma {:induction false} AboutOneMore(sent: seq<Notification>, note: Notification, key: InstanceKey, since: Time)
    ensures About(sent + [note], key, since) ==
            About(sent, key, since) + if note.key == key && note.time >= since then [note] else []
  {
    assert (sent + [note])[..|sent|] == sent;
  }

  /** Nothing was sent after the latest notification. */
  lemma {:induction false} NothingSince(sent: seq<Notification>, key: InstanceKey, since: Time)
    requires forall i :: 0 <= i < |sent| ==> sent[i].time < since
    ensures About(sent, key, since) == []
    decreases |sent|
  {
    if sent != [] { NothingSince(sent[..|sent| - 1], key, since); }
  }

  /** The notifications about an alarm since it was created. */
  function Heard(s: State, key: InstanceKey): seq<Notification>
    requires key in s.alarms
  {
    About(s.sent, key, s.alarms[key].created)
  }

  /** What the notifications must tell about an alarm, by mode. */
  ghost predicate Informed(heard: seq<Notification>, e: Entry, mode: NotifyStatusChanges, threshold: Option<Level>) {
    match mode
    case All =>
      // the latest notification shows exactly what the alarm shows
      heard != [] && var last := heard[|heard| - 1];
      last.severity == e.Effective() && last.text == e.text && last.time == e.lastChanged
    case RaiseAndClear =>
      // raises and clears alternate, starting with a raise, and the latest one is the current state
      && heard != []
      && (forall i :: 0 <= i < |heard| ==> (heard[i].severity == CLEARED <==> i % 2 == 1))
      && (heard[|heard| - 1].severity == CLEARED <==> e.isCleared)
    case BySeverity =>
      // the latest notification says whether the alarm is active at or above the threshold, and then all about it
      threshold.Some? &&
      if !e.isCleared && e.lastSeverity >= threshold.value then
        heard != [] && heard[|heard| - 1].severity == e.lastSeverity && heard[|heard| - 1].text == e.text
      else
        heard == [] || heard[|heard| - 1].severity < threshold.value
  }

  /** The alarms created after a point in time are all known to the listener. */
  ghost predicate AllInformed(s: State, since: Time, mode: NotifyStatusChanges, threshold: Option<Level>) {
    forall k :: k in s.alarms && s.alarms[k].created > since ==> Informed(Heard(s, k), s.alarms[k], mode, threshold)
  }

  /** How one report extends what the listener heard about its alarm. */
  lemma {:induction false} InformedByReport(heard: seq<Notification>, was: Option<Entry>, r: Report, now: Time,
                                            shelf: Option<string>, limit: Option<Uint16>,
                                            mode: NotifyStatusChanges, threshold: Option<Level>)
    requires was.Some? ==> 2 <= was.value.lastSeverity <= 6 && Informed(heard, was.value, mode, threshold)
    requires was.None? ==> heard == []
    requires Changes(was, r.severity, r.text) && !(r.severity == CLEARED && (was.None? || was.value.isCleared))
    requires mode.BySeverity? ==> threshold.Some?
    ensures var note := Notification(r.key, now, r.severity, r.text);
            Informed(heard + if Announces(was, r.severity, mode, threshold) then [note] else [],
                     Updated(was, now, r.severity, r.text, shelf, limit), mode, threshold)
  {
  }

  /** The notification that a recorded report sends, if any. */
  lemma {:induction false} RecordedSends(s: State, r: Report, now: Time)
    requires CanSubmit(s, r) && Records(s, r)
    ensures s.settings.mode.BySeverity? && r.severity != CLEARED ==> s.settings.threshold.Some?
    ensures Submitted(s, r, now).sent ==
            s.sent + if Announces(Cached(s.alarms, r.key), r.severity, s.settings.mode, s.settings.threshold)
                     then [Notification(r.key, now, r.severity, r.text)] else []
  {
    hide FindMatchingShelf, Updated, ValidationError, Announces, Parsed, Changes;
  }

  lemma {:induction false} ReportedIsInformed(s: State, r: Report, now: Time, since: Time)
    requires Inv(s) && s.clock < now && CanSubmit(s, r) && Records(s, r)
    requires AllInformed(s, since, s.settings.mode, s.settings.threshold) && since <= s.clock
    requires s.settings.mode.BySeverity? ==> s.settings.threshold.Some?
    ensures var s' := Submitted(s, r, now);
            r.key in s'.alarms &&
            (s'.alarms[r.key].created > since ==>
               Informed(Heard(s', r.key), s'.alarms[r.key], s.settings.mode, s.settings.threshold))
  {
    hide Inv, AlarmOk, CanSubmit, Records, Submitted, Informed, FindMatchingShelf, Updated, Announces, Changes, About,
         ClearsNothing;
    var s' := Submitted(s, r, now);
    var was := Cached(s.alarms, r.key);
    RecordedParts(s, r, now);
    var shelf := FindMatchingShelf(r.key, s.rules.value);
    RecordedSends(s, r, now);
    StateBounds(s);
    InvAt(s, r.key);
    UpdatedStamps(was, now, r, shelf, s.settings.limit);
    NotIdle(s, r);
    var created := s'.alarms[r.key].created;
    if created > since {
      AboutOneMore(s.sent, Notification(r.key, now, r.severity, r.text), r.key, created);
      assert s.sent + [] == s.sent;
      if was.None? { NothingSince(s.sent, r.key, now); }
      var heard := if was.Some? then Heard(s, r.key) else [];
      assert heard + [] == heard;
      InformedByReport(heard, was, r, now, shelf, s.settings.limit, s.settings.mode, s.settings.threshold);
    }
  }

  lemma {:induction false} NotIdle(s: State, r: Report)
    requires !ClearsNothing(s, r)
    ensures var was := Cached(s.alarms, r.key); !(r.severity == CLEARED && (was.None? || was.value.isCleared))
  {
  }

  lemma {:induction false} OthersStayInformed(s: State, r: Report, now: Time, key: InstanceKey)
    requires Enabled(s, Submit(r, now)) && Records(s, r) && key in s.alarms && key != r.key
    ensures var s' := Submitted(s, r, now); s'.alarms[key] == s.alarms[key] && Heard(s', key) == Heard(s, key)
  {
    var s' := Submitted(s, r, now);
    AboutOneMore(s.sent, Notification(r.key, now, r.severity, r.text), key, s.alarms[key].created);
    assert s.sent + [] == s.sent;
  }

  lemma {:induction false} SubmitKeepsInformed(s: State, r: Report, now: Time, since: Time)
    requires Inv(s) && Enabled(s, Submit(r, now)) && since <= s.clock
    requires AllInformed(s, since, s.settings.mode, s.settings.threshold)
    requires s.settings.mode.BySeverity? ==> s.settings.threshold.Some?
    ensures AllInformed(Submitted(s, r, now), since, s.settings.mode, s.settings.threshold)
  {
    hide Informed, Inv, Updated, Announces, Changes, FindMatchingShelf;
    var s' := Submitted(s, r, now);
    if Records(s, r) {
      ReportedIsInformed(s, r, now, since);
      forall k | k in s'.alarms && s'.alarms[k].created > since
        ensures Informed(Heard(s', k), s'.alarms[k], s.settings.mode, s.settings.threshold)
      {
        if k != r.key { OthersStayInformed(s, r, now, k); }
      }
    }
  }

  /** An alarm was there before, and differs at most in its shelf and in the length of its history. */
  predicate ShowsAsBefore(s: State, s': State, key: InstanceKey)
    requires key in s'.alarms
  {
    key in s.alarms &&
    s'.alarms[key] == s.alarms[key].(shelf := s'.alarms[key].shelf, statusChanges := s'.alarms[key].statusChanges)
  }

  /** Steps that send nothing and leave what alarms show alone. */
  lemma {:induction false} QuietKeepsInformed(s: State, s': State, since: Time, mode: NotifyStatusChanges,
                                              threshold: Option<Level>)
    requires AllInformed(s, since, mode, threshold) && s'.sent == s.sent
    requires forall k :: k in s'.alarms ==> ShowsAsBefore(s, s', k)
    ensures AllInformed(s', since, mode, threshold)
  {
    forall k | k in s'.alarms && s'.alarms[k].created > since
      ensures Informed(Heard(s', k), s'.alarms[k], mode, threshold)
    {
      assert ShowsAsBefore(s, s', k);
      assert Heard(s', k) == Heard(s, k);
    }
  }

  lemma {:induction false} StepKeepsInformed(s: State, ev: Event, since: Time)
    requires Inv(s) && Enabled(s, ev) && since <= s.clock
    requires AllInformed(s, since, s.settings.mode, s.settings.threshold)
    requires s.settings.mode.BySeverity? ==> s.settings.threshold.Some?
    ensures AllInformed(Step(s, ev), since, s.settings.mode, s.settings.threshold)
  {
    if ev.Submit? {
      SubmitKeepsInformed(s, ev.r, ev.now, since);
    } else {
      QuietStep(s, ev);
      QuietKeepsInformed(s, Step(s, ev), since, s.settings.mode, s.settings.threshold);
    }
  }

  lemma {:induction false} QuietStep(s: State, ev: Event)
    requires Enabled(s, ev) && !ev.Submit?
    ensures var s' := Step(s, ev);
            s'.sent == s.sent && forall k :: k in s'.alarms ==> ShowsAsBefore(s, s', k)
  {
  }

  /** The mode stays the same over the events, and so does the threshold while it matters. */
  ghost predicate ModeFixed(s: State, es: seq<Event>)
    requires IsRun(s, es)
    decreases |es|
  {
    && After(s, es).settings.mode == s.settings.mode
    && (s.settings.mode.BySeverity? ==> After(s, es).settings.threshold == s.settings.threshold)
    && (es != [] ==> ModeFixed(s, Front(es)))
  }

  lemma {:induction false} ThresholdIrrelevant(s: State, since: Time, mode: NotifyStatusChanges,
                                               threshold: Option<Level>, other: Option<Level>)
    requires AllInformed(s, since, mode, threshold) && (mode.BySeverity? ==> other == threshold)
    ensures AllInformed(s, since, mode, other)
  {
    forall k | k in s.alarms && s.alarms[k].created > since ensures Informed(Heard(s, k), s.alarms[k], mode, other) {
      assert Informed(Heard(s, k), s.alarms[k], mode, threshold);
    }
  }

  /** As long as the mode stays fixed, a listener is informed about every alarm created since: from creation to
      purge, over every run.  In raise-and-clear mode this includes that raises and clears alternate. */
  lemma {:induction false} ListenerKnowledge(s: State, es: seq<Event>)
    requires Inv(s) && IsRun(s, es) && ModeFixed(s, es)
    requires s.settings.mode.BySeverity? ==> s.settings.threshold.Some?
    ensures AllInformed(After(s, es), s.clock, s.settings.mode, After(s, es).settings.threshold)
    decreases |es|
  {
    hide Inv, Enabled, Step, AllInformed;
    if es != [] {
      var t := After(s, Front(es));
      ListenerKnowledge(s, Front(es));
      RunKeepsInv(s, Front(es));
      StepKeepsInformed(t, Last(es), s.clock);
      ThresholdIrrelevant(After(s, es), s.clock, s.settings.mode, t.settings.threshold,
        After(s, es).settings.threshold);
    } else {
      NoneYet(s);
    }
  }

  /** In raise-and-clear mode the notifications about an alarm, from its creation on, are a raise, a clear, a raise, and
      so on, over every run. */
  lemma {:induction false} RaiseAndClearAlternate(s: State, es: seq<Event>, key: InstanceKey)
    requires Inv(s) && IsRun(s, es) && ModeFixed(s, es) && s.settings.mode.RaiseAndClear?
    requires key in After(s, es).alarms && After(s, es).alarms[key].created > s.clock
    ensures var heard := Heard(After(s, es), key);
            heard != [] && forall i :: 0 <= i < |heard| ==> (heard[i].severity == CLEARED <==> i % 2 == 1)
  {
    hide Inv, IsRun, ModeFixed, Heard;
    ListenerKnowledge(s, es);
  }

  lemma {:induction false} NoneYet(s: State)
    requires Inv(s)
    ensures AllInformed(s, s.clock, s.settings.mode, s.settings.threshold)
  {
    forall k | k in s.alarms ensures s.alarms[k].created <= s.clock { assert AlarmOk(s, k); }
  }

  // ---------- Everything is heard ----------

  /** The notifications that tell a history change by change. */
  function Notes(key: InstanceKey, h: seq<StatusChange>): (notes: seq<Notification>)
    ensures |notes| == |h|
  {
    seq(|h|, i requires 0 <= i < |h| => Notification(key, h[i].time, h[i].perceivedSeverity, h[i].text))
  }

  /** What a log shows. */
  function ShownLog(log: seq<Logged>): (h: seq<StatusChange>)
    ensures |h| == |log|
  {
    seq(|log|, i requires 0 <= i < |log| => log[i].Published())
  }

  /** A listener has heard every change of every alarm created after a point in time. */
  ghost predicate AllHeard(s: State, since: Time) {
    forall k :: k in s.alarms && s.alarms[k].created > since ==>
                  k in s.traces && Heard(s, k) == Notes(k, ShownLog(s.traces[k].log))
  }

  lemma {:induction false} NoteOneMore(key: InstanceKey, log: seq<Logged>, l: Logged)
    ensures Notes(key, ShownLog(log + [l])) ==
            Notes(key, ShownLog(log)) + [Notification(key, l.time, l.Published().perceivedSeverity, l.text)]
  {
  }

  lemma {:induction false} ReportIsHeard(s: State, r: Report, now: Time, since: Time)
    requires Inv(s) && s.clock < now && CanSubmit(s, r) && Records(s, r)
    requires s.settings.mode.All? && AllHeard(s, since) && since <= s.clock
    ensures var s' := Submitted(s, r, now);
            && r.key in s'.alarms && r.key in s'.traces
            && (s'.alarms[r.key].created > since ==> Heard(s', r.key) == Notes(r.key, ShownLog(s'.traces[r.key].log)))
  {
    hide Inv, AlarmOk, EntryOk, CanSubmit, Records, Submitted, FindMatchingShelf, Updated, About, ClearsNothing,
         ShownLog, Notes;
    RecordedParts(s, r, now);
    var s', was, log := Submitted(s, r, now), Cached(s.alarms, r.key), TraceAt(s.traces, r.key).log;
    var shelf := FindMatchingShelf(r.key, s.rules.value);
    RecordedSends(s, r, now);
    StateBounds(s);
    InvAt(s, r.key);
    UpdatedStamps(was, now, r, shelf, s.settings.limit);
    UpdatedIsReported(was, now, r, shelf, s.settings.limit);
    var e := s'.alarms[r.key];
    if e.created > since {
      AboutOneMore(s.sent, Notification(r.key, now, r.severity, r.text), r.key, e.created);
      NoteOneMore(r.key, log, Logged(now, e.lastSeverity, r.text, e.isCleared));
      if was.None? {
        NothingSince(s.sent, r.key, now);
        NothingToNote(r.key);
      }
    }
  }

  lemma {:induction false} UpdatedIsReported(was: Option<Entry>, now: Time, r: Report, shelf: Option<string>,
                                             limit: Option<Uint16>)
    requires (r.severity == CLEARED ==> was.Some?) && Changes(was, r.severity, r.text)
    ensures Updated(was, now, r.severity, r.text, shelf, limit).Effective() == r.severity
    ensures Announces(was, r.severity, All, None)
  {
  }

  lemma {:induction false} NothingToNote(key: InstanceKey)
    ensures Notes(key, ShownLog([])) == []
  {
  }

  /** Other events change no log. */
  lemma {:induction false} QuietLogs(s: State, ev: Event, key: InstanceKey)
    requires Enabled(s, ev) && !ev.Submit? && key in Step(s, ev).alarms && key in s.traces
    ensures key in Step(s, ev).traces && Step(s, ev).traces[key].log == s.traces[key].log
  {
    hide FindMatchingShelf, AllTrimmed, ReshelvedAlarms, Folded, ApplyAll;
  }

  lemma {:induction false} StepIsHeard(s: State, ev: Event, since: Time)
    requires Inv(s) && Enabled(s, ev) && since <= s.clock && s.settings.mode.All? && AllHeard(s, since)
    ensures AllHeard(Step(s, ev), since)
  {
    hide Inv, AlarmOk, CanSubmit, Records, Submitted, Purged, Compressed, Reconfigured, Heard, Notes, ShownLog;
    var s' := Step(s, ev);
    if ev.Submit? && Records(s, ev.r) {
      ReportIsHeard(s, ev.r, ev.now, since);
      RecordedParts(s, ev.r, ev.now);
      forall k | k in s'.alarms && s'.alarms[k].created > since
        ensures k in s'.traces && Heard(s', k) == Notes(k, ShownLog(s'.traces[k].log))
      {
        if k != ev.r.key { OthersStayInformed(s, ev.r, ev.now, k); }
      }
    } else {
      QuietOrUnrecorded(s, ev);
      forall k | k in s'.alarms && s'.alarms[k].created > since
        ensures k in s'.traces && Heard(s', k) == Notes(k, ShownLog(s'.traces[k].log))
      {
        assert ShowsAsBefore(s, s', k);
        LogKept(s, ev, k);
        SameHeard(s, s', k);
      }
    }
  }

  lemma {:induction false} SameHeard(s: State, s': State, key: InstanceKey)
    requires s'.sent == s.sent && key in s.alarms && key in s'.alarms && s'.alarms[key].created == s.alarms[key].created
    ensures Heard(s', key) == Heard(s, key)
  {
  }

  lemma {:induction false} QuietOrUnrecorded(s: State, ev: Event)
    requires Enabled(s, ev) && !(ev.Submit? && Records(s, ev.r))
    ensures var s' := Step(s, ev);
            s'.sent == s.sent && forall k :: k in s'.alarms ==> ShowsAsBefore(s, s', k)
  {
    hide CanSubmit, Records, Submitted;
    if ev.Submit? { UnrecordedState(s, ev.r, ev.now); } else { QuietStep(s, ev); }
  }

  lemma {:induction false} LogKept(s: State, ev: Event, key: InstanceKey)
    requires Inv(s) && Enabled(s, ev) && !(ev.Submit? && Records(s, ev.r)) && key in s.alarms
    requires key in Step(s, ev).alarms
    ensures key in s.traces && key in Step(s, ev).traces && Step(s, ev).traces[key].log == s.traces[key].log
  {
    hide Inv, AlarmOk, CanSubmit, Records, Submitted;
    StateBounds(s);
    if ev.Submit? { UnrecordedState(s, ev.r, ev.now); } else { QuietLogs(s, ev, key); }
  }

  lemma {:induction false} RunIsHeard(s: State, es: seq<Event>)
    requires Inv(s) && IsRun(s, es) && ModeFixed(s, es) && s.settings.mode.All?
    ensures AllHeard(After(s, es), s.clock)
    decreases |es|
  {
    hide Inv, Enabled, Step, AllHeard;
    if es != [] {
      RunIsHeard(s, Front(es));
      RunKeepsInv(s, Front(es));
      StepIsHeard(After(s, Front(es)), Last(es), s.clock);
    } else {
      NothingHeardYet(s);
    }
  }

  lemma {:induction false} NothingHeardYet(s: State)
    requires Inv(s)
    ensures AllHeard(s, s.clock)
  {
    hide Inv, AlarmOk, EntryOk;
    forall k | k in s.alarms ensures s.alarms[k].created <= s.clock { InvAt(s, k); }
  }

  /** In the mode for all changes a listener hears the whole history.  Take any run, and any run on from there with that
      mode in force.  The notifications about an alarm created in the second part are its replayed history, change by
      change, with time, severity shown and text; even where the published history has been trimmed or compressed. */
  lemma {:induction false} EverythingIsHeard(now: Time, shelfNow: Time, store: seq<InventoryEntry>,
                                             before: seq<Event>, es: seq<Event>, key: InstanceKey)
    requires now <= shelfNow && IsRun(Initial(now, shelfNow, store), before)
    requires IsRun(After(Initial(now, shelfNow, store), before), es)
    requires ModeFixed(After(Initial(now, shelfNow, store), before), es)
    requires After(Initial(now, shelfNow, store), before).settings.mode.All?
    ensures var s0 := Initial(now, shelfNow, store);
            var s := After(s0, before);
            IsRun(s0, before + es) && After(s0, before + es) == After(s, es) &&
            (key in After(s, es).alarms && After(s, es).alarms[key].created > s.clock ==>
               Heard(After(s, es), key) == Notes(key, History.Replayed(s0, before + es, key)))
  {
    hide Inv, Initial, IsRun, After, ModeFixed, Heard, Notes;
    var s0 := Initial(now, shelfNow, store);
    var s := After(s0, before);
    InitialInv(now, shelfNow, store);
    RunKeepsInv(s0, before);
    RunsJoin(s0, before, es);
    RunIsHeard(s, es);
    History.InitialEmpty(now, shelfNow, store);
    History.ReplayAgrees(s0, before + es, key);
    var t, h := After(s, es), History.Replayed(s0, before + es, key);
    if key in t.alarms { ShownIsReplayed(t.traces[key].log, h); }
  }

  lemma {:induction false} ShownIsReplayed(log: seq<Logged>, h: seq<StatusChange>)
    requires History.Shows(log, h)
    ensures ShownLog(log) == h
  {
  }

  // ---------- Which reports are announced ----------

  /** What a report asks for differs from what the alarm shows, or the alarm is new. */
  predicate ShowsAnew(before: Option<Entry>, r: Report) {
    before.None? || before.value.Effective() != r.severity || before.value.text != r.text
  }

  /** The third option of `notify-status-changes`: changes at or above the level, clears, and changes that make
      an alarm less severe than the level. */
  predicate StandardAsks(before: Option<Entry>, r: Report, level: Level) {
    ShowsAnew(before, r) &&
    (r.severity == CLEARED || r.severity >= level || (before.Some? && before.value.Effective() >= level))
  }

  /** An alarm last active at or above the level comes back from cleared below the level. */
  predicate ReturnsBelow(before: Option<Entry>, r: Report, level: Level) {
    before.Some? && before.value.isCleared && before.value.lastSeverity >= level && CLEARED < r.severity < level
  }

  /** Which accepted reports are announced, mode by mode, told from the alarm before the report. */
  predicate Announced(before: Option<Entry>, r: Report, settings: Settings)
    requires settings.MeetsMust()
  {
    match settings.mode
    case All => ShowsAnew(before, r)
    case RaiseAndClear => before.None? || before.value.isCleared != (r.severity == CLEARED)
    case BySeverity =>
      StandardAsks(before, r, settings.threshold.value) || ReturnsBelow(before, r, settings.threshold.value)
  }

  /** On one entry: the announcing rule of the code comes to that. */
  lemma {:induction false} AnnouncesExactly(was: Option<Entry>, now: Time, r: Report, shelf: Option<string>,
                                            limit: Option<Uint16>, settings: Settings)
    requires was.Some? ==> 2 <= was.value.lastSeverity <= 6
    requires !(r.severity == CLEARED && (was.None? || was.value.isCleared)) && settings.MeetsMust()
    ensures Changes(was, r.severity, r.text) ==>
              var e := Updated(was, now, r.severity, r.text, shelf, limit);
              && (Announces(was, r.severity, settings.mode, settings.threshold) <==> Announced(was, r, settings))
              && e.lastChanged == now && e.Effective() == r.severity && e.text == r.text
    ensures !Changes(was, r.severity, r.text) ==> !Announced(was, r, settings)
  {
  }

  /** Exactly which reports are announced, mode by mode, and that the announcement shows the new state.
      In severity mode the daemon announces one kind of change that the standard does not ask for. */
  lemma {:induction false} AnnouncedExactly(s: State, r: Report, now: Time)
    requires Inv(s) && CanSubmit(s, r) && s.clock < now && s.settings.MeetsMust()
    ensures var s' := Submitted(s, r, now);
            && (s'.sent != s.sent <==> Accepted(s, r) && Announced(Cached(s.alarms, r.key), r, s.settings))
            && (s'.sent != s.sent ==> s'.sent == s.sent + [Notification(r.key, now, r.severity, r.text)])
            && (s'.sent != s.sent ==>
                  r.key in s'.alarms &&
                  var e := s'.alarms[r.key];
                  e.lastChanged == now && e.Effective() == r.severity && e.text == r.text)
  {
    hide Inv, CanSubmit, Submitted, FindMatchingShelf, Updated, Announces, Announced, Changes, ClearsNothing,
         SubmitOutcome;
    StateBounds(s);
    InvAt(s, r.key);
    assert s.sent + [] == s.sent;
    assert |s.sent + [Notification(r.key, now, r.severity, r.text)]| == |s.sent| + 1;
    if Records(s, r) {
      RecordedParts(s, r, now);
      RecordedSends(s, r, now);
    } else {
      UnrecordedState(s, r, now);
    }
    if Accepted(s, r) {
      NotIdle(s, r);
      var shelf := if s.rules.Some? then FindMatchingShelf(r.key, s.rules.value) else None;
      AnnouncesExactly(Cached(s.alarms, r.key), now, r, shelf, s.settings.limit, s.settings);
    }
  }

  /** The silence about shelved alarms that the standard asks for.  A report on a key that the rules put on a shelf
      stays silent exactly if it is not accepted or the mode does not call for an announcement: the shelf does not
      matter. */
  lemma {:induction false} ShelvedSilenceExactly(s: State, r: Report, now: Time)
    requires Inv(s) && CanSubmit(s, r) && s.clock < now && s.settings.MeetsMust()
    requires s.rules.Some? && FindMatchingShelf(r.key, s.rules.value).Some?
    ensures var s' := Submitted(s, r, now);
            && !Render(s').Has(false, r.key)
            && (s'.sent == s.sent <==> !Accepted(s, r) || !Announced(Cached(s.alarms, r.key), r, s.settings))
  {
    hide Inv, CanSubmit, Submitted, Records, FindMatchingShelf, Updated, Announced, Changes, ClearsNothing,
         SubmitOutcome, Render,
         RenderList, EntryOk;
    AnnouncedExactly(s, r, now);
    SubmitKeepsInv(s, r, now);
    InvAt(Submitted(s, r, now), r.key);
    SubmitKeepsRules(s, r, now);
    var s' := Submitted(s, r, now);
    ListsOfState(s');
    if r.key in s'.alarms { NodeAt(s'.alarms, s'.traces, r.key); } else { NotListed(s', r.key); }
  }

  lemma {:induction false} SubmitKeepsRules(s: State, r: Report, now: Time)
    requires CanSubmit(s, r)
    ensures Submitted(s, r, now).rules == s.rules
  {
    hide FindMatchingShelf, Updated, Announces, SubmitOutcome, Changes;
  }

  /** The announcements the standard does not ask for, exactly. */
  lemma {:induction false} BeyondTheStandard(s: State, r: Report, now: Time)
    requires Inv(s) && CanSubmit(s, r) && s.clock < now && Records(s, r) && s.settings.mode.BySeverity?
    requires s.settings.MeetsMust()
    ensures var s' := Submitted(s, r, now);
            var before, level := Cached(s.alarms, r.key), s.settings.threshold.value;
            (s'.sent != s.sent <==> StandardAsks(before, r, level)) <==> !ReturnsBelow(before, r, level)
  {
    AnnouncedExactly(s, r, now);
    if r.key in s.alarms { assert AlarmOk(s, r.key); }
  }

  /** They do occur: whenever an alarm at or above the level is cleared and then reported below the level. */
  lemma {:induction false} ReturnBelowIsAnnounced(s: State, key: InstanceKey, text: string, severity: Level, t1: Time,
                                                  t2: Time)
    requires Inv(s) && s.clock < t1 < t2 && s.settings.mode.BySeverity? && s.settings.threshold.Some?
    requires key in s.alarms && !s.alarms[key].isCleared
    requires severity < s.settings.threshold.value <= s.alarms[key].lastSeverity
    requires SubmitOutcome(s, Report(key, CLEARED, text)).Ok? && SubmitOutcome(s, Report(key, severity, text)).Ok?
    ensures var clear, r := Report(key, CLEARED, text), Report(key, severity, text);
            CanSubmit(s, clear) &&
            var s1 := Submitted(s, clear, t1);
            CanSubmit(s1, r) &&
            Submitted(s1, r, t2).sent == s1.sent + [Notification(key, t2, severity, text)] &&
            !StandardAsks(Cached(s1.alarms, key), r, s.settings.threshold.value)
  {
    hide Inv, AlarmOk, EntryOk, Submitted, FindMatchingShelf, Updated, SubmitOutcome;
    var clear, r := Report(key, CLEARED, text), Report(key, severity, text);
    InvAt(s, key);
    RecordedParts(s, clear, t1);
    SubmitKeepsInv(s, clear, t1);
    var s1 := Submitted(s, clear, t1);
    ClearedEntry(s.alarms[key], t1, clear, FindMatchingShelf(key, s.rules.value), s.settings.limit);
    SameOutcome(s, s1, r);
    AnnouncedExactly(s1, r, t2);
  }

  lemma {:induction false} ClearedEntry(e: Entry, now: Time, clear: Report, shelf: Option<string>,
                                        limit: Option<Uint16>)
    requires clear.severity == CLEARED
    ensures var e' := Updated(Some(e), now, CLEARED, clear.text, shelf, limit);
            e'.isCleared && e'.lastSeverity == e.lastSeverity && e'.text == clear.text
  {
  }

  /** A rebuilt inventory cache judges as the cache that was to be rebuilt. */
  lemma {:induction false} SameOutcome(s: State, s1: State, r: Report)
    requires s1.inventory == Refreshed(s.inventory)
    ensures SubmitOutcome(s1, r) == SubmitOutcome(s, r)
  {
    hide ValidationError, Parsed;
  }

  /** Shelving plays no part in announcements: with any other rules, and the alarms on any other shelves, the same
      report sends the same notification.  (The YANG text asks for silence about shelved alarms.) */
  lemma {:induction false} ShelvingDoesNotSilence(s: State, s': State, r: Report, now: Time)
    requires Enabled(s, Submit(r, now)) && Enabled(s', Submit(r, now))
    requires s'.settings == s.settings && s'.inventory == s.inventory && s'.sent == s.sent
    requires s'.alarms.Keys == s.alarms.Keys
    requires forall k :: k in s.alarms ==> s'.alarms[k] == s.alarms[k].(shelf := s'.alarms[k].shelf)
    ensures Submitted(s', r, now).sent == Submitted(s, r, now).sent
  {
    hide CanSubmit, Records, Submitted;
    SameVerdict(s, s', r);
    if Records(s, r) {
      RecordedSends(s, r, now);
      RecordedSends(s', r, now);
    } else {
      UnrecordedState(s, r, now);
      UnrecordedState(s', r, now);
    }
  }

  lemma {:induction false} SameVerdict(s: State, s': State, r: Report)
    requires s'.inventory == s.inventory && s'.alarms.Keys == s.alarms.Keys
    requires forall k :: k in s.alarms ==> s'.alarms[k] == s.alarms[k].(shelf := s'.alarms[k].shelf)
    ensures Records(s', r) <==> Records(s, r)
    ensures r.key in s.alarms ==> s'.alarms[r.key] == s.alarms[r.key].(shelf := s'.alarms[r.key].shelf)
  {
    assert r.key in s.alarms ==> s'.alarms[r.key] == s.alarms[r.key].(shelf := s'.alarms[r.key].shelf);
  }

  /** A new alarm that goes straight to a shelf is announced. */
  lemma {:induction false} ShelvedAlarmAnnounced(s: State, r: Report, now: Time)
    requires Inv(s) && Enabled(s, Submit(r, now)) && Accepted(s, r) && s.settings.mode.All?
    requires r.key !in s.alarms && FindMatchingShelf(r.key, s.rules.value).Some?
    ensures var s' := Submitted(s, r, now);
            && r.key in Render(s').shelved && r.key !in Render(s').alarms
            && s'.sent == s.sent + [Notification(r.key, now, r.severity, r.text)]
  {
  }
}
