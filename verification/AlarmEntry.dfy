/** The per-alarm state and its updates (src/alarms/AlarmEntry.h, src/alarms/Daemon.cpp:232-326). */
module Alarms {
  import opened Wrappers

  type Time = int

  /** Severities as numbered in the YANG module: 1 is "cleared", 2 to 6 are "indeterminate" to "critical". */
  const CLEARED := 1
  type Level = s: int | 2 <= s <= 6 witness 2
  type LevelOrCleared = s: int | CLEARED <= s <= 6 witness 1

  type Uint16 = n: int | 0 <= n < 0x1_0000 witness 0

  datatype NotifyStatusChanges = All | RaiseAndClear | BySeverity

  datatype StatusChange = StatusChange(time: Time, perceivedSeverity: int, text: string)

  /** The value of an alarm entry.  The daemon's map holds entries by value. */
  datatype Entry = Entry(
    created: Time, lastRaised: Time, lastChanged: Time,
    text: string, shelf: Option<string>,
    lastSeverity: int, isCleared: bool,
    statusChanges: seq<StatusChange>)
  {
    /** What the alarm shows to the world: "cleared", or the severity it was last raised with. */
    function Effective(): int { if isCleared then CLEARED else lastSeverity }
  }

  const BLANK := Entry(0, 0, 0, "", None, 0, false, [])

  datatype WhatChanged = WhatChanged(changed: bool, shouldNotify: bool, removedStatusChanges: seq<Time>)

  // ---------- Specification on values ----------

  /** How many of `n` history entries a limit discards. */
  function Excess(n: nat, limit: Option<Uint16>): nat {
    if limit.Some? && n > limit.value then n - limit.value else 0
  }

  /** Keeps the newest entries that fit the limit. */
  function Trimmed(e: Entry, limit: Option<Uint16>): Entry {
    e.(statusChanges := e.statusChanges[Excess(|e.statusChanges|, limit)..])
  }

  /** The discarded timestamps, oldest first. */
  function TrimmedTimes(e: Entry, limit: Option<Uint16>): seq<Time> {
    seq(Excess(|e.statusChanges|, limit),
        i requires 0 <= i < Excess(|e.statusChanges|, limit) => e.statusChanges[i].time)
  }

  /** The alarm already is in the reported state, and it is active. */
  predicate AlreadyShows(e: Entry, severity: LevelOrCleared, text: string) {
    severity != CLEARED && e.Effective() == severity && e.text == text
  }

  /** The entry with a report taken over, but for what records a change. */
  function Taken(was: Option<Entry>, now: Time, severity: LevelOrCleared, text: string, shelf: Option<string>): Entry
    requires severity == CLEARED ==> was.Some?
  {
    var e := if was.Some? then was.value else BLANK.(created := now, shelf := shelf, isCleared := true);
    e.(lastRaised := if severity != CLEARED && e.isCleared then now else e.lastRaised,
       text := text,
       lastSeverity := if severity == CLEARED then e.lastSeverity else severity,
       isCleared := severity == CLEARED)
  }

  /** The entry after a report, before any trimming. */
  function Reported(was: Option<Entry>, now: Time, severity: LevelOrCleared, text: string, shelf: Option<string>): Entry
    requires severity == CLEARED ==> was.Some?
  {
    var e := Taken(was, now, severity, text, shelf);
    e.(lastChanged := now, statusChanges := e.statusChanges + [StatusChange(now, e.lastSeverity, text)])
  }

  /** Whether a report changes the alarm at all. */
  predicate Changes(was: Option<Entry>, severity: LevelOrCleared, text: string) {
    was.Some? ==> !AlreadyShows(was.value, severity, text)
  }

  /** The entry after a report. */
  function Updated(was: Option<Entry>, now: Time, severity: LevelOrCleared, text: string, shelf: Option<string>,
                   limit: Option<Uint16>): Entry
    requires severity == CLEARED ==> was.Some?
  {
    if Changes(was, severity, text) then Trimmed(Reported(was, now, severity, text, shelf), limit) else was.value
  }

  /** Whether a report that changes the alarm is announced. */
  predicate Announces(was: Option<Entry>, severity: LevelOrCleared, mode: NotifyStatusChanges, threshold: Option<Level>)
    requires mode.BySeverity? && severity != CLEARED ==> threshold.Some?
  {
    severity == CLEARED ||
    match mode
    case All => true
    case RaiseAndClear => was.None? || was.value.isCleared
    case BySeverity => severity >= threshold.value || (was.Some? && was.value.lastSeverity >= threshold.value)
  }

  // ---------- The mutable entry ----------

  class AlarmEntry {
    var created: Time
    var lastRaised: Time
    var lastChanged: Time
    var text: string
    var shelf: Option<string>
    var lastSeverity: int
    var isCleared: bool
    var statusChanges: seq<StatusChange>

    function Value(): Entry
      reads this
    {
      Entry(created, lastRaised, lastChanged, text, shelf, lastSeverity, isCleared, statusChanges)
    }

    /** The entry stored in the daemon's map, or a value-initialised one. */
    constructor (e: Entry)
      ensures Value() == e
    {
      created, lastRaised, lastChanged := e.created, e.lastRaised, e.lastChanged;
      text, shelf, lastSeverity, isCleared := e.text, e.shelf, e.lastSeverity, e.isCleared;
      statusChanges := e.statusChanges;
    }

    method ShrinkStatusChanges(maxAlarmStatusChanges: Option<Uint16>) returns (res: seq<Time>)
      modifies this
      ensures Value() == Trimmed(old(Value()), maxAlarmStatusChanges)
      ensures res == TrimmedTimes(old(Value()), maxAlarmStatusChanges)
    {
      res := [];
      if maxAlarmStatusChanges.Some? && |statusChanges| > maxAlarmStatusChanges.value {
        var toErase := |statusChanges| - maxAlarmStatusChanges.value;
        var i := 0;
        while i < toErase
          invariant 0 <= i <= toErase
          invariant res == TrimmedTimes(Value(), maxAlarmStatusChanges)[..i]
          invariant Value() == old(Value())
        {
          res := res + [statusChanges[i].time];
          i := i + 1;
        }
        statusChanges := statusChanges[toErase..];
      }
    }

    /** Appends the newest change and trims the history. */
    method AppendStatusChange(now: Time, maxAlarmStatusChanges: Option<Uint16>) returns (removed: seq<Time>)
      modifies this
      ensures var change := StatusChange(now, old(lastSeverity), old(text));
              var e := old(Value()).(lastChanged := now, statusChanges := old(statusChanges) + [change]);
              Value() == Trimmed(e, maxAlarmStatusChanges) && removed == TrimmedTimes(e, maxAlarmStatusChanges)
    {
      lastChanged := now;
      statusChanges := statusChanges + [StatusChange(now, lastSeverity, text)];
      removed := ShrinkStatusChanges(maxAlarmStatusChanges);
    }

    /** The notification decision; it looks at the entry as it was, with -1 as the severity of a new alarm. */
    method ShouldNotify(wasPresent: bool, severity: LevelOrCleared, notifyStatusChanges: NotifyStatusChanges,
                        notifySeverityThreshold: Option<Level>)
      returns (shouldNotify: bool)
      requires !wasPresent ==> lastSeverity == -1
      requires notifyStatusChanges.BySeverity? && severity != CLEARED ==> notifySeverityThreshold.Some?
      ensures var was := if wasPresent then Some(Value()) else None;
              shouldNotify == Announces(was, severity, notifyStatusChanges, notifySeverityThreshold)
    {
      var isClearedNow := severity == CLEARED;
      shouldNotify := false;
      if isClearedNow || notifyStatusChanges == All {
        shouldNotify := true;
      } else if notifyStatusChanges == RaiseAndClear {
        shouldNotify := !wasPresent || isClearedNow != isCleared;
      }
      if !isClearedNow {
        if notifyStatusChanges == BySeverity &&
           (severity >= notifySeverityThreshold.value || lastSeverity >= notifySeverityThreshold.value) {
          shouldNotify := true;
        }
      }
    }

    /** Takes a report over into the entry; says whether anything changed and whether to announce it. */
    method TakeOver(wasPresent: bool, now: Time, severity: LevelOrCleared, alarmText: string,
                    matchedShelf: Option<string>,
                    notifyStatusChanges: NotifyStatusChanges, notifySeverityThreshold: Option<Level>)
      returns (changed: bool, shouldNotify: bool)
      requires severity == CLEARED ==> wasPresent
      requires if wasPresent then 2 <= lastSeverity <= 6 else Value() == BLANK
      requires notifyStatusChanges.BySeverity? && severity != CLEARED ==> notifySeverityThreshold.Some?
      modifies this
      ensures var was := if wasPresent then Some(old(Value())) else None;
              && Value() == Taken(was, now, severity, alarmText, matchedShelf)
              && changed == Changes(was, severity, alarmText)
              && shouldNotify == Announces(was, severity, notifyStatusChanges, notifySeverityThreshold)
              && (!changed ==> Value() == old(Value()))
    {
      hide Announces;
      var isClearedNow := severity == CLEARED;
      changed := false;

      if !wasPresent {
        shelf := matchedShelf;
        created := now;
        lastSeverity := -1;
      }
      shouldNotify := ShouldNotify(wasPresent, severity, notifyStatusChanges, notifySeverityThreshold);

      if wasPresent && isCleared != isClearedNow {
        changed := true;
      }

      if alarmText != text {
        text := alarmText;
        changed := true;
      }

      if severity != lastSeverity {
        changed := true;
      }

      if !isClearedNow {
        if !wasPresent || (wasPresent && isCleared) {
          lastRaised := now;
        }
        if severity > CLEARED {
          lastSeverity := severity;
        }
      }
      isCleared := severity == CLEARED;
    }

    /** Handles a report that came in by RPC.  On a new alarm the entry is value-initialised, so it has no history. */
    method UpdateByRpc(wasPresent: bool, now: Time, severity: LevelOrCleared, alarmText: string,
                       matchedShelf: Option<string>,
                       notifyStatusChanges: NotifyStatusChanges, notifySeverityThreshold: Option<Level>,
                       maxAlarmStatusChanges: Option<Uint16>)
      returns (res: WhatChanged)
      requires severity == CLEARED ==> wasPresent
      requires if wasPresent then 2 <= lastSeverity <= 6 else Value() == BLANK
      requires notifyStatusChanges.BySeverity? && severity != CLEARED ==> notifySeverityThreshold.Some?
      modifies this
      ensures var was := if wasPresent then Some(old(Value())) else None;
              && Value() == Updated(was, now, severity, alarmText, matchedShelf, maxAlarmStatusChanges)
              && res.changed == Changes(was, severity, alarmText)
              && res.shouldNotify == Announces(was, severity, notifyStatusChanges, notifySeverityThreshold)
              && var full := Reported(was, now, severity, alarmText, matchedShelf);
                 res.removedStatusChanges == if res.changed then TrimmedTimes(full, maxAlarmStatusChanges) else []
    {
      hide Trimmed, TrimmedTimes, Announces;
      var changed, shouldNotify :=
        TakeOver(wasPresent, now, severity, alarmText, matchedShelf, notifyStatusChanges, notifySeverityThreshold);
      var removed: seq<Time> := [];
      if changed {
        removed := AppendStatusChange(now, maxAlarmStatusChanges);
      }
      res := WhatChanged(changed, shouldNotify, removed);
    }
  }
}
