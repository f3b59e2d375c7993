/** Control settings and how batches of configuration changes reach them (src/alarms/Daemon.cpp:111-182). */
module Control {
  import opened Wrappers
  import opened Alarms

  /** The leaves of the `control` container that the daemon mirrors. */
  datatype Settings = Settings(mode: NotifyStatusChanges, threshold: Option<Level>, limit: Option<Uint16>)
  {
    /** The `must` statement on `notify-status-changes`. */
    predicate MeetsMust() { mode.BySeverity? ==> threshold.Some? }
  }

  /** One change reported for the `control` container, by the path of its node. */
  datatype Change =
    | ModeIs(mode: NotifyStatusChanges)
    | ThresholdIs(level: Level)
    | ThresholdDeleted
    | LimitIs(limit: Option<Uint16>)   // None is "infinite"
    | Shelving                         // any path under alarm-shelving
    | OtherPath

  function Apply(s: Settings, c: Change): Settings {
    match c
    case ModeIs(m) => s.(mode := m)
    case ThresholdIs(l) => s.(threshold := Some(l))
    case ThresholdDeleted => s.(threshold := None)
    case LimitIs(l) => s.(limit := l)
    case Shelving => s
    case OtherPath => s
  }

  /** What the configuration datastore holds after a batch. */
  function ApplyAll(s: Settings, batch: seq<Change>): Settings
    decreases |batch|
  {
    if batch == [] then s else ApplyAll(Apply(s, batch[0]), batch[1..])
  }

  /** The changes before the first shelving change. */
  function BeforeShelving(batch: seq<Change>): seq<Change> {
    if batch == [] || batch[0].Shelving? then [] else [batch[0]] + BeforeShelving(batch[1..])
  }

  /** What the daemon makes of a batch: it stops at the first shelving change. */
  function Folded(s: Settings, batch: seq<Change>): Settings {
    ApplyAll(s, BeforeShelving(batch))
  }

  predicate Decreases(was: Option<Uint16>, next: Option<Uint16>) {
    next.Some? && (was.None? || next.value < was.value)
  }

  /** Some change that the daemon applies lowers the limit. */
  predicate Lowers(s: Settings, batch: seq<Change>)
    decreases |batch|
  {
    batch != [] && !batch[0].Shelving? &&
    ((batch[0].LimitIs? && Decreases(s.limit, batch[0].limit)) || Lowers(Apply(s, batch[0]), batch[1..]))
  }

  /** The callback's loop over the changes, with its early exit. */
  method ReadChanges(s: Settings, batch: seq<Change>) returns (next: Settings, needsReshelve: bool, needsShrink: bool)
    ensures next == Folded(s, batch)
    ensures needsReshelve <==> Shelving in batch
    ensures needsShrink <==> Lowers(s, batch)
  {
    next, needsReshelve, needsShrink := s, false, false;
    var i := 0;
    while i < |batch|
      invariant 0 <= i <= |batch|
      invariant Folded(next, batch[i..]) == Folded(s, batch)
      invariant !needsReshelve && (Shelving in batch[i..] <==> Shelving in batch)
      invariant needsShrink || Lowers(next, batch[i..]) <==> Lowers(s, batch)
    {
      assert batch[i..][0] == batch[i] && batch[i..][1..] == batch[i + 1..];
      if batch[i].Shelving? {
        needsReshelve := true;
        break;
      }
      match batch[i] {
        case ModeIs(m) => next := next.(mode := m);
        case ThresholdIs(l) => next := next.(threshold := Some(l));
        case ThresholdDeleted => next := next.(threshold := None);
        case LimitIs(l) =>
          var oldVal := next.limit;
          next := next.(limit := l);
          if next.limit.Some? && (oldVal.None? || next.limit.value < oldVal.value) {
            needsShrink := true;
          }
        case _ =>
      }
      i := i + 1;
    }
  }

  // ---------- Limits ----------

  predicate Fits(n: nat, limit: Option<Uint16>) { limit.Some? ==> n <= limit.value }

  /** Unless some applied change lowers the limit, whatever fitted before fits afterwards: trimming can be skipped. */
  lemma {:induction false} NoTrimNeeded(s: Settings, batch: seq<Change>, n: nat)
    requires !Lowers(s, batch) && Fits(n, s.limit)
    ensures Fits(n, Folded(s, batch).limit)
    decreases |batch|
  {
    if batch != [] && !batch[0].Shelving? {
      assert ([batch[0]] + BeforeShelving(batch[1..]))[1..] == BeforeShelving(batch[1..]);
      NoTrimNeeded(Apply(s, batch[0]), batch[1..], n);
    }
  }

  // ---------- Tracking the configuration ----------

  /** Shelving changes come last, as they do in the order of the schema. */
  predicate ShelvingLast(batch: seq<Change>) {
    forall i, j :: 0 <= i < j < |batch| && batch[i].Shelving? ==> batch[j].Shelving? || batch[j].OtherPath?
  }

  lemma {:induction false} InertChanges(s: Settings, batch: seq<Change>)
    requires forall i :: 0 <= i < |batch| ==> batch[i].Shelving? || batch[i].OtherPath?
    ensures ApplyAll(s, batch) == s
  {
    if batch != [] { InertChanges(s, batch[1..]); }
  }

  /** With shelving changes last, the daemon's settings equal a fresh reading of the configuration. */
  lemma {:induction false} TracksWhenShelvingLast(s: Settings, batch: seq<Change>)
    requires ShelvingLast(batch)
    ensures Folded(s, batch) == ApplyAll(s, batch)
    decreases |batch|
  {
    if batch != [] {
      if batch[0].Shelving? {
        InertChanges(s, batch);
      } else {
        assert ([batch[0]] + BeforeShelving(batch[1..]))[1..] == BeforeShelving(batch[1..]);
        TracksWhenShelvingLast(Apply(s, batch[0]), batch[1..]);
      }
    }
  }

  /** Which leaf a change is about; changes under shelving and elsewhere are about none. */
  datatype Leaf = ModeLeaf | ThresholdLeaf | LimitLeaf | NoLeaf

  function LeafOf(c: Change): Leaf {
    match c
    case ModeIs(_) => ModeLeaf
    case ThresholdIs(_) => ThresholdLeaf
    case ThresholdDeleted => ThresholdLeaf
    case LimitIs(_) => LimitLeaf
    case _ => NoLeaf
  }

  /** A batch is a difference: it reports each leaf at most once, and only if its value changed. */
  predicate Difference(s: Settings, batch: seq<Change>) {
    && (forall i, j :: 0 <= i < j < |batch| && LeafOf(batch[i]) == LeafOf(batch[j]) ==> LeafOf(batch[i]) == NoLeaf)
    && (forall i :: 0 <= i < |batch| && LeafOf(batch[i]) != NoLeaf ==> Apply(s, batch[i]) != s)
  }

  /** One leaf of the settings. */
  function ValueAt(s: Settings, leaf: Leaf): Settings {
    match leaf
    case ModeLeaf => Settings(s.mode, None, None)
    case ThresholdLeaf => Settings(All, s.threshold, None)
    case LimitLeaf => Settings(All, None, s.limit)
    case NoLeaf => Settings(All, None, None)
  }

  /** A batch that does not mention a leaf keeps it. */
  lemma {:induction false} UnmentionedLeafKept(s: Settings, batch: seq<Change>, leaf: Leaf)
    requires forall i :: 0 <= i < |batch| ==> LeafOf(batch[i]) != leaf
    ensures ValueAt(ApplyAll(s, batch), leaf) == ValueAt(s, leaf)
    decreases |batch|
  {
    if batch != [] && leaf != NoLeaf {
      assert LeafOf(batch[0]) != leaf;
      UnmentionedLeafKept(Apply(s, batch[0]), batch[1..], leaf);
    }
  }

  /** A leaf that a difference mentions ends up with the value of that mention. */
  lemma {:induction false} MentionedLeafSet(s: Settings, batch: seq<Change>, i: nat)
    requires i < |batch| && LeafOf(batch[i]) != NoLeaf
    requires forall j :: i < j < |batch| ==> LeafOf(batch[j]) != LeafOf(batch[i])
    ensures ValueAt(ApplyAll(s, batch), LeafOf(batch[i])) == ValueAt(Apply(s, batch[i]), LeafOf(batch[i]))
    decreases |batch|
  {
    if i == 0 {
      UnmentionedLeafKept(Apply(s, batch[0]), batch[1..], LeafOf(batch[0]));
    } else {
      assert batch[1..][i - 1] == batch[i];
      forall j | i - 1 < j < |batch[1..]| ensures LeafOf(batch[1..][j]) != LeafOf(batch[i]) {
        assert batch[1..][j] == batch[j + 1];
      }
      MentionedLeafSet(Apply(s, batch[0]), batch[1..], i - 1);
    }
  }

  lemma {:induction false} PrefixIsPrefix(batch: seq<Change>)
    ensures |BeforeShelving(batch)| <= |batch| && BeforeShelving(batch) == batch[..|BeforeShelving(batch)|]
    ensures |BeforeShelving(batch)| < |batch| ==> batch[|BeforeShelving(batch)|].Shelving?
    ensures forall i :: 0 <= i < |BeforeShelving(batch)| ==> !batch[i].Shelving?
  {
    if batch != [] && !batch[0].Shelving? {
      PrefixIsPrefix(batch[1..]);
      var n := |BeforeShelving(batch[1..])|;
      assert batch[..n + 1] == [batch[0]] + batch[1..][..n];
    }
  }

  /** For a genuine difference the daemon tracks the configuration exactly when no leaf follows a shelving change. */
  lemma {:induction false} TracksExactlyWhenShelvingLast(s: Settings, batch: seq<Change>)
    requires Difference(s, batch)
    ensures Folded(s, batch) == ApplyAll(s, batch) <==> ShelvingLast(batch)
  {
    if ShelvingLast(batch) {
      TracksWhenShelvingLast(s, batch);
    } else {
      var i, j :| 0 <= i < j < |batch| && batch[i].Shelving? && !batch[j].Shelving? && !batch[j].OtherPath?;
      var n := |BeforeShelving(batch)|;
      PrefixIsPrefix(batch);
      var leaf := LeafOf(batch[j]);
      assert n <= i;
      UnmentionedLeafKept(s, batch[..n], leaf);
      MentionedLeafSet(s, batch, j);
      assert Apply(s, batch[j]) != s;
      assert ValueAt(Apply(s, batch[j]), leaf) != ValueAt(s, leaf);
    }
  }

  /** A hypothetical batch, not in the order of the schema: the change of mode follows a shelving change and is skipped.
      The configuration is valid before and after, but the daemon would be left in severity mode with no threshold. */
  lemma {:induction false} SkippedModeChange(l: Level)
    ensures var s := Settings(BySeverity, Some(l), None);
            var batch := [ThresholdDeleted, Shelving, ModeIs(All)];
            && s.MeetsMust() && ApplyAll(s, batch).MeetsMust() && Difference(s, batch)
            && !Folded(s, batch).MeetsMust()
  {
    var s := Settings(BySeverity, Some(l), None);
    var batch := [ThresholdDeleted, Shelving, ModeIs(All)];
    assert batch[1..] == [Shelving, ModeIs(All)] && [Shelving, ModeIs(All)][1..] == [ModeIs(All)];
    assert BeforeShelving(batch) == [ThresholdDeleted];
    assert ApplyAll(s, [ThresholdDeleted]) == s.(threshold := None);
    var s1 := s.(threshold := None);
    assert ApplyAll(s1, [ModeIs(All)]) == s1.(mode := All);
    assert ApplyAll(s1, [Shelving, ModeIs(All)]) == s1.(mode := All);
    assert ApplyAll(s, batch) == s1.(mode := All);
  }

  // ---------- The settings, told from the values in a batch ----------

  /** A change to the threshold: to another level, or away. */
  predicate OnThreshold(c: Change) { c.ThresholdIs? || c.ThresholdDeleted? }

  /** After a batch each leaf of the configuration has the value of the last change that mentions it. */
  lemma {:induction false} LastChangeWins(s: Settings, batch: seq<Change>, i: nat)
    requires i < |batch|
    ensures batch[i].ModeIs? && (forall j :: i < j < |batch| ==> !batch[j].ModeIs?) ==>
              ApplyAll(s, batch).mode == batch[i].mode
    ensures batch[i].ThresholdIs? && (forall j :: i < j < |batch| ==> !OnThreshold(batch[j])) ==>
              ApplyAll(s, batch).threshold == Some(batch[i].level)
    ensures batch[i].ThresholdDeleted? && (forall j :: i < j < |batch| ==> !OnThreshold(batch[j])) ==>
              ApplyAll(s, batch).threshold == None
    ensures batch[i].LimitIs? && (forall j :: i < j < |batch| ==> !batch[j].LimitIs?) ==>
              ApplyAll(s, batch).limit == batch[i].limit
    decreases |batch|
  {
    var rest := batch[1..];
    assert forall j :: 0 < j < |batch| ==> batch[j] == rest[j - 1];
    assert forall j :: 0 <= j < |rest| ==> rest[j] == batch[j + 1];
    if i > 0 {
      LastChangeWins(Apply(s, batch[0]), rest, i - 1);
    } else {
      UnmentionedKept(Apply(s, batch[0]), rest);
    }
  }

  /** A leaf that no change mentions keeps its value. */
  lemma {:induction false} UnmentionedKept(s: Settings, batch: seq<Change>)
    ensures (forall j :: 0 <= j < |batch| ==> !batch[j].ModeIs?) ==> ApplyAll(s, batch).mode == s.mode
    ensures (forall j :: 0 <= j < |batch| ==> !OnThreshold(batch[j])) ==> ApplyAll(s, batch).threshold == s.threshold
    ensures (forall j :: 0 <= j < |batch| ==> !batch[j].LimitIs?) ==> ApplyAll(s, batch).limit == s.limit
    decreases |batch|
  {
    if batch != [] {
      UnmentionedKept(Apply(s, batch[0]), batch[1..]);
      assert forall j :: 0 <= j < |batch[1..]| ==> batch[1..][j] == batch[j + 1];
    }
  }

  /** The daemon's settings after a batch are those of the changes before the first shelving change, at `n`: each has
      the value of the last of them that mentions it, or else its old value. */
  lemma {:induction false} SettingsFromValues(s: Settings, batch: seq<Change>, n: nat, i: nat)
    requires i < n <= |batch| && (n < |batch| ==> batch[n].Shelving?)
    requires forall j :: 0 <= j < n ==> !batch[j].Shelving?
    ensures batch[i].ModeIs? && (forall j :: i < j < n ==> !batch[j].ModeIs?) ==>
              Folded(s, batch).mode == batch[i].mode
    ensures batch[i].ThresholdIs? && (forall j :: i < j < n ==> !OnThreshold(batch[j])) ==>
              Folded(s, batch).threshold == Some(batch[i].level)
    ensures batch[i].ThresholdDeleted? && (forall j :: i < j < n ==> !OnThreshold(batch[j])) ==>
              Folded(s, batch).threshold == None
    ensures batch[i].LimitIs? && (forall j :: i < j < n ==> !batch[j].LimitIs?) ==>
              Folded(s, batch).limit == batch[i].limit
    ensures (forall j :: 0 <= j < n ==> !batch[j].ModeIs?) ==> Folded(s, batch).mode == s.mode
    ensures (forall j :: 0 <= j < n ==> !OnThreshold(batch[j])) ==> Folded(s, batch).threshold == s.threshold
    ensures (forall j :: 0 <= j < n ==> !batch[j].LimitIs?) ==> Folded(s, batch).limit == s.limit
  {
    hide OnThreshold, BeforeShelving, ApplyAll;
    PrefixIsPrefix(batch);
    assert |BeforeShelving(batch)| == n;
    assert BeforeShelving(batch) == batch[..n];
    LastChangeWins(s, batch[..n], i);
    UnmentionedKept(s, batch[..n]);
  }

  /** A batch that starts with a shelving change sets nothing. */
  lemma {:induction false} ShelvingFirstSetsNothing(s: Settings, batch: seq<Change>)
    requires batch != [] && batch[0].Shelving?
    ensures Folded(s, batch) == s
  {
  }
}
