/** What the purge and compress actions touch, told from their inputs and from the nodes that clients read
    (src/alarms/Filters.cpp, src/alarms/Daemon.cpp:488-563). */
module Selections {
  import opened Wrappers
  import opened Key
  import opened Alarms
  import opened Filters
  import opened Machine
  import opened Mirror
  import opened Trees
  import opened Laws

  // ---------- Purge ----------

  /** A node of the purged list stays exactly if its alarm is not selected, and then as it was. */
  lemma {:induction false} PurgedNode(s: State, inShelf: bool, input: PurgeInput, now: Time, filterNow: Time,
                                      key: InstanceKey)
    requires Inv(s) && PurgeProblem(input).None?
    ensures var tree, tree' := Render(s), Render(Purged(s, inShelf, input, now, filterNow));
            tree.Has(inShelf, key) ==>
            && key in s.alarms && NodeMirrors(tree.At(inShelf, key), s.alarms[key])
            && (tree'.Has(inShelf, key) <==> !PurgeSelects(input, filterNow, s.alarms[key]))
            && (tree'.Has(inShelf, key) ==> tree'.At(inShelf, key) == tree.At(inShelf, key))
  {
    hide Inv, Render, Purged, Purgeable, PurgeSelects, NodeMirrors, SummaryCounts;
    RenderMirrors(s);
    PurgeExact(s, inShelf, input, now, filterNow);
    PurgeShape(s, inShelf, input, now, filterNow);
  }

  /** By severity: an alarm of the list stays exactly if its published severity is not above the level, or not the
      level, or not below it. */
  lemma {:induction false} PurgeBySeverity(s: State, inShelf: bool, level: Level, now: Time, filterNow: Time,
                                           key: InstanceKey)
    requires Inv(s) && Render(s).Has(inShelf, key)
    ensures Render(Purged(s, inShelf, PurgeInput(Any, Some(Above(level)), None), now, filterNow)).Has(inShelf, key) <==>
            Render(s).At(inShelf, key).perceivedSeverity <= level
    ensures Render(Purged(s, inShelf, PurgeInput(Any, Some(Is(level)), None), now, filterNow)).Has(inShelf, key) <==>
            Render(s).At(inShelf, key).perceivedSeverity != level
    ensures Render(Purged(s, inShelf, PurgeInput(Any, Some(Below(level)), None), now, filterNow)).Has(inShelf, key) <==>
            Render(s).At(inShelf, key).perceivedSeverity >= level
  {
    hide Inv, Render, Purged, HistoryMirrors;
    PurgedNode(s, inShelf, PurgeInput(Any, Some(Above(level)), None), now, filterNow, key);
    PurgedNode(s, inShelf, PurgeInput(Any, Some(Is(level)), None), now, filterNow, key);
    PurgedNode(s, inShelf, PurgeInput(Any, Some(Below(level)), None), now, filterNow, key);
  }

  /** By clearance: against the published flag. */
  lemma {:induction false} PurgeByClearance(s: State, inShelf: bool, now: Time, filterNow: Time, key: InstanceKey)
    requires Inv(s) && Render(s).Has(inShelf, key)
    ensures !Render(Purged(s, inShelf, PurgeInput(Any, None, None), now, filterNow)).Has(inShelf, key)
    ensures Render(Purged(s, inShelf, PurgeInput(Cleared, None, None), now, filterNow)).Has(inShelf, key) <==>
            !Render(s).At(inShelf, key).isCleared
    ensures Render(Purged(s, inShelf, PurgeInput(NotCleared, None, None), now, filterNow)).Has(inShelf, key) <==>
            Render(s).At(inShelf, key).isCleared
  {
    hide Inv, Render, Purged, HistoryMirrors;
    PurgedNode(s, inShelf, PurgeInput(Any, None, None), now, filterNow, key);
    PurgedNode(s, inShelf, PurgeInput(Cleared, None, None), now, filterNow, key);
    PurgedNode(s, inShelf, PurgeInput(NotCleared, None, None), now, filterNow, key);
  }

  /** By age: an alarm stays exactly if its published last change is at most as long ago as the input says.  Times are
      in nanoseconds. */
  lemma {:induction false} PurgeByAge(s: State, inShelf: bool, age: AgeSpec, now: Time, filterNow: Time,
                                      key: InstanceKey)
    requires Inv(s) && !age.NoAge?
    ensures Render(s).Has(inShelf, key) ==>
            var ago := filterNow - Render(s).At(inShelf, key).lastChanged;
            Render(Purged(s, inShelf, PurgeInput(Any, None, Some(age)), now, filterNow)).Has(inShelf, key) <==>
            match age
            case Seconds(n) => ago <= n * 1_000_000_000
            case Minutes(n) => ago <= n * 60_000_000_000
            case Hours(n) => ago <= n * 3_600_000_000_000
            case Days(n) => ago <= n * 86_400_000_000_000
            case Weeks(n) => ago <= n * 604_800_000_000_000
            case NoAge => true
  {
    hide Inv, Render, Purged, HistoryMirrors;
    PurgedNode(s, inShelf, PurgeInput(Any, None, Some(age)), now, filterNow, key);
  }

  /** Criteria are ANDed: an alarm stays exactly if one of them alone would let it stay. */
  lemma {:induction false} PurgeCriteriaConjoin(s: State, inShelf: bool, input: PurgeInput, now: Time, filterNow: Time,
                                                key: InstanceKey)
    requires Inv(s) && Render(s).Has(inShelf, key)
    requires input.severity != Some(NoLevel) && input.olderThan != Some(NoAge)
    ensures Render(Purged(s, inShelf, input, now, filterNow)).Has(inShelf, key) <==>
            || Render(Purged(s, inShelf, PurgeInput(input.clearance, None, None), now, filterNow)).Has(inShelf, key)
            || (input.severity.Some? &&
                Render(Purged(s, inShelf, PurgeInput(Any, input.severity, None), now, filterNow)).Has(inShelf, key))
            || (input.olderThan.Some? &&
                Render(Purged(s, inShelf, PurgeInput(Any, None, input.olderThan), now, filterNow)).Has(inShelf, key))
  {
    hide Inv, Render, Purged, NodeMirrors, SeveritySelects, AgeSelects;
    PurgedNode(s, inShelf, input, now, filterNow, key);
    PurgedNode(s, inShelf, PurgeInput(input.clearance, None, None), now, filterNow, key);
    PurgedNode(s, inShelf, PurgeInput(Any, input.severity, None), now, filterNow, key);
    PurgedNode(s, inShelf, PurgeInput(Any, None, input.olderThan), now, filterNow, key);
  }

  /** An input that opens a choice and makes none is rejected, and nothing is purged. */
  lemma {:induction false} PurgeRejects(s: State, inShelf: bool, input: PurgeInput, now: Time, filterNow: Time)
    requires input.severity == Some(NoLevel) || input.olderThan == Some(NoAge)
    ensures PurgeProblem(input) ==
            Some(if input.severity == Some(NoLevel) then InvalidSeverityChoice else InvalidAgeChoice)
    ensures Render(Purged(s, inShelf, input, now, filterNow)) == Render(s)
  {
    hide Render, Purged, Purgeable;
    PurgeTreeChange(s, inShelf, input, now, filterNow);
  }

  // ---------- Compress ----------

  /** A compression leaves alone every alarm that misses one of the criteria given, in the cache and in the tree. */
  lemma {:induction false} CompressSpares(s: State, inShelf: bool, input: CompressInput, key: InstanceKey)
    requires Inv(s)
    requires || (input.resource.Some? && key.resource != input.resource.value)
             || (input.alarmTypeId.Some? && key.alarmType.id != input.alarmTypeId.value)
             || (input.alarmTypeQualifier.Some? && key.alarmType.qualifier != input.alarmTypeQualifier.value)
    ensures var s' := Compressed(s, inShelf, input);
            && Cached(s'.alarms, key) == Cached(s.alarms, key)
            && forall b: bool ::
                 && (Render(s').Has(b, key) <==> Render(s).Has(b, key))
                 && (Render(s).Has(b, key) ==> Render(s').At(b, key) == Render(s).At(b, key))
  {
    hide Inv, Render, Compressed, Compressible;
    CompressedAt(s, inShelf, input, key);
    CompressExact(s, inShelf, input, key, false);
    CompressExact(s, inShelf, input, key, true);
  }

  /** What a list publishes of the history of a key. */
  function ShownChanges(tree: Tree, inShelf: bool, key: InstanceKey): seq<StatusChange> {
    if tree.Has(inShelf, key) then tree.At(inShelf, key).statusChanges else []
  }

  /** It reaches every alarm of the list that agrees with all criteria given: of its published changes, only the newest
      stays. */
  lemma {:induction false} CompressReaches(s: State, inShelf: bool, input: CompressInput, key: InstanceKey)
    requires Inv(s)
    requires input.resource.None? || key.resource == input.resource.value
    requires input.alarmTypeId.None? || key.alarmType.id == input.alarmTypeId.value
    requires input.alarmTypeQualifier.None? || key.alarmType.qualifier == input.alarmTypeQualifier.value
    ensures Render(Compressed(s, inShelf, input)).Has(inShelf, key) <==> Render(s).Has(inShelf, key)
    ensures var before := ShownChanges(Render(s), inShelf, key);
            ShownChanges(Render(Compressed(s, inShelf, input)), inShelf, key) ==
            if before == [] then [] else [before[0]]
  {
    hide Inv, Render, Compressed;
    CompressExact(s, inShelf, input, key, inShelf);
  }

  /** The returned count is that of the nodes whose published history gets shorter. */
  lemma {:induction false} CompressCounts(s: State, inShelf: bool, input: CompressInput)
    requires Inv(s)
    ensures var tree, tree' := Render(s), Render(Compressed(s, inShelf, input));
            && tree'.List(inShelf).Keys == tree.List(inShelf).Keys
            && |Compressible(s, inShelf, input)| ==
               |(set k | k in tree.List(inShelf) &&
                         |tree'.List(inShelf)[k].statusChanges| < |tree.List(inShelf)[k].statusChanges|)|
  {
    hide Inv, Render, Compressed, Compressible, CompressSelects, NodeMirrors, SummaryCounts;
    var s' := Compressed(s, inShelf, input);
    RenderMirrors(s);
    forall k ensures k in Render(s').List(inShelf) <==> k in Render(s).List(inShelf)
             ensures k in Render(s).List(inShelf) ==>
                       (k in Compressible(s, inShelf, input) <==>
                        |Render(s').List(inShelf)[k].statusChanges| < |Render(s).List(inShelf)[k].statusChanges|)
             ensures k in Compressible(s, inShelf, input) ==> k in Render(s).List(inShelf)
    {
      CompressExact(s, inShelf, input, k, inShelf);
      CompressedAt(s, inShelf, input, k);
      CompressedKeys(s, inShelf, input);
      if k in s.alarms { SameLength(Render(s).At(s.alarms[k].shelf.Some?, k), s.alarms[k]); }
    }
    assert Compressible(s, inShelf, input) ==
           set k | k in Render(s).List(inShelf) &&
                   |Render(s').List(inShelf)[k].statusChanges| < |Render(s).List(inShelf)[k].statusChanges|;
  }

  lemma {:induction false} SameLength(node: Node, e: Entry)
    requires NodeMirrors(node, e)
    ensures |node.statusChanges| == |e.statusChanges|
  {
  }
}
