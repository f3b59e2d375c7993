/** Which shelf an alarm belongs to (src/alarms/ShelfMatch.cpp). */
module ShelfMatch {
  import opened Wrappers
  import opened Key

  /** One `alarm-type` criterion of a shelf.  `derived` is the set of qualified names the YANG library
      returns for the identities derived from the configured one. */
  datatype ShelfType = ShelfType(derived: set<string>, qualifierMatch: string)

  datatype Shelf = Shelf(name: string, resources: seq<string>, alarmTypes: seq<ShelfType>)

  predicate MatchesIdentity(derived: set<string>, alarmType: AlarmType) {
    alarmType.id in derived
  }

  predicate MatchesType(criteria: seq<ShelfType>, alarmType: AlarmType) {
    exists c :: c in criteria && alarmType.qualifier == c.qualifierMatch && MatchesIdentity(c.derived, alarmType)
  }

  /** Criteria are ANDed; an absent criterion matches everything. */
  predicate MatchesShelf(shelf: Shelf, key: InstanceKey) {
    && (shelf.resources != [] ==> key.resource in shelf.resources)
    && (shelf.alarmTypes != [] ==> MatchesType(shelf.alarmTypes, key.alarmType))
  }

  /** The first matching shelf, in the order the user gave them. */
  function FindMatchingShelf(key: InstanceKey, shelves: seq<Shelf>): Option<string> {
    if shelves == [] then None
    else if MatchesShelf(shelves[0], key) then Some(shelves[0].name)
    else FindMatchingShelf(key, shelves[1..])
  }

  predicate IsFirstMatch(key: InstanceKey, shelves: seq<Shelf>, i: int) {
    0 <= i < |shelves| && MatchesShelf(shelves[i], key) && forall j :: 0 <= j < i ==> !MatchesShelf(shelves[j], key)
  }

  /** The shelf found matches and no earlier one does; none is found exactly if none matches. */
  lemma {:induction false} FirstMatchIsFound(key: InstanceKey, shelves: seq<Shelf>)
    ensures FindMatchingShelf(key, shelves).None? <==> forall i :: 0 <= i < |shelves| ==> !MatchesShelf(shelves[i], key)
    ensures forall i :: IsFirstMatch(key, shelves, i) ==> FindMatchingShelf(key, shelves) == Some(shelves[i].name)
  {
    hide MatchesShelf;
    if shelves != [] && !MatchesShelf(shelves[0], key) {
      FirstMatchIsFound(key, shelves[1..]);
      assert forall i :: 0 < i < |shelves| ==> shelves[i] == shelves[1..][i - 1];
      forall i | IsFirstMatch(key, shelves, i)
        ensures FindMatchingShelf(key, shelves) == Some(shelves[i].name)
      {
        assert forall j :: 0 <= j < i - 1 ==> !MatchesShelf(shelves[1..][j], key) by {
          forall j | 0 <= j < i - 1 ensures !MatchesShelf(shelves[1..][j], key) {
            assert shelves[1..][j] == shelves[j + 1];
          }
        }
        assert MatchesShelf(shelves[1..][i - 1], key);
      }
    }
  }

  /** Shelves that do not match a key can be inserted or removed without changing where the alarm goes. */
  lemma {:induction false} NonMatchingShelvesAreIrrelevant(key: InstanceKey, before: seq<Shelf>, extra: Shelf,
                                                           after: seq<Shelf>)
    requires !MatchesShelf(extra, key)
    ensures FindMatchingShelf(key, before + [extra] + after) == FindMatchingShelf(key, before + after)
  {
    if before == [] {
      assert before + after == after && ([extra] + after)[1..] == after;
      assert before + [extra] + after == [extra] + after;
    } else {
      NonMatchingShelvesAreIrrelevant(key, before[1..], extra, after);
      assert (before + [extra] + after)[1..] == before[1..] + [extra] + after;
      assert (before + after)[1..] == before[1..] + after;
    }
  }

  // ---------- Placement, told from the criteria of the shelves ----------

  /** An alarm is put on a shelf whose criteria it meets, all that are given; so if there are resources, its resource is
      one of them, and if there are types, one of them has its qualifier and is an ancestor of its identity. */
  lemma {:induction false} ShelfCriteriaMet(key: InstanceKey, shelves: seq<Shelf>)
    requires FindMatchingShelf(key, shelves).Some?
    ensures exists shelf :: shelf in shelves && shelf.name == FindMatchingShelf(key, shelves).value
              && (shelf.resources == [] || key.resource in shelf.resources)
              && (shelf.alarmTypes == [] ||
                  exists c :: c in shelf.alarmTypes && c.qualifierMatch == key.alarmType.qualifier
                              && key.alarmType.id in c.derived)
  {
    if MatchesShelf(shelves[0], key) {
      assert shelves[0] in shelves;
    } else {
      ShelfCriteriaMet(key, shelves[1..]);
      assert forall shelf :: shelf in shelves[1..] ==> shelf in shelves;
    }
  }

  /** A shelf whose criteria a key meets keeps its alarm out of the alarm list, and takes it unless an earlier shelf
      does; an absent criterion is met by every key. */
  lemma {:induction false} MetCriteriaShelve(key: InstanceKey, shelves: seq<Shelf>, i: nat)
    requires i < |shelves|
    requires shelves[i].resources == [] || key.resource in shelves[i].resources
    requires shelves[i].alarmTypes == [] ||
             exists c :: c in shelves[i].alarmTypes && c.qualifierMatch == key.alarmType.qualifier
                         && key.alarmType.id in c.derived
    ensures FindMatchingShelf(key, shelves).Some?
    ensures FindMatchingShelf(key, shelves) == FindMatchingShelf(key, shelves[..i + 1])
    ensures FindMatchingShelf(key, shelves[..i]).None? ==> FindMatchingShelf(key, shelves) == Some(shelves[i].name)
  {
    if i > 0 && !MatchesShelf(shelves[0], key) {
      MetCriteriaShelve(key, shelves[1..], i - 1);
      assert shelves[1..][..i] == shelves[..i + 1][1..] && shelves[1..][..i - 1] == shelves[..i][1..];
    }
  }
}
