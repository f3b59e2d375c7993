/** The alarm inventory and its lazily rebuilt cache (src/alarms/Daemon.cpp:185-225, 648-675). */
module Inventories {
  import opened Wrappers
  import opened Key
  import opened Alarms

  /** A child leaf of an inventory entry; other children are ignored. */
  datatype InventoryLeaf = Resource(name: string) | SeverityLevel(level: Level) | OtherLeaf

  /** One `alarm-type` entry as stored in the operational datastore. */
  datatype InventoryEntry = InventoryEntry(alarmType: AlarmType, leaves: seq<InventoryLeaf>)

  datatype InventoryData = InventoryData(resources: set<string>, severities: set<int>)

  type Inventory = map<AlarmType, InventoryData>

  datatype InventoryProblem = UnknownType | ResourceNotAllowed | SeverityNotAllowed

  // ---------- Validation against the stored entries ----------

  predicate AllowsResource(e: InventoryEntry, resource: string) {
    (forall leaf :: leaf in e.leaves ==> !leaf.Resource?) || Resource(resource) in e.leaves
  }

  predicate AllowsSeverity(e: InventoryEntry, severity: LevelOrCleared) {
    || severity == CLEARED
    || (forall leaf :: leaf in e.leaves ==> !leaf.SeverityLevel?)
    || SeverityLevel(severity) in e.leaves
  }

  /** The first stored entry for a type; the YANG list key makes it the only one. */
  function EntryFor(store: seq<InventoryEntry>, alarmType: AlarmType): (r: Option<InventoryEntry>)
    ensures r.None? <==> forall e :: e in store ==> e.alarmType != alarmType
    ensures r.Some? ==> r.value in store && r.value.alarmType == alarmType
  {
    if store == [] then None
    else if store[0].alarmType == alarmType then Some(store[0])
    else EntryFor(store[1..], alarmType)
  }

  /** The verdict RFC 8632, section 4.2 asks for: computed from the datastore, with no cache involved. */
  function Verdict(store: seq<InventoryEntry>, key: InstanceKey, severity: LevelOrCleared): Option<InventoryProblem> {
    match EntryFor(store, key.alarmType)
    case None => Some(UnknownType)
    case Some(e) =>
      if !AllowsResource(e, key.resource) then Some(ResourceNotAllowed)
      else if !AllowsSeverity(e, severity) then Some(SeverityNotAllowed)
      else None
  }

  // ---------- The cache ----------

  /** What parsing one entry collects. */
  function ParsedData(e: InventoryEntry): InventoryData {
    InventoryData(set leaf | leaf in e.leaves && leaf.Resource? :: leaf.name,
                  set leaf | leaf in e.leaves && leaf.SeverityLevel? :: leaf.level as int)
  }

  /** What parsing the stored list yields. */
  function Parsed(store: seq<InventoryEntry>): Inventory {
    map e | e in store :: e.alarmType := ParsedData(EntryFor(store, e.alarmType).value)
  }

  function ValidationError(inventory: Inventory, key: InstanceKey, severity: LevelOrCleared): Option<InventoryProblem> {
    if key.alarmType !in inventory then Some(UnknownType)
    else
      var data := inventory[key.alarmType];
      if data.resources != {} && key.resource !in data.resources then Some(ResourceNotAllowed)
      else if data.severities != {} && severity != CLEARED && severity !in data.severities then Some(SeverityNotAllowed)
      else None
  }

  /** Looking a report up in a freshly parsed cache gives the verdict of the stored entries. */
  lemma {:induction false} ParsedGivesVerdict(store: seq<InventoryEntry>, key: InstanceKey, severity: LevelOrCleared)
    ensures ValidationError(Parsed(store), key, severity) == Verdict(store, key, severity)
  {
    match EntryFor(store, key.alarmType)
    case None =>
    case Some(e) =>
      var data := ParsedData(e);
      assert Parsed(store)[key.alarmType] == data;
      assert data.resources != {} <==> exists leaf :: leaf in e.leaves && leaf.Resource? by {
        if leaf :| leaf in e.leaves && leaf.Resource? { assert leaf.name in data.resources; }
      }
      assert data.severities != {} <==> exists leaf :: leaf in e.leaves && leaf.SeverityLevel? by {
        if leaf :| leaf in e.leaves && leaf.SeverityLevel? { assert leaf.level in data.severities; }
      }
      assert key.resource in data.resources <==> Resource(key.resource) in e.leaves by {
        if leaf :| leaf in e.leaves && leaf.Resource? && leaf.name == key.resource {
          assert leaf == Resource(key.resource);
        }
        if Resource(key.resource) in e.leaves { assert Resource(key.resource).name in data.resources; }
      }
      if severity != CLEARED {
        assert severity in data.severities <==> SeverityLevel(severity) in e.leaves by {
          if SeverityLevel(severity) in e.leaves { assert SeverityLevel(severity).level in data.severities; }
        }
      }
  }

  /** With one entry per type, as the list key demands, a report passes exactly if there is an entry for its type that
      lists its resource, or none, and its severity, or none; the severity of a clear is never looked at. */
  lemma {:induction false} VerdictExactly(store: seq<InventoryEntry>, key: InstanceKey, severity: LevelOrCleared)
    requires forall i, j :: 0 <= i < j < |store| ==> store[i].alarmType != store[j].alarmType
    ensures Verdict(store, key, severity) == None <==>
            exists e :: e in store && e.alarmType == key.alarmType
              && (Resource(key.resource) in e.leaves || forall leaf :: leaf in e.leaves ==> !leaf.Resource?)
              && (severity == 1 || SeverityLevel(severity) in e.leaves ||
                  forall leaf :: leaf in e.leaves ==> !leaf.SeverityLevel?)
    ensures Verdict(store, key, severity) == Some(UnknownType) <==>
            forall e :: e in store ==> e.alarmType != key.alarmType
  {
    match EntryFor(store, key.alarmType)
    case None =>
    case Some(found) =>
      forall e | e in store && e.alarmType == key.alarmType ensures e == found {
        var i :| 0 <= i < |store| && store[i] == e;
        var j :| 0 <= j < |store| && store[j] == found;
      }
  }

  /** The parsing loops; `emplace` leaves the first entry of a type in place. */
  method Parse(store: seq<InventoryEntry>) returns (inventory: Inventory)
    ensures inventory == Parsed(store)
  {
    inventory := map[];
    var i := 0;
    while i < |store|
      invariant 0 <= i <= |store|
      invariant inventory == Parsed(store[..i])
    {
      var data := ParseEntry(store[i]);
      assert store[..i + 1] == store[..i] + [store[i]];
      ParsedExtends(store[..i], store[i]);
      if store[i].alarmType !in inventory {
        inventory := inventory[store[i].alarmType := data];
      }
      i := i + 1;
    }
    assert store[..|store|] == store;
  }

  method ParseEntry(e: InventoryEntry) returns (data: InventoryData)
    ensures data == ParsedData(e)
  {
    var resources: set<string>, severities: set<int> := {}, {};
    for j := 0 to |e.leaves|
      invariant InventoryData(resources, severities) == ParsedData(InventoryEntry(e.alarmType, e.leaves[..j]))
    {
      assert e.leaves[..j + 1] == e.leaves[..j] + [e.leaves[j]];
      match e.leaves[j] {
        case Resource(name) => resources := resources + {name};
        case SeverityLevel(level) => severities := severities + {level};
        case OtherLeaf =>
      }
    }
    assert e.leaves[..|e.leaves|] == e.leaves;
    data := InventoryData(resources, severities);
  }

  lemma {:induction false} EntryForExtends(store: seq<InventoryEntry>, e: InventoryEntry, t: AlarmType)
    ensures EntryFor(store + [e], t) ==
            if EntryFor(store, t).Some? then EntryFor(store, t) else if e.alarmType == t then Some(e) else None
  {
    if store != [] {
      assert (store + [e])[1..] == store[1..] + [e];
      EntryForExtends(store[1..], e, t);
    }
  }

  lemma {:induction false} ParsedAt(store: seq<InventoryEntry>, t: AlarmType)
    ensures t in Parsed(store) <==> EntryFor(store, t).Some?
    ensures t in Parsed(store) ==> Parsed(store)[t] == ParsedData(EntryFor(store, t).value)
  {
    hide ParsedData;
  }

  lemma {:induction false} ParsedExtends(store: seq<InventoryEntry>, e: InventoryEntry)
    ensures Parsed(store + [e]) ==
            if e.alarmType in Parsed(store) then Parsed(store) else Parsed(store)[e.alarmType := ParsedData(e)]
  {
    hide ParsedData, Parsed, EntryFor;
    var before, after := Parsed(store), Parsed(store + [e]);
    ParsedAt(store, e.alarmType);
    forall t
      ensures t in after <==> t in before || t == e.alarmType
      ensures t in after ==> after[t] == if t in before then before[t] else ParsedData(e)
    {
      EntryForExtends(store, e, t);
      ParsedAt(store, t);
      ParsedAt(store + [e], t);
    }
  }
}
