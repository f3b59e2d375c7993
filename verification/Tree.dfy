/** The published data tree, as far as the daemon edits it (`m_edit` in src/alarms/Daemon.h). */
module Trees {
  import opened Wrappers
  import opened Key
  import opened Alarms

  /** One entry of the alarm list or of the shelved-alarm list.  `statusChanges` is in document order, newest first. */
  datatype Node = Node(
    isCleared: bool, lastRaised: Time, lastChanged: Time, perceivedSeverity: int, text: string,
    timeCreated: Option<Time>, shelfName: Option<string>,
    statusChanges: seq<StatusChange>)

  /** A list entry that has its keys and no other leaf yet. */
  const EMPTY_NODE := Node(false, 0, 0, 0, "", None, None, [])

  datatype Counters = Counters(total: nat, cleared: nat, notCleared: nat)

  datatype Tree = Tree(
    alarms: map<InstanceKey, Node>, shelved: map<InstanceKey, Node>,
    summary: map<int, Counters>,
    numberOfAlarms: nat, lastChanged: Time,
    numberOfShelvedAlarms: nat, shelvedAlarmsLastChanged: Time)
  {
    function List(inShelf: bool): map<InstanceKey, Node> { if inShelf then shelved else alarms }

    predicate Has(inShelf: bool, key: InstanceKey) { key in if inShelf then shelved else alarms }

    function At(inShelf: bool, key: InstanceKey): Node
      requires Has(inShelf, key)
    {
      if inShelf then shelved[key] else alarms[key]
    }

    function Put(inShelf: bool, key: InstanceKey, node: Node): Tree {
      if inShelf then this.(shelved := shelved[key := node]) else this.(alarms := alarms[key := node])
    }

    /** `findPath(...)->unlink()`: dereferencing a path that is not there is undefined. */
    function Unlink(inShelf: bool, key: InstanceKey): Tree
      requires Has(inShelf, key)
    {
      if inShelf then this.(shelved := shelved - {key}) else this.(alarms := alarms - {key})
    }
  }

  const EMPTY_TREE := Tree(map[], map[], map[], 0, 0, 0, 0)

  // ---------- Status-change lists ----------

  predicate HasTime(list: seq<StatusChange>, time: Time) {
    exists i :: 0 <= i < |list| && list[i].time == time
  }

  /** Removes the first entry with the given key. */
  function UnlinkTime(list: seq<StatusChange>, time: Time): seq<StatusChange>
    requires HasTime(list, time)
  {
    if list[0].time == time then list[1..] else [list[0]] + UnlinkTime(list[1..], time)
  }

  /** Unlinking the oldest entry of a newest-first list drops the end of the list. */
  lemma {:induction false} UnlinkOldest(list: seq<StatusChange>)
    requires list != []
    requires forall i, j :: 0 <= i < j < |list| ==> list[i].time > list[j].time
    ensures HasTime(list, list[|list| - 1].time)
    ensures UnlinkTime(list, list[|list| - 1].time) == list[..|list| - 1]
  {
    if |list| > 1 {
      UnlinkOldest(list[1..]);
      assert list[..|list| - 1] == [list[0]] + list[1..][..|list| - 2];
    }
  }

  // ---------- Addressing nodes by printed paths ----------

  const ALARM_LIST := "/ietf-alarms:alarms/alarm-list/alarm"
  const SHELVED_LIST := "/ietf-alarms:alarms/shelved-alarms/shelved-alarm"

  /** The XPath under which the daemon looks a node up. */
  function Address(inShelf: bool, key: InstanceKey): string
    requires key.Printable()
  {
    (if inShelf then SHELVED_LIST else ALARM_LIST) + key.XPathIndex().value
  }

  /** Alarms are found in the alarm list, and shelved ones in the list of shelved alarms. */
  lemma {:induction false} AddressForm(key: InstanceKey)
    requires key.Printable()
    ensures Address(false, key) == "/ietf-alarms:alarms/alarm-list/alarm" + key.XPathIndex().value
    ensures Address(true, key) == "/ietf-alarms:alarms/shelved-alarms/shelved-alarm" + key.XPathIndex().value
  {
  }

  lemma {:induction false} AddressInjective(b: bool, k: InstanceKey, b': bool, k': InstanceKey)
    requires k.Printable() && k'.Printable() && Address(b, k) == Address(b', k')
    ensures b == b' && k == k'
  {
    hide EscapeListKey, Index;
    assert ALARM_LIST[20] == 'a' && SHELVED_LIST[20] == 's';
    assert Address(b, k)[20] == if b then 's' else 'a';
    assert Address(b', k')[20] == if b' then 's' else 'a';
    CancelPrefix(if b then SHELVED_LIST else ALARM_LIST, k.XPathIndex().value, k'.XPathIndex().value);
    KeyPrintingInjective(k, k');
  }

  ghost predicate AllPrintable(tree: Tree) {
    forall b: bool, k :: tree.Has(b, k) ==> k.Printable()
  }

  /** A flat store addressed by printed paths holds the same nodes as a tree. */
  ghost predicate SameNodes(flat: map<string, Node>, tree: Tree)
    requires AllPrintable(tree)
  {
    && (forall b: bool, k :: tree.Has(b, k) ==> Address(b, k) in flat && flat[Address(b, k)] == tree.At(b, k))
    && (forall p {:trigger AddressedBy(p, tree)} :: p in flat ==> AddressedBy(p, tree))
  }

  ghost predicate AddressedBy(p: string, tree: Tree)
    requires AllPrintable(tree)
  {
    exists b: bool, k :: tree.Has(b, k) && p == Address(b, k)
  }

  /** A path lookup hits exactly when the list holds the key. */
  lemma {:induction false} PathLookupExact(flat: map<string, Node>, tree: Tree, b: bool, key: InstanceKey)
    requires AllPrintable(tree) && SameNodes(flat, tree) && key.Printable()
    ensures Address(b, key) in flat <==> tree.Has(b, key)
  {
    if Address(b, key) in flat {
      assert AddressedBy(Address(b, key), tree);
      var b', k' :| tree.Has(b', k') && Address(b, key) == Address(b', k');
      AddressInjective(b, key, b', k');
    }
  }

  lemma {:induction false} PutNodes(tree: Tree, b: bool, key: InstanceKey, node: Node, c: bool, k: InstanceKey)
    ensures var t := tree.Put(b, key, node);
            && (t.Has(c, k) <==> tree.Has(c, k) || (c == b && k == key))
            && (t.Has(c, k) ==> t.At(c, k) == if c == b && k == key then node else tree.At(c, k))
  {
  }

  lemma {:induction false} PutAddressed(tree: Tree, b: bool, key: InstanceKey, node: Node, p: string)
    requires AllPrintable(tree) && AllPrintable(tree.Put(b, key, node)) && AddressedBy(p, tree)
    ensures AddressedBy(p, tree.Put(b, key, node))
  {
    var c, k :| tree.Has(c, k) && p == Address(c, k);
    PutNodes(tree, b, key, node, c, k);
  }

  /** Writing a node through its path writes the list entry with that key and no other. */
  lemma {:induction false} PathPutExact(flat: map<string, Node>, tree: Tree, b: bool, key: InstanceKey, node: Node)
    requires AllPrintable(tree) && SameNodes(flat, tree) && key.Printable()
    ensures AllPrintable(tree.Put(b, key, node))
    ensures SameNodes(flat[Address(b, key) := node], tree.Put(b, key, node))
  {
    hide Address;
    var path := Address(b, key);
    var tree' := tree.Put(b, key, node);
    forall c: bool, k ensures tree'.Has(c, k) ==> k.Printable() { PutNodes(tree, b, key, node, c, k); }
    var flat' := flat[path := node];
    forall c: bool, k | tree'.Has(c, k)
      ensures Address(c, k) in flat' && flat'[Address(c, k)] == tree'.At(c, k)
    {
      PutNodes(tree, b, key, node, c, k);
      if Address(c, k) == path { AddressInjective(c, k, b, key); }
    }
    forall p | p in flat' ensures AddressedBy(p, tree') {
      if p == path {
        PutNodes(tree, b, key, node, b, key);
      } else {
        PutAddressed(tree, b, key, node, p);
      }
    }
  }

  /** Unlinking through a path removes the list entry with that key and no other. */
  lemma {:induction false} PathUnlinkExact(flat: map<string, Node>, tree: Tree, b: bool, key: InstanceKey)
    requires AllPrintable(tree) && SameNodes(flat, tree) && tree.Has(b, key)
    ensures AllPrintable(tree.Unlink(b, key))
    ensures SameNodes(flat - {Address(b, key)}, tree.Unlink(b, key))
  {
    hide Address;
    var path := Address(b, key);
    var flat', tree' := flat - {path}, tree.Unlink(b, key);
    assert forall c: bool, k :: tree'.Has(c, k) <==> tree.Has(c, k) && !(c == b && k == key);
    assert AllPrintable(tree');
    forall c: bool, k | tree'.Has(c, k)
      ensures Address(c, k) in flat' && flat'[Address(c, k)] == tree'.At(c, k)
    {
      assert tree.Has(c, k) && tree'.At(c, k) == tree.At(c, k);
      if Address(c, k) == path { AddressInjective(c, k, b, key); }
    }
    forall p | p in flat' ensures AddressedBy(p, tree') {
      assert p in flat && AddressedBy(p, tree);
      var c, k :| tree.Has(c, k) && p == Address(c, k);
      assert tree'.Has(c, k);
    }
  }

  // ---------- A store of nodes addressed by paths only ----------

  /** A flat store of nodes, under their printed paths, that holds exactly the two lists. */
  ghost predicate Addressed(flat: map<string, Node>, alarms: map<InstanceKey, Node>, shelved: map<InstanceKey, Node>) {
    var tree := EMPTY_TREE.(alarms := alarms, shelved := shelved);
    AllPrintable(tree) && SameNodes(flat, tree)
  }

  lemma {:induction false} NothingAddressed()
    ensures Addressed(map[], map[], map[])
  {
  }

  /** Every node of the lists is found under its path. */
  lemma {:induction false} NodeAddressed(flat: map<string, Node>, tree: Tree, b: bool, key: InstanceKey)
    requires Addressed(flat, tree.alarms, tree.shelved) && tree.Has(b, key)
    ensures key.Printable() && Address(b, key) in flat && flat[Address(b, key)] == tree.At(b, key)
  {
    hide Address;
    var lists := EMPTY_TREE.(alarms := tree.alarms, shelved := tree.shelved);
    assert lists.Has(b, key) && lists.At(b, key) == tree.At(b, key);
  }

  lemma {:induction false} PutAddressedNode(flat: map<string, Node>, tree: Tree, b: bool, key: InstanceKey, node: Node)
    requires Addressed(flat, tree.alarms, tree.shelved) && key.Printable()
    ensures var t := tree.Put(b, key, node); Addressed(flat[Address(b, key) := node], t.alarms, t.shelved)
  {
    hide Address, SameNodes, AllPrintable;
    PathPutExact(flat, EMPTY_TREE.(alarms := tree.alarms, shelved := tree.shelved), b, key, node);
  }

  lemma {:induction false} UnlinkAddressedNode(flat: map<string, Node>, tree: Tree, b: bool, key: InstanceKey)
    requires Addressed(flat, tree.alarms, tree.shelved) && tree.Has(b, key)
    ensures key.Printable()
    ensures var t := tree.Unlink(b, key); Addressed(flat - {Address(b, key)}, t.alarms, t.shelved)
  {
    hide Address, SameNodes, AllPrintable, Addressed;
    NodeAddressed(flat, tree, b, key);
    UnlinkLists(flat, tree.alarms, tree.shelved, b, key);
  }

  lemma {:induction false} UnlinkLists(flat: map<string, Node>, alarms: map<InstanceKey, Node>,
                                       shelved: map<InstanceKey, Node>, b: bool, key: InstanceKey)
    requires Addressed(flat, alarms, shelved) && key in (if b then shelved else alarms) && key.Printable()
    ensures Addressed(flat - {Address(b, key)}, if b then alarms else alarms - {key}, if b
            then shelved - {key} else shelved)
  {
    hide Address, SameNodes, AllPrintable;
    PathUnlinkExact(flat, EMPTY_TREE.(alarms := alarms, shelved := shelved), b, key);
  }
}
