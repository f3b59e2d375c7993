/** The daemon as a whole: its handlers, called in any order that the datastores around it allow. */
module Service {
  import opened Alarms
  import opened Inventories
  import opened Trees
  import opened Machine
  import opened Mirror
  import opened Runs
  import opened Daemons

  /** How many events of a run change what is published. */
  function Changing(s: State, es: seq<Event>): nat
    requires IsRun(s, es)
    decreases |es|
  {
    if es == [] then 0
    else Changing(s, Front(es)) + if Render(After(s, es)) == Render(After(s, Front(es))) then 0 else 1
  }

  /** Calls the handler subscribed to an event. */
  method Handle(d: Daemon, ev: Event)
    requires d.Valid() && Enabled(d.Abs(), ev)
    modifies d
    ensures d.Valid() && d.Abs() == Step(old(d.Abs()), ev)
    ensures d.pushes == old(d.pushes) + if d.edit == old(d.edit) then 0 else 1
  {
    hide Inv, Render, Submitted, Purged, Compressed, Reconfigured;
    match ev {
      case Submit(r, now) => var _ := d.SubmitAlarm(r, now);
      case Purge(inShelf, input, now, filterNow) => var _ := d.PurgeAlarms(inShelf, input, now, filterNow);
      case Compress(inShelf, input) => var _ := d.CompressAlarms(inShelf, input);
      case Configure(batch, rules, now) => d.ControlChanged(batch, rules, now);
      case InventoryWrite(store) => d.ExternalInventoryWrite(store);
      case InventoryCallback => d.InventoryChanged();
    }
  }

  /** Over every run the incrementally edited tree is the tree rendered from scratch, it mirrors the cache leaf by leaf
      and history by history, clients read exactly that tree, it is pushed once at the start and once for each event
      that changes it, and a store that is only ever edited through printed paths holds its nodes. */
  method Serve(now: Time, shelfNow: Time, store: seq<InventoryEntry>, es: seq<Event>) returns (d: Daemon)
    requires now <= shelfNow && IsRun(Initial(now, shelfNow, store), es)
    ensures fresh(d) && d.Valid()
    ensures d.Abs() == After(Initial(now, shelfNow, store), es)
    ensures d.published == d.edit == Render(After(Initial(now, shelfNow, store), es))
    ensures TreeMirrors(d.published, d.alarms, d.alarmListLastChanged, d.shelfListLastChanged)
    ensures Addressed(d.paths, d.published.alarms, d.published.shelved)
    ensures d.pushes == 1 + Changing(Initial(now, shelfNow, store), es)
  {
    hide Inv, Render, Step, Enabled, Initial, TreeMirrors, Addressed;
    ghost var s0 := Initial(now, shelfNow, store);
    d := new Daemon(now, shelfNow, store);
    assert es[..|es|] == es;
    PrefixIsRun(s0, es, 0);
    for i := 0 to |es|
      invariant fresh(d) && d.Valid()
      invariant IsRun(s0, es[..i]) && d.Abs() == After(s0, es[..i])
      invariant d.pushes == 1 + Changing(s0, es[..i])
    {
      PrefixIsRun(s0, es, i + 1);
      assert Front(es[..i + 1]) == es[..i] && Last(es[..i + 1]) == es[i];
      Handle(d, es[i]);
    }
    RenderMirrors(d.Abs());
  }

  /** What comes first in a run is a run. */
  lemma {:induction false} PrefixIsRun(s: State, es: seq<Event>, n: nat)
    requires IsRun(s, es) && n <= |es|
    ensures IsRun(s, es[..n])
    decreases |es|
  {
    hide Enabled, Step;
    if n == |es| {
      assert es[..n] == es;
    } else {
      assert Front(es)[..n] == es[..n];
      PrefixIsRun(s, Front(es), n);
    }
  }
}
