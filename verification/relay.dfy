/** The background relay (background.js): the only context that is
    always running. Each listener becomes one case of a dispatch from an
    event to the effects it issues. A failed send is swallowed, so it
    leaves nothing beyond the send itself. */
module Relay {
  import opened Types

  /** The page every tab the relay opens shows. */
  const ExpandedPage := "expanded.html"

  datatype Event =
    | Installed(reason: string)
    | Received(msg: Message)
    | StorageEvent(changes: Changes, namespace: string)

  /** The effects of one event, and whether the listener returned `true`
      (which only the message listener does, always). */
  datatype Reaction = Reaction(effects: seq<Effect>, returnsTrue: bool)

  function Dispatch(e: Event): (r: Reaction)
    ensures r.returnsTrue <==> e.Received?
    ensures e.Installed? ==> (r.effects == [OpenTab(ExpandedPage)] <==> e.reason == "install")
    ensures e.Installed? && e.reason != "install" ==> r.effects == []
    ensures e.Received? && e.msg.SyncState? ==> r.effects == [Send(e.msg)]
    ensures e.Received? && e.msg.OpenExpanded? ==> r.effects == [OpenTab(ExpandedPage)]
    ensures e.Received? && (e.msg.StorageChanged? || e.msg.Other?) ==> r.effects == []
    ensures e.StorageEvent? && e.namespace == "local" ==> r.effects == [Send(StorageChanged(e.changes))]
    ensures e.StorageEvent? && e.namespace != "local" ==> r.effects == []
    ensures |r.effects| <= 1
    ensures forall i :: 0 <= i < |r.effects| ==> r.effects[i].Send? || r.effects[i].OpenTab?
  {
    match e
    case Installed(reason) =>
      Reaction(if reason == "install" then [OpenTab(ExpandedPage)] else [], false)
    case Received(m) =>
      var effects := match m
        case SyncState(_) => [Send(m)]
        case OpenExpanded => [OpenTab(ExpandedPage)]
        case _ => [];
      Reaction(effects, true)
    case StorageEvent(changes, namespace) =>
      Reaction(if namespace == "local" then [Send(StorageChanged(changes))] else [], false)
  }

  /** The relay never writes the store, so relaying cannot itself cause
      another storage notification. */
  lemma RelayLeavesStoreAlone(e: Event, store: Store)
    ensures ApplyEffects(store, Dispatch(e).effects) == store
  {
    var effs := Dispatch(e).effects;
    if |effs| == 1 {
      assert effs[1..] == [];
    }
  }
}
