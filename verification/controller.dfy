/** The per-context wallet controller shared by the popup and the expanded
    view (src/PopupApp.tsx and src/ExpandedApp.tsx hold two copies of it).
    Each handler is one atomic step: the awaits between its store writes
    are flattened, and its effects are listed in the order it issues them. */
module Controller {
  import opened Types
  import opened WalletList

  /** Which page runs the controller. The popup reacts only to
      STORAGE_CHANGED and has no dApp flow. */
  datatype Context = Popup | Expanded

  /** The in-memory mirror a context keeps. */
  datatype State = State(wallets: seq<Wallet>, active: Option<Wallet>, isLocked: bool)

  /** A new state plus the effects issued on the way to it. */
  datatype Step = Step(state: State, effects: seq<Effect>)

  /** The state a context starts from before its first load. */
  const Initial := State([], None, false)

  /** The lock rule at load: a truthy password hash and an `isWalletLocked`
      value other than exactly "false" (absence included). */
  predicate LocksOnLoad(store: Store) {
    Truthy(Get(store, PasswordHashKey)) && Get(store, LockedKey) != Some("false")
  }

  /** The stored wallet list as load sees it: `None` when the key is
      missing or empty, or when the value does not parse. */
  function StoredWallets(store: Store, codec: Codec): (r: Option<seq<Wallet>>)
    ensures !Truthy(Get(store, WalletsKey)) ==> r.None?
    ensures Truthy(Get(store, WalletsKey)) ==> r == codec.parse(store[WalletsKey])
  {
    var raw := Get(store, WalletsKey);
    if Truthy(raw) then codec.parse(raw.value) else None
  }

  /** loadWalletData: reconcile the mirror with the store. It only ever
      overwrites: locking returns early without touching the wallets, an
      unlocked store never resets `isLocked`, and a missing or unparsable
      list leaves the state as it was. */
  function Load(s: State, store: Store, codec: Codec): (r: State)
    ensures r.isLocked <==> s.isLocked || LocksOnLoad(store)
    ensures LocksOnLoad(store) ==> r.wallets == s.wallets && r.active == s.active
    ensures !LocksOnLoad(store) && StoredWallets(store, codec).None? ==> r == s
    ensures !LocksOnLoad(store) && StoredWallets(store, codec).Some? ==>
      var ws := StoredWallets(store, codec).value;
      && r.wallets == ws
      && (|ws| == 0 ==> r.active == s.active)
      && (|ws| > 0 ==>
            && r.active.Some? && r.active.value in ws
            && r.active.value == SelectActive(ws, Get(store, ActiveWalletIdKey)))
  {
    if LocksOnLoad(store) then s.(isLocked := true)
    else
      match StoredWallets(store, codec)
      case None => s
      case Some(ws) =>
        if |ws| > 0 then s.(wallets := ws, active := Some(SelectActive(ws, Get(store, ActiveWalletIdKey))))
        else s.(wallets := ws)
  }

  /** handleUnlock: the decrypted list comes from the unlock collaborator,
      and the active id is read from the page's localStorage, a different
      store from the one `Load` reads. An empty list leaves `active` alone. */
  function Unlock(s: State, unlocked: seq<Wallet>, localActiveId: Option<string>): (r: State)
    ensures r.wallets == unlocked && !r.isLocked
    ensures |unlocked| == 0 ==> r.active == s.active
    ensures |unlocked| > 0 ==> r.active.Some? && r.active.value in unlocked
    ensures |unlocked| > 0 ==> r.active.value == SelectActive(unlocked, localActiveId)
  {
    if |unlocked| > 0 then State(unlocked, Some(SelectActive(unlocked, localActiveId)), false)
    else s.(wallets := unlocked, isLocked := false)
  }

  /** addWallet. A known address selects the stored entry (not the
      argument), persists only the active id and broadcasts nothing. A new
      address is appended, becomes active, and is persisted and broadcast. */
  function AddWallet(s: State, w: Wallet, codec: Codec): (r: Step)
    ensures r.state.isLocked == s.isLocked
    ensures r.state.active.Some? && r.state.active.value.address == w.address
    ensures HasAddress(r.state.wallets, w.address)
    ensures DistinctAddresses(s.wallets) ==> DistinctAddresses(r.state.wallets)
    ensures HasAddress(s.wallets, w.address) ==>
      && r.state.wallets == s.wallets
      && r.state.active.value in s.wallets
      && FirstWithAddress(s.wallets, w.address, r.state.active.value)
      && r.effects == [StoreSet(ActiveWalletIdKey, w.address)]
    ensures !HasAddress(s.wallets, w.address) ==>
      && |r.state.wallets| == |s.wallets| + 1
      && r.state.wallets[..|s.wallets|] == s.wallets
      && r.state.wallets[|s.wallets|] == w
      && r.state.active == Some(w)
      && r.effects == [StoreSet(WalletsKey, codec.stringify(r.state.wallets)),
                       StoreSet(ActiveWalletIdKey, w.address),
                       Send(SyncState(Patch(Some(r.state.wallets), Some(w), None)))]
  {
    match Find(s.wallets, w.address)
    case Some(existing) =>
      Step(s.(active := Some(existing)), [StoreSet(ActiveWalletIdKey, existing.address)])
    case None =>
      var updated := s.wallets + [w];
      assert updated[|s.wallets|] == w;
      assert DistinctAddresses(s.wallets) ==> DistinctAddresses(updated) by {
        if DistinctAddresses(s.wallets) { AppendNewKeepsDistinct(s.wallets, w); }
      }
      Step(s.(wallets := updated, active := Some(w)),
           [StoreSet(WalletsKey, codec.stringify(updated)),
            StoreSet(ActiveWalletIdKey, w.address),
            Send(SyncState(Patch(Some(updated), Some(w), None)))])
  }

  /** switchWallet: selects the argument without checking membership,
      persists the active id and broadcasts the new active wallet. */
  function SwitchWallet(s: State, w: Wallet): (r: Step)
    ensures r.state.wallets == s.wallets && r.state.isLocked == s.isLocked
    ensures r.state.active == Some(w)
    ensures !WritesKey(r.effects, WalletsKey)
    ensures r.effects == [StoreSet(ActiveWalletIdKey, w.address), Send(SyncState(Patch(None, Some(w), None)))]
  {
    Step(s.(active := Some(w)),
         [StoreSet(ActiveWalletIdKey, w.address), Send(SyncState(Patch(None, Some(w), None)))])
  }

  /** Whether removing `w` clears the active wallet: only when the active
      wallet had that address and nothing is left. */
  predicate ClearsActive(s: State, w: Wallet) {
    s.active.Some? && s.active.value.address == w.address && |RemoveByAddress(s.wallets, w.address)| == 0
  }

  /** removeWallet: drops every wallet with the address, always persists
      and broadcasts the remaining list, and clears the active wallet (and
      its stored id) only when it was the removed one and the list is now
      empty; otherwise `active` is left as it was, even when it was removed. */
  function RemoveWallet(s: State, w: Wallet, codec: Codec): (r: Step)
    ensures r.state.wallets == RemoveByAddress(s.wallets, w.address)
    ensures forall x :: x in r.state.wallets <==> x in s.wallets && x.address != w.address
    ensures forall x :: multiset(r.state.wallets)[x] == (if x.address == w.address then 0 else multiset(s.wallets)[x])
    ensures IsSubsequence(r.state.wallets, s.wallets)
    ensures !HasAddress(r.state.wallets, w.address)
    ensures |r.state.wallets| <= |s.wallets|
    ensures r.state.isLocked == s.isLocked
    ensures ClearsActive(s, w) ==> r.state.active.None?
    ensures !ClearsActive(s, w) ==> r.state.active == s.active
    ensures ClearsActive(s, w) ==>
      r.effects == [StoreSet(WalletsKey, codec.stringify([])), StoreRemove(ActiveWalletIdKey),
                    Send(SyncState(Patch(Some([]), None, None)))]
    ensures !ClearsActive(s, w) ==>
      r.effects == [StoreSet(WalletsKey, codec.stringify(r.state.wallets)),
                    Send(SyncState(Patch(Some(r.state.wallets), None, None)))]
  {
    var updated := RemoveByAddress(s.wallets, w.address);
    RemoveKeepsOrder(s.wallets, w.address);
    RemoveKeepsCounts(s.wallets, w.address);
    assert !HasAddress(updated, w.address) by {
      forall i | 0 <= i < |updated| ensures updated[i].address != w.address {
        assert updated[i] in updated;
      }
    }
    if ClearsActive(s, w) then
      Step(s.(wallets := updated, active := None),
           [StoreSet(WalletsKey, codec.stringify(updated)), StoreRemove(ActiveWalletIdKey),
            Send(SyncState(Patch(Some(updated), None, None)))])
    else
      Step(s.(wallets := updated),
           [StoreSet(WalletsKey, codec.stringify(updated)),
            Send(SyncState(Patch(Some(updated), None, None)))])
  }

  /** disconnectWallet: forgets the in-memory wallets and locks, but writes
      only the lock flag, so the stored wallet list survives. */
  function Disconnect(s: State): (r: Step)
    ensures r.state.wallets == [] && r.state.active.None? && r.state.isLocked
    ensures !WritesKey(r.effects, WalletsKey) && !WritesKey(r.effects, ActiveWalletIdKey)
    ensures r.effects == [StoreSet(LockedKey, "true"), Send(SyncState(Patch(None, None, Some(true))))]
  {
    Step(State([], None, true), [StoreSet(LockedKey, "true"), Send(SyncState(Patch(None, None, Some(true))))])
  }

  /** openExpanded (popup only): asks the relay to open the expanded view. */
  function OpenExpandedView(s: State): (r: Step)
    ensures r.state == s
    ensures r.effects == [Send(OpenExpanded)]
  {
    Step(s, [Send(OpenExpanded)])
  }

  /** The user-triggered mutations of a context. */
  datatype Op = AddOp(w: Wallet) | SwitchOp(w: Wallet) | RemoveOp(w: Wallet) | DisconnectOp

  function Perform(s: State, op: Op, codec: Codec): Step {
    match op
    case AddOp(w) => AddWallet(s, w, codec)
    case SwitchOp(w) => SwitchWallet(s, w)
    case RemoveOp(w) => RemoveWallet(s, w, codec)
    case DisconnectOp => Disconnect(s)
  }

  /** The active wallet, when there is one, is a member of the list. */
  predicate ActiveInList(s: State) {
    s.active.None? || s.active.value in s.wallets
  }

  /** Adding and disconnecting always keep the active wallet in the list;
      switching keeps it there exactly when the argument is a member, and
      removing exactly when the active wallet was not the one removed or
      nothing is left. */
  lemma OpsKeepActiveInList(s: State, op: Op, codec: Codec)
    requires ActiveInList(s)
    ensures ActiveInList(Perform(s, op, codec).state) <==>
      && (op.SwitchOp? ==> op.w in s.wallets)
      && (op.RemoveOp? ==> s.active.None? || s.active.value.address != op.w.address || ClearsActive(s, op.w))
  {
    var r := Perform(s, op, codec).state;
    match op
    case AddOp(w) =>
      if !HasAddress(s.wallets, w.address) {
        assert r.wallets[|s.wallets|] == w;
      }
    case SwitchOp(w) =>
    case RemoveOp(w) =>
      if s.active.Some? && s.active.value.address == w.address && !ClearsActive(s, w) {
        assert r.active == s.active;
        assert s.active.value !in r.wallets;
      }
    case DisconnectOp =>
  }

  /** The SYNC_STATE merge with the source's presence rules: a wallet list
      is applied whenever present (even empty), an active wallet only when
      non-null (so a patch never clears it), the lock flag whenever defined
      (even `false`). */
  function Merge(s: State, p: Patch): (r: State)
    ensures r.wallets == (if p.wallets.Some? then p.wallets.value else s.wallets)
    ensures r.active.None? ==> s.active.None?
    ensures p.activeWallet.Some? ==> r.active == p.activeWallet
    ensures p.activeWallet.None? ==> r.active == s.active
    ensures r.isLocked == (if p.isLocked.Some? then p.isLocked.value else s.isLocked)
  {
    State(
      match p.wallets case Some(ws) => ws case None => s.wallets,
      match p.activeWallet case Some(a) => Some(a) case None => s.active,
      match p.isLocked case Some(b) => b case None => s.isLocked)
  }

  /** Delivering the same patch twice is the same as delivering it once,
      so a sender that receives its own rebroadcast is unaffected. */
  lemma MergeIdempotent(s: State, p: Patch)
    ensures Merge(Merge(s, p), p) == Merge(s, p)
  {
  }

  /** The message listener of a context. The popup reloads on
      STORAGE_CHANGED and ignores everything else; the expanded view also
      merges SYNC_STATE patches. Neither produces effects. */
  function HandleMessage(ctx: Context, s: State, m: Message, store: Store, codec: Codec): (r: State)
    ensures m.StorageChanged? ==> r == Load(s, store, codec)
    ensures ctx == Popup && !m.StorageChanged? ==> r == s
    ensures ctx == Expanded && m.SyncState? ==> r == Merge(s, m.data)
    ensures m.OpenExpanded? || m.Other? ==> r == s
  {
    match m
    case StorageChanged(_) => Load(s, store, codec)
    case SyncState(p) => if ctx == Expanded then Merge(s, p) else s
    case _ => s
  }
}
