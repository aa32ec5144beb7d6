/** Properties that span components: a handler's store writes read back
    by a later load, a handler's broadcast relayed and merged by another
    context, and the dApp hand-off from launch query to redirect. */
module Scenarios {
  import opened Types
  import opened WalletList
  import opened Controller
  import opened QueryUrl
  import opened DAppRequests
  import opened Relay

  /** The messages of the send effects of a list, in order. */
  function Sent(effects: seq<Effect>): (r: seq<Message>)
    ensures |r| <= |effects|
    decreases |effects|
  {
    if |effects| == 0 then []
    else (if effects[0].Send? then [effects[0].msg] else []) + Sent(effects[1..])
  }

  /** What the relay rebroadcasts for the messages a page sends it. */
  function Relayed(msgs: seq<Message>): seq<Message>
    decreases |msgs|
  {
    if |msgs| == 0 then [] else Sent(Dispatch(Received(msgs[0])).effects) + Relayed(msgs[1..])
  }

  /** A context receiving a sequence of messages, one step each. */
  function DeliverAll(ctx: Context, s: State, msgs: seq<Message>, store: Store, codec: Codec): State
    decreases |msgs|
  {
    if |msgs| == 0 then s else DeliverAll(ctx, HandleMessage(ctx, s, msgs[0], store, codec), msgs[1..], store, codec)
  }

  /** The broadcast of each mutation as the relay rebroadcasts it: exactly
      the messages the page sent, which for every mutation but adding a
      known address is one SYNC_STATE carrying the mutation's patch. */
  lemma RelayedBroadcast(s: State, op: Op, codec: Codec)
    ensures Relayed(Sent(Perform(s, op, codec).effects)) == Sent(Perform(s, op, codec).effects)
    ensures op.AddOp? && HasAddress(s.wallets, op.w.address) ==> Relayed(Sent(Perform(s, op, codec).effects)) == []
    ensures op.AddOp? && !HasAddress(s.wallets, op.w.address) ==>
      Relayed(Sent(Perform(s, op, codec).effects)) == [SyncState(Patch(Some(s.wallets + [op.w]), Some(op.w), None))]
    ensures op.SwitchOp? ==> Relayed(Sent(Perform(s, op, codec).effects)) == [SyncState(Patch(None, Some(op.w), None))]
    ensures op.RemoveOp? ==>
      Relayed(Sent(Perform(s, op, codec).effects)) == [SyncState(Patch(Some(RemoveByAddress(s.wallets, op.w.address)), None, None))]
    ensures op.DisconnectOp? ==> Relayed(Sent(Perform(s, op, codec).effects)) == [SyncState(Patch(None, None, Some(true)))]
  {
    var effs := Perform(s, op, codec).effects;
    if |effs| == 1 {
      assert Sent(effs) == [];
    } else if |effs| == 2 {
      assert Sent(effs[1..]) == [effs[1].msg];
      assert Sent(effs) == [effs[1].msg];
      var m := effs[1].msg;
      assert Relayed([m]) == Sent([Send(m)]) + Relayed([]);
    } else {
      assert |effs| == 3;
      assert Sent(effs[2..]) == [effs[2].msg];
      assert Sent(effs[1..]) == Sent(effs[2..]);
      assert Sent(effs) == [effs[2].msg];
      var m := effs[2].msg;
      assert Relayed([m]) == Sent([Send(m)]) + Relayed([]);
    }
  }

  /** A context receiving its own relayed broadcast is unaffected. */
  lemma SelfDeliveryHarmless(s: State, op: Op, codec: Codec, store: Store)
    ensures var st := Perform(s, op, codec);
            DeliverAll(Expanded, st.state, Relayed(Sent(st.effects)), store, codec) == st.state
  {
    RelayedBroadcast(s, op, codec);
  }

  /** An expanded view that mirrored the sender before the mutation
      mirrors it again after the relayed broadcast, for a switch, for an
      add of a new address, and for a removal that does not clear the
      active wallet. */
  lemma BroadcastConverges(s: State, op: Op, codec: Codec, store: Store)
    requires op.SwitchOp? || (op.AddOp? && !HasAddress(s.wallets, op.w.address)) || (op.RemoveOp? && !ClearsActive(s, op.w))
    ensures var st := Perform(s, op, codec);
            DeliverAll(Expanded, s, Relayed(Sent(st.effects)), store, codec) == st.state
    ensures var st := Perform(s, op, codec);
            DeliverAll(Expanded, s, Sent(st.effects) + Relayed(Sent(st.effects)), store, codec) == st.state
  {
    RelayedBroadcast(s, op, codec);
    var st := Perform(s, op, codec);
    var m := Relayed(Sent(st.effects))[0];
    assert Relayed(Sent(st.effects)) == [m];
    var once := HandleMessage(Expanded, s, m, store, codec);
    assert DeliverAll(Expanded, s, [m], store, codec) == once;
    MergeIdempotent(s, m.data);
    assert [m] + [m] == [m, m] && [m, m][1..] == [m];
    assert DeliverAll(Expanded, s, [m, m], store, codec) == DeliverAll(Expanded, once, [m], store, codec);
  }

  /** The popup ignores every SYNC_STATE broadcast. */
  lemma PopupIgnoresBroadcasts(s: State, y: State, op: Op, codec: Codec, store: Store)
    ensures DeliverAll(Popup, y, Relayed(Sent(Perform(s, op, codec).effects)), store, codec) == y
  {
    RelayedBroadcast(s, op, codec);
  }

  /** Two cases where the broadcast does not converge: after removing the
      only wallet, a mirror keeps the removed wallet active (a patch cannot
      clear it); after a disconnect, a mirror is locked but keeps its
      wallets in memory. */
  lemma BroadcastDivergence(codec: Codec, store: Store)
    ensures var a := Wallet("a", None, "");
            var s := State([a], Some(a), false);
            var st := Perform(s, RemoveOp(a), codec);
            && st.state.active.None?
            && DeliverAll(Expanded, s, Relayed(Sent(st.effects)), store, codec).active == Some(a)
    ensures var a := Wallet("a", None, "");
            var s := State([a], Some(a), false);
            var st := Perform(s, DisconnectOp, codec);
            && st.state.wallets == []
            && DeliverAll(Expanded, s, Relayed(Sent(st.effects)), store, codec) == s.(isLocked := true)
  {
    var a := Wallet("a", None, "");
    var s := State([a], Some(a), false);
    assert RemoveByAddress([a], "a") == [];
    RelayedBroadcast(s, RemoveOp(a), codec);
    RelayedBroadcast(s, DisconnectOp, codec);
  }

  /** Removing the active wallet while others remain leaves it active in
      memory although it is no longer in the list. */
  lemma RemoveCanLeaveDanglingActive(codec: Codec)
    ensures var a := Wallet("a", None, "");
            var b := Wallet("b", None, "");
            var r := RemoveWallet(State([a, b], Some(a), false), a, codec).state;
            r.active == Some(a) && a !in r.wallets && r.wallets == [b]
  {
    var a := Wallet("a", None, "");
    var b := Wallet("b", None, "");
    assert RemoveByAddress([b], "a") == [b] by {
      assert [b][1..] == [];
    }
    assert [a, b][1..] == [b];
  }

  /** Write-through: adding a new wallet and then reloading from the store
      (in this context or in any other one) reproduces the new list and
      the new active wallet. A wallet whose address is the empty string
      would not be reselected, since an empty active id counts as missing. */
  lemma AddThenReloadAgrees(s: State, w: Wallet, codec: Codec, store: Store, t: State)
    requires Faithful(codec)
    requires !LocksOnLoad(store)
    requires !HasAddress(s.wallets, w.address) && w.address != ""
    ensures var st := AddWallet(s, w, codec);
            var loaded := Load(t, ApplyEffects(store, st.effects), codec);
            loaded.wallets == st.state.wallets && loaded.active == st.state.active
  {
    var st := AddWallet(s, w, codec);
    var ws := s.wallets + [w];
    ApplyThree(store, StoreSet(WalletsKey, codec.stringify(ws)), StoreSet(ActiveWalletIdKey, w.address),
               Send(SyncState(Patch(Some(ws), Some(w), None))));
    var store' := ApplyEffects(store, st.effects);
    assert Get(store', PasswordHashKey) == Get(store, PasswordHashKey);
    assert Get(store', LockedKey) == Get(store, LockedKey);
    assert StoredWallets(store', codec) == Some(ws);
    var r := SelectActive(ws, Some(w.address));
    assert ws[|s.wallets|] == w;
    assert HasAddress(ws, w.address);
    var i :| 0 <= i < |ws| && ws[i] == r && r.address == w.address && !HasAddress(ws[..i], w.address);
    assert i == |s.wallets|;
  }

  /** Switching to a member and reloading from a store that held the same
      list selects the same wallet. */
  lemma SwitchThenReloadAgrees(s: State, w: Wallet, codec: Codec, store: Store, t: State)
    requires Faithful(codec)
    requires !LocksOnLoad(store)
    requires Get(store, WalletsKey) == Some(codec.stringify(s.wallets))
    requires DistinctAddresses(s.wallets) && w in s.wallets && w.address != ""
    ensures var st := SwitchWallet(s, w);
            var loaded := Load(t, ApplyEffects(store, st.effects), codec);
            loaded.wallets == st.state.wallets && loaded.active == st.state.active
  {
    var st := SwitchWallet(s, w);
    ApplyTwo(store, st.effects[0], st.effects[1]);
    var store' := ApplyEffects(store, st.effects);
    assert store' == store[ActiveWalletIdKey := w.address];
    assert Get(store', LockedKey) == Get(store, LockedKey);
    assert Get(store', PasswordHashKey) == Get(store, PasswordHashKey);
    assert StoredWallets(store', codec) == Some(s.wallets);
    SelectMember(s.wallets, w);
  }

  /** Removing and reloading gives the same list; but when the removed
      wallet was the active one and others remain, the stored id still
      names it, so the reload falls back to the first remaining wallet
      while the in-memory active wallet is the removed one. */
  lemma RemoveThenReload(s: State, w: Wallet, codec: Codec, store: Store, t: State)
    requires Faithful(codec)
    requires !LocksOnLoad(store)
    requires s.active == Some(w) && Get(store, ActiveWalletIdKey) == Some(w.address)
    ensures var st := RemoveWallet(s, w, codec);
            var loaded := Load(t, ApplyEffects(store, st.effects), codec);
            && loaded.wallets == st.state.wallets
            && (|st.state.wallets| > 0 ==> loaded.active == Some(st.state.wallets[0]) && st.state.active == Some(w))
  {
    var st := RemoveWallet(s, w, codec);
    var ws := st.state.wallets;
    var store' := ApplyEffects(store, st.effects);
    if ClearsActive(s, w) {
      ApplyThree(store, st.effects[0], st.effects[1], st.effects[2]);
      assert store' == (store[WalletsKey := codec.stringify(ws)] - {ActiveWalletIdKey});
    } else {
      ApplyTwo(store, st.effects[0], st.effects[1]);
      assert store' == store[WalletsKey := codec.stringify(ws)];
      assert Get(store', ActiveWalletIdKey) == Some(w.address);
    }
    assert Get(store', LockedKey) == Get(store, LockedKey);
    assert Get(store', PasswordHashKey) == Get(store, PasswordHashKey);
    assert StoredWallets(store', codec) == Some(ws);
  }

  /** Disconnect writes only the lock flag: the stored list and active id
      survive, a password-protected store now loads locked, and a store
      without a password loads exactly as it did before. */
  lemma DisconnectKeepsStoredWallets(s: State, codec: Codec, store: Store, t: State)
    ensures var store' := ApplyEffects(store, Disconnect(s).effects);
            && Get(store', WalletsKey) == Get(store, WalletsKey)
            && Get(store', ActiveWalletIdKey) == Get(store, ActiveWalletIdKey)
            && StoredWallets(store', codec) == StoredWallets(store, codec)
            && Get(store', LockedKey) == Some("true")
            && (LocksOnLoad(store') <==> Truthy(Get(store, PasswordHashKey)))
            && (!Truthy(Get(store, PasswordHashKey)) ==> Load(t, store', codec) == Load(t, store, codec))
  {
    var effs := Disconnect(s).effects;
    ApplyTwo(store, effs[0], effs[1]);
    var store' := ApplyEffects(store, effs);
    assert store' == store[LockedKey := "true"];
  }

  /** The load tie-break on a stored list with distinct addresses: a
      stored id naming a member selects it; an id naming nobody selects
      the first wallet. */
  lemma LoadTieBreak(ws: seq<Wallet>, codec: Codec, store: Store, t: State)
    requires Faithful(codec)
    requires !LocksOnLoad(store)
    requires Get(store, WalletsKey) == Some(codec.stringify(ws))
    requires DistinctAddresses(ws) && |ws| > 0
    requires Get(store, ActiveWalletIdKey).Some?
    ensures var id := store[ActiveWalletIdKey];
            var r := Load(t, store, codec);
            && r.wallets == ws
            && (forall w :: w in ws && w.address == id && id != "" ==> r.active == Some(w))
            && (!HasAddress(ws, id) ==> r.active == Some(ws[0]))
  {
    var id := store[ActiveWalletIdKey];
    assert StoredWallets(store, codec) == Some(ws);
    forall w | w in ws && w.address == id && id != "" ensures Load(t, store, codec).active == Some(w) {
      SelectMember(ws, w);
    }
  }

  /** Every storage change in the `local` area makes every open page,
      popup or expanded, reload from the store. */
  lemma StorageChangeReloadsEveryContext(changes: Changes, ctx: Context, y: State, store: Store, codec: Codec)
    ensures var msgs := Sent(Dispatch(StorageEvent(changes, "local")).effects);
            && msgs == [StorageChanged(changes)]
            && DeliverAll(ctx, y, msgs, store, codec) == Load(y, store, codec)
  {
    var effs := Dispatch(StorageEvent(changes, "local")).effects;
    assert Sent(effs) == [StorageChanged(changes)];
  }

  /** The popup's "open full view" reaches the relay as exactly one tab
      open and no broadcast. */
  lemma OpenExpandedOpensOneTab(s: State)
    ensures var msgs := Sent(OpenExpandedView(s).effects);
            && msgs == [OpenExpanded]
            && Dispatch(Received(msgs[0])).effects == [OpenTab(ExpandedPage)]
            && Relayed(msgs) == []
  {
    var msgs := Sent(OpenExpandedView(s).effects);
    assert msgs == [OpenExpanded];
    assert Relayed(msgs) == Sent([OpenTab(ExpandedPage)]) + Relayed([]);
  }

  /** decodeURIComponent leaves text without a '%' unchanged. */
  ghost predicate FixesPlainText(decode: string -> string) {
    forall s :: '%' !in s ==> decode(s) == s
  }

  /** The launch query of a send request, as URLSearchParams yields it. */
  const ExampleSendQuery: Query := [
    ("action", "send"), ("to", "abc"), ("amount", "5"),
    ("success_url", "https://x.test/ok"), ("failure_url", "https://x.test/fail"),
    ("origin", "https://dapp.test")]

  /** A send query whose five required fields are present and whose
      optional fields are absent decodes to exactly those fields. */
  lemma SendFieldsDecode(q: Query, decode: string -> string, to: string, amount: string,
                         origin: string, ok: string, fail: string)
    requires ParamValue(q, "action") == Some("send")
    requires to != "" && amount != "" && origin != "" && ok != "" && fail != ""
    requires ParamValue(q, "to") == Some(to) && ParamValue(q, "amount") == Some(amount)
    requires ParamValue(q, "origin") == Some(origin)
    requires ParamValue(q, "success_url") == Some(ok) && ParamValue(q, "failure_url") == Some(fail)
    requires ParamValue(q, "app_name").None? && ParamValue(q, "message").None?
    ensures DecodeLaunch(q, decode)
         == Transaction(TransactionRequest(decode(to), decode(amount), decode(origin), decode(ok),
                                           decode(fail), None, None))
  {
  }

  /** What URLSearchParams.get reads from the example query. */
  lemma ExampleRequiredFields()
    ensures var q := ExampleSendQuery;
      && ParamValue(q, "action") == Some("send") && ParamValue(q, "to") == Some("abc")
      && ParamValue(q, "amount") == Some("5") && ParamValue(q, "success_url") == Some("https://x.test/ok")
      && ParamValue(q, "failure_url") == Some("https://x.test/fail")
      && ParamValue(q, "origin") == Some("https://dapp.test")
  {
    var q := ExampleSendQuery;
    assert "failure_url"[0] != "success_url"[0];
    FirstPairDecides(q, "action", 0);
    FirstPairDecides(q, "to", 1);
    FirstPairDecides(q, "amount", 2);
    FirstPairDecides(q, "success_url", 3);
    FirstPairDecides(q, "failure_url", 4);
    FirstPairDecides(q, "origin", 5);
  }

  lemma ExampleOptionalFields()
    ensures ParamValue(ExampleSendQuery, "app_name").None? && ParamValue(ExampleSendQuery, "message").None?
  {
    AbsentKey(ExampleSendQuery, "app_name");
    AbsentKey(ExampleSendQuery, "message");
  }

  lemma ExampleFieldsArePlain(decode: string -> string)
    requires FixesPlainText(decode)
    ensures && decode("abc") == "abc" && decode("5") == "5"
            && decode("https://x.test/ok") == "https://x.test/ok"
            && decode("https://x.test/fail") == "https://x.test/fail"
            && decode("https://dapp.test") == "https://dapp.test"
  {
    assert '%' !in "abc" && '%' !in "5";
    assert '%' !in "https://x.test/ok" && '%' !in "https://x.test/fail" && '%' !in "https://dapp.test";
  }

  /** A send launch query decodes to the transaction request it spells
      out. */
  lemma SendQueryDecodes(decode: string -> string)
    requires FixesPlainText(decode)
    ensures DecodeLaunch(ExampleSendQuery, decode)
         == Transaction(TransactionRequest("abc", "5", "https://dapp.test", "https://x.test/ok",
                                           "https://x.test/fail", None, None))
  {
    var q := ExampleSendQuery;
    ExampleRequiredFields();
    ExampleOptionalFields();
    SendFieldsDecode(q, decode, "abc", "5", "https://dapp.test", "https://x.test/ok", "https://x.test/fail");
    ExampleFieldsArePlain(decode);
  }

  /** A success URL without a query gets exactly `?tx_hash=<hash>`
      appended on approval. */
  lemma TransactionTargetOnPlainUrl(successUrl: string, txHash: string)
    requires '?' !in successUrl
    ensures Render(TransactionTarget(successUrl, txHash)) == successUrl + "?tx_hash=" + txHash
  {
    var u := TransactionTarget(successUrl, txHash);
    assert u == Url(successUrl, [("tx_hash", txHash)]);
    assert JoinQuery(u.query) == "tx_hash" + "=" + txHash;
  }

  /** Approving the decoded send request with a hash redirects to the
      success URL with `tx_hash` appended. */
  lemma SendApprovalTarget(p: Pending)
    requires p.transaction.Some? && p.transaction.value.successUrl == "https://x.test/ok"
    ensures ApproveTransaction(p, "0xdead").effects == [Navigate("https://x.test/ok?tx_hash=0xdead")]
  {
    var url := p.transaction.value.successUrl;
    assert '?' !in url;
    TransactionTargetOnPlainUrl(url, "0xdead");
    assert url + "?tx_hash=" + "0xdead" == "https://x.test/ok?tx_hash=0xdead";
  }

  /** Rejecting a connection redirects to the failure URL with nothing
      appended. */
  lemma RejectConnectionVerbatim(p: Pending)
    requires p.connection.Some? && p.connection.value.failureUrl == "https://x.test/fail"
    ensures RejectConnection(p).effects == [Navigate("https://x.test/fail")]
  {
  }

  /** The connection redirect, read back by the site, carries the wallet
      address under `account_id`, the public key under `public_key` when
      the wallet has one, and the other parameters of the success URL. */
  lemma ConnectionRedirectReadBack(successUrl: string, w: Wallet)
    requires Plain(ConnectionTarget(successUrl, w))
    ensures var back := Parse(Render(ConnectionTarget(successUrl, w)));
            && back.base == Parse(successUrl).base
            && ParamValue(back.query, "account_id") == Some(w.address)
            && (Truthy(w.publicKey) ==> ParamValue(back.query, "public_key") == w.publicKey)
  {
    ParseRender(ConnectionTarget(successUrl, w));
  }
}
