/** A whole page: the wallet controller, the dApp hand-off state the
    expanded view adds, the mount sequence and the choice of screen. */
module Pages {
  import opened Types
  import opened Controller
  import opened QueryUrl
  import opened DAppRequests

  datatype Screen = UnlockScreen | TransactionDialog | ConnectionDialog | WelcomeScreen | Dashboard

  datatype Page = Page(ctx: Context, state: State, pending: Pending)

  /** The mount effects: the first load of the store and, in the expanded
      view only, the decoding of the launch query. The popup never holds a
      dApp request. */
  function Mount(ctx: Context, store: Store, codec: Codec, params: Query, decode: string -> string): (r: Page)
    ensures r.ctx == ctx
    ensures r.state == Load(Initial, store, codec)
    ensures r.state.isLocked == LocksOnLoad(store)
    ensures ctx == Popup ==> r.pending == NothingPending
    ensures ctx == Expanded ==> r.pending == FromLaunch(DecodeLaunch(params, decode))
    ensures r.pending.connection.None? || r.pending.transaction.None?
  {
    var p := if ctx == Expanded then FromLaunch(DecodeLaunch(params, decode)) else NothingPending;
    Page(ctx, Load(Initial, store, codec), p)
  }

  /** The render cascade. Both pages show the unlock screen first; the
      expanded view then prefers a transaction request and then a
      connection request, each only with at least one wallet; otherwise a
      page shows the welcome screen exactly when no wallet is active. */
  function SelectScreen(pg: Page): (r: Screen)
    ensures pg.state.isLocked <==> r == UnlockScreen
    ensures r == TransactionDialog <==>
      pg.ctx == Expanded && !pg.state.isLocked && pg.pending.transaction.Some? && |pg.state.wallets| > 0
    ensures r == ConnectionDialog <==>
      && pg.ctx == Expanded && !pg.state.isLocked
      && !(pg.pending.transaction.Some? && |pg.state.wallets| > 0)
      && pg.pending.connection.Some? && |pg.state.wallets| > 0
    ensures (r == WelcomeScreen || r == Dashboard) ==> (r == WelcomeScreen <==> pg.state.active.None?)
    ensures pg.ctx == Popup ==> r in {UnlockScreen, WelcomeScreen, Dashboard}
  {
    var s := pg.state;
    if s.isLocked then UnlockScreen
    else if pg.ctx == Expanded && pg.pending.transaction.Some? && |s.wallets| > 0 then TransactionDialog
    else if pg.ctx == Expanded && pg.pending.connection.Some? && |s.wallets| > 0 then ConnectionDialog
    else if s.active.None? then WelcomeScreen
    else Dashboard
  }
}
