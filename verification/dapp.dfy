/** The dApp hand-off of the expanded view: decoding the launch query into
    at most one pending request, and the approve/reject responders that
    end the hand-off with a redirect back to the requesting site. */
module DAppRequests {
  import opened Types
  import opened QueryUrl

  datatype Permission = ViewAddress | ViewBalance | CallMethods

  /** The fixed permission list every connection request asks for. */
  const ConnectionPermissions: seq<Permission> := [ViewAddress, ViewBalance, CallMethods]

  datatype ConnectionRequest = ConnectionRequest(
    origin: string, successUrl: string, failureUrl: string,
    permissions: seq<Permission>, appName: Option<string>)

  /** A send request; its action is always "send", so it is not stored. */
  datatype TransactionRequest = TransactionRequest(
    to: string, amount: string, origin: string, successUrl: string, failureUrl: string,
    appName: Option<string>, message: Option<string>)

  datatype LaunchRequest =
    | NoRequest
    | Transaction(tx: TransactionRequest)
    | Connection(conn: ConnectionRequest)

  /** Whether the launch query asks for a transaction. */
  predicate IsSend(params: Query) {
    ParamValue(params, "action") == Some("send")
  }

  /** A truthy optional parameter, percent-decoded; `None` when absent or empty. */
  function OptionalParam(params: Query, key: string, decode: string -> string): (r: Option<string>)
    ensures r.Some? <==> Truthy(ParamValue(params, key))
    ensures r.Some? ==> r.value == decode(ParamValue(params, key).value)
  {
    var raw := ParamValue(params, key);
    if Truthy(raw) then Some(decode(raw.value)) else None
  }

  predicate HasSendFields(params: Query) {
    && Truthy(ParamValue(params, "to"))
    && Truthy(ParamValue(params, "amount"))
    && Truthy(ParamValue(params, "success_url"))
    && Truthy(ParamValue(params, "failure_url"))
    && Truthy(ParamValue(params, "origin"))
  }

  predicate HasConnectionFields(params: Query) {
    && Truthy(ParamValue(params, "success_url"))
    && Truthy(ParamValue(params, "failure_url"))
    && Truthy(ParamValue(params, "origin"))
  }

  /** The launch-parameter decoder. `params` are the pairs URLSearchParams
      read from the page's query string and `decode` is decodeURIComponent,
      applied once more to every captured field. */
  function DecodeLaunch(params: Query, decode: string -> string): (r: LaunchRequest)
    ensures IsSend(params) ==> !r.Connection?
    ensures !IsSend(params) ==> !r.Transaction?
    ensures r.Transaction? <==> IsSend(params) && HasSendFields(params)
    ensures r.Connection? <==> !IsSend(params) && HasConnectionFields(params)
    ensures r.Transaction? ==>
      && r.tx.to == decode(ParamValue(params, "to").value)
      && r.tx.amount == decode(ParamValue(params, "amount").value)
      && r.tx.origin == decode(ParamValue(params, "origin").value)
      && r.tx.successUrl == decode(ParamValue(params, "success_url").value)
      && r.tx.failureUrl == decode(ParamValue(params, "failure_url").value)
      && r.tx.appName == OptionalParam(params, "app_name", decode)
      && r.tx.message == OptionalParam(params, "message", decode)
    ensures r.Connection? ==>
      && r.conn.origin == decode(ParamValue(params, "origin").value)
      && r.conn.successUrl == decode(ParamValue(params, "success_url").value)
      && r.conn.failureUrl == decode(ParamValue(params, "failure_url").value)
      && r.conn.permissions == [ViewAddress, ViewBalance, CallMethods]
      && r.conn.appName == OptionalParam(params, "app_name", decode)
  {
    if IsSend(params) then
      if HasSendFields(params) then
        Transaction(TransactionRequest(
          decode(ParamValue(params, "to").value),
          decode(ParamValue(params, "amount").value),
          decode(ParamValue(params, "origin").value),
          decode(ParamValue(params, "success_url").value),
          decode(ParamValue(params, "failure_url").value),
          OptionalParam(params, "app_name", decode),
          OptionalParam(params, "message", decode)))
      else NoRequest
    else if HasConnectionFields(params) then
      Connection(ConnectionRequest(
        decode(ParamValue(params, "origin").value),
        decode(ParamValue(params, "success_url").value),
        decode(ParamValue(params, "failure_url").value),
        ConnectionPermissions,
        OptionalParam(params, "app_name", decode)))
    else NoRequest
  }

  /** The dApp part of the expanded view's state: each pending request and
      the wallet picked for it in the dialog. */
  datatype Pending = Pending(
    connection: Option<ConnectionRequest>, connectionSelection: Option<Wallet>,
    transaction: Option<TransactionRequest>, transactionSelection: Option<Wallet>)

  const NothingPending := Pending(None, None, None, None)

  /** The pending state right after the launch query is decoded. */
  function FromLaunch(l: LaunchRequest): (p: Pending)
    ensures p.connection.None? || p.transaction.None?
    ensures p.connectionSelection.None? && p.transactionSelection.None?
    ensures l.Connection? <==> p.connection.Some?
    ensures l.Transaction? <==> p.transaction.Some?
    ensures l.Transaction? ==> p.transaction == Some(l.tx)
    ensures l.Connection? ==> p.connection == Some(l.conn)
  {
    match l
    case NoRequest => NothingPending
    case Transaction(tx) => NothingPending.(transaction := Some(tx))
    case Connection(c) => NothingPending.(connection := Some(c))
  }

  /** What a responder leaves behind: the new pending state and its effects. */
  datatype Outcome = Outcome(pending: Pending, effects: seq<Effect>)

  /** The connection approval parameters written into a parsed URL:
      `account_id` is set to the wallet address, and `public_key` is set
      only when the wallet has a non-empty public key. */
  function WithAccount(base: Url, w: Wallet): (u: Url)
    ensures u.base == base.base
    ensures ValuesOf(u.query, "account_id") == [w.address]
    ensures Truthy(w.publicKey) ==> ValuesOf(u.query, "public_key") == [w.publicKey.value]
    ensures !Truthy(w.publicKey) ==> ValuesOf(u.query, "public_key") == ValuesOf(base.query, "public_key")
    ensures forall k :: k != "account_id" && k != "public_key" ==> ValuesOf(u.query, k) == ValuesOf(base.query, k)
  {
    var withAccount := SetUrlParam(base, "account_id", w.address);
    assert "public_key"[0] != "account_id"[0];
    if Truthy(w.publicKey) then
      var u := SetUrlParam(withAccount, "public_key", w.publicKey.value);
      assert ValuesOf(u.query, "account_id") == ValuesOf(withAccount.query, "account_id");
      u
    else withAccount
  }

  /** The connection approval target: the stored success URL with the
      approval parameters written in. */
  function ConnectionTarget(successUrl: string, w: Wallet): (u: Url)
    ensures var parsed := Parse(successUrl);
      && u.base == parsed.base
      && ValuesOf(u.query, "account_id") == [w.address]
      && (Truthy(w.publicKey) ==> ValuesOf(u.query, "public_key") == [w.publicKey.value])
      && (!Truthy(w.publicKey) ==> ValuesOf(u.query, "public_key") == ValuesOf(parsed.query, "public_key"))
      && forall k :: k != "account_id" && k != "public_key" ==> ValuesOf(u.query, k) == ValuesOf(parsed.query, k)
  {
    WithAccount(Parse(successUrl), w)
  }

  /** handleConnectionApprove: a no-op without a pending connection;
      otherwise redirects to the approval target and clears the request
      and the dialog's selection. */
  function ApproveConnection(p: Pending, w: Wallet): (r: Outcome)
    ensures p.connection.None? ==> r == Outcome(p, [])
    ensures p.connection.Some? ==>
      && r.pending == p.(connection := None, connectionSelection := None)
      && r.effects == [Navigate(Render(ConnectionTarget(p.connection.value.successUrl, w)))]
  {
    match p.connection
    case None => Outcome(p, [])
    case Some(c) =>
      Outcome(p.(connection := None, connectionSelection := None),
              [Navigate(Render(ConnectionTarget(c.successUrl, w)))])
  }

  /** handleConnectionReject: redirects to the failure URL verbatim and
      clears the request; a no-op without one. */
  function RejectConnection(p: Pending): (r: Outcome)
    ensures p.connection.None? ==> r == Outcome(p, [])
    ensures p.connection.Some? ==>
      && r.pending == p.(connection := None, connectionSelection := None)
      && r.effects == [Navigate(p.connection.value.failureUrl)]
  {
    match p.connection
    case None => Outcome(p, [])
    case Some(c) => Outcome(p.(connection := None, connectionSelection := None), [Navigate(c.failureUrl)])
  }

  /** The transaction approval target: the success URL with `tx_hash` set,
      replacing any `tx_hash` it already carried. */
  function TransactionTarget(successUrl: string, txHash: string): (u: Url)
    ensures u.base == Parse(successUrl).base
    ensures ValuesOf(u.query, "tx_hash") == [txHash]
    ensures forall k :: k != "tx_hash" ==> ValuesOf(u.query, k) == ValuesOf(Parse(successUrl).query, k)
  {
    SetUrlParam(Parse(successUrl), "tx_hash", txHash)
  }

  /** handleTransactionApprove: a no-op without a pending transaction;
      otherwise redirects to the approval target. The request stays pending. */
  function ApproveTransaction(p: Pending, txHash: string): (r: Outcome)
    ensures r.pending == p
    ensures p.transaction.None? ==> r.effects == []
    ensures p.transaction.Some? ==>
      r.effects == [Navigate(Render(TransactionTarget(p.transaction.value.successUrl, txHash)))]
  {
    match p.transaction
    case None => Outcome(p, [])
    case Some(t) => Outcome(p, [Navigate(Render(TransactionTarget(t.successUrl, txHash)))])
  }

  /** handleTransactionReject: redirects to the failure URL verbatim; a
      no-op without a pending transaction. The request stays pending. */
  function RejectTransaction(p: Pending): (r: Outcome)
    ensures r.pending == p
    ensures p.transaction.None? ==> r.effects == []
    ensures p.transaction.Some? ==> r.effects == [Navigate(p.transaction.value.failureUrl)]
  {
    match p.transaction
    case None => Outcome(p, [])
    case Some(t) => Outcome(p, [Navigate(t.failureUrl)])
  }

  /** Every responder is guarded: at most one redirect per call, and none
      when its request is not pending. */
  lemma RespondersNavigateAtMostOnce(p: Pending, w: Wallet, txHash: string)
    ensures |ApproveConnection(p, w).effects| == (if p.connection.Some? then 1 else 0)
    ensures |RejectConnection(p).effects| == (if p.connection.Some? then 1 else 0)
    ensures |ApproveTransaction(p, txHash).effects| == (if p.transaction.Some? then 1 else 0)
    ensures |RejectTransaction(p).effects| == (if p.transaction.Some? then 1 else 0)
  {
  }

  /** A resolved connection request cannot be resolved again: a second
      approve or reject after the first is a no-op. */
  lemma ConnectionResolvedOnce(p: Pending, w: Wallet, w': Wallet)
    ensures ApproveConnection(ApproveConnection(p, w).pending, w').effects == []
    ensures RejectConnection(ApproveConnection(p, w).pending).effects == []
    ensures ApproveConnection(RejectConnection(p).pending, w').effects == []
    ensures RejectConnection(RejectConnection(p).pending).effects == []
  {
  }

  /** The transaction handlers do not consume their request: approving
      twice redirects twice, to the same target. */
  lemma TransactionNotConsumed(p: Pending, txHash: string)
    requires p.transaction.Some?
    ensures ApproveTransaction(ApproveTransaction(p, txHash).pending, txHash).effects
         == ApproveTransaction(p, txHash).effects != []
    ensures RejectTransaction(RejectTransaction(p).pending).effects == RejectTransaction(p).effects != []
  {
  }
}
