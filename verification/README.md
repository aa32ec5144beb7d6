# Wallet extension: state synchronisation and dApp hand-off, in Dafny

This project models the core of a browser-extension wallet. The extension runs in three contexts:

- a background relay (`background.js`);
- a compact popup (`src/PopupApp.tsx`);
- an expanded tab (`src/ExpandedApp.tsx`).

All three share one persistent key/value store. The pages keep their in-memory views in step with two kinds of message:

- `SYNC_STATE`, a partial patch of the state, which a page sends and the background context rebroadcasts;
- `STORAGE_CHANGED`, a signal to reload everything from the store, which the background context itself emits when the store changes.

The expanded tab also runs the dApp hand-off. It decodes a connection or transaction request from its launch query. It then ends the hand-off with a redirect to the site's success or failure URL.

Every handler is a pure function of a state and an input. The user-triggered handlers (add, switch, remove, disconnect, open the full view) and the dApp responders return a new state plus a list of effects. An effect is one of: store write, store removal, outgoing message, navigation target, tab open. Load, unlock, the SYNC_STATE merge and the message listener issue no effects, so they return a state only. The `await`s inside a handler are flattened, so each handler is one atomic step.

Modules, one file each:

| file | module | models |
|---|---|---|
| `types.dfy` | `Types` | wallets, the string store, messages, effects, the JSON codec |
| `wallets.dfy` | `WalletList` | `find` by address, the active-wallet tie-break, `filter` by address |
| `controller.dfy` | `Controller` | the per-context controller; the popup and the expanded tab hold two copies of it, modelled once with a `Context` flag |
| `url.dfy` | `QueryUrl` | a URL as a base plus ordered query pairs; `searchParams.get`/`set`, parse and `toString` |
| `dapp.dfy` | `DAppRequests` | the launch-query decoder, the pending requests and the four responders |
| `pages.dfy` | `Pages` | mounting a page, and the screen-selection cascade |
| `relay.dfy` | `Relay` | the three background listeners as one dispatch from an event to effects |
| `scenarios.dfy` | `Scenarios` | cross-component properties: write-through then reload, broadcast then merge, launch query to redirect |

The model follows the code where its behaviour is surprising:

- A reload on `STORAGE_CHANGED` does not discard state. It only overwrites. It never sets `isLocked` back to false. A missing or unparsable stored list leaves the state as it was.
- The transaction approve and reject handlers do not clear the pending transaction request. Only the connection handlers clear theirs.
- "Present" means JavaScript-truthy throughout. An empty launch parameter, an empty password hash and an empty `activeWalletId` all count as missing.
- Adding an address that is already present selects the entry already stored, not the argument. If two wallets share that address, it selects the first one.
- Every captured launch field is percent-decoded twice: once by `URLSearchParams` and once by `decodeURIComponent`. Only `action` is compared exactly as `URLSearchParams` returns it.

## Model

| member | source | states |
|---|---|---|
| WalletList.Find | src/PopupApp.tsx:101 | finds a wallet iff some wallet has the address; the one found is a member and is the earliest wallet with that address |
| WalletList.SelectActive | src/PopupApp.tsx:63-71 | the active wallet picked from a non-empty list is always a member; it is the first wallet whose address equals the id when the id is truthy and matches, otherwise element 0 |
| WalletList.SelectMember | src/PopupApp.tsx:63-71 | with distinct addresses, a stored id naming a member selects exactly that member |
| WalletList.RemoveByAddress | src/PopupApp.tsx:138 | a wallet survives removal iff it was present and has a different address; the list never grows |
| WalletList.RemoveKeepsCounts | src/PopupApp.tsx:138 | removal is `filter`: each wallet with another address occurs in the result exactly as often as in the input, and no wallet with the address remains |
| WalletList.RemoveKeepsOrder | src/PopupApp.tsx:138 | the surviving wallets keep their relative order (the result is a subsequence of the input) |
| WalletList.RemoveKeepsDistinct | src/PopupApp.tsx:138 | removal preserves the distinct-address invariant |
| WalletList.RemoveAbsent | src/PopupApp.tsx:138 | removing an address nobody has leaves the list unchanged |
| WalletList.RemovePresentShrinksByOne | src/PopupApp.tsx:138 | with distinct addresses, removing a present address drops exactly one wallet |
| WalletList.AppendNewKeepsDistinct | src/PopupApp.tsx:107-108 | appending a wallet with a new address preserves the distinct-address invariant |
| Controller.Load | src/PopupApp.tsx:46-77 | load locks iff the password hash is truthy and `isWalletLocked` is not exactly "false"; locking leaves wallets and active alone; it never unlocks; no list or a parse failure changes nothing; an empty list replaces the wallets but keeps active; a non-empty list selects a member by the tie-break |
| Controller.Unlock | src/PopupApp.tsx:83-98 | unlock installs the decrypted list and clears the lock; a non-empty list selects a member by the same tie-break, using the id from the page's separate local store; an empty list keeps the old active wallet |
| Controller.AddWallet | src/PopupApp.tsx:100-122 | a known address keeps the list, selects the stored entry, writes only `activeWalletId` and sends nothing; a new address is appended at the end (length + 1, prefix unchanged), becomes active, writes `wallets` then `activeWalletId`, then broadcasts both; distinct addresses are preserved |
| Controller.SwitchWallet | src/PopupApp.tsx:124-135 | switching selects the argument with no membership check, keeps the list and the lock, never writes `wallets`, writes the active id and broadcasts only the active wallet |
| Controller.RemoveWallet | src/PopupApp.tsx:137-154 | the new list is the address filter of the old one: exactly the wallets with another address remain, each as often as before and in their original order; the list is always written and broadcast; active is cleared and `activeWalletId` removed only when the active wallet had that address and nothing is left; otherwise active is untouched |
| Controller.Disconnect | src/PopupApp.tsx:156-169 | disconnect leaves no wallets, no active wallet and the lock on; it writes only `isWalletLocked="true"` (never `wallets` or `activeWalletId`) and broadcasts only the lock |
| Controller.OpenExpandedView | src/PopupApp.tsx:171-175 | opening the full view changes no state and sends exactly one OPEN_EXPANDED message |
| Controller.OpsKeepActiveInList | src/PopupApp.tsx:100-169 | starting with the active wallet in the list, add and disconnect always keep it there; switch keeps it there iff the argument is a member; remove keeps it there iff the active wallet did not have the removed address or the list became empty |
| Controller.Merge | src/ExpandedApp.tsx:30-39 | a SYNC_STATE patch applies a present wallet list (even empty) and a defined lock flag (even false); a missing active wallet leaves the old one, so a patch can never clear it |
| Controller.MergeIdempotent | src/ExpandedApp.tsx:30-39 | applying the same patch twice equals applying it once |
| Controller.HandleMessage | src/ExpandedApp.tsx:29-43 | both pages reload on STORAGE_CHANGED; the expanded tab merges SYNC_STATE; the popup ignores SYNC_STATE (src/PopupApp.tsx:31-36); every other message changes nothing |
| QueryUrl.FirstPairDecides | src/ExpandedApp.tsx:90-100 | a launch parameter reads as the value of the first pair carrying its name |
| QueryUrl.AbsentKey | src/ExpandedApp.tsx:90-100 | a name no pair carries reads as missing |
| QueryUrl.ParamValue | src/ExpandedApp.tsx:91-100 | `urlParams.get` is missing iff no pair carries the name, and otherwise is the value of the first pair that does |
| QueryUrl.ValuesOfFirst | src/ExpandedApp.tsx:91-100 | a name has no values iff no pair carries it; its first value is that of its first pair |
| QueryUrl.ReplaceFirstInPlace | src/ExpandedApp.tsx:153-155 | replacing a present name overwrites its first pair in place, keeps every pair before it, and drops later pairs with that name |
| QueryUrl.SetParam | src/ExpandedApp.tsx:153-155 | after `searchParams.set` the name holds exactly the new value once and every other name holds its old values in order; a present name is overwritten in place at its first pair with later ones dropped, and a new name is appended at the end |
| QueryUrl.SetUrlParam | src/ExpandedApp.tsx:177 | setting a parameter keeps the base and updates the query exactly as `searchParams.set` does (in place at the first pair, or appended); the name holds exactly the new value and other names are left alone |
| QueryUrl.Parse | src/ExpandedApp.tsx:152 | a URL string without '?' parses to itself with no query |
| QueryUrl.Render | src/ExpandedApp.tsx:161 | `toString()` starts with the base; it is the base alone iff there are no pairs, and otherwise a '?' follows the base (also src/ExpandedApp.tsx:178) |
| QueryUrl.ParseRender | src/ExpandedApp.tsx:152-161 | for plain URLs, parsing a rendered URL gives back the same base and the same query pairs |
| DAppRequests.DecodeLaunch | src/ExpandedApp.tsx:89-129 | a transaction iff `action=send` and to/amount/success_url/failure_url/origin are all truthy; a connection iff `action` is not send and success_url/failure_url/origin are truthy; `action=send` never yields a connection; each field is the decoded parameter; the permissions are exactly view_address, view_balance, call_methods |
| DAppRequests.FromLaunch | src/ExpandedApp.tsx:103-127 | decoding leaves at most one request pending, in the slot matching its kind and holding exactly the decoded request, with no wallet selected yet |
| DAppRequests.WithAccount | src/ExpandedApp.tsx:153-156 | the approval URL keeps the parsed success URL's base and other parameters; `account_id` is exactly the address; `public_key` is the key iff it is non-empty, and otherwise stays as it was |
| DAppRequests.ConnectionTarget | src/ExpandedApp.tsx:152-156 | the approval URL of a success URL keeps the parsed base and every other parameter; `account_id` is exactly the address; `public_key` is the key iff it is non-empty, and otherwise stays as the success URL had it |
| DAppRequests.ApproveConnection | src/ExpandedApp.tsx:149-162 | a no-op without a pending connection; otherwise one navigation to the approval URL, and the request and its selection are cleared |
| DAppRequests.RejectConnection | src/ExpandedApp.tsx:164-171 | a no-op without a pending connection; otherwise one navigation to the stored failure URL verbatim, and the request and its selection are cleared |
| DAppRequests.TransactionTarget | src/ExpandedApp.tsx:176-177 | the approval URL keeps the base and other parameters; `tx_hash` is exactly the hash, replacing any earlier one |
| DAppRequests.ApproveTransaction | src/ExpandedApp.tsx:173-179 | never changes the pending state; with a pending transaction it issues one navigation to the approval URL, otherwise none |
| DAppRequests.RejectTransaction | src/ExpandedApp.tsx:181-184 | never changes the pending state; with a pending transaction it issues one navigation to the failure URL verbatim, otherwise none |
| DAppRequests.RespondersNavigateAtMostOnce | src/ExpandedApp.tsx:149-184 | each responder issues exactly one redirect when its request is pending and none otherwise |
| DAppRequests.ConnectionResolvedOnce | src/ExpandedApp.tsx:149-171 | after a connection is approved or rejected, a second approve or reject does nothing |
| DAppRequests.TransactionNotConsumed | src/ExpandedApp.tsx:173-184 | a transaction request survives approve and reject, so a repeat issues the same redirect again |
| Pages.Mount | src/ExpandedApp.tsx:86-130 | a page starts from the first load of the store, locked iff the lock rule says so; only the expanded tab decodes the launch query, and at most one request is pending |
| Pages.SelectScreen | src/ExpandedApp.tsx:257-323 | the unlock screen shows iff locked; the expanded tab then shows a transaction before a connection request, each only with at least one wallet; the popup never shows a dApp dialog (src/PopupApp.tsx:177-244); otherwise the welcome screen shows iff no wallet is active |
| Relay.Dispatch | background.js:1-39 | install opens one expanded tab iff the reason is 'install'; SYNC_STATE is rebroadcast once, unchanged; OPEN_EXPANDED opens one tab and sends nothing; other messages do nothing; only the message listener returns true; a 'local' storage change emits one STORAGE_CHANGED with the changes, and other areas emit nothing |
| Relay.RelayLeavesStoreAlone | background.js:1-39 | the relay never writes the store, so relaying cannot trigger another storage notification |
| Scenarios.RelayedBroadcast | background.js:13-17 | the relay rebroadcasts exactly the messages a mutation's page sent: none for adding a known address, one SYNC_STATE carrying the mutation's patch otherwise |
| Scenarios.SelfDeliveryHarmless | src/ExpandedApp.tsx:30-39 | a context that receives its own relayed broadcast is unchanged |
| Scenarios.BroadcastConverges | src/ExpandedApp.tsx:30-39 | an expanded tab that mirrored the sender mirrors it again after a switch, an add of a new address, or a removal that does not clear the active wallet, whether it receives only the relayed copy or the page's direct copy followed by the relayed one |
| Scenarios.PopupIgnoresBroadcasts | src/PopupApp.tsx:31-36 | relayed SYNC_STATE broadcasts never change the popup |
| Scenarios.BroadcastDivergence | src/PopupApp.tsx:137-169 | after the sole wallet is removed, a mirror keeps it active; after a disconnect, a mirror is locked but keeps its wallets |
| Scenarios.RemoveCanLeaveDanglingActive | src/PopupApp.tsx:142-145 | removing the active wallet while another remains leaves the removed wallet active although it is no longer in the list |
| Scenarios.AddThenReloadAgrees | src/PopupApp.tsx:107-113 | after a new non-empty address is added, any context's reload from the store reproduces the new list and the new active wallet |
| Scenarios.SwitchThenReloadAgrees | src/PopupApp.tsx:124-126 | after a switch to a member, a reload selects that same wallet over the same list |
| Scenarios.RemoveThenReload | src/PopupApp.tsx:137-145 | a reload after a removal reproduces the list; when the removed wallet was active and others remain, the reload falls back to the first wallet while memory still holds the removed one |
| Scenarios.DisconnectKeepsStoredWallets | src/PopupApp.tsx:156-160 | disconnect keeps the stored list and active id and sets the flag to "true"; the next load locks iff a password hash exists; without one, the next load is exactly as before |
| Scenarios.LoadTieBreak | src/PopupApp.tsx:63-71 | over a stored list with distinct addresses, a stored id naming a member selects it, and an id naming nobody selects the first wallet |
| Scenarios.StorageChangeReloadsEveryContext | background.js:29-39 | a 'local' storage change reaches every page as one STORAGE_CHANGED, and each page reloads from the store |
| Scenarios.OpenExpandedOpensOneTab | src/PopupApp.tsx:171-175 | the popup's open-full-view request makes the relay open exactly one tab and rebroadcast nothing |
| Scenarios.SendQueryDecodes | src/ExpandedApp.tsx:93-113 | the example send query decodes to the transaction it spells out, with no app name and no message |
| Scenarios.TransactionTargetOnPlainUrl | src/ExpandedApp.tsx:176-178 | approving against a success URL with no query navigates to that URL followed by exactly `?tx_hash=<hash>` |
| Scenarios.SendApprovalTarget | src/ExpandedApp.tsx:173-179 | approving the example with hash 0xdead navigates to `https://x.test/ok?tx_hash=0xdead` |
| Scenarios.RejectConnectionVerbatim | src/ExpandedApp.tsx:164-171 | rejecting a connection navigates to exactly the stored failure URL |
| Scenarios.ConnectionRedirectReadBack | src/ExpandedApp.tsx:152-161 | when the site reads the approval redirect back, it finds the base, `account_id` = address, and `public_key` = key whenever the key is non-empty |

## Left out

- JSON: `JSON.stringify` and `JSON.parse` are a `Codec` parameter. The properties that read back a write assume `Faithful`: a parse of a write returns the same list, and a write is never empty. A parse that yields something other than a wallet array (`null`, a number) counts as a parse failure.
- Percent-decoding: `decodeURIComponent` is a parameter `decode`. Its `URIError` on malformed input is not modelled. `SendQueryDecodes` assumes only that it leaves text without '%' unchanged.
- Launch query: how `URLSearchParams` splits `window.location.search` is not modelled. This includes its own decoding and its '+' handling. The decoder receives the pairs it produces.
- URLs: the model does not percent-encode on `toString`. It does not model fragments, base normalisation (such as the trailing '/' after a bare host), or `new URL` throwing on an invalid success URL.
- Browser APIs: `chrome.runtime.sendMessage`, `tabs.create`, storage writes and `window.location.href` are effect values. Listener registration, delivery and failure are not modelled. A page's `sendMessage` reaches the other pages directly as well as the background relay, so another page can receive a SYNC_STATE twice: once from the page and once rebroadcast. The model does not enumerate which frames receive which copy; `BroadcastConverges` covers both the relayed copy alone and the direct copy followed by the relayed one. `chrome.runtime.getURL('expanded.html')` is the page name `expanded.html`.
- The `typeof chrome !== 'undefined'` guard: the model assumes every handler runs inside the extension, where it always holds.
- The store: `ExtensionStorageManager` is not part of this model. It is a string map with get, set and remove. Its initialisation and its read failures are not modelled; the load's `catch` is modelled only for a parse failure.
- Concurrency: the interleaving of `await`s within one handler, concurrent contexts, and last-writer-wins races across contexts are not modelled. Each handler is one atomic step.
- Unlock: decryption and key handling belong to the unlock component. The unlocked wallet list and the `localStorage` read of `activeWalletId` are inputs of `Unlock`.
- Rendering: JSX, `ThemeProvider`, `Toaster` and the screen components are not modelled. Only the choice of screen is. `window.history.replaceState` is not modelled either.
- Dialog selections: the dialogs write `selectedWalletForConnection` and `selectedWalletForTransaction` through plain React setters, so those writes are not operations here. The popup also holds dApp state it never sets; it is not modelled.
- Malformed messages: a SYNC_STATE without `data`, or a patch with non-boolean `isLocked`, is not representable.
- Build configuration (`vite.config.ts`) is not part of this model.
