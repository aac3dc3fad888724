# A verified model of the Nitro Enclaves vToken

The system provisions PKCS#11 tokens into an enclave and serves them to applications. Three programs
share one configuration file. The RPC server adds, refreshes, updates and removes tokens in the
file. The PKCS#11 provider builds an in-memory device from it and reloads it while sessions are open.
The agent outside the enclave keeps re-attesting its tokens, because the file forgets a token 48 hours
after its last extension. This project models that life cycle and the byte formats around it, and
proves what holds over every input, every run and every interleaving.

| file | about |
|---|---|
| `DeviceSpec.dfy`, `SessionLaws.dfy`, `DeviceObjects.dfy` | the device: slots, handle index, session tables, login, expiry, reload; as a state machine and as mutable objects that refine it |
| `Locks.dfy`, `Linearise.dfy`, `LockProgress.dfy` | that device under any number of threads, with the device lock, the session locks and the file lock: order of effects, deadlock freedom, termination |
| `Store.dfy`, `StoreLaws.dfy`, `Worker.dfy`, `StoreMap.dfy` | the provisioning store as slots, as the mutable worker, and as the plain map that both refine |
| `ConfigFile.dfy`, `FileClock.dfy`, `FileProgress.dfy` | the shared file under `flock`, with truncating saves, devices that start and reload, the clock, and that nobody is stuck on it |
| `DeviceCopy.dfy`, `FileRuns.dfy`, `ConcurrentStore.dfy` | what devices hold against what the file holds, runs in which they part, and the composition with the plain map |
| `ThreadedDevice.dfy` | threads and file together: the device that threads share, on the file that processes share |
| `AgentSchedule.dfy`, `AgentKeys.dfy`, `ManagedToken.dfy`, `AgentDevice.dfy` | the refresh schedule against the 48-hour expiry, the key material it keeps in the store, and what it means for the devices |
| `HeaderText.dfy`, `Utf8Laws.dfy`, `Framing.dfy`, `FramingLaws.dfy`, `ReadCounts.dfy`, `Transport.dfy`, `Pipelining.dfy` | the RPC framing: text, messages, how much a buffered reader pulls, that reader over a stream that splits anywhere, and messages in a row |
| `OutputConvention.dfy`, `CallerMemory.dfy` | contexts and the output convention of section 5.2 of PKCS#11 v2.40, as values and in caller memory |
| `DigestSpec.dfy`, `DigestApi.dfy` | the digest context |
| `BigEndian.dfy`, `EcdsaFormat.dfy`, `Ecdsa.dfy` | DER and [R,S] signatures and the conversions between them |
| `Signing.dfy`, `SignApi.dfy` | single-part signing and verification, advertised and produced lengths |
| `Attributes.dfy`, `Search.dfy` | attribute queries and object search |

A state machine over values carries the theorems about runs; the classes and methods with loops are
proved equal to one of its steps, so the theorems hold of them too. The modules of laws say in plain terms,
without naming the steps, which calls are accepted and what they leave.

## Where the code differs from what one would expect

- A starting device reads the content before the stamp, a reload the stamp before the content.
  `ConfigFile.BootAgreesIff` says exactly when a start agrees with the file and `FileRuns.BootRace`
  shows a run in which it does not; reloads always agree (`ConfigFile.ReloadCoherent`).
- A reload takes over nothing but expiry times, and empties slots. It never gains a token: every slot
  in range exists, so the branch that builds a new slot is not reached (`DeviceSpec.StepKeepsEmpty`). A
  slot whose token was removed and refilled, or updated, keeps the old label, PIN and keys under the
  new expiry: `DeviceCopy.HoldsIff` says exactly when device and file hold the same token,
  `DeviceCopy.LoginTakesBuiltPin` which PIN logs in, and `FileRuns.OldTokenStays` shows a run.
- Emptying a slot whose token has expired leaves its entries in the handle index, and nothing else
  does (`DeviceSpec.StaleIff`); they do not resolve (`DeviceSpec.StaleEntries`) unless an open issues the
  handle again.
- The login flag stays set when the last session closes, so the next session opens logged in
  (`DeviceSpec.FlagIs`, `DeviceSpec.StillLoggedIn`).
- The handle counter wraps: the two session tables agree exactly as long as no open gets a handle still
  in use for another token (`DeviceSpec.OpenTablesIff`), and `DeviceSpec.TablesPart` gives a run in which
  they come apart. A closed handle comes back 2^64 opens later and not before
  (`DeviceSpec.DetachedUntil`), and `DeviceSpec.FirstReturns` gives a run in which it does.
- Updating a token keeps its old label and PIN whatever the new token carries (`Store.StepFrame`).
- The store drops a token when the clock reaches its expiry, the device when the clock has passed it: a
  reload in that very second empties a slot whose token is still live (`DeviceSpec.LastSecond`).
- An ECDSA signature is padded only to the longer of R and S, but verification asks for the full
  advertised length, so the module refuses some of its own signatures: `Signing.SignThenVerify` says
  exactly which, and `Signing.ShortSignature` gives one for every curve.
- A message body over 64 KiB is sent and then refused by the receiver (`Framing.OversizeRefused`).
- A receive may pull bytes of a message sent right after, and they are lost, because the read limit is
  set to the whole body length whatever is buffered already. `Pipelining.RecvBoth` says for which pieces
  the second message is lost, `Pipelining.BothAlwaysIff` with which lengths it never is,
  `Pipelining.LosesSecond` that it can be with all others, and `Pipelining.LosesRequest` gives a run with
  the API's URL. The protocol alternates, so it does not occur in a conversation (`Transport.Converse`).

## Model

| member | source | states |
|---|---|---|
| DeviceSpec.RunKeepsUniform | src/vtok_p11/src/backend/token.rs:118-200 | after every run from a fresh device, however long: every session is in the user state exactly when its token is logged in, and no token has more than 1024 sessions |
| DeviceSpec.StepKeepsUniform | src/vtok_p11/src/backend/token.rs:118-200 | each single call, reload included, keeps both |
| DeviceSpec.RunKeepsTables | src/vtok_p11/src/backend/device.rs:83-218 | after every run in which no open gets a handle still in use for another token: for each slot with a token, expired or not, the handles indexed to it are exactly the keys of its session table |
| DeviceSpec.OpenTablesIff | src/vtok_p11/src/backend/device.rs:83-100 | an open keeps the two session tables in agreement if and only if its handle is not in use for another token (the counter wraps after 2^64 opens) |
| DeviceSpec.RunKeepsInv | src/vtok_p11/src/backend/device.rs:83-100 | in a run of fewer than 2^64 opens no open clashes and the index holds only handles that were issued |
| DeviceSpec.ReloadKeepsTables | src/vtok_p11/src/backend/device.rs:143-198 | a reload of any content keeps the two session tables in agreement |
| DeviceSpec.ReloadedNext | src/vtok_p11/src/backend/device.rs:152-182 | the slot-by-slot reload loop computes the all-at-once description: tokens kept with new expiry, emptied, or untouched, and index entries dropped exactly for slots that lose an unexpired token |
| DeviceSpec.IssuedHandles | src/vtok_p11/src/backend/device.rs:83-100 | the k-th successful open of any run returns handle k modulo 2^64 |
| DeviceSpec.HandlesFreshIff | src/vtok_p11/src/backend/device.rs:83-100 | no handle is 0 or issued twice if and only if fewer than 2^64 sessions were opened |
| DeviceSpec.LongRuns | src/vtok_p11/src/backend/device.rs:83-112 | opening and closing n times issues exactly n handles and leaves only the counter changed, so the bound of the previous row is reached |
| DeviceSpec.TablesPart | src/vtok_p11/src/backend/device.rs:83-112 | on every new device with two tokens: one open on the second and 2^64 - 1 opens and closes on the first leave the tables in agreement, and the next open on the first breaks it |
| DeviceSpec.ReissuedIff | src/vtok_p11/src/backend/device.rs:83-141 | in any state, one call makes a handle that names no session name one if and only if it is an open answered with that handle, and then it resolves |
| DeviceSpec.ReturnsIff | src/vtok_p11/src/backend/device.rs:83-141 | over every run from any state, a handle that names no session names one at some point if and only if some open of the run was answered with it |
| DeviceSpec.DetachedUntil | src/vtok_p11/src/backend/device.rs:83-141 | a handle last given out by the j-th open, whose session was closed or its slot emptied, names a session again in a continuation if and only if that reaches open j + 2^64 |
| DeviceSpec.DetachedForever | src/vtok_p11/src/backend/device.rs:102-141 | a handle that was closed, or whose slot was emptied, does not resolve again in any continuation with at most 2^64 opens in all |
| DeviceSpec.FirstReturns | src/vtok_p11/src/backend/device.rs:83-112 | after 2^64 opens and closes in turn the first handle names nothing, and the next open gives it out again and it resolves |
| DeviceSpec.StaleEntries | src/vtok_p11/src/backend/device.rs:114-158 | after every run an index entry is backed by a session exactly when its slot still has a token, also after the two tables have come apart; an unbacked one resolves to nothing at any time |
| DeviceSpec.StaleIff | src/vtok_p11/src/backend/device.rs:152-158 | in any state, a step turns a backed entry into an unbacked one if and only if it is a reload that empties the slot after its token has expired |
| DeviceSpec.StaleEntryExample | src/vtok_p11/src/backend/device.rs:152-158 | in any slot of any new device: open, let the token expire, reload a file without it, and the entry is left |
| DeviceSpec.LastSecond | src/vtok_p11/src/backend/token.rs:105-116 | a lookup through a handle that resolves finds nothing after reloading the same stored token, and the slot is emptied, if and only if the clock shows exactly the expiry second |
| DeviceSpec.StepKeepsEmpty | src/vtok_p11/src/backend/device.rs:152-168 | no call, reload included, puts a token into an empty slot |
| DeviceSpec.FlagIs | src/vtok_p11/src/backend/token.rs:137-200 | over every run the login flag of a token still in its slot is set exactly when the last accepted login or logout there was a login, whatever was opened, closed or reloaded since |
| DeviceSpec.StillLoggedIn | src/vtok_p11/src/backend/token.rs:118-146 | open, log in, close, open: the new session starts in the user state |
| DeviceSpec.LoggedInOnlyByPin | src/vtok_p11/src/backend/token.rs:152-177 | a token is logged in only if some call presented its PIN on one of its sessions and was accepted, with no accepted logout there since |
| SessionLaws.EndsIff | src/vtok_p11/src/backend/device.rs:102-218 | in any state, a call ends a session if and only if it is its own accepted close, the accepted close of all sessions of its slot, or a reload that empties its slot |
| SessionLaws.StateKept | src/vtok_p11/src/backend/token.rs:118-200 | a session that a call does not end stays in its slot, in the state it has, except that an accepted login or logout on its slot sets it, unless an open issues its handle again |
| SessionLaws.GoneIff | src/vtok_p11/src/backend/device.rs:83-218 | over every run from any state, a session is there throughout if and only if no call of the run ends it |
| SessionLaws.StateIs | src/vtok_p11/src/backend/token.rs:118-200 | after every run from a new device, every session is in the state of the last accepted login or logout on its token, whenever it was opened |
| SessionLaws.OtherStays | src/vtok_p11/src/backend/token.rs:137-142 | closing one of two usable sessions leaves the other one to be found, and only the closed one is gone |
| SessionLaws.ResolvesIff | src/vtok_p11/src/backend/device.rs:121-126 | a lookup finds a handle if and only if it names a session of an unexpired token, and changes nothing |
| SessionLaws.TokenKept | src/vtok_p11/src/backend/device.rs:152-178 | no call but a reload touches label, PIN, keys or expiry of a token, or any slot but the one it is about; a reload takes over the expiry, keeps sessions and login, or empties the slot |
| SessionLaws.OpenAnswer | src/vtok_p11/src/backend/token.rs:118-135 | an open is accepted if and only if the slot has an unexpired token with fewer than 1024 sessions, and gives a session in the state of the login flag; each refusal has its cause and changes nothing |
| SessionLaws.CloseAnswer | src/vtok_p11/src/backend/device.rs:102-112 | a close is accepted if and only if the handle names a session of an unexpired token |
| SessionLaws.CloseAllAnswer | src/vtok_p11/src/backend/device.rs:114-119 | close-all is accepted if and only if the slot has an unexpired token, and leaves it without sessions and index entries |
| SessionLaws.LoginAnswer | src/vtok_p11/src/backend/token.rs:152-177 | a login is accepted if and only if the handle names a session of an unexpired token that is not logged in, and the PIN is the token's; each refusal has its cause and changes nothing |
| SessionLaws.LogoutAnswer | src/vtok_p11/src/backend/token.rs:179-200 | a logout is accepted if and only if the handle names a session of an unexpired token in the user state |
| SessionLaws.FindMutAnswer | src/vtok_p11/src/backend/device.rs:128-141 | a lookup that may reload takes over a new stamp if and only if its handle is indexed, the stamp has moved and the load succeeds, and finds the session of an unexpired token after that |
| DeviceObjects.Token.OpenSession | src/vtok_p11/src/backend/token.rs:118-135 | refuses at 1024 sessions, otherwise adds a fresh session in the state of the login flag and nothing else |
| DeviceObjects.Token.CloseSession | src/vtok_p11/src/backend/token.rs:137-142 | removes exactly the named session or fails unchanged |
| DeviceObjects.Token.SetOthers | src/vtok_p11/src/backend/token.rs:165-173 | visiting the other sessions in any order brings all of them to the new state |
| DeviceObjects.Token.Login | src/vtok_p11/src/backend/token.rs:152-177 | wrong PIN, unknown handle and already logged in leave everything as it was, in that order of checks; otherwise all sessions and the flag are in the user state |
| DeviceObjects.Token.Logout | src/vtok_p11/src/backend/token.rs:179-200 | the same for logging out |
| DeviceObjects.Token.Refresh | src/vtok_p11/src/backend/token.rs:109-116 | only the expiry changes |
| DeviceObjects.Device.Create | src/vtok_p11/src/backend/device.rs:28-50 | builds a fresh device, one slot per configured slot, or nothing if some token's keys do not parse |
| DeviceObjects.Device.TokenAt | src/vtok_p11/src/backend/device.rs:234-244 | the token of a slot through the expiry filter |
| DeviceObjects.Device.OpenSession | src/vtok_p11/src/backend/device.rs:83-100 | the object does exactly the open step: token table, index and counter together, or nothing |
| DeviceObjects.Device.CloseSession | src/vtok_p11/src/backend/device.rs:102-112 | the object does exactly the close step |
| DeviceObjects.Device.CloseAllSlotSessions | src/vtok_p11/src/backend/device.rs:114-119 | the object does exactly the close-all step, both tables |
| DeviceObjects.Device.FindSession | src/vtok_p11/src/backend/device.rs:121-126 | returns the session of the handle's slot exactly when the handle resolves |
| DeviceObjects.Device.DoReloadSlots | src/vtok_p11/src/backend/device.rs:143-186 | the loop over slots computes the reload of all slots at once |
| DeviceObjects.Device.ReloadSlots | src/vtok_p11/src/backend/device.rs:188-198 | reloads only when the stamp moved, and stores the stamp only after a successful load |
| DeviceObjects.Device.FindSessionMut | src/vtok_p11/src/backend/device.rs:128-141 | reloads first, then returns the session that the slot found before now has under the handle, or none |
| DeviceObjects.Device.Login | src/vtok_p11/src/backend/device.rs:200-208 | the object does exactly the login step, without touching other slots |
| DeviceObjects.Device.Logout | src/vtok_p11/src/backend/device.rs:210-218 | the object does exactly the logout step |
| Linearise.Linearisable | src/vtok_p11/src/api/mod.rs:35-66 | in every interleaving of any number of threads and a server that locks and rewrites the file, a finished call took effect exactly once between its start and its end, as a step of the device, and got the reply of that step; a lookup that may reload read a stamp that the file had during the call, and after that the content of the file at a moment when it was free, before it took effect |
| Linearise.DeviceIsLog | src/vtok_p11/src/backend/token.rs:152-200 | whenever no login or logout is changing session states, the device is what the calls made one at a time leave, and sessions follow their token's flag |
| Linearise.WorkSeesLog | src/vtok_p11/src/api/mod.rs:53-66 | a thread working on a session sees the state that order gives it, even in the middle of another thread's login |
| Linearise.ThreadKeepsInv | src/vtok_p11/src/api/mod.rs:35-66 | every step of every thread keeps lock ownership, the progress of logins, session objects and the order of effects consistent |
| LockProgress.DeadlockFree | src/vtok_p11/src/api/mod.rs:35-66 | in every reachable state with a pending call some thread can go on with its call, unless the owner of the device lock is reloading and the server holds the file |
| LockProgress.FileWaitEnds | src/vtok_p11/src/backend/device.rs:188-198 | in that one case the server can give the file back, and then the owner goes on |
| LockProgress.WaitDiscipline | src/vtok_p11/src/backend/token.rs:152-200 | a thread waits for a session lock only while it holds the device lock, and never for one it holds |
| LockProgress.StepShrinks | src/vtok_p11/src/backend/token.rs:152-200 | every step other than starting a call brings the whole closer to the end, however scheduled |
| LockProgress.CallsFinish | src/vtok_p11/src/api/mod.rs:35-66 | from every reachable state, without new calls, threads take boundedly many steps |
| LockProgress.EveryCallEnds | src/vtok_p11/src/api/mod.rs:35-66 | so such a run, once no thread can go on and the file is free, leaves every thread idle |
| Store.CheckKeys | src/vtok_rpc/src/api.rs:216-231 | accepts keys exactly when ids and labels are pairwise distinct |
| Store.DecryptKeys | src/vtok_srv/src/worker.rs:291-324 | every key in order decrypted, or the error of the first that does not decrypt |
| Store.RunKeepsInv | src/vtok_srv/src/worker.rs:58-289 | after every request sequence: 128 slots, distinct labels, PIN and label bounds, distinct key ids and key labels, expiry at most the clock plus 48 hours |
| Store.StepKeepsInv | src/vtok_srv/src/worker.rs:58-289 | each request keeps that invariant as the clock moves on |
| Store.StepFrame | src/vtok_srv/src/worker.rs:58-289 | an error leaves the stored slots unchanged; a success drops expired tokens and changes only the slot of the named token under its PIN, or for an add the first free slot |
| Store.ChangeNeedsPin | src/vtok_srv/src/worker.rs:168-289 | an unexpired token is changed or removed only by a request with its label and PIN |
| Store.RunKeepsSlot | src/vtok_srv/src/worker.rs:58-289 | a token that no request finds expired and that none removes with its label and PIN keeps its slot, label and PIN through any other requests, adds of the same label included |
| Store.ListedSlots | src/vtok_srv/src/worker.rs:95-118 | the device listing names ascending slots with their tokens and remaining times, all running tokens are in it, and free count plus listed tokens is 128 |
| StoreLaws.ArgsValid | src/vtok_rpc/src/api.rs:216-258 | a request is let in if and only if PINs have 4 to 64 bytes, labels 1 to 32, and key ids and labels all differ |
| StoreLaws.ArgsRefused | src/vtok_rpc/src/api.rs:233-258 | and otherwise refused for the PIN before the label before the keys |
| StoreLaws.KeyRefused | src/vtok_rpc/src/api.rs:216-231 | of repeated ids and labels the first key that repeats one is named, its id before its label |
| StoreLaws.KeysTaken | src/vtok_srv/src/worker.rs:291-324 | keys are taken if and only if the KMS gives a text for each; stored are the given encrypted text, id, label and certificate and that text; otherwise the first failing key gives the error |
| StoreLaws.AddAnswer | src/vtok_srv/src/worker.rs:58-93 | an add is taken if and only if no unexpired token has the label, all keys decrypt and a slot is free or expired; which of them fails first decides the error |
| StoreLaws.AddStores | src/vtok_srv/src/worker.rs:58-93 | then a free slot holds label, PIN, the keys as given with their texts, and an expiry 48 hours on |
| StoreLaws.UpdateAnswer | src/vtok_srv/src/worker.rs:248-289 | an update is taken if and only if PIN and keys are right and another new label is not in use |
| StoreLaws.UpdateStores | src/vtok_srv/src/worker.rs:248-289 | then the slot holds the new keys and a new expiry under the old label and PIN |
| StoreLaws.RefreshAnswer | src/vtok_srv/src/worker.rs:168-224 | a refresh is taken if and only if the PIN is right and the KMS gives the stored text of the first key again; it changes the expiry and nothing else |
| StoreLaws.RemoveAnswer | src/vtok_srv/src/worker.rs:226-246 | a removal is taken if and only if the PIN is right, and then no unexpired token has the label |
| StoreLaws.DescribeAnswer | src/vtok_srv/src/worker.rs:120-166 | a description needs the PIN and gives label, slot, remaining time and the labels and ids of all keys in order |
| StoreLaws.DeviceAnswer | src/vtok_srv/src/worker.rs:95-118 | the listing names exactly the tokens that run at the load and at the listing, by ascending slot, with their remaining times, and counts the rest of 128 as free |
| StoreLaws.UnknownAnswer | src/vtok_srv/src/worker.rs:120-289 | requests on a label that no unexpired token has are answered that it is not found |
| StoreLaws.RunKeepsKeys | src/vtok_srv/src/worker.rs:58-289 | from add to update, removal or expiry a token keeps slot, label, PIN and keys through any requests |
| StoreLaws.RefreshWorks | src/vtok_srv/src/worker.rs:168-224 | a token added or updated with some key, and neither updated nor removed since, is refreshed for its PIN before it expires, as long as the KMS gives for the first key what it gave then |
| StoreLaws.AddThenRefresh | src/vtok_srv/src/worker.rs:58-224 | in particular right after the add |
| StoreMap.StepRefines | src/vtok_srv/src/worker.rs:58-289 | one request: the first-match and first-free scans answer as the capped map does, order of error checks included, and leave related stores |
| StoreMap.RunRefines | src/vtok_srv/src/worker.rs:58-289 | the same over every request sequence and clock |
| StoreMap.RelUnique | src/vtok_srv/src/worker.rs:58-93 | the map is determined by the slots |
| StoreMap.RelCount | src/vtok_srv/src/worker.rs:78-84 | the map has as many entries as slots are occupied, so the cap is reached exactly when no slot is free |
| StoreMap.ListedTtls | src/vtok_srv/src/worker.rs:95-118 | the listing, as a map from label to remaining time, is the map's |
| Worker.Config.DropExpired | src/vtok_common/src/config.rs:128-142 | the in-place sweep empties exactly the slots whose expiry has been reached |
| Worker.ScanLabel | src/vtok_srv/src/worker.rs:170-177 | the scan finds the first slot with a label, or none |
| Worker.ScanFree | src/vtok_srv/src/worker.rs:76-81 | the scan finds the first free slot, or none |
| Worker.AttestFirst | src/vtok_srv/src/worker.rs:185-218 | re-attestation succeeds if and only if there is a first key and it decrypts to the stored text; no key, bad base64 and every other outcome have an error of their own |
| Worker.DescribeDevice | src/vtok_srv/src/worker.rs:95-118 | a read-only load and a loop compute the listing and change nothing |
| Worker.DescribeToken | src/vtok_srv/src/worker.rs:120-166 | a read-only load, scan and loop compute the description and change nothing |
| Worker.SlotFile.InitNew | src/vtok_common/src/config.rs:56-81 | a new file has 128 free slots |
| Worker.ValidateKeys | src/vtok_rpc/src/api.rs:216-231 | the loop with two sets finds the first key that repeats an id or a label |
| Worker.ValidateArgs | src/vtok_rpc/src/api.rs:233-258 | validates each request in the order of its checks |
| Worker.DecryptTokenKeys | src/vtok_srv/src/worker.rs:291-324 | the loop stops at the first key that does not decrypt |
| Worker.AddToken | src/vtok_srv/src/worker.rs:58-93 | load, change and save do exactly the add step |
| Worker.RefreshToken | src/vtok_srv/src/worker.rs:168-224 | load, change and save do exactly the refresh step |
| Worker.RemoveToken | src/vtok_srv/src/worker.rs:226-246 | load, change and save do exactly the remove step |
| Worker.UpdateToken | src/vtok_srv/src/worker.rs:248-289 | load, change and save do exactly the update step |
| Worker.Serve | src/vtok_srv/src/worker.rs:29-56 | validation and dispatch do exactly one step of the store |
| ConfigFile.ActKeepsInv | src/vtok_common/src/config.rs:92-118 | every action of every process keeps lock exclusion, the meaning of each local copy and the serial explanation of the file |
| ConfigFile.Serialisable | src/vtok_common/src/config.rs:92-118 | in every interleaving the file outside a save is the serial result of the saved requests, every answer is the serial one at a point between arrival and completion, no update is lost, and no load meets a half-written file |
| ConfigFile.ReloadCoherent | src/vtok_p11/src/backend/device.rs:143-198 | in every interleaving, for a device that has reloaded or agreed when it was built: when its stamp is the file's, no save is under way and what it last loaded is the file's current content less what had expired at the load |
| ConfigFile.BootAgreesIff | src/vtok_p11/src/backend/device.rs:28-50 | a start agrees with the file if and only if no save is under way when it reads the stamp and the saves since it read the content add up to no change; an unmoved stamp is enough |
| FileProgress.NobodyStuck | src/vtok_common/src/util/flock.rs:21-57 | in every reachable state in which a process has begun a request, a reload or a start, some process can go on |
| FileProgress.EverythingEnds | src/vtok_common/src/util/flock.rs:21-57 | as long as nothing new is begun, processes take boundedly many steps, and when none can go on every request is answered and every reload and start is done |
| FileProgress.ServedAs | src/vtok_common/src/config.rs:92-142 | whatever happens in between, a request is served as it came, with the clock of its load and that of its second reading |
| FileProgress.LockGrantedIff | src/vtok_common/src/util/flock.rs:21-57 | readers share the file and writers have it alone: a describe request, a reload or a start gets the lock if and only if nobody is writing, any other request if and only if nobody reads either |
| FileProgress.ReloadBeginsIff | src/vtok_p11/src/backend/device.rs:188-198 | a reload begins if and only if the device's stamp is not the file's |
| FileClock.ReachableTimes | src/vtok_common/src/config.rs:128-142 | in every interleaving the saved requests read a forward clock, because they read it under the lock, each succeeded where it stands in the order, and device loads fall between them in time order |
| DeviceCopy.ReachableCopies | src/vtok_p11/src/backend/device.rs:143-186 | in every interleaving a slot of a device holds a token exactly when every load since it was built found one there, and it is the token of the first load with the expiry of the last |
| DeviceCopy.TokenIsStored | src/vtok_p11/src/backend/device.rs:143-198 | when the stamps agree, a device token is backed by a stored token in the same slot with the same expiry |
| DeviceCopy.HoldsIff | src/vtok_p11/src/backend/device.rs:152-178 | when the stamps agree, a slot holds the stored token (label, PIN, keys, expiry) if and only if every load since the device was built found a token there and the first had the label, PIN and keys of the last |
| DeviceCopy.UntouchedIff | src/vtok_p11/src/backend/device.rs:152-178 | if no request saved since the device was built added to, removed from or updated the slot, it holds the stored token if and only if there was one to build from and it is still stored |
| DeviceCopy.LoginTakesBuiltPin | src/vtok_p11/src/backend/device.rs:170-178 | in every interleaving and at every stamp a login takes exactly the PIN that the token had when the device was built |
| FileRuns.BootRace | src/vtok_p11/src/backend/device.rs:28-50 | a run on a new file in which a start keeps a removed token under the current stamp, for every token that can be added |
| FileRuns.OldTokenStays | src/vtok_p11/src/backend/device.rs:170-178 | on a new file, for all tokens A and B that can be added: add A, start a device and open a session, remove A, add B, reload: the stamps agree, the file holds B, and the device holds A under B's expiry and accepts A's PIN |
| ConcurrentStore.ContentIsPlain | src/vtok_common/src/util/flock.rs:21-57 | under concurrency the stored content is the plain map after the saved requests |
| ConcurrentStore.AnswersArePlain | src/vtok_srv/src/worker.rs:29-56 | every answer given under concurrency is the plain map's at one point of the serial order |
| ConcurrentStore.ContentIsGood | src/vtok_srv/src/worker.rs:58-289 | the store invariant holds in every interleaving, expiry bound included |
| ConcurrentStore.LastLoadIsPlain | src/vtok_p11/src/backend/device.rs:143-198 | what a device in step with the file last loaded is the plain map's live part at that time |
| ConcurrentStore.TokensArePlain | src/vtok_p11/src/backend/device.rs:143-198 | each token of a device in step stands for an entry of the plain map with its expiry |
| AgentSchedule.NoLapse | src/vtok_agent/src/agent/mngtok.rs:332-389 | when refresh interval plus sync gap stays within the store's lifetime, every sync after the first finds the token online, whatever other clients without its PIN do |
| AgentSchedule.NoLapseIff | src/vtok_agent/src/agent/mngtok.rs:332-389 | no run lapses if and only if interval plus gap meets the bound, to the clock tick |
| AgentSchedule.LapseRun | src/vtok_agent/src/agent/mngtok.rs:332-389 | past the bound, a run of successful punctual syncs in which the token lapses |
| AgentSchedule.ForeignLeaves | src/vtok_srv/src/worker.rs:58-289 | requests without the PIN leave a live token as it is |
| AgentSchedule.DefaultsSafe | src/vtok_agent/src/main.rs:41 | a 12-hour refresh with gaps of up to 70 minutes is within the bound |
| AgentKeys.KeysAreLastSent | src/vtok_agent/src/agent/mngtok.rs:363-389 | under the bound, in every run and whatever other clients without the PIN do, the stored keys of the token are those of the last sync that found it gone or its material changed |
| AgentKeys.SentIsStored | src/vtok_agent/src/agent/mngtok.rs:306-389 | a successful sync with changed material, or for a token that is gone, leaves exactly its material in the store |
| AgentKeys.SyncSucceedsIff | src/vtok_agent/src/agent/mngtok.rs:332-389 | a sync for a token that runs succeeds if and only if changed material is valid and decrypts, or for unchanged material no refresh is due or the KMS gives the stored text of the first key |
| AgentKeys.AddSucceedsIff | src/vtok_agent/src/agent/mngtok.rs:344-389 | a sync for a token that is gone succeeds if and only if the store takes the token anew |
| AgentKeys.RefreshNeverFails | src/vtok_agent/src/agent/mngtok.rs:332-389 | under the bound, a sync in time with unchanged material does not fail as long as the KMS gives for the first key what it gave when that was sent |
| AgentKeys.DueOnGrid | src/vtok_agent/src/agent/mngtok.rs:332-342 | over every run, refreshes fall due on a fixed grid: one interval later for each refresh made, whenever it was made |
| AgentDevice.LogTable | src/vtok_agent/src/agent/mngtok.rs:332-389 | the store after any run of the agent and other clients is what the requests saved by that run make of it |
| AgentDevice.ReloadFindsIff | src/vtok_p11/src/backend/device.rs:143-198 | at the end of a reload, in every interleaving, a session is found if and only if the file as loaded had a token in its slot that had not expired at the load and is not past its expiry now |
| AgentDevice.ReloadFinds | src/vtok_p11/src/backend/device.rs:128-198 | a reload from reading the stamp to storing it, with any steps of other processes and the clock in between: while the agent keeps the bound and, as of the load, its next sync is not overdue, every session of the slot of its token is found at the end, and the token unexpired |
| AgentDevice.InStepFinds | src/vtok_p11/src/backend/device.rs:121-126 | the same for a device whose stamp is already the file's |
| AgentDevice.UntouchedAlive | src/vtok_p11/src/backend/device.rs:143-198 | a device in step, built when the slot held a token and with no request since that added to, removed from or updated the slot, holds the agent's own token there, unexpired |
| ThreadedDevice.RunsTogether | src/vtok_p11/src/api/mod.rs:35-66 | every run of the threads of one process together with any other processes on the file is a run of the threads and a run of the processes, and the device of the process is what the threads' calls leave, one at a time in the order of the log |
| ThreadedDevice.NeverHeldUp | src/vtok_p11/src/api/mod.rs:35-66 | what a thread can do by itself it can do in that composition |
| ThreadedDevice.BootBegins | src/vtok_p11/src/backend/device.rs:28-50 | every start of a process in any interleaving begins such a run |
| ThreadedDevice.SharedCoherent | src/vtok_p11/src/backend/device.rs:143-198 | reload coherence of the device that threads share, also in the middle of a login: when its stamp is the file's, the file is whole, what was last loaded is its content less what had expired, and each token is backed by a stored one with the same expiry |
| ThreadedDevice.SharedHoldsIff | src/vtok_p11/src/backend/device.rs:152-178 | and a slot of it holds the stored token if and only if every load since it was built found a token there and the first had the label, PIN and keys of the last |
| ThreadedDevice.SharedFinds | src/vtok_p11/src/backend/device.rs:128-198 | while the agent is on schedule as of the load, a thread whose lookup reloads finds the session of the slot of the agent's token |
| ManagedToken.Managed.Sync | src/vtok_agent/src/agent/mngtok.rs:363-389 | describe, then update, refresh or add, against the worker's file does exactly the sync step; the refresh time moves by one interval only after a successful refresh |
| HeaderText.DecodeAscii | src/vtok_rpc/src/transport.rs:97-100 | UTF-8 decoding undoes the writing of ASCII text |
| HeaderText.FieldsOf | src/vtok_rpc/src/transport.rs:106-115 | splitting at ": " recovers name and value |
| HeaderText.ParseDecimal | src/vtok_rpc/src/transport.rs:108-111 | parsing a printed length below 2^64 gives it back |
| Framing.HeadersRead | src/vtok_rpc/src/transport.rs:94-126 | the header section that is written is read back and what follows it is left; a length over 65536 is refused |
| Framing.RoundTrip | src/vtok_rpc/src/transport.rs:130-217 | receiving what was sent for any body of at most 65536 bytes gives that body, whatever follows on the stream |
| Framing.OversizeRefused | src/vtok_rpc/src/transport.rs:117-123 | a longer body is refused for its length |
| Framing.MessageComplete | src/vtok_rpc/src/transport.rs:163-217 | no line of a sent head is cut short by the header limit |
| FramingLaws.RequestStart | src/vtok_rpc/src/transport.rs:141-151 | a request is taken if and only if its line begins with the words POST, the receiver's URL and HTTP/1.1; another URL between these is a bad URL, everything else is not parsed |
| FramingLaws.ResponseStart | src/vtok_rpc/src/transport.rs:192-200 | a response is taken if and only if its line begins with the words 200 and OK |
| FramingLaws.OtherUrlRefused | src/vtok_rpc/src/transport.rs:141-151 | a whole request to another URL is refused as that, whatever follows |
| FramingLaws.OtherKindRefused | src/vtok_rpc/src/transport.rs:141-200 | a response where a request is due is not parsed, and the other way round |
| FramingLaws.HeaderTaken | src/vtok_rpc/src/transport.rs:106-115 | the two known headers are Content-Length, with its number, and Content-Type: application/json; any other line is refused |
| FramingLaws.NumberTaken | src/vtok_rpc/src/transport.rs:108-111 | a number is an optional plus sign and one or more digits of a value below 2^64 |
| FramingLaws.DigitsNext | src/vtok_rpc/src/transport.rs:108-111 | each further digit counts the digits before it ten times |
| FramingLaws.SectionRead | src/vtok_rpc/src/transport.rs:94-126 | of any header lines the first that is not known refuses the section, the last content length counts, none is an error, and more than 65536 is too much |
| FramingLaws.SpacesAre | src/vtok_rpc/src/transport.rs:100-144 | white space is the 25 characters that Unicode calls so |
| FramingLaws.TrimIs | src/vtok_rpc/src/transport.rs:100-101 | trimming takes white space away at both ends and nothing else |
| FramingLaws.ReceivedIff | src/vtok_rpc/src/transport.rs:152-160 | a body is received if and only if the head declares its length and its bytes follow; a body cut short is an input error |
| FramingLaws.CutBodyRefused | src/vtok_rpc/src/transport.rs:152-160 | a message cut anywhere within its body is an input error |
| FramingLaws.NoTextRefused | src/vtok_rpc/src/transport.rs:97-143 | a line that is no UTF-8 is an input error |
| FramingLaws.MessageBytes | src/vtok_rpc/src/transport.rs:163-217 | what is sent, byte by byte |
| FramingLaws.BodyLimit | src/vtok_rpc/src/transport.rs:73-75 | with a head of at most 1024 bytes a body is received up to 65536 bytes and refused for its length beyond |
| FramingLaws.LongLineRefused | src/vtok_rpc/src/transport.rs:141-143 | a first line that goes on beyond 1024 bytes is refused |
| Utf8Laws.DecodeIff | src/vtok_rpc/src/transport.rs:97-143 | bytes decode to a text if and only if they are its UTF-8 encoding (RFC 3629) |
| Transport.LimitedReader.ReadLine | src/vtok_rpc/src/transport.rs:141-143 | the buffered loop returns the first line of what may be read, for every splitting of the stream, and waits for more only if the line is unfinished |
| Transport.LimitedReader.ReadExact | src/vtok_rpc/src/transport.rs:155-160 | fills the buffer with the next bytes or fails exactly when there are fewer, by way of the buffer or past it |
| Transport.ReadHeaders | src/vtok_rpc/src/transport.rs:94-126 | the header loop computes the header function for every splitting and leaves the reader at the body |
| Transport.Recv | src/vtok_rpc/src/transport.rs:130-161 | on any input and any splitting the result is the receive function of the bytes, at most 1024 plus the declared length are pulled, no read waits beyond a message that is there, what is left is exactly what was not pulled, and how much that is follows from the sizes of the pieces |
| ReadCounts.NeverTooMuchIff | src/vtok_rpc/src/transport.rs:152-160 | no sizes of pieces make the reader pull beyond the message if and only if the head fills the limit, or leaves one byte of it and the body is one byte |
| ReadCounts.AskIs | src/vtok_rpc/src/transport.rs:131-160 | the buffer is refilled by 8192 bytes, the default of the buffered reader, and passed by for as much or more at once |
| Transport.Send | src/vtok_rpc/src/transport.rs:163-180 | writes exactly the message |
| Transport.Deliver | src/vtok_rpc/src/transport.rs:182-217 | send then receive with the API's URL or a response: the body arrives, and the stream is clean for the next message |
| Transport.Converse | src/vtok_rpc/src/transport.rs:33-37 | any number of request and response exchanges over one connection all arrive |
| Pipelining.RecvBoth | src/vtok_rpc/src/transport.rs:152-160 | two messages in a row: the first arrives, and the second if and only if the lengths and the sizes of the pieces are such that no byte of it is pulled with the first |
| Pipelining.BothAlwaysIff | src/vtok_rpc/src/transport.rs:152-160 | that is so for all sizes of pieces if and only if the first head has 1024 bytes, or 1023 and its body one |
| Pipelining.LosesSecond | src/vtok_rpc/src/transport.rs:152-160 | for every two messages with other lengths, a run in which the first arrives and the second does not |
| Pipelining.LosesRequest | src/vtok_rpc/src/transport.rs:130-161 | two requests with the API's URL whose first read hands out 1024 bytes: the first arrives and the second is lost |
| Pipelining.CutMessage | src/vtok_rpc/src/transport.rs:141-151 | a message that has lost its first bytes is not received |
| DigestSpec.RunAgrees | src/vtok_p11/src/api/digest.rs:11-133 | after every call sequence the replies alone tell whether a context is there and what was fed into it; one context never has both single-part and multi-part use |
| DigestSpec.Delivered | src/vtok_p11/src/api/digest.rs:30-133 | whatever was called before, a delivered digest is the one-shot digest of the parts accepted since the last initialisation (or of the single-part data), with its exact length, and the context is gone; the "should never happen" code is not returned |
| DigestSpec.Answered | src/vtok_p11/src/api/digest.rs:11-133 | every answer of every call after every run, from the calls and replies before it: when calls are let in, the code of every refusal, the length and the digest |
| DigestSpec.UseRules | src/vtok_p11/src/crypto/digest.rs:47-62 | no update is accepted once finalisation began or after single-part use, and neither kind of use is let in after the other |
| DigestSpec.Survives | src/vtok_p11/src/api/digest.rs:30-133 | a context survives exactly the calls that only answered a length and the updates with data |
| DigestSpec.RunRetries | src/vtok_p11/src/api/mod.rs:70-88 | any number of length queries and too small buffers each report the length and keep what was fed |
| DigestSpec.Streaming | src/vtok_p11/src/api/digest.rs:30-133 | for every split into updates and any number of retryable finalisations, the digest delivered is that of one call on all the data |
| DigestApi.DigestCtx.Enter | src/vtok_p11/src/crypto/digest.rs:47-62 | the phase changes exactly when the change is allowed |
| DigestApi.DigestCtx.Absorb | src/vtok_p11/src/crypto/digest.rs:64-79 | an update in the right phase feeds the data, another changes nothing |
| DigestApi.DigestSession.DigestInit | src/vtok_p11/src/api/digest.rs:11-28 | replaces the context, or on a null or unknown mechanism keeps it |
| DigestApi.DigestSession.DigestOnce | src/vtok_p11/src/api/digest.rs:30-73 | context, length cell and buffer become exactly what the single-part step says |
| DigestApi.DigestSession.DigestUpdate | src/vtok_p11/src/api/digest.rs:75-93 | context and code are those of the update step |
| DigestApi.DigestSession.DigestFinal | src/vtok_p11/src/api/digest.rs:95-133 | context, length cell and buffer become exactly what the final step says |
| DigestApi.DigestSession.DigestParts | src/vtok_p11/src/api/digest.rs:75-133 | an application that feeds parts, asks for the length and fetches gets the one-shot digest of the whole in a buffer of that size |
| CallerMemory.CheckOut | src/vtok_p11/src/api/mod.rs:70-88 | null length, null buffer and too small buffer are answered at once, the needed length written before |
| CallerMemory.CopyOut | src/vtok_p11/src/api/mod.rs:106-122 | delivers the bytes and their number, or nothing if they do not fit |
| BigEndian.FullWidth | src/vtok_p11/src/crypto/mod.rs:253-262 | a number takes all its bytes exactly when the first is not zero |
| EcdsaFormat.SigRoundTrip | src/vtok_p11/src/crypto/mod.rs:346-366 | decoding an encoded pair gives it back, whatever follows |
| EcdsaFormat.SigCanonical | src/vtok_p11/src/crypto/mod.rs:357-366 | only one encoding of a pair is accepted, at the start of the input |
| EcdsaFormat.SigBytes | src/vtok_p11/src/crypto/mod.rs:346-366 | the encoding byte by byte: a SEQUENCE (0x30) of two INTEGERs (0x02) in two's complement without a byte to spare |
| EcdsaFormat.ElementBytes | src/vtok_p11/src/crypto/mod.rs:346-366 | an element is its tag, its length in one byte below 128 or in counted bytes, and its content |
| EcdsaFormat.SigExample | src/vtok_p11/src/crypto/mod.rs:346-366 | the eleven bytes of R = 1, S = 255 |
| Ecdsa.HalvesFit | src/vtok_p11/src/crypto/mod.rs:343-351 | the DER form of two halves fits the buffer made for it |
| Ecdsa.CkrsThereAndBack | src/vtok_p11/src/crypto/mod.rs:322-395 | [R,S] to DER and back keeps the values of R and S for every even length, is never longer, ignores what follows the DER, and is the same bytes if and only if some half has a nonzero leading byte or there are none |
| Ecdsa.DerThereAndBack | src/vtok_p11/src/crypto/mod.rs:322-395 | DER to [R,S] and back gives the DER bytes without their padding |
| Ecdsa.CkrsDecided | src/vtok_p11/src/crypto/mod.rs:322-395 | bytes convert to a full-length [R,S] form if and only if they start with its DER form |
| Ecdsa.FillPadded | src/vtok_p11/src/crypto/mod.rs:378-392 | writes a number right-aligned into its part of the buffer and nothing else, or refuses one that needs more |
| Ecdsa.SigDerToCkrs | src/vtok_p11/src/crypto/mod.rs:357-395 | the in-place conversion computes the [R,S] form |
| Ecdsa.SigCkrsToDer | src/vtok_p11/src/crypto/mod.rs:322-352 | the conversion by way of a zeroed buffer computes the DER form |
| Signing.SigFits | src/vtok_p11/src/crypto/key.rs:71-86 | the produced signature is no longer than advertised and carries R and S; RSA has exactly that length, ECDSA exactly when R or S takes all bytes of the order |
| Signing.SignReply | src/vtok_p11/src/api/sign.rs:37-80 | the device-error branch is unreachable, an OK answer with bytes reports exactly their number, and the context survives exactly the calls that ask for the length |
| Signing.SignAnswer | src/vtok_p11/src/api/sign.rs:37-80 | every answer of a sign call: the code of every refusal, the advertised length, and with room enough what the library computed |
| Signing.RetrySign | src/vtok_p11/src/api/sign.rs:37-80 | any number of length queries and too small buffers change nothing for the call that follows |
| Signing.SignThenVerify | src/vtok_p11/src/api/verify.rs:37-68 | verifying a signature the module made succeeds if and only if the key is RSA or R or S takes all its bytes, and is refused for its length otherwise |
| Signing.VerifyAnswer | src/vtok_p11/src/crypto/verify.rs:100-134 | for every context, data and signature the answer is OK if and only if the call is let in, the length is the advertised one and the library accepts the signature (as it is, or the one DER string that reads as the values of its halves); what the library refuses is an invalid signature; each other refusal has its cause |
| Signing.LengthIs | src/vtok_p11/src/crypto/key.rs:71-86 | the advertised length is that of the modulus, or twice that of the order, in whole bytes |
| Signing.ShortSignature | src/vtok_p11/src/crypto/verify.rs:124-134 | for every curve whose order takes more than one byte, R = S = 1 is signed in two bytes and refused |
| Signing.ShortOnP256 | src/vtok_p11/src/crypto/verify.rs:124-134 | on P-256 that is a 2-byte signature where 64 are advertised and asked for |
| SignApi.SignSession.Produce | src/vtok_p11/src/crypto/sign.rs:108-130 | the zeroed buffer, written by the library and converted, is the Cryptoki signature |
| SignApi.SignSession.Sign | src/vtok_p11/src/api/sign.rs:37-80 | context, length cell and buffer become exactly what the sign step says |
| SignApi.SignSession.Verify | src/vtok_p11/src/api/verify.rs:37-68 | consumes the context and answers as the verify step |
| Attributes.LastCodeIs | src/vtok_p11/src/backend/db/object.rs:385-418 | the result is OK if and only if every entry is present, not sensitive and null or large enough; otherwise the code of the last entry that is not |
| Attributes.CodeIs | src/vtok_p11/src/backend/db/object.rs:385-418 | the code of an entry: unknown type, sensitive, too small, or answered |
| Attributes.WritesOnlyValues | src/vtok_p11/src/backend/db/object.rs:385-418 | sensitive, unknown and too small entries never get bytes; an answered one gets exactly its value at the start |
| Attributes.QueryThenFetchAll | src/vtok_p11/src/backend/db/object.rs:385-418 | a length query followed by a call with those lengths returns the exact values and no buffer is too small |
| Attributes.RawAttr.SetValue | src/vtok_p11/src/util/ckraw.rs:43-54 | copies only into a buffer that is there and large enough |
| Attributes.RawAttr.Fill | src/vtok_p11/src/backend/db/object.rs:388-411 | answers one entry in caller memory |
| Attributes.FillTemplate | src/vtok_p11/src/backend/db/object.rs:385-418 | every entry is answered independently of the others' failures and the last failing code is reported |
| Search.MatchTemplate | src/vtok_p11/src/backend/db/object.rs:363-383 | the loop decides whether all wanted attributes are there, and for a mechanism whether the class is named |
| Search.MatchUnordered | src/vtok_p11/src/backend/db/object.rs:363-383 | order and repetition of template entries do not matter |
| Search.MatchPermuted | src/vtok_p11/src/backend/db/object.rs:363-383 | a permuted template matches the same objects |
| Search.MechanismNamed | src/vtok_p11/src/backend/db/object.rs:376-383 | a mechanism matches only a template that names its very class |
| Search.HandlesExact | src/vtok_p11/src/backend/session.rs:111-133 | a search lists exactly the handles of visible matching objects, ascending and without repeats, and each looks up the object that matched |
| Search.SeenIff | src/vtok_p11/src/backend/session.rs:111-133 | a search lists an object if and only if it is searched for (with a template: every wanted value is the value of its attribute, and for a mechanism the class is wanted; without one: it is no mechanism) and, without a login, its attribute CKA_PRIVATE is not the byte 1 |
| Search.HiddenFromPublic | src/vtok_p11/src/backend/session.rs:111-133 | without a login a search lists what it lists with one, less the private objects |
| Search.EnumCtx.NextChunk | src/vtok_p11/src/backend/session.rs:26-31 | the next handles in order; the range is refused if and only if index plus count does not fit 64 bits |
| Search.Collect | src/vtok_p11/src/backend/session.rs:22-31 | for every sequence of chunk sizes without overflow the chunks together are a prefix of the handles, all of them once enough were asked for, and a short chunk means the end |
| Search.ListHandles | src/vtok_p11/src/backend/session.rs:111-133 | the filter with the matching loop lists exactly the specified handles |
| Search.SearchSession.FindInit | src/vtok_p11/src/backend/session.rs:111-133 | starts a search over what is visible now, unless one is in progress |
| Search.SearchSession.Find | src/vtok_p11/src/api/object.rs:10-87 | a whole search finds, in order, exactly listed objects |

## Left out

- AWS libcrypto and KMS: hashing, signing, verifying and decrypting are functions with the contracts of their public documentation; their failures are modelled where the code tells them apart.
- JSON and YAML: message bodies are bytes, and the configuration file is the slots it encodes.
- Failing file operations, failing saves, partial writes, lock poisoning and panics, except the range check of a search.
- The clock is read once for all of one device call; a request reads it at load and once later; it does not run backwards.
- 64-bit overflow of expiry arithmetic.
- URI and string normalisation: strings are their bytes, and the URL of a request is one ASCII word whose request line fits the header limit, which the API's URL does.
- Store.DecryptKeys: does not model the base64 and envelope-key plumbing, only which of its steps failed.
- DeviceObjects.Device.Create: certificate parsing and the objects of a token are not part of the device model, only whether building them fails.
- LockProgress.DeadlockFree: the server is one process that may hold the file's lock, and a reload locks, loads and unlocks in one step once the file is free; lock poisoning and failing loads are not modelled.
- ConfigFile.ReloadCoherent: assumes that every change gives the file a new stamp, as the design does.
- AgentSchedule.NoLapse: agent and store read one clock, although they run on two machines, so the bound leaves no room for clock drift; other clients do not know the token's PIN, and syncs succeed; failed syncs and the post-sync service actions are not modelled.
- Ecdsa.CkrsThereAndBack: even lengths only, as the format promises; lengths of addressable memory, with DER lengths of any size the standard allows.
- Attributes.FillTemplate: template entries do not share buffers.
- Search.SearchSession.FindInit: the null-template argument check and the handle array written by C_FindObjects are not modelled.
- Signing.SignReply: single-part use only; multi-part signing consumes its context on the first update and multi-part verification does no conversion, so they add no sound property.
- Encryption and decryption calls: the same output convention around library calls.
- X.509 chains, mechanism tables, information structures, raw pointers and C layout, `Config::init_new` beyond the initial state, sockets, S3, systemd, the nginx and httpd writers, and the command-line tools.
