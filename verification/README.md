# A verified model of the fuzzy-chat relay

fuzzy-chat relays a message from one client to another through three proxies. A controller keeps the sessions of
everybody logged in and hands out the way one hop at a time: each hop redeems a one-time nonce, asks for the next
hop and forwards, and the fourth route lands on the recipient. This project models the controller, the proxies, the
clients and their authentication in Dafny and proves what the network promises, over every run and interleaving.

`dafny verify dfyconfig.toml` checks everything. Every lemma switches automatic induction off, so each proof is the one
written.

## What is modelled

- **Sessions** (`SessionTable`, `SessionRepository`, `SessionIndex`, `SessionConcurrency`, `SessionTiming`,
  `Heartbeat`, `AuthService`, `ControllerMain`): the in-memory session repository as a class of four maps, specified
  by functions on a table value. Its three indexes are compared with a plain scan of the sessions, over whole runs and
  under every interleaving of single map accesses, and its deadlines are followed in milliseconds.
- **Routes** (`RouteTable`, `RouteRepository`, `RouteHistory`, `RouteTiming`, `RedisRepository`,
  `BackendSimulation`, `RedisTiming`): both backends of the route repository as classes, the life of every nonce, when
  concurrent redeemers share one, how long what is stored stays, and exactly which calls the backends answer alike.
- **The controller's RPCs** (`Controller`, `RouteService`, `ControllerHistory`): the route service as a class over
  the two repositories, specified by one step per RPC; runs of RPCs refine runs of the route repository.
- **The relay** (`Relay`, `Network`, `RelayLiveness`): any number of messages under way, each a chain of nested
  calls, interleaved with each other and with everybody else's logins, pings, logouts, sweeps, failures and calls
  about other conversations. `Network` has the calls in the form the client, the proxies and the recipient make them,
  with interference before every step; its mutual recursion terminates.
- **Locks** (`Locks`, `RepositoryLocks`): fair first-in-first-out read/write locks, the order in which every
  repository call takes them, and exactly when tasks can get stuck.
- **The clients' side** (`AuthHandler`, `CommandParser`): the login/ping/logout loop with the exact language of its
  calls, and the command line.

## What turned out not to hold as such

- A heartbeat whose round trips and delays each stay within the ping interval does not keep its session: a slow
  answer followed by a slow request leaves 15000 ms between renewals
  (`Heartbeat.FiveSecondRoundTripsNotEnough`). `HeartbeatKeepsSessionIff` gives the exact condition.
- A client that logs in again before its first session expires becomes unreachable when the first is swept, and a
  logout of one of two sessions of a uid does the same to the other (`SessionIndex.SecondLoginIsForgotten`);
  `SweepKeepsClientsReachableIff` and `RemoveKeepsClientsReachableIff` say exactly when.
- The session repository's lookups take two locks in the opposite order to the logout and to the sweeper, and can
  wait for each other for ever (`RepositoryLocks.SessionRepositoryStuckIff`).
- In Redis a redeemed nonce stays redeemable until the hash of its conversation expires
  (`BackendSimulation.RedisFindsNonceIff`), although the repository's documentation has routing information removed
  when it is no longer needed.
- In memory two redeemers that both look a nonce up before either removes it both succeed
  (`RouteHistory.TwoRedeemersBothHit`), and on an end route the second can panic (`SecondRedeemerPanics`). A nonce is
  redeemed once exactly when no redeemer overtakes another (`RedeemedOnceIff`), and the panic happens exactly when the
  conversation goes between the guard and the unwrap (`UnwrapPanicsIff`).
- The backends of the route repository agree for a minute (`BackendSimulation.AgreeForAMinute`) but not for ever:
  memory answers what has expired until it is swept (`SilentTalkDiffers`), and a route prolongs its conversation in
  Redis only (`LongTalkDiffers`). `TimedAlikeIff` and `BackendsAgree` say exactly which calls part them, and when.
- The controller's own refresh makes count_controllers 0 while sessions of it are stored
  (`SessionIndex.RefreshIsForgotten`); `NoControllerCountedIff` says exactly when.
- A message that is under way is lost when the session its route leads to is gone; that other proxies are logged in
  does not help (`RelayLiveness.LostNotDelivered`).
- A recipient whose name occurs inside the command word does not get the message typed
  (`CommandParser.SendRoundTripIff`).

## Assumptions

Access keys, conversation ids and nonces are generated fresh, so an access key determines the uid and kind of
component it was issued to (`login`); the clock is monotone; Redis behaves as a map of texts and hashes with
deadlines. In the relay each controller RPC is one step, and a conversation id and its nonces are used only by the
parties they were handed to. Choices of the environment (hash map orders, the index drawn, failures, who acts next)
are arbitrary.

## Model

| member | source | states |
|---|---|---|
| `SessionRepository.InMemoryRepository.SetSession` | controller/src/storage/inmemory/session_repository.rs:95-118 | The index of the session's kind and then the sessions get the entry; the new state is `Set`, whose runs the lemmas below are about |
| `SessionRepository.InMemoryRepository.GetSession` | controller/src/storage/inmemory/session_repository.rs:120-126 | Finds the session and renews its deadline; nothing else changes |
| `SessionRepository.InMemoryRepository.RemoveSession` | controller/src/storage/inmemory/session_repository.rs:128-135 | Removes the session and its uid from the clients index only |
| `SessionRepository.InMemoryRepository.GetProxies` | controller/src/storage/inmemory/session_repository.rs:137-157 | The answer is the index iterated in some order without the asker's key and without dangling keys, and None when that is empty |
| `SessionRepository.InMemoryRepository.GetClient` | controller/src/storage/inmemory/session_repository.rs:159-169 | The session the clients index names, if it is stored |
| `SessionRepository.InMemoryRepository.KillExpiredSessions` | controller/src/storage/inmemory/session_repository.rs:57-90 | In whatever order the expired entries are collected, one pass leaves exactly the unexpired sessions, and every index minus the uids of the expired ones |
| `SessionRepository.InMemoryRepository.CollectExpired` | controller/src/storage/inmemory/session_repository.rs:67-76 | The access keys and uids collected are exactly those of the expired entries, because a session is stored under its own access key |
| `SessionTable.LoginExact` | controller/src/storage/inmemory/session_repository.rs:95-118 | A login is found under its key from then on and through every sweep of the next 10000 ms, its kind's index names it, and no other entry changes |
| `SessionTable.LogoutExact` | controller/src/storage/inmemory/session_repository.rs:128-135 | A logout takes the session and its uid from the clients index only: a proxy logged out is still counted and no longer listed |
| `SessionTable.SweepExact` | controller/src/storage/inmemory/session_repository.rs:62-85 | A sweep keeps exactly the sessions whose deadline has not passed and, in each of the three indexes, exactly the uids without an expired session |
| `SessionTable.RunSound` | controller/src/storage/inmemory/session_repository.rs:50-157 | After any run of logins, lookups, logouts and sweeps an index only holds keys issued to that uid and kind |
| `SessionTable.SoundAnswers` | controller/src/storage/inmemory/session_repository.rs:137-169 | After any run get_client only answers Client sessions of the uid asked for, and get_proxies a non-empty list of pairwise distinct Proxy sessions without the asker's |
| `SessionConcurrency.InterleavingsSound` | controller/src/storage/inmemory/session_repository.rs:95-169 | In every state of every interleaving of single map accesses, also between the two writes of a login or a logout, a key held by an index is absent from the sessions or names a session of that uid and kind, and every get_client and get_proxies answer given is right |
| `SessionConcurrency.AloneIsOperation` | controller/src/storage/inmemory/session_repository.rs:95-169 | The steps of a call that no other task interrupts are the repository's operation: the same table and the same answer |
| `SessionConcurrency.CanRunAlone` | controller/src/storage/inmemory/session_repository.rs:95-169 | From every table every call can be run to its end |
| `SessionConcurrency.BetweenWrites` | controller/src/storage/inmemory/session_repository.rs:95-135 | Between the two writes of a first login the uid is indexed and not found yet; between those of a logout the session is gone and still indexed |
| `SessionConcurrency.ClientLookupReads` | controller/src/storage/inmemory/session_repository.rs:159-169 | However tasks interleave, a get_client answer is one reading of the index and a later or equal reading of the sessions, both while the lookup was under way |
| `SessionConcurrency.SteadyClientFound` | controller/src/storage/inmemory/session_repository.rs:159-169 | A client whose index entry and session stay throughout an interleaved lookup is found |
| `SessionConcurrency.ProxiesLookupReads` | controller/src/storage/inmemory/session_repository.rs:137-157 | The same of get_proxies: the keys from one state, the sessions from a later or equal one |
| `SessionConcurrency.SteadyProxyListed` | controller/src/storage/inmemory/session_repository.rs:137-157 | Another proxy whose index entry and session stay throughout an interleaved lookup is listed |
| `SessionIndex.IndexEqualsScan` | controller/src/storage/inmemory/session_repository.rs:50-179 | On runs where no uid logs in over its own stored session, get_client, count_clients and get_proxies answer what a scan of the sessions gives, and count_proxies never undercounts |
| `SessionIndex.ClientAnswerIsScan` | controller/src/storage/inmemory/session_repository.rs:159-169 | get_client answers a session if and only if it is a stored Client session of that uid |
| `SessionIndex.CountClientsIsScan` | controller/src/storage/inmemory/session_repository.rs:176-179 | The clients index has as many entries as there are stored Client sessions |
| `SessionIndex.CountProxiesCoversScan` | controller/src/storage/inmemory/session_repository.rs:171-174 | The proxies index has at least as many entries as there are stored Proxy sessions |
| `SessionIndex.ProxiesAnswerIsScan` | controller/src/storage/inmemory/session_repository.rs:137-157 | get_proxies answers None if and only if the scan finds no other proxy, and otherwise lists exactly the scan without repetition |
| `SessionIndex.LoginKeepsClientsReachable` | controller/src/storage/inmemory/session_repository.rs:95-118 | A login never makes a stored client unreachable, also over an existing session |
| `SessionIndex.SweepKeepsClientsReachableIff` | controller/src/storage/inmemory/session_repository.rs:78-85 | A sweep keeps every stored client reachable if and only if no uid has an expired session beside an unexpired client session |
| `SessionIndex.RemoveKeepsClientsReachableIff` | controller/src/storage/inmemory/session_repository.rs:128-135 | A logout keeps every stored client reachable if and only if its uid has no other client session |
| `SessionIndex.SecondLoginIsForgotten` | controller/src/storage/inmemory/session_repository.rs:78-85 | Two logins 8000 ms apart and a sweep leave the second session stored and unreachable |
| `SessionIndex.ControllerCountedIff` | controller/src/storage/inmemory/session_repository.rs:78-118 | After any operations a controller is in its index if and only if no sweep since its last login met an expired session of its |
| `SessionIndex.NoControllerCountedIff` | controller/src/storage/inmemory/session_repository.rs:181-184 | count_controllers is 0 if and only if every controller's login was followed by a sweep that met an expired session of that controller |
| `SessionIndex.RefreshIsForgotten` | controller/src/main.rs:66-82 | Two refreshes 2000 ms apart and the sweep of the first leave the second stored and no controller counted |
| `SessionTiming.SessionRetention` | controller/src/storage/inmemory/session_repository.rs:13-85 | With sweeps at most 5000 ms apart, a session visible at u was set or renewed at u - 15000 or later |
| `SessionTiming.SessionRetentionTight` | controller/src/storage/inmemory/session_repository.rs:13-85 | The bound is reached: with a sweep every 5000 ms a session left alone is still there after 15000 ms |
| `SessionTiming.WindowKeepsSession` | controller/src/services/mod.rs:69-78 | Within 10000 ms of a passed check the session is found again, whatever others do, unless it is logged out |
| `SessionTiming.ControllerSessionsBounded` | controller/src/main.rs:66-82 | With refreshes at least 2000 ms and sweeps at most 5000 ms apart, at most 8 sessions of the refreshing controller are stored at any time |
| `ControllerMain.RefreshUntilCancelled` | controller/src/main.rs:66-82 | Whatever others do to the shared repository during the pauses, the loop stores a session at once and then each 2000 ms, and what the pause took longer, after the one before, and the repository ends as the run of its logins woven with the others' calls leaves it; with fresh keys that nobody else touches and sweeps on time, no point of the run has more than 8 of its sessions stored |
| `Heartbeat.HeartbeatKeepsSessionIff` | gateway/src/auth.rs:44-70 | The pings keep the session through every placement of sweeps and of others' calls short of a logout if and only if each way back, pause, delay and next way forth add up to at most 10000 ms |
| `Heartbeat.TimelyIff` | gateway/src/auth.rs:109-116 | Timely means: the way back of each answer, 5000 ms or the time the loop was busy if longer, the delays and the next way forth are at most 10000 ms |
| `Heartbeat.RenewalsSpaced` | gateway/src/auth.rs:44-70 | Each ping renews the session exactly that sum after the renewal before it |
| `Heartbeat.TimelySurvives` | gateway/src/auth.rs:109-116 | Timely pings find the session at every renewal |
| `Heartbeat.LateIsSwept` | controller/src/storage/inmemory/session_repository.rs:67-85 | One late renewal is enough for some sweep to remove the session |
| `Heartbeat.ShortRoundTripsTimely` | gateway/src/auth.rs:9-9 | Round trips with all local delays of at most 2500 ms always suffice |
| `Heartbeat.BoundEnoughIff` | gateway/src/auth.rs:9-9 | A uniform bound on round trips with all local delays suffices if and only if it is at most 2500 ms |
| `Heartbeat.FiveSecondRoundTripsNotEnough` | gateway/src/auth.rs:109-116 | Round trips of up to 5000 ms do not: two renewals can be 15000 ms apart |
| `RouteRepository.InMemoryRepository.SetConversation` | controller/src/storage/inmemory/route_repository.rs:58-72 | Stores the conversation and answers None exactly when its id was present |
| `RouteRepository.InMemoryRepository.SetRoute` | controller/src/storage/inmemory/route_repository.rs:86-107 | The route is stored in any case; it is pushed onto the conversation and answered exactly when its nonce was new and the conversation is present |
| `RouteRepository.InMemoryRepository.RemoveRoute` | controller/src/storage/inmemory/route_repository.rs:114-117 | Removes that nonce only |
| `RouteRepository.InMemoryRepository.RemoveConversation` | controller/src/storage/inmemory/route_repository.rs:74-77 | Removes that conversation only |
| `RouteRepository.InMemoryRepository.KillExpired` | controller/src/storage/inmemory/route_repository.rs:40-49 | One pass retains exactly the unexpired routes and conversations |
| `RouteTable.SetConversationExact` | controller/src/storage/inmemory/route_repository.rs:58-72 | A conversation set is found as set through every sweep of the next 60000 ms, also over an old one, and nothing else changes |
| `RouteTable.SetRouteExact` | controller/src/storage/inmemory/route_repository.rs:86-107 | A route is found as stored through every sweep of the next 60000 ms in any case; it becomes the last of its conversation, whose deadline stays, and is answered exactly when its nonce was new and the conversation present |
| `RouteTable.RemovalsExact` | controller/src/storage/inmemory/route_repository.rs:74-117 | What is removed is gone and nothing else is |
| `RouteTable.SweepExact` | controller/src/storage/inmemory/route_repository.rs:40-49 | A sweep keeps exactly the routes and conversations whose deadline has not passed |
| `RouteHistory.RoutesConserved` | controller/src/storage/inmemory/route_repository.rs:86-117 | In every reachable state the nonces ever stored are the disjoint union of outstanding, redeemed and swept ones, keys are nonces, and listed routes are among them |
| `RouteHistory.RedeemedOnce` | controller/src/routing.rs:129-136 | Over any run a nonce is redeemed at most once, and once exactly when it ends among the redeemed |
| `RouteHistory.LookupHitsIff` | controller/src/storage/inmemory/route_repository.rs:109-117 | With any number of concurrent redeemers a lookup hits if and only if the nonce was stored before and neither erased nor swept since |
| `RouteHistory.NextHitsIff` | controller/src/routing.rs:129-136 | After a hit, another lookup of the same nonce hits if and only if nothing erased or swept the nonce in between |
| `RouteHistory.RedeemedOnceIff` | controller/src/routing.rs:129-136 | With any number of concurrent redeemers, each looking up once and erasing after a hit, at most one redeems a nonce if and only if none looks it up between another's successful lookup and the first erasure or sweep of it after that |
| `RouteHistory.TurnsRedeemOnce` | controller/src/routing.rs:129-136 | Redeemers that erase before the next one looks up redeem a nonce at most once |
| `RouteHistory.NoHitAfterErasure` | controller/src/routing.rs:129-136 | After any redeemer's erasure every later lookup of the nonce fails |
| `RouteHistory.TwoRedeemersBothHit` | controller/src/routing.rs:130-131 | Two redeemers whose lookups both come before either erasure both succeed |
| `RouteHistory.UnwrapPanicsIff` | controller/src/services/route_service.rs:94-101 | Below RPC granularity, a conversation found by the guard is missing at the later unwrap if and only if it was finalized or swept in between and not opened again |
| `RouteHistory.SecondRedeemerPanics` | controller/src/services/route_service.rs:155-165 | Two concurrent redeemers of one end route: the first finalizes, the second passes its guard and its lookup and no longer finds the conversation it unwraps |
| `RouteTiming.RouteRetention` | controller/src/storage/inmemory/route_repository.rs:12-49 | With sweeps at most 30000 ms apart, a route or conversation visible at u was set at u - 90000 or later; pushing routes does not prolong it |
| `RouteTiming.RouteRetentionTight` | controller/src/storage/inmemory/route_repository.rs:12-49 | The bound is reached: with a sweep every 30000 ms a route and a conversation are still there after 90000 ms |
| `RedisRepository.KeysApart` | controller/src/storage/redis/route_repository.rs:11-17 | The two key families are disjoint and each is injective |
| `RedisRepository.RedisRepository.SetConversation` | controller/src/storage/redis/route_repository.rs:21-32 | Overwrites the conversation's key for 60 seconds and always answers its id |
| `RedisRepository.RedisRepository.RemoveConversation` | controller/src/storage/redis/route_repository.rs:34-38 | Deletes the conversation's key and leaves its routes |
| `RedisRepository.RedisRepository.GetConversation` | controller/src/storage/redis/route_repository.rs:40-44 | The unexpired conversation under its key |
| `RedisRepository.RedisRepository.SetRoute` | controller/src/storage/redis/route_repository.rs:46-65 | Adds the route to the hash and the list of a present conversation and gives both new terms of 60 seconds; for a missing one it panics and writes nothing |
| `RedisRepository.RedisRepository.GetRoute` | controller/src/storage/redis/route_repository.rs:67-71 | The route of that nonce in the unexpired hash of that conversation |
| `RedisRepository.RedisRepository.RemoveRoute` | controller/src/storage/redis/route_repository.rs:73-77 | Deletes the nonce from the hash named after the nonce itself, whose deadline stays |
| `BackendSimulation.AlikeIff` | controller/src/storage/redis/route_repository.rs:19-78 | From related states, on the keys Redis still has, the two backends answer a call equally and stay related if and only if the call meets a guard on ids, nonces, ownership and, for a sweep, deadlines |
| `BackendSimulation.TimedAlikeIff` | controller/src/storage/redis/route_repository.rs:19-78 | A call at a time is answered alike and leaves related states if and only if it meets its guard and no deadline in Redis has passed for anything in memory other than what the call itself removes; a sweep if and only if every entry in memory has expired exactly when its key in Redis has |
| `BackendSimulation.ElapsedRelatedIff` | controller/src/storage/redis/route_repository.rs:51-61 | Time alone keeps the states related if and only if no conversation in memory has an expired key and no route in memory an expired hash |
| `BackendSimulation.BackendsAgree` | controller/src/storage/mod.rs:64-71 | Over every timed run, however many keys expire meanwhile, the two implementations of the trait stay alike call by call if and only if every call meets its guard at its time, and then their answers are the same |
| `BackendSimulation.AgreeForAMinute` | controller/src/storage/mod.rs:19-20 | From empty repositories, for 60000 ms and with sweeps at any time, the guards of the calls alone make the answers agree |
| `BackendSimulation.SilentTalkDiffers` | controller/src/storage/inmemory/route_repository.rs:79-84 | The minute is tight: 60001 ms after it was set, unswept, a conversation is answered by memory and not by Redis |
| `BackendSimulation.LongTalkDiffers` | controller/src/storage/redis/route_repository.rs:46-65 | A route stored 40 seconds into a conversation prolongs it in Redis only: after the memory's sweep at 90 seconds the backends answer differently |
| `BackendSimulation.RedisRedeemKeepsNonce` | controller/src/storage/redis/route_repository.rs:73-77 | After remove_route the nonce is still found under its conversation if and only if it is not that conversation's own id |
| `BackendSimulation.RedisFindsNonceIff` | controller/src/storage/redis/route_repository.rs:67-77 | Whatever is called in between, any number of redemptions of the nonce included, a nonce other than its conversation's id is found at u if and only if the conversation's hash had not expired at any command up to u |
| `RedisTiming.NonceFoundIff` | controller/src/storage/redis/route_repository.rs:46-71 | Over every run by the times of its calls: a nonce stored under a conversation, and not its id, is found at u if and only if no gap between answered set_routes there since, nor the last and u, exceeds 60000 ms; and as stored |
| `RedisTiming.HashThereOnlyIf` | controller/src/storage/redis/route_repository.rs:51-61 | The hash of a conversation is there at u only if a set_route under it was answered at most 60000 ms before |
| `RedisTiming.TalkFoundIff` | controller/src/storage/redis/route_repository.rs:21-65 | A conversation is found at u if and only if it was set, or got a route, at most 60000 ms before and was not removed since |
| `RedisTiming.SecondRouteProlongsFirst` | controller/src/storage/redis/route_repository.rs:46-65 | A second route at 40000 keeps the first one, stored at 0, until 100000 and no longer |
| `Controller.EndRouteOnlyFourth` | controller/src/services/route_service.rs:103-130 | Whoever calls what, in every conversation of any length a route ends it if and only if it is the fourth |
| `Controller.NeverFinalAgain` | controller/src/routing.rs:40-42 | A conversation past its third route unfinished never reaches the final route any more |
| `Controller.NextHopRight` | controller/src/services/route_service.rs:103-130 | A route call leads to a Client session of the conversation's recipient on the final route and to a Proxy session other than the asker's before |
| `Controller.RouteCallFailsIff` | controller/src/services/route_service.rs:103-134 | A route call past its checks fails if and only if the recipient, or before the final route every other proxy, is missing |
| `Controller.RpcRenewsCaller` | controller/src/services/mod.rs:69-78 | Every one of the three RPCs, whatever it answers, keeps its caller's session through exactly the sweeps of the next 10000 ms and touches no other session and no index; from an unknown caller it changes nothing |
| `Controller.InitializeStores` | controller/src/services/route_service.rs:59-84 | The conversation opened is from the caller's uid to the recipient named, or to controller_uid when none is named, without routes, for 60000 ms, and nothing else is stored |
| `Controller.RouteCallStores` | controller/src/services/route_service.rs:86-135 | A route answered has the settings of a stored session, of the recipient's client or of another proxy, is stored as answered for 60000 ms and becomes the conversation's last, and nothing else changes |
| `Controller.RedeemTakes` | controller/src/services/route_service.rs:137-171 | A redemption succeeds if and only if conversation and nonce are there; exactly that nonce goes, and on an end route the conversation with it, whose sender is told |
| `Controller.Refusals` | controller/src/services/route_service.rs:59-171 | Which of the refusals each RPC gives, and exactly when |
| `Controller.DrawnFromAllButLast` | controller/src/routing.rs:44-58 | Of several proxies every one but the last can be drawn, and a single one too |
| `Controller.SomePick` | controller/src/routing.rs:44-58 | An index can be drawn if and only if the list is not empty, so "Next route wasn't found" is never the answer |
| `RouteService.RouteServiceImpl.Initialize` | controller/src/services/route_service.rs:59-84 | Is the single step of that RPC; its second session lookup always finds the session |
| `RouteService.RouteServiceImpl.Route` | controller/src/services/route_service.rs:86-135 | Is the single step of that RPC for some order and draw; none of its unwraps fails and the list drawn from is never empty |
| `RouteService.RouteServiceImpl.HandleRoute` | controller/src/services/route_service.rs:30-54 | Stores the route to the session and fails exactly on a nonce already stored or a conversation gone by then |
| `RouteService.RouteServiceImpl.Redeem` | controller/src/services/route_service.rs:137-171 | Is the single step of that RPC: the nonce is gone, and an end route reports the sender and removes the conversation |
| `RouteService.RouteServiceImpl.RedeemRoute` | controller/src/routing.rs:129-136 | Answers the nonce's route and removes it |
| `RouteService.GetNextRoute` | controller/src/routing.rs:44-58 | Always a member of its list, and never the last of several; the subtraction needs a non-empty list |
| `ControllerHistory.ServeIsOps` | controller/src/routing.rs:91-136 | Each RPC changes the route table as its repository operations do, and redeems when they do |
| `ControllerHistory.RpcsRedeemOnce` | controller/src/services/route_service.rs:137-171 | Over any run of RPCs a nonce is redeemed at most once, under whatever conversation, and every nonce stays accounted for |
| `AuthService.AuthServiceImpl.Login` | controller/src/services/auth_service.rs:89-147 | A session is created exactly for a proxy or client with valid credentials; every refusal leaves the table alone |
| `AuthService.AuthServiceImpl.Ping` | controller/src/services/auth_service.rs:59-87 | Succeeds exactly from the session's own address, and renews the session even when refused for its address |
| `AuthService.AuthServiceImpl.Logout` | controller/src/services/auth_service.rs:149-163 | Succeeds exactly for a stored session and removes it |
| `AuthService.PingRevives` | controller/src/storage/inmemory/mod.rs:23-29 | A ping saves an expired session that no sweep has met, for exactly 10000 ms |
| `Relay.NextKeepsInv` | controller/src/services/route_service.rs:59-171 | Every step of any chain or other party keeps the relay's invariant: conversations and nonces of a chain are its own, match its progress, or are swept |
| `Relay.Delivery` | proxy/src/services/proxy_service.rs:27-202 | In every interleaving, when the i-th message sent is delivered, it passed exactly three proxies, none its own asker and none told the sender, landed on a Client session of the recipient it named (of controller_uid when it named none), with the bytes sent and the uid its access key was issued to, and its conversation is gone |
| `Relay.ActedRecords` | proxy/src/services/proxy_service.rs:27-202 | What a chain records is what its calls answered: each route with the stored session it leads to, each redemption's source info, and on landing the source with the bytes as carried |
| `Relay.ChainIsSpawned` | client/src/command.rs:62-84 | Over every run the chains are exactly the messages started, in order, and each keeps the sender, recipient, bytes and command it was started with |
| `Relay.NeighboursDiffer` | controller/src/storage/inmemory/session_repository.rs:137-157 | When every proxy redeems under the session it was routed to, no hop leads back to the session that asked for it: sender and first proxy, and consecutive proxies, are different sessions |
| `Relay.NoMissingSource` | client/src/services/landing_service.rs:45-47 | The recipient's unwrap of the source info never fails, and a sender is never handed the end route |
| `Relay.ActLowersRank` | proxy/src/services/proxy_service.rs:110-202 | Every step of a chain lowers a rank of three per route not yet handed out |
| `Relay.ForwardingTerminates` | proxy/src/services/proxy_service.rs:110-202 | In any run no message takes more than 14 steps |
| `Network.Network.SendMessage` | client/src/command.rs:62-84 | Under any interference and failure the call ends; it starts a message of its own, with its arguments, and when it succeeds that message was delivered: the bytes given, to a Client session of the recipient given, from the uid of the key given |
| `Network.Network.Initialize` | client/src/command.rs:105-126 | Opens the conversation and leaves the sender holding the first route, or fails |
| `Network.Network.ExecuteCommand` | proxy/src/services/proxy_service.rs:27-54 | Ends, by the decreasing rank through its mutual recursion, and success means the command was carried out |
| `Network.Network.Send` | proxy/src/services/proxy_service.rs:110-153 | Lands on an end route and routes on otherwise; ends, and success means delivery |
| `Network.Network.RouteCommand` | proxy/src/services/proxy_service.rs:180-202 | Executes the command at the next proxy; ends, and success means delivery |
| `Network.Network.LandCommand` | proxy/src/services/proxy_service.rs:155-178 | Hands the text to the recipient; success means delivery |
| `Network.Network.Receive` | client/src/services/landing_service.rs:25-51 | Redeems and passes the message on; success means delivery |
| `RelayLiveness.DeliveryPossible` | proxy/src/services/proxy_service.rs:27-202 | From every reachable state a live message or command is carried out by steps of its own, at whatever times, every proxy acting under the session its route led to, and a message arrives as it was sent |
| `RelayLiveness.CarriedOutIff` | proxy/src/services/proxy_service.rs:27-202 | A message or command under way can be carried out by its own steps if and only if whoever acts next is logged in, its conversation and the nonce to redeem next are there, and the routes still missing have somewhere to lead: for a message the recipient until its route is handed out, two proxies with at most one route handed out, one other than the next actor with two; for another command a proxy other than its sender |
| `RelayLiveness.SendableIff` | client/src/command.rs:62-84 | A message just sent can be delivered by its own steps if and only if its sender, its recipient and two proxies are logged in |
| `RelayLiveness.StatusPossibleIff` | client/src/command.rs:86-103 | A status command just given can be executed if and only if its sender and a proxy of another session are logged in |
| `RelayLiveness.FirstMessageArrives` | client/src/command.rs:62-84 | From the very start, four logins are a legal run with a continuation in which the first message arrives |
| `RelayLiveness.LostNotDelivered` | proxy/src/services/proxy_service.rs:73-108 | A message whose next actor (the session its route leads to, when it is handed on) has no session is delivered by no steps of its own |
| `RelayLiveness.SentMessageCanArrive` | client/src/command.rs:62-84 | After any run on a monotone clock, a message sent while sender, recipient and two proxies are logged in has a continuation, at any later times, in which exactly what was sent arrives at whom it was sent to |
| `Locks.OrderedTasksNeverStuck` | controller/src/storage/inmemory/route_repository.rs:18-19 | Tasks that follow one lock order never get stuck under any schedule, and never share a lock with its writer |
| `Locks.GrantedIff` | controller/src/storage/inmemory/route_repository.rs:18-19 | A waiting task gets its guard exactly when its request is the first and, for writing, nobody holds the lock, for reading, nobody holds it for writing |
| `Locks.FirstComeFirstServed` | controller/src/storage/inmemory/route_repository.rs:18-19 | Under every schedule a queue only loses requests from its front and gains them at its end, so nobody overtakes |
| `Locks.WorkBoundsSchedule` | controller/src/storage/inmemory/route_repository.rs:18-19 | Every schedule is at most as long as the work of the tasks |
| `Locks.OrderedTasksFinish` | controller/src/storage/inmemory/route_repository.rs:18-19 | Tasks in one lock order that run on while any of them can have finished every script |
| `RepositoryLocks.RouteRepositoryNeverStuck` | controller/src/storage/inmemory/route_repository.rs:35-117 | Any number of tasks making any route repository calls and sweeps never get stuck |
| `RepositoryLocks.RouteWritesGuarded` | controller/src/storage/inmemory/route_repository.rs:35-117 | A route repository call holds for writing every map it changes |
| `RepositoryLocks.RouteReadsGuarded` | controller/src/storage/inmemory/route_repository.rs:79-112 | What it answers depends only on maps it has a guard on |
| `RepositoryLocks.SessionRepositoryStuckIff` | controller/src/storage/inmemory/session_repository.rs:57-169 | Session repository calls of some kinds can get stuck if and only if they include a client lookup beside a logout or a sweep, or a proxy lookup beside a sweep |
| `RepositoryLocks.NoCrossingNeverStuck` | controller/src/storage/inmemory/session_repository.rs:57-135 | Without such a crossing no schedule of any number of tasks gets stuck |
| `RepositoryLocks.CrossingPlayedOut` | controller/src/storage/inmemory/session_repository.rs:137-169 | Each of the three crossings has a schedule into a state where nobody moves again |
| `RepositoryLocks.SessionWritesGuarded` | controller/src/storage/inmemory/session_repository.rs:57-135 | A session repository call holds for writing every map it changes |
| `RepositoryLocks.SessionReadsGuarded` | controller/src/storage/inmemory/session_repository.rs:120-185 | What it answers, and whether it stops at a miss, depends only on maps it has a guard on |
| `AuthHandler.TraceLanguage` | gateway/src/auth.rs:79-107 | The call traces of all finished runs are exactly (login-fail, or login-ok ping-ok\* ping-fail)\*, then possibly login-ok ping-ok\*, then one logout |
| `AuthHandler.OuterIsWord` | gateway/src/auth.rs:86-105 | For any outcomes and any cancellation point the trace is such a word |
| `AuthHandler.WordIsOuter` | gateway/src/auth.rs:86-105 | Every such word is the trace of some run |
| `AuthHandler.StartAuthHandler` | gateway/src/auth.rs:79-107 | The loops make exactly the calls of that trace |
| `AuthHandler.AuthManager.Authenticate` | gateway/src/auth.rs:28-42 | One login, answered by its outcome |
| `AuthHandler.AuthManager.KeepAlive` | gateway/src/auth.rs:44-70 | Pings until one fails or cancellation, and renews the session exactly at the times the heartbeat theorem is about |
| `AuthHandler.AuthManager.PingAfterPause` | gateway/src/auth.rs:48-60 | One ping after the rest of the interval since the last answer |
| `CommandParser.SendRoundTripIff` | client/src/command.rs:18-36 | A typed command, recipient and message, with any whitespace between, parse back to the recipient and the trimmed message if and only if the recipient does not occur inside the command word |
| `CommandParser.ParseByWords` | client/src/command.rs:15-38 | Every line by its words: a status exactly for "/status" in any case, unknown exactly for neither command, invalid exactly for "/send" without a second word or with only blanks after its first occurrence, otherwise the trimmed text after it, sent to it |
| `CommandParser.EveryLineSplits` | client/src/command.rs:16-23 | Every line is blanks, a first word, blanks, a second word and the rest |
| `CommandParser.CommandSpellings` | client/src/command.rs:17-18 | Which words lower-case to the two commands |
| `CommandParser.SpacesListed` | client/src/command.rs:16-16 | The 25 characters words are split at |
| `CommandParser.TrimTakesBlanks` | client/src/command.rs:25-25 | Trimming takes the blanks at both ends and nothing else |
| `CommandParser.SecondWordOccurs` | client/src/command.rs:23-24 | The unwrap of the substring search never fails |
| `CommandParser.IndexFrom` | client/src/command.rs:24-24 | The index found is an occurrence and no earlier one exists |
| `CommandParser.RecipientInsideCommand` | client/src/command.rs:15-25 | A recipient called "end" occurs inside the command word |

## Left out

- gRPC, TLS, channels, certificates, settings, logging, tracing and the members' CSV file: input and output. A remote
  call runs its callee's step or fails.
- The Redis session repository, both member repositories and the info service: no property here needs them; members
  are a map, and a status command only redeems.
- Relay.Delivery: each controller RPC is one step, and no other party uses the chain's conversation id or nonces;
  finer interleavings of two RPCs on one conversation are covered only for the redemption and for the unwraps
  (`RouteHistory`). A proxy may act under any access key here, as one that logged in again does; `NeighboursDiffer`
  and the liveness results have it act under the session its route led to.
- RelayLiveness.CarriedOutIff: says when a delivering continuation exists, not that every schedule reaches it, because
  sessions, routes and conversations expire.
- SessionConcurrency.InterleavingsSound: runs over all interleavings of map accesses, a superset of those the locks
  allow; the locks themselves are in `RepositoryLocks`, without the data. A sweep, which holds all four locks, is one
  access.
- RepositoryLocks.SessionRepositoryStuckIff: a sweep is one pass; the sweeper's endless loop is any number of passes.
- BackendSimulation.BackendsAgree: a run counts as alike while the states stay related, too; backends that drifted
  apart may still happen to answer some calls equally.
- ControllerMain.RefreshUntilCancelled: others' calls come in the pauses, each as one step.
- Network.Network.Interfere: stands for any legal steps of everybody else; its callers know its contract only.
- AuthHandler.StartAuthHandler: runs that are cancelled at some check, since an uncancelled handler does not end; the
  one-second delay after a failed login is not timed.
- CommandParser.SendRoundTripIff: lower-casing is that of ASCII, which no other letter lower-cases into for the two
  command words; messages stay text instead of their UTF-8 bytes, and the lossy decoding at the recipient is not
  part of this model.
- An expiring entry is a value owned by its map, as in the source, so its renewal is a new value stored under the
  same key instead of an assignment to a field of an object.
- All clock readings of one call are the same instant; component numbers are converted at login only; the status
  counters' truncation to 32 bits is not modelled.
