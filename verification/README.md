# The Steam client's protocol core and its caches

This project models the part of a Galaxy plugin that talks to Steam, and proves
properties of it. The parts, from the wire up:

* **Packets.** A packet is a masked message number, a header length, a header
  and a body. The body of a Multi message holds length-prefixed packets,
  possibly gzipped, so reading recurses. `Wire`, `Packets` and `MultiTrees` give
  the format, what reading any bytes does, and the round trip of trees of nested
  Multis; `PacketBytes` says it byte by byte. `Jobs` describes the pump that feeds
  queued jobs between packets, and `JobRuns` when it goes on; `ProtobufClient` is
  the class, proved against them.
* **Login.** `TwoFactor` ranks Steam's confirmation methods, `UserInfos` holds
  the credentials and their dirty flag, `LoginServer` serves one request, as
  `LoginAnswers` says, `LoginHandlers` tells what the backend does, and
  `WebSocketClient` is the task that serves them all. Whole runs of the backend
  and the websocket task over their two queues are the subject of
  `LoginProtocol` (safety), `LoginProgress` (it gets done), `LoginTraffic` (what
  is on the way, in every run), `LoginLockstep`, `LoginIdentity` and
  `LoginPersona` (who is authenticated) and `LoginExamples`.
* **Games.** `Licenses` and `LibraryImport` account for the two counters behind
  the ready event, `ListedImports` says what a licence list starts, `GamesCache`
  is the class, `LibraryReading` reads it while it moves, `AddedGames` counts what
  it hands out, and `LicenseLists` and `SteamIds` produce its input.
* **Friends.** `UserRecords` and `Friendships` describe the merged records, the
  pending index and the language of callbacks, `FriendCalls` the callbacks
  themselves; `FriendsCache` is the class.
* **Smaller parts.** `Stats` (achievement numbers and their import),
  `LocalGames` (changes between two scans), `Collections` (latest-wins merging
  and tags from local storage). `Decimal` is Python's `str` of a natural number,
  `Maybe` an optional value, `Selections` what a filter selects.

A class keeps the fields of its Python counterpart; its methods are proved
against functions on values, and the lemmas are about those functions. Fields
that only a proof reads are ghost: the submitted and handled jobs, the updates
since a friend was added. The log of dispatched messages is an ordinary field,
since whether a handler raises may depend on it. An `await` is where
others may act: job submissions and login events come in there. The lemmas carry
`{:induction false}`: each proof does its own induction, and Dafny tries none.

The libraries below the program are parameters. Of protobuf, a reader that gives
back what the writer wrote is a hypothesis of the round trip, and a bytes field
that is no longer than its message one of termination. Gzip, base64, `json`,
Steam's answers and whether a handler raises are arbitrary.

Where the code does not do what its names or comments say, the model follows the
code:

* A second session id does not log a warning but raises, because the warning
  reads a misspelt field (`protobuf_client.py:518`).
* A packet of fewer than 8 bytes is not ignored: below 4 bytes, or if masked, it
  raises (`protobuf_client.py:505-511`).
* The skip of already known packages never fires, as numbers are compared with
  strings (`games_cache.py:74`); neither does the one for a licence that is
  already on the list (`protobuf_client.py:679`).
* A login that Steam accepts, and for which it offers a known method, always asks
  for a second factor, because a pair is passed where a method is expected
  (`websocket_client.py:274`).
* The ranking depends on the order of Steam's list where two of its types stand
  for one method, as the last message wins (`protocol_client.py:179`).
* An app that is titled twice before the next tick is handed out twice, because
  only the apps already sent are looked at (`games_cache.py:158`).
* The list of ranked methods has no value before the first login, so confirming
  before it raises (`authentication_cache.py:13`).
* A poll overwrites the client id even when Steam sent none
  (`websocket_client.py:287-288`).
* A title report with an empty title or type is dropped, and its app stays
  unresolved (`protocol_client.py:395`).
* Forgetting the credentials leaves the stored copy (`user_info_cache.py:133-138`).
* The ids `favorite` and `hidden` are looked for in one joined word
  (`leveldb_parser.py:243`).

## Model

| member | source | states |
|---|---|---|
| Wire.PackIsBijective | src/steam_network/protocol/protobuf_client.py:493 | packing and unpacking 32-bit little-endian numbers undo each other, both ways |
| Wire.MaskRoundTrip | src/steam_network/protocol/protobuf_client.py:507-509 | a masked number always reads as masked; exactly below the mask it also fits 32 bits and comes back when the mask is cleared |
| Wire.SplitCharacterised | src/steam_network/protocol/protobuf_client.py:562-568 | for any bytes: a cut into consecutive frames, of which only the last is short and none after it, with under 4 bytes unread, is the one the loop makes, and there is only one |
| Wire.SplitWeight | src/steam_network/protocol/protobuf_client.py:562-568 | all frames together, each with its 4-byte prefix, fit into the data: the measure on which the recursion decreases |
| MultiTrees.ReadLayout | src/steam_network/protocol/protobuf_client.py:490-521 | a packet written in the layout is read as its own number, header and body |
| MultiTrees.ReadEncode | src/steam_network/protocol/protobuf_client.py:502-569 | reading an encoded tree of nested Multis, gzipped or not, visits it in order, and stops where the first fault is |
| MultiTrees.TakeAllExactly | src/steam_network/protocol/protobuf_client.py:513-518 | a visit succeeds if and only if all headers agree on one session id or 0 and every leaf can be handled after those before it; then it dispatched exactly the leaves |
| MultiTrees.WalkDeliversLeaves | src/steam_network/protocol/protobuf_client.py:523-569 | the messages delivered on the walk of a tree are its leaves, left to right |
| MultiTrees.RoundTrip | src/steam_network/protocol/protobuf_client.py:490-569 | the two together: reading the bytes of a tree dispatches exactly its leaves, each with its number, header and body, if and only if one session id is used and no leaf is refused |
| MultiTrees.DepthIsEnough | src/steam_network/protocol/protobuf_client.py:552-560 | a bound on nested gzips never matters unless it is hit, for any bytes; uncompressed nesting needs none |
| PacketBytes.TooShort | src/steam_network/protocol/protobuf_client.py:505-507 | fewer than four bytes raise and change nothing |
| PacketBytes.Unmasked | src/steam_network/protocol/protobuf_client.py:507-521 | a packet without the mask is passed over if its number is known, and raises if not |
| PacketBytes.MaskedTooShort | src/steam_network/protocol/protobuf_client.py:509-510 | a masked packet without a header length raises |
| PacketBytes.Masked | src/steam_network/protocol/protobuf_client.py:509-519 | for any length and any bytes after it: which of them are header and body, and what a bad header, a new session id and another one do |
| PacketBytes.EveryPacket | src/steam_network/protocol/protobuf_client.py:502-510 | every packet is of one of these four kinds |
| PacketBytes.Handed | src/steam_network/protocol/protobuf_client.py:523-550 | a message other than Multi is noted and handed to its handler, which may raise, or has an unknown number, which raises |
| PacketBytes.Bundled | src/steam_network/protocol/protobuf_client.py:552-560 | a Multi is read from its body, decompressed if it gives a size, or raises what its libraries raise |
| PacketBytes.FramesInTurn | src/steam_network/protocol/protobuf_client.py:562-568 | frames are read in turn, up to the first that raises |
| Jobs.RunIsOrderly | src/steam_network/protocol/protobuf_client.py:150-176 | in every run, with submissions at every await, handled jobs then queued ones are the submitted sequence; the counter stays within 0 to 3; at most 3 more jobs are handled than packets processed; the known jobs among those handled are those requested |
| Jobs.QuietTurn | src/steam_network/protocol/protobuf_client.py:150-176 | with no new submissions, a turn lowers the number of packets still needed by exactly one if it received one |
| Jobs.ListDrains | src/steam_network/protocol/protobuf_client.py:150-176 | with no new submissions the queue is fed empty if and only if the packets needed came, and always within one packet more than there were jobs |
| Jobs.NeededBound | src/steam_network/protocol/protobuf_client.py:150-176 | that number in closed form at the counter's upper values, and its bound |
| JobRuns.RunEnds | src/steam_network/protocol/protobuf_client.py:153-181 | the loop goes on if and only if no job raises, no receive is cancelled or fails, and every packet is read without fault, however often nothing comes; it closes if and only if a receive is cancelled first |
| JobRuns.RunReads | src/steam_network/protocol/protobuf_client.py:170-177 | as long as it goes on, its state is that of reading exactly the packets received, one after the other, and each is counted |
| JobRuns.TurnSubmits | src/steam_network/protocol/protobuf_client.py:153-176 | and all that others submit at the awaits of a turn is on the list |
| ProtobufClient.ProtobufClient.Send | src/steam_network/protocol/protobuf_client.py:468-500 | sends exactly one packet in the layout, with the confirmed or the bare id, the session, and the given jobs and name in its header, or raises and sends none if a number does not fit |
| ProtobufClient.ProtobufClient.ProcessPacket | src/steam_network/protocol/protobuf_client.py:502-521 | session, dispatched messages and fault are those of the reading function, for any bytes |
| ProtobufClient.ProtobufClient.ProcessMessage | src/steam_network/protocol/protobuf_client.py:523-550 | the same for a message |
| ProtobufClient.ProtobufClient.ProcessMulti | src/steam_network/protocol/protobuf_client.py:552-560 | the same for the body of a Multi, gzipped or not |
| ProtobufClient.ProtobufClient.ProcessFrames | src/steam_network/protocol/protobuf_client.py:562-568 | the loop with its offset reads the frames of the unique cut, one after the other |
| ProtobufClient.ProtobufClient.RemoveJob | src/steam_network/protocol/protobuf_client.py:159-168 | removes the first job that equals the given one, and nothing else |
| ProtobufClient.ProtobufClient.FeedJobs | src/steam_network/protocol/protobuf_client.py:153-169 | handles up to two jobs as the pump's function does, also when a handler raises |
| ProtobufClient.ProtobufClient.Run | src/steam_network/protocol/protobuf_client.py:150-181 | the whole loop: packets, timeouts, cancellation and errors take session, dispatched messages and jobs through the turns of the pump |
| SteamIds.ParseIsBijective | src/steam_network/protocol/steam_types.py:21-28 | parsing is a bijection between 64-bit numbers and fields of 32, 20, 4 and 8 bits, and raises outside them |
| SteamIds.MaskGivesAccountNumber | src/steam_network/protocol/protobuf_client.py:676 | subtracting the mask gives the account number if and only if universe, type and instance are public, individual and 1 |
| Decimal.TextIsInjective | src/steam_network/games_cache.py:76 | different package numbers get different keys |
| Licenses.TakeDrifts | src/steam_network/games_cache.py:146-161 | what one report changes in the difference between the counter and the true number of unresolved apps |
| Licenses.CounterLaw | src/steam_network/games_cache.py:112-161 | over any reports at all, that difference changes by the sum of the steps' |
| Licenses.ExactStep | src/steam_network/games_cache.py:146-161 | a new pair keeps the counter exact if and only if one licence matches; a title keeps it exact if and only if the app is new or in no licence |
| Licenses.NothingUnresolved | src/steam_network/games_cache.py:97-110 | the double sum is 0 if and only if every licence's apps are titled |
| Licenses.CounterExact | src/steam_network/games_cache.py:146-170 | under the hypotheses on reports, at every moment the counter is the sum over licences of their untitled apps, and 0 exactly when there are none |
| Licenses.CachedImport | src/steam_network/protocol_client.py:384-390 | an import on top of a cache starts with the counter off by the cached unresolved apps; after reports without drift, it is 0 when all is titled if and only if there were none |
| Licenses.ImportReady | src/steam_network/games_cache.py:163-170 | in any import, whatever is reported: after a package or a title, ready holds if and only if all packages came and exactly as many apps are open as were open at the start, up to the drift of the reports |
| Licenses.CachedReady | src/steam_network/protocol_client.py:384-390 | so on top of a cache ready waits for the number of apps that were open in the cache, not for none |
| Licenses.FreshReady | src/steam_network/protocol_client.py:372-382 | on the reset path it waits until what is open makes up for the drift |
| Licenses.SharedAppReadyInReverse | src/steam_network/games_cache.py:146-170 | concrete, on the reset path: an app of two packages that arrive in two messages is titled after each; ready is set before the second pair, and never again, with the counter at -1 and all apps titled |
| Licenses.LicenceDoubled | src/steam_network/games_cache.py:73-78 | concrete: a cached unresolved package gets a second licence |
| Licenses.DoubledLicenceReadyInReverse | src/steam_network/games_cache.py:146-170 | concrete: on the cache of the lemma before, ready is set while the app has no title, and taken back, with the counter at -1, when it gets one |
| Licenses.DroppedTitleStaysOpen | src/steam_network/protocol_client.py:392-396 | an app held by a licence that never gets both a title and a type stays open, whatever else is reported |
| Licenses.InfoExactly | src/steam_network/protocol_client.py:392-396 | an app info is the pair that its package makes and the title that its title and type make, if these are given |
| Licenses.TitlesExactly | src/steam_network/games_cache.py:156-157 | after any reports of an import each app has its last title, or that of the cached map |
| Licenses.BeforeAnyImport | src/steam_network/games_cache.py:112-161 | before any import packages and pairs raise, and so do titles of held apps; other titles are kept, and nothing becomes ready |
| LibraryImport.ImportDescribed | src/steam_network/games_cache.py:69-80 | at every moment of an import on the reset path that reports each pair once and before its app's one title, with packages, pairs and titles interleaved at will, licences, titles and both counters are the ones its reports determine |
| LibraryImport.ReadyLaw | src/steam_network/games_cache.py:163-170 | at every moment of any such import, ready is set if and only if, when it was last looked at, all packages were reported and every pair reported by then was titled |
| LibraryImport.ReadyExactlyAtTheEnd | src/steam_network/games_cache.py:163-170 | a complete import is ready at its end; if all pairs precede all titles, it is ready at no earlier moment if and only if some pair precedes the last package report or there is no pair |
| LibraryImport.ReadyTooEarly | src/steam_network/protocol/protobuf_client.py:692-703 | for every complete import in which all pairs follow the last package report, ready is set before the end |
| LibraryImport.ResolvedAtTheEnd | src/steam_network/games_cache.py:97-110 | at the end the resolved packages are exactly those with apps, and no licence holds an untitled app |
| GamesCache.GamesCache.UpdateReadyState | src/steam_network/games_cache.py:163-170 | the ready event follows the two counters |
| GamesCache.GamesCache.StartPackagesImport | src/steam_network/games_cache.py:69-80 | appends a licence for every package listed, as the skip never fires, and sets the counters |
| GamesCache.GamesCache.GetPackageIds | src/steam_network/games_cache.py:92-95 | the ids as strings, which no package number equals |
| GamesCache.GamesCache.UpdatePackages | src/steam_network/games_cache.py:112-114 | takes a package report, or raises before any import |
| GamesCache.GamesCache.UpdateLicenseApps | src/steam_network/games_cache.py:146-150 | takes a pair: one more to parse, and the app in every matching licence |
| GamesCache.GamesCache.UpdateAppTitle | src/steam_network/games_cache.py:152-161 | takes a title: one less for each licence that holds the app, and the added games |
| GamesCache.GamesCache.HandleAppInfo | src/steam_network/protocol_client.py:392-396 | takes the pair if a package is given, and the title only if title and type are |
| GamesCache.GamesCache.GetResolvedPackages | src/steam_network/games_cache.py:97-110 | the packages of which some licence has apps, all titled |
| GamesCache.GamesCache.HandleLicenses | src/steam_network/protocol_client.py:361-390 | chooses between a fresh import and one of the unresolved packages, and what Steam is asked |
| ListedImports.ListsExactly | src/steam_network/protocol_client.py:361-390 | when a licence list drops the map, and what it asks for and leaves: every listed package on an emptied map, or else exactly those without a licence of titled apps, in order, on top of the old licences, with the counters set |
| GamesCache.GamesCache.ConsumeAddedGames | src/steam_network/games_cache.py:82-90 | hands out the added games once, in order, and notes all added apps as sent |
| GamesCache.GamesCache.ConsumeResolvedApps | src/steam_network/games_cache.py:116-144 | yields, licence by licence, every titled app of the kind as often as licences of that sharing hold it, and warns once for every untitled one |
| GamesCache.LibraryExactly | src/steam_network/games_cache.py:116-132 | the library holds an app exactly as often as licences of that sharing hold its id, if it is titled and of the kind, or one of the three DLCs read as games |
| GamesCache.OfKindExactly | src/steam_network/games_cache.py:86-90 | exactly the apps of the kind, in order, are handed out or noted as sent |
| GamesCache.NothingMissing | src/steam_network/games_cache.py:123-125 | when every licence's apps are titled, such a reading meets no unresolved app |
| GamesCache.AlwaysKeyed | src/steam_network/games_cache.py:152-157 | in every run of licence lists and reports, apps are stored under their own ids, which the reading relies on |
| LibraryReading.NothingMissingOnTheMove | src/steam_network/games_cache.py:116-125 | through any changes in the pauses of a reading: if all apps were titled at first, the map is kept, and every new pair is of a titled app, no licence shows an unresolved app |
| LibraryReading.DroppedMapUnresolves | src/steam_network/games_cache.py:66-67 | if a licence list drops the map in a pause, all apps of the licences still to be read are unresolved |
| LibraryReading.NewPairUnresolved | src/steam_network/games_cache.py:146-150 | if a pair of an untitled app comes in a pause, its licence shows an unresolved app |
| AddedGames.HandedExactly | src/steam_network/games_cache.py:82-90 | in every run of an import, each app has been handed out, or waits to be, exactly as often as it was titled with the lever up before it was first sent |
| AddedGames.RepeatedExactly | src/steam_network/games_cache.py:158-159 | so an app is handed out more than once if and only if it was so titled more than once |
| AddedGames.TitledTwiceHandedTwice | src/steam_network/games_cache.py:158-159 | an instance: two titles between two ticks hand the app out twice |
| LicenseLists.ProcessLicenseList | src/steam_network/protocol/protobuf_client.py:655-683 | what is imported, and that a missing Steam id raises as soon as a licence is kept |
| LicenseLists.ImportsTheKept | src/steam_network/protocol/protobuf_client.py:664-681 | every licence kept is imported, in order, shared if and only if the owner is another account |
| LicenseLists.KeepsTheWanted | src/steam_network/protocol/protobuf_client.py:664-674 | the licences kept are exactly those that are neither trash nor of package 0, in order |
| LicenseLists.DistinctOnlyIfListedOnce | src/steam_network/protocol/protobuf_client.py:679-681 | the packages imported are distinct if and only if Steam listed each once: the test for repetitions never helps |
| UserRecords.Update | src/steam_network/protocol/steam_types.py:40-49 | the loop overlays the fields that are set, and reports a change if and only if the record changed |
| UserRecords.MergedAfter | src/steam_network/protocol/steam_types.py:40-49 | merging one update into a record gives, field by field, the last value set in the longer log |
| UserRecords.AutomatonDecides | src/steam_network/friends_cache.py:60-90 | a three-state automaton accepts exactly the prefixes of repeated added, updates, removed |
| Friendships.AddKeeps | src/steam_network/friends_cache.py:54-58 | adding a user keeps index, records and language |
| Friendships.RemoveKeeps | src/steam_network/friends_cache.py:60-68 | so does removing one |
| Friendships.UpdateKeeps | src/steam_network/friends_cache.py:70-90 | so does any update |
| Friendships.TraceInLanguage | src/steam_network/friends_cache.py:60-90 | each user's callbacks are in the language, and one who is not ready heard nothing since the last removed |
| Friendships.LogIsHistory | src/steam_network/friends_cache.py:54-74 | membership, and the updates merged into a record, are those since the user was last added |
| Friendships.EveryRun | src/steam_network/friends_cache.py:54-90 | in every run: who is cached, that each record holds the last value set of each field since then, that exactly those with a missing name or state are pending, and the callback language |
| FriendCalls.CallsExact | src/steam_network/friends_cache.py:54-90 | in every run, exactly these callbacks are given about a user: added at the update that first makes name and state known, updated at each later one that changes the record, removed when a known user goes, each with the record as it is then |
| Friendships.ResetIsExact | src/steam_network/friends_cache.py:44-52 | in any order of its sets, a reset makes the given users the members, keeps retained records, and removes each ready user with one callback |
| Friendships.RemoveEachOne | src/steam_network/friends_cache.py:48-49 | what removing several users does to any one user |
| Friendships.AddEachOne | src/steam_network/friends_cache.py:51-52 | what adding several users does to any one user |
| FriendsCache.AllHeard | src/steam_network/friends_cache.py:65-90 | with all handlers installed the calls made are all the callbacks |
| FriendsCache.FriendsCache.Add | src/steam_network/cache_proto.py:32-34 | the book with the user added; ready if and only if nobody is pending |
| FriendsCache.FriendsCache.Remove | src/steam_network/cache_proto.py:40-42 | the book without the user; ready if and only if nobody is pending |
| FriendsCache.FriendsCache.Reset | src/steam_network/cache_proto.py:24-26 | a reset to the given users, whatever the order of the sets; ready if and only if nobody is pending |
| FriendsCache.FriendsCache.UpdateUser | src/steam_network/friends_cache.py:70-90 | the book after the update, and ready still exact although it is only looked at when a user becomes ready |
| FriendsCache.HandleChanges | src/steam_network/protocol_client.py:327-340 | an incremental list is applied in order, and infos are asked for its friends |
| FriendsCache.HandleFullList | src/steam_network/protocol_client.py:327-347 | a full list resets the cache to its friends, or fails and leaves the cache alone |
| FriendsCache.FriendListExact | src/steam_network/protocol_client.py:331-337 | the users of a full list are exactly those listed as friends |
| FriendsCache.ChangesExact | src/steam_network/protocol_client.py:331-340 | after an incremental list a user is cached if and only if listed as friend, or cached before and not listed as none |
| TwoFactor.AssignExact | src/steam_network/protocol_client.py:179 | assigning to a dictionary changes the one key |
| TwoFactor.ToDictExact | src/steam_network/protocol_client.py:179 | the dictionary has each method mentioned once, with the last message for it |
| TwoFactor.SortSorts | src/steam_network/authentication_cache.py:43-49 | the ranked list is a strictly descending permutation of the dictionary's items |
| TwoFactor.RankingIsCanonical | src/steam_network/authentication_cache.py:28-49 | and it is the only one |
| TwoFactor.RankedInOrder | src/steam_network/authentication_cache.py:28-41 | the methods come in the order phone confirmation, phone code, mail code, nothing, unknown |
| TwoFactor.FirstChoiceExactly | src/steam_network/enums.py:123-133 | the first choice is the best guard type that Steam offers |
| TwoFactor.RankingIgnoresOrder | src/steam_network/authentication_cache.py:43-49 | so it does not depend on the order of the dictionary's items |
| TwoFactor.RankedAlikeExactly | src/steam_network/protocol_client.py:179 | two of Steam's lists are ranked alike if and only if every method has the same last message in both, or is in neither |
| TwoFactor.OrderMatters | src/steam_network/enums.py:123-133 | concrete: two unknown types with different messages rank differently in the two orders |
| TwoFactor.FirstChoiceIsKnown | src/steam_network/steam_auth_polling_data.py:49-51 | the first choice is a known method if and only if any method is known |
| TwoFactor.GuardRoundTrip | src/steam_network/enums.py:117-148 | every method survives the way to a guard type and back, and a guard type survives the other way if and only if the plugin knows it or it is the unknown one |
| UserInfos.FlagIsSound | src/steam_network/user_info_cache.py:21-131 | in every run of setters and ticks: with the flag down the stored dictionary is the present one, the fields are the last writes, and nothing is stored before all were set |
| UserInfos.FlagExactly | src/steam_network/user_info_cache.py:66-131 | the flag is up if and only if, since the last tick, a write completed the fields, or changed them once complete |
| UserInfos.StoredAfterTick | src/backend_steam_network.py:166-167 | after a tick Galaxy holds the present credentials if and once the fields were ever complete |
| UserInfos.ClearLeavesStored | src/steam_network/user_info_cache.py:133-138 | forgetting the fields breaks that if and only if they were complete |
| UserInfos.LoadRestores | src/steam_network/user_info_cache.py:33-64 | loading a stored dictionary gives back all four stored fields |
| UserInfos.LoadExactly | src/steam_network/user_info_cache.py:44-64 | loading any dictionary: when it raises, and what each field is then |
| UserInfos.FirstWriteAfterLoad | src/steam_network/user_info_cache.py:77-83 | after loading, the first write raises the flag if and only if the fields are still complete, even one that changes nothing |
| UserInfos.UserInfoCache.SetSteamId | src/steam_network/user_info_cache.py:77-83 | the setter's write, flag and event |
| UserInfos.UserInfoCache.SetAccountUsername | src/steam_network/user_info_cache.py:89-95 | the same |
| UserInfos.UserInfoCache.SetPersonaName | src/steam_network/user_info_cache.py:101-107 | the same |
| UserInfos.UserInfoCache.SetAccessToken | src/steam_network/user_info_cache.py:113-119 | the same; this field is never stored but raises the flag |
| UserInfos.UserInfoCache.SetRefreshToken | src/steam_network/user_info_cache.py:125-131 | the same |
| UserInfos.UserInfoCache.ClearFields | src/steam_network/user_info_cache.py:133-138 | forgets the five fields, and keeps flag, event and stored copy |
| UserInfos.UserInfoCache.TickOnce | src/backend_steam_network.py:162-167 | hands the dictionary over if and only if the flag was up, and takes the flag down |
| UserInfos.UserInfoCache.Load | src/steam_network/user_info_cache.py:44-64 | overwrites the fields the dictionary has, up to the first that fails to decode |
| LoginServer.AnswersFit | src/steam_network/websocket_client.py:255-299 | for every request and reply: the answers each kind of request can get, and that the login is over if and only if Steam accepted a token |
| LoginServer.LoginAsksForSecondFactor | src/steam_network/websocket_client.py:255-279 | a login asks for a second factor if and only if Steam accepts it and offers a known method |
| LoginAnswers.LoginAnswersExactly | src/steam_network/websocket_client.py:255-279 | for each answer to a name and password, the exact condition on them and on Steam's reply |
| LoginAnswers.LoginStores | src/steam_network/protocol_client.py:150-184 | the polling data and the fields of the user that it leaves |
| LoginAnswers.LoginRanks | src/steam_network/websocket_client.py:269-274 | the ranked methods and the message that it leaves |
| LoginAnswers.CodeAnswersExactly | src/steam_network/protocol_client.py:189-211 | for each answer to a code, the exact condition on code, method, offered methods and Steam's result; nothing is stored |
| LoginAnswers.PollAnswersExactly | src/steam_network/protocol_client.py:219-258 | for each answer to a poll, and for its raises, the exact condition; which tokens, name and client id are stored |
| LoginAnswers.TokenAnswersExactly | src/steam_network/protocol_client.py:267-292 | for each answer to a token login the exact condition; the Steam id is noted whatever the result |
| LoginProtocol.EveryRunSafe | src/backend_steam_network.py:171-350 | in every run, with timeouts, failures and any user steps, the invariants of history, authentication and known methods hold |
| LoginProtocol.AuthenticationIsEarned | src/backend_steam_network.py:278-343 | in every run, each authentication consumed an answer of its own, which came from a token login that Steam answered OK |
| LoginProtocol.SecondFactorAlwaysHandled | src/backend_steam_network.py:233-248 | in every run, a handler told to ask for a second factor finds a known method: the raise for any other is unreachable |
| LoginHandlers.AnswersHandled | src/backend_steam_network.py:222-343 | for every handler and every answer it may consume: the request it puts next, the page with its error flag, the raise, or the authentication |
| LoginHandlers.AnswersGone | src/backend_steam_network.py:171-179 | one answer is consumed; only refused stored credentials touch the caches, and forget the user |
| LoginHandlers.SubmissionsTaken | src/backend_steam_network.py:197-345 | for everything Galaxy submits: the request put, or the page or raise |
| LoginHandlers.SanitizedExactly | src/backend_steam_network.py:213-220 | a password is cut to the first 64 of its ASCII characters |
| LoginHandlers.TaskSteps | src/steam_network/websocket_client.py:84-154 | what serving a request and losing the connection do to task, queues and caches |
| LoginHandlers.TicksStore | src/backend_steam_network.py:162-167 | a tick stores the credentials if the flag is up, and does nothing else |
| LoginHandlers.TimeoutsEnd | src/backend_steam_network.py:171-179 | a timeout ends the waiting handler, and does nothing else |
| LoginProgress.LoginSucceeds | src/backend_steam_network.py:222-330 | from any state at rest, for all credentials, codes and replies: if Steam accepts each step, the user sees the page of the first ranked method, and nothing else, and is authenticated with Steam's id and the poll's name |
| LoginProgress.RunPlay | src/backend_steam_network.py:222-330 | events played from the end of a run continue that run |
| LoginTraffic.TrafficBalance | src/steam_network/websocket_client.py:243-305 | in every run, with timeouts and failures: the requests queued, in service, answered but not consumed, and lost, are together as many as the waiting handler and the waits that timed out |
| LoginTraffic.StaleByTimeouts | src/backend_steam_network.py:171-179 | in every run, a handler consumes the answer to its own request if and only if as many requests were lost before it as waits timed out; without a loss the answer is exactly as many requests old as waits timed out |
| LoginLockstep.Lockstep | src/steam_network/websocket_client.py:243-305 | in every run in which no waiting handler times out, answers go with requests in order, an idle backend has left nothing in the queues, and a waiting one has at most its own request on the way |
| LoginLockstep.OneInFlight | src/backend_steam_network.py:171-179 | if also no request is lost, exactly one of queued request, request in service and queued answer exists while a handler waits, and none while none does |
| LoginLockstep.DeadBranches | src/backend_steam_network.py:269-295 | in every run, a handler about to consume its own answer meets only answers that fit: a poll never authenticates, and only a handler that waits for a token login does |
| LoginIdentity.AuthenticatesTheUser | src/backend_steam_network.py:310-330 | in every run in which no waiting handler times out, each authentication carries the Steam id of the answer it consumed and a persona name that is not empty, if and only if the user was never forgotten between putting a token request and consuming its accepting answer |
| LoginPersona.AuthenticatesThePersona | src/backend_steam_network.py:310-343 | and if the user was not forgotten, it carries the persona that the token login started with |
| LoginPersona.PersonaOrigin | src/steam_network/protocol_client.py:236-238 | which is the account name that came with the consumed poll's token, or the persona that the stored credentials gave |
| LoginPersona.LateAnswerNames | src/steam_network/protocol_client.py:279-280 | in every run, whatever timed out: an authentication that consumes a token answer carries that answer's Steam id if and only if the id is the one it was when the answer was produced |
| LoginExamples.TimeoutRevivesDeadBranch | src/backend_steam_network.py:282-283 | after any run that waits for a token login whose request is still queued, with nothing else on the way: one timeout lets the poll of the confirmation page consume the late answer and authenticate |
| LoginExamples.LostAuthenticationNamesNobody | src/steam_network/websocket_client.py:143-147 | if authentication is lost while the accepting answer is queued, the handler authenticates with neither id nor name |
| LoginExamples.TokenLoginIsReachable | src/backend_steam_network.py:222-330 | from any state at rest, every accepted login for which the phone comes first reaches the state from which a timeout revives the dead branch |
| LoginExamples.AcceptedTokenIsReachable | src/backend_steam_network.py:310-330 | two steps later it reaches the state in which a loss of authentication names nobody |
| WebSocketClient.OneAnswerEach | src/steam_network/websocket_client.py:243-305 | for every queue and all replies: each request taken has one answer of its kind, in order, except one whose service raised; the loop ends at the first token login that Steam accepts |
| WebSocketClient.LoopRefinesSteps | src/steam_network/websocket_client.py:237-305 | the loop leaves queues, caches and task as the protocol's steps do |
| WebSocketClient.AuthenticationCache.Update | src/steam_network/authentication_cache.py:43-49 | stores the message and the ranked list |
| WebSocketClient.Client.LogIn | src/steam_network/websocket_client.py:255-279 | serves a login as the protocol says, with both caches and the polling data |
| WebSocketClient.Client.AuthenticatePassword | src/steam_network/protocol_client.py:150-184 | the polling data Steam's reply gives, the noted Steam id, or the error |
| WebSocketClient.Client.CheckCode | src/steam_network/protocol_client.py:189-211 | serves a two-factor code as the protocol says |
| WebSocketClient.Client.CheckAuthStatus | src/steam_network/protocol_client.py:219-258 | serves a poll as the protocol says, tokens included, or fails without polling data |
| WebSocketClient.Client.FinalizeLogin | src/steam_network/protocol_client.py:267-292 | serves a token login as the protocol says |
| WebSocketClient.Client.AllAuthCalls | src/steam_network/websocket_client.py:237-305 | caches, both queues and the ending are those of serving the whole queue in order |
| LocalGames.DiffThenPatch | src/client.py:152-163 | for all lists, repeated games included, the changes applied in order to the old view give the new view of every game |
| LocalGames.MentionedIffDifferent | src/client.py:152-163 | a game is mentioned if and only if its entry appeared, vanished or changed |
| LocalGames.EachHears | src/client.py:152-163 | all that each game is told, in order |
| LocalGames.GetStateChanges | src/client.py:152-163 | the list built is such a list of changes, however sets are walked |
| Stats.AchievementsUnlocked | src/steam_network/protocol_client.py:422-446 | the nested loops build the list block by block and bit by bit |
| Stats.ListExact | src/steam_network/protocol_client.py:424-446 | the list has exactly the unlocked bits for which the schema has a block and a name |
| Stats.ListInOrder | src/steam_network/protocol_client.py:422-446 | the list is that of exactly the unlocked bits with a schema, block by block and bit by bit, each with its number, time and name |
| Stats.NumbersAreDistinct | src/steam_network/protocol_client.py:442-446 | if each block's times end before the number of any other block with times, no two achievements share a number, whatever is unlocked |
| Stats.DistinctExactlyIfApart | src/steam_network/protocol_client.py:442-446 | and when everything is unlocked that condition is also necessary |
| Stats.NarrowIsApart | src/steam_network/protocol_client.py:442-446 | different blocks of at most 32 times meet it |
| Stats.NumberDecodes | src/steam_network/protocol_client.py:442-446 | in blocks of at most 32 times, an achievement's number divided by 32 gives back its block, and the remainder its bit |
| Stats.NumberDetermines | src/steam_network/protocol_client.py:442-446 | under the condition the number gives back block and bit, and so time and name |
| Stats.WideBlockCollides | src/steam_network/protocol_client.py:442-446 | an instance: after a block of 33 times the next block's first number is taken |
| Stats.ImportExact | src/steam_network/stats_cache.py:13-48 | for answers in any order: none raises if and only if no game is answered for more often than asked for; then those left are those asked for minus those answered, and ready holds if and only if all are answered |
| Stats.EntriesExact | src/steam_network/stats_cache.py:13-41 | every game's entry during an import: its last answer, empty if asked for, or untouched |
| Stats.StatsCache.StartGameStatsImport | src/steam_network/stats_cache.py:13-17 | empties the entries asked for, and starts counting |
| Stats.StatsCache.UpdateStats | src/steam_network/stats_cache.py:27-39 | takes one answer, or raises after the entry was written |
| Stats.StatsCache.ImportInProgress | src/steam_network/stats_cache.py:19-22 | holds if and only if games are left, and makes ready say so |
| Collections.FreshCollections | src/leveldb_parser.py:203-217 | the loop over a dictionary gives the latest entry of each key |
| Collections.BestExact | src/leveldb_parser.py:206-212 | an entry is kept for its key if and only if its timestamp is maximal and no earlier entry has the same |
| Collections.KeysExact | src/leveldb_parser.py:206-209 | a key is listed if and only if some entry has it and a timestamp |
| Collections.KeysAppend | src/leveldb_parser.py:206-217 | keys keep the place where they are first seen |
| Collections.MergeInParts | src/leveldb_parser.py:203-217 | two lists may be reduced before they are merged; reducing twice changes nothing |
| Collections.LevelDbParser.Adopt | src/leveldb_parser.py:214-234 | the collections kept are the decoded values of the latest entries that have one and are not deleted; else the old ones stay |
| Collections.ValuesExactly | src/leveldb_parser.py:223-226 | the values decoded are those of exactly the entries that have one and are not deleted, in order |
| Collections.LevelDbParser.GetStaticCollectionsTags | src/leveldb_parser.py:236-253 | the dictionary holds exactly the games with tags, each with its tags in collection order; it raises if and only if a collection that gives tags has no id |
| Collections.TagsInvert | src/leveldb_parser.py:241-251 | a game has a tag as often as the collections of that label list the game |
| Collections.TagsInOrder | src/leveldb_parser.py:241-251 | and the tags come from the collections in order, each the id or name of a collection, as often as it lists the game |
| Collections.LabelIsIntended | src/leveldb_parser.py:243-246 | the tag is the intended one unless another id occurs in the joined word and differs from the name |
| Collections.EmptyIdMislabels | src/leveldb_parser.py:243-246 | for every named collection with an empty id the tag is empty |
| Collections.FindMetaPairs | src/leveldb_parser.py:106-117 | finds all occurrences, overlapping ones included, in ascending order |

## Left out

- MultiTrees.DepthIsEnough: decompressed data can be longer than what it came from, so reading takes a bound on nested gzips, for any bound; Python's recursion limit is not modelled.
- MultiTrees.RoundTrip: the protobuf writers and readers for the header and the Multi message are assumed to undo each other on the headers and Multis that occur.
- ProtobufClient.ProtobufClient.Run: the packets that the job and message handlers send, and the Steam id that the log-on handler sets, are left out: the contract says nothing of either; whether a message's handler raises depends on the messages before it only, and a timeout error of its own, which the loop would swallow, counts as any other raise. Another task that replaces the client's handlers, and the exception's own type, are not modelled; a raise ends the run.
- ProtobufClient.ProtobufClient.ProcessMessage: a handler is a step that is noted and may raise; what each handler decodes is left out, except where a cache models it.
- GamesCache.GamesCache.ConsumeResolvedApps: the method reads a cache that stands still; what the pauses between two licences change is the subject of LibraryReading, on values, and a set of apps that changes while it is walked is left out. The order of apps within one licence is arbitrary, as it is for a Python set.
- GamesCache.GamesCache.HandleLicenses: what the pump does while package infos are asked for is not modelled.
- UserRecords.Update: a record is a value, so two names for one record object are not modelled; the same holds for licences.
- LoginProtocol.EveryRunSafe: one handler of the backend and one websocket task run at a time. A second run task, started by a repeated call to authenticate, is not modelled; neither is the login task that run leaves behind when the protocol client's task ends first, which is never cancelled and goes on reading the queue beside its successor. Which errors reconnect, forget the user or end the task is chosen by the environment, not by the table of error codes.
- LoginTraffic.TrafficBalance: there is one login task; the one that run leaves behind when the connection breaks while it waits for a request, and which may then serve a request beside its successor, is not modelled.
- LoginTraffic.StaleByTimeouts: for the same reason answers are in order; two login tasks with a request each, which takes a timeout as well, could answer out of order.
- LoginProtocol.AuthenticationIsEarned: the bytes of tokens and passwords are opaque, and encryption is left out.
- LoginExamples.LostAuthenticationNamesNobody: nothing bounds how long an answer stays queued.
- Stats.AchievementsUnlocked: a schema is the names it resolves; a schema of another shape, which would raise a type error, is left out.
- Collections.LevelDbParser.Adopt: reading the database file, the search for the user's section and cutting JSON objects out of it are left out, and timestamps are numbers.
- Collections.LevelDbParser.GetStaticCollectionsTags: games are natural numbers; a list that mixes numbers and texts is left out.
- Sockets, reconnection delays, heartbeats and asyncio cancellation: input and output without a pure core.
- The generated protobuf code, gzip, vdf, json, rsa and base64: library code.
- Writing the games cache to disk and reading it back: serialization by a library; a cache read back is taken to be one that was written.
- Presence texts, play times, nicknames, the server list and the persistent cache: easy members, or decided by regular expressions and clocks.
- The pages, their URLs and fallback messages: a next step is only the page and whether it reports an error.
- Registry and folder scans, and the parsing of dynamic collections: plumbing around files.
