# Super Mario Odyssey Online: verified model

A Dafny model of the cores of the multiplayer mod (C++) and of its game server (C#), with proofs of
what each promises and of what they promise together. `dafny verify dfyconfig.toml` checks all of it.

Source paths are relative to the root of the repository.

## What is modelled

| module | what it models |
|---|---|
| `Crc32` | the table-driven CRC-32 over name bytes, and the bitwise reflected CRC-32 of section 8.1.1.6.2 of ITU-T V.42 and section 8 of RFC 1952, with polynomial 0xEDB88320 |
| `HashIndex` | `HashArray`: filled and sorted in its constructor, searched by bisection |
| `PlayerAnims` | names as numbers on the wire, for any table of at most 32767 names; the capture names are a second instance of the same index |
| `PacketHeader` | the 20-byte frame header and writes into a buffer |
| `FrameStream` | frames as they are written, a socket that delivers the bytes in arbitrary pieces, and the read loop |
| `Sessions` | the server as a transition system: one iteration of a socket handler is one step, any number of handlers interleave |
| `Server` | the server's client objects and client list, changed in place; each method is proved to be the action of `Sessions` |
| `Costumes` | what every player wears over runs of the server, and what a newcomer is told of it |
| `PuppetTable` | the mod's slot table as a value: lookup and packet receivers |
| `ModClient` | the same table as an array of `PuppetInfo` objects, changed in place |
| `SlotCounting` | what a slot table holds after an orderly stream of packets, by counting |
| `Roster` | server and mods together: what each player is sent over a run, and exactly when its table is right |
| `Takeover` | one run of the server that ends in a wrong table |
| `ShineSync` | moon synchronisation as a transition system over the global set, the bags in the players' metadata and the settings |
| `ShineServer` | the packet cases, the sync functions and the clear command, changed in place |
| `SmoothMove` | the position part of `VisualUtils::SmoothMove` over the reals |
| `Tokeniser` | the console's quoted-argument tokeniser |
| `PlayerSelector` | the selection of players by console arguments |
| `Poses` | the animation of a player at the sender, its queue and its socket, and as a receiver shows it |
| `EdgeFlags` | the capture and cap-throw flags of a sender, its queue, and the flags at a receiver |
| `Option` | a value that may be missing |

Where the source changes objects or arrays in place the model has a class or an array and methods with
loops, and each method's result is tied to a function of the old state. The theorems are about those
functions and about runs: sequences of states in which every step is enabled and taken.

## Main results

- **The fast CRC is the simple one.** `Crc32.HashStr` equals the bit-at-a-time CRC for every byte
  string, on compilers with signed and with unsigned `char`. Two strings of equal length that differ
  within four consecutive bytes never share a hash, since a window of up to 32 bits is injective. A string
  followed by its hash always leaves the same residue (`Crc32.HashLeavesResidue`).
- **Names survive the wire** exactly when they are in the table, or are the fallback itself
  (`PlayerAnims.NameSurvives`).
- **Framing.** However the stream is cut, exactly the frames written are read, in order, and only what
  follows them without being a frame is dropped: a truncated frame, or one whose header has a size below
  -20, at which the loop ends with an exception (`FrameStream.Reassemble`).
- **Sessions.** In every reachable state a Connect of a known kind, first or reconnecting, is admitted as
  long as fewer than the maximum are connected, and anything else ends its session and changes nobody
  (`Sessions.FirstFrameDecides`). Over every interleaving no id is listed twice and no more than the maximum are
  connected; a superseded handler changes nothing that is listed; what is forwarded carries its
  sender's id and reaches each other connected player once.
- **Roster agreement.** Over every run, takeovers of connected ids included, a player's slot table holds
  exactly the other connected players at every moment up to a step if and only if no earlier step misleads
  it (`Roster.AgreementIff`). Two kinds of step mislead: the end of a connected session whose id is still
  connected through another session, and a forwarded frame that changes who is connected in the table.
  Without takeovers only a session's own Disconnect frame does (`Roster.TablesHoldTheOthers`). A takeover
  alone leaves every table right; the end of the old session then makes it wrong
  (`Roster.SupersededExitMisleads`), as in the run of seven steps in `Takeover.TakeoverGoesWrong`. Every
  newcomer finds a slot among the `MaxPlayers - 1`. A player taken off by mistake is back at its next
  PlayerInf, counted one too few, if and only if its slot was not given away before that
  (`SlotCounting.ComesBackIff`, `Roster.DoubledExitHeals`).
- **Costumes.** Through disconnects, reconnects and takeovers every entry of the list wears what its player
  last put on, and a newcomer is told just that of each other player, once (`Costumes.NewcomerIsTold`).
- **Animations.** Once everything has arrived, a receiver shows the last pose of a player if and only if it was
  sent since the start, or was shown at the start (`Poses.PosesAgreeIff`). A receiver that joins late is
  brought up to date, since a Connect makes the sender write its last packet again.
- **Moons.** Over every run the global set is exactly what was reported by players whose reports count, or
  persisted, and not cleared since; a sync visits exactly the players who are online and have sent a Game
  packet (`ShineSync.GlobalExactly`, `ShineSync.PlayersInGame`). The sync path sends each moon at most once between two clears of a bag and never one the
  player has reported while the sync was on and its save was loaded; a completed sync converges; every
  moon has a source; the sync is off for a player exactly between a new save in Cap and Cascade.
- **Smoothing** reaches a fixed target exactly, and at speed 0, by calls that together take the catch-up
  time of 0.2 s, whatever the distance, the speed at the start and the lengths of the time steps
  (`SmoothMove.CatchesUpInTime`). From rest, and unless it is very near, the target is not reached in less
  than half of that.
- **Arguments**, plain and quoted, with any spaces between and after them, are read back as typed if and
  only if no quoted text has a leading space, a double space or a quote directly before a space
  (`Tokeniser.RoundTripIff`). Every line whatever is read as a grammar over its characters says, and refused
  exactly when an open quote never closes (`Tokeniser.LineByCharacter`).
- **Selection** is characterised exactly in each mode: an argument stands for the first match with exactly its
  name, else for its only match, and is ambiguous otherwise. The order matters in one mode and not in the other.
- **Flags.** Once the queue is drained each flag at a receiver equals that of the sender's last call if
  and only if it was sent since the start or agreed at the start (`EdgeFlags.NamedFlagsAgreeIff`). The
  start matters: a slot that is given to another player keeps its flags
  (`EdgeFlags.ReusedSlotKeepsFlags`), and a receiver that joins later has missed them
  (`EdgeFlags.LateReceiverMissesCapture`).

## Where the code and its documentation disagree

The model follows the code.

- mod/src/helpers.hpp:152 gives the closing speed in m/s; mod/src/helpers.cpp:136 uses the squared distance
  as the distance, so the speed is in squared units per second. The catch-up time is kept.
- server/Server/CommandHandler.cs:44-46 has a reply for unmatched quotes that cannot be reached: the
  index error at line 43, or the empty piece at line 47, ends in the error reply before it.

## Model

| member | source | states |
|---|---|---|
| `Crc32.TableIsEightSteps` | mod/src/algorithms/crc32.h:19-73 | each of the 256 table entries is its index after eight one-bit steps |
| `Crc32.Step8IsLinear` | mod/src/algorithms/crc32.h:79 | eight one-bit steps distribute over exclusive or, which is what lets a table replace them |
| `Crc32.LookupFeedsByte` | mod/src/algorithms/crc32.h:78-79 | one table lookup, with the character promoted as signed or unsigned, feeds the eight bits of the byte |
| `Crc32.HashStr` | mod/src/algorithms/crc32.h:75-81 | the loop computes the bitwise reflected CRC-32 of the string |
| `Crc32.FeedIsInjectiveInState` | mod/src/algorithms/crc32.h:79 | for any message, different states lead to different states |
| `Crc32.WindowIsInjective` | mod/src/algorithms/crc32.h:79 | from any state, different windows of equal length up to 32 bits lead to different states |
| `Crc32.BurstIsDetected` | mod/src/algorithms/crc32.h:75-81 | messages that differ within one such window end in different states |
| `Crc32.NoCollisionWithinFourBytes` | mod/src/algorithms/crc32.h:75-81 | different strings of equal length that differ within four consecutive bytes have different hashes |
| `Crc32.HashLeavesResidue` | mod/src/algorithms/crc32.h:75-81 | every string, followed by its hash with the low byte first, leaves the register at the residue 0xDEBB20E3 |
| `Crc32.CheckValue` | mod/src/algorithms/crc32.h:75-81 | the hash of "123456789" is 0xCBF43926, that of the empty string 0 |
| `HashIndex.HashArray.constructor` | mod/src/algorithms/crc32.h:91-101 | the array holds the hash and position of every string, sorted by hash |
| `HashIndex.SortByHash` | mod/src/algorithms/crc32.h:97-100 | the pairs are permuted into ascending order of hash |
| `HashIndex.LowerBound` | mod/src/algorithms/crc32.h:110 | everything before the result is smaller than the hash, nothing from it on is |
| `HashIndex.HashArray.FindIndex` | mod/src/algorithms/crc32.h:103-120 | -1 exactly when no string of the table has the hash, else the position of one that has it |
| `PlayerAnims.FindType` | mod/src/algorithms/PlayerAnims.h:1148-1154 | the position, or -1, after the narrowing to `uint16_t` and the cast to the enumeration |
| `PlayerAnims.WireRoundTrip` | mod/src/packets/Packet.cpp:52-58 | a type comes back from the wire as itself |
| `PlayerAnims.IndexOfEntry` | mod/src/algorithms/crc32.h:103-120 | with pairwise distinct hashes the index of string `i` is `i` |
| `PlayerAnims.NameOverTheWire` | mod/src/server/Client.cpp:876-890 | the receiver has the entry with the name's hash, or the fallback when there is none |
| `PlayerAnims.NameSurvives` | mod/src/server/Client.cpp:488-497 | the receiver has the sender's name if and only if it is in the table or is the fallback without a hash in the table |
| `PlayerAnims.UnknownNames` | mod/src/server/Client.cpp:876-890 | an unknown action arrives as "Wait", an unknown sub-action as the empty string |
| `PlayerAnims.NearMissIsNotTaken` | mod/src/algorithms/PlayerAnims.h:1148-1154 | a name is not taken for an entry of its length that differs from it within four bytes only |
| `PacketHeader.Int16RoundTrip` | server/Shared/Packet/PacketHeader.cs:18-25 | a `short` and its two bytes determine each other |
| `PacketHeader.HeaderRoundTrip` | server/Shared/Packet/PacketHeader.cs:16-26 | reading and writing a header are inverse, both ways round |
| `PacketHeader.LayoutIff` | server/Shared/Packet/PacketHeader.cs:16-26 | bytes are read as a header, and are those written for it, if and only if the id lies at 0, the type at 16 and the size at 18, both with the low byte first |
| `PacketHeader.Serialize` | server/Shared/Packet/PacketHeader.cs:16-20 | the twenty bytes of the header are written, each field at its offset, the rest of the buffer is unchanged |
| `PacketHeader.Deserialize` | server/Shared/Packet/PacketHeader.cs:22-26 | the header whose fields lie at their offsets in the first twenty bytes |
| `FrameStream.FillPacket` | server/Server/Server.cs:65-70 | the buffer starts with the bytes of the frame |
| `FrameStream.Socket.Receive` | server/Server/Server.cs:143 | some of the bytes to come are written and taken off the stream, none only at its end |
| `FrameStream.Read` | server/Server/Server.cs:140-155 | fills exactly the range asked for, or fails exactly when the stream is too short |
| `FrameStream.ReadFrame` | server/Server/Server.cs:137-168 | the first frame of the stream, or the end of the session exactly when it is not complete or its size is below -20 |
| `FrameStream.ReadFrames` | server/Server/Server.cs:137-168 | the frames of the stream up to the first that is not complete or out of bounds, however it is cut |
| `FrameStream.StreamIsItsFrames` | server/Server/Server.cs:137-168 | a stream is the bytes of its frames and a rest without a frame |
| `FrameStream.FramesAreRecovered` | server/Server/Server.cs:65-70 | the frames of the bytes of some frames and a rest without a frame are those frames |
| `FrameStream.TruncatedFrame` | server/Server/Server.cs:137-168 | a proper prefix of a frame contains no frame |
| `FrameStream.UnboundedFrame` | server/Server/Server.cs:160 | nothing that starts with a header of a size below -20 is read as a frame |
| `FrameStream.Reassemble` | server/Server/Server.cs:137-168 | frames written, with anything after them that is not a frame, and cut into any non-empty pieces, are read back in order |
| `Sessions.IndexOfId` | server/Server/Server.cs:123-125 | the first entry with the id |
| `Sessions.Without` | server/Server/Server.cs:213 | just the entries with other ids |
| `Server.WithoutOfConcat` | server/Server/Server.cs:213 | they keep their order and number: the result for a list is that of its parts, one after the other |
| `Sessions.Others` | server/Server/Server.cs:109-112 | just the connected entries with other ids |
| `Server.OthersOfConcat` | server/Server/Server.cs:109-112 | they keep their order and number, part by part |
| `Sessions.CountIsSize` | server/Server/Server.cs:178 | with distinct ids the count of connected entries is the size of their set |
| `Sessions.AdmittedIff` | server/Server/Server.cs:173-207 | a session is admitted if and only if its first frame is a Connect of a known kind, first or reconnecting, and the server is not full; a refusal changes nobody |
| `Sessions.FirstFrameDecides` | server/Server/Server.cs:171-215 | in every reachable state: with fewer than the maximum connected such a Connect is seated under its id; anything else ends the session, changes nobody and tells nobody |
| `Sessions.AdmittedList` | server/Server/Server.cs:177-215 | a first connection is appended under its id; a reconnect replaces the entry with its id by a connected copy at the end; nobody is admitted at the maximum |
| `Sessions.AdmittedFrame` | server/Server/Server.cs:177-215 | an admission changes no other object and lists no other object |
| `Sessions.StepKeepsInv` | server/Server/Server.cs:128-311 | every step keeps ids distinct, connections within the maximum, and a live handler behind every connection |
| `Sessions.EveryRunKeepsInv` | server/Server/Server.cs:177-215 | the same over every interleaving from the start |
| `Sessions.ReconnectReplaces` | server/Server/Server.cs:189-197 | the new entry has the old one's id, costume and metadata and is connected; the old object is as it was, off the list |
| `Sessions.SupersededHandlerIsHarmless` | server/Server/Server.cs:297-302 | no later step of a superseded handler changes the list or an entry in it |
| `Sessions.MetadataSurvives` | server/Server/Client.cs:32-40 | a player once listed stays listed, always with the same metadata |
| `Sessions.BroadcastReachesOthersOnce` | server/Server/Server.cs:109-112 | a broadcast hands its message once to each other connected player and to nobody else |
| `Sessions.ForwardedFrames` | server/Server/Server.cs:252-268 | in every reachable state a later frame ends its session if and only if the session has an id and the frame another one, and nothing of it is forwarded; any other is handed once to each other player, if it is forwarded at all |
| `Server.Client.constructor` | server/Server/Client.cs:26-29 | a new client has no id, no costume and is not connected |
| `Server.Client.Copy` | server/Server/Client.cs:32-40 | the copy has the fields of the old object and shares its metadata |
| `Server.Server.Accept` | server/Server/Server.cs:128-129 | a new handler's client object is added to those that exist, not to the list |
| `Server.Server.CountConnected` | server/Server/Server.cs:178 | the number of connected entries |
| `Server.Server.FindExistingClient` | server/Server/Server.cs:123-125 | the first entry with the id, or none |
| `Server.Server.Receivers` | server/Server/Server.cs:109-112 | the connected entries with other ids, in order |
| `Server.Server.Admit` | server/Server/Server.cs:171-215 | the action of the transition system; admitted if and only if the first frame is a Connect of a known kind and the server is not full, and nobody changed otherwise |
| `Server.Server.Seat` | server/Server/Server.cs:186-215 | the place of an admitted session |
| `Server.Server.Replace` | server/Server/Server.cs:189-194 | the old entry is removed and its connected copy appended |
| `Server.Server.Append` | server/Server/Server.cs:208-215 | entries with the id are removed and the client is appended, connected |
| `Server.Server.RemoveAll` | server/Server/Server.cs:213 | only the entries with other ids are kept |
| `Server.Server.Leave` | server/Server/Server.cs:297-309 | the client is no longer connected, stays where it is, and the others are told if it was connected |
| `Server.Server.LaterFrame` | server/Server/Server.cs:252-268 | the id check, the costume and the receivers of a forwarded frame |
| `Costumes.EntriesWearLast` | server/Server/Program.cs:170-172 | in every reachable state each entry of the list wears what its player last put on in a listed session |
| `Costumes.NewcomerIsTold` | server/Server/Server.cs:224-246 | a newcomer is told the costume of each other connected player that wears one, once, under its id, and it is the one last put on |
| `PuppetTable.SlotOf` | mod/src/server/Client.cpp:1269-1274 | the first slot with the id |
| `PuppetTable.FreeSlot` | mod/src/server/Client.cpp:1275-1277 | the first slot nobody is connected in |
| `PuppetTable.ReceiveKeepsMap` | mod/src/server/Client.cpp:984-1008 | a packet keeps the ids distinct and the ids of connected slots, and changes the count with the connected slots except for a revival |
| `PuppetTable.TableIsAPartialMap` | mod/src/server/Client.cpp:1220-1286 | over every run the non-empty ids are distinct and the connected slots number the count plus the revivals |
| `PuppetTable.ConnectedSlotKeepsItsPlayer` | mod/src/server/Client.cpp:984-1008 | over any stretch of a run a slot that stays connected keeps its id |
| `PuppetTable.SlotStaysAssigned` | mod/src/server/Client.cpp:1265-1286 | over any stretch of a run a slot keeps its id as long as no Connect of another player takes it |
| `PuppetTable.SlotGoesBack` | mod/src/server/Client.cpp:1265-1286 | over a run, after a Disconnect, the next Connect of that player is seated in the same slot and touches no other, unless the slot was given away in between |
| `PuppetTable.DigitsDenote` | mod/src/server/Client.cpp:44 | the number in the name of a fresh slot denotes the slot |
| `PuppetTable.ConnectShows` | mod/src/server/Client.cpp:984-1008 | a seated player is shown under its own name; no other slot is touched |
| `PuppetTable.DisconnectClears` | mod/src/server/Client.cpp:1220-1235 | a player that leaves is in no scenario and no stage; its name and animation stay, and no other slot is touched |
| `PuppetTable.PlayerShows` | mod/src/server/Client.cpp:876-890 | the action and the sub-action shown are the entries with the hashes of those sent, in this order, or "Wait" and nothing |
| `PuppetTable.SlotShowsItsName` | mod/src/server/Client.cpp:984-1008 | over any stretch of a run a slot that stays connected shows the id and the name of the Connect that seated it |
| `ModClient.Client.constructor` | mod/src/server/Client.cpp:38-45 | a table of slots named by their numbers, without players |
| `ModClient.Client.FindPuppetInfo` | mod/src/server/Client.cpp:1265-1286 | the slot with the id, else the first free one if asked for, in one pass |
| `ModClient.Client.UpdatePlayerConnect` | mod/src/server/Client.cpp:984-1008 | the slot table takes the Connect step |
| `ModClient.Client.DisconnectPlayer` | mod/src/server/Client.cpp:1220-1235 | the slot table takes the Disconnect step |
| `ModClient.Client.UpdatePlayerInfo` | mod/src/server/Client.cpp:853-890 | the slot table takes the player step, reviving a slot and choosing the animation names |
| `ModClient.Client.UpdateHackCapInfo` | mod/src/server/Client.cpp:916-928 | the slot table takes the cap step |
| `ModClient.Client.UpdateCaptureInfo` | mod/src/server/Client.cpp:935-948 | the slot table takes the capture step |
| `SlotCounting.RoomIsFound` | mod/src/server/Client.cpp:1265-1286 | with fewer players than slots a newcomer's slot is found and is not connected |
| `SlotCounting.ReceiveFollows` | mod/src/server/Client.cpp:984-1008 | one packet of an orderly stream keeps the table equal to the membership |
| `SlotCounting.TableHoldsMembers` | mod/src/server/Client.cpp:1220-1286 | after an orderly stream a fresh table holds exactly the members, with the right count and no revivals |
| `SlotCounting.NewcomerFindsASlot` | mod/src/server/Client.cpp:984-1008 | whoever an orderly stream announces finds a free slot |
| `SlotCounting.RightIffNotUpset` | mod/src/server/Client.cpp:853-862 | a packet leaves a right table right if and only if it seats, takes off or revives nobody |
| `SlotCounting.ConnectSeats` | mod/src/server/Client.cpp:984-1008 | with room for it a Connect seats its player, in a free slot or in the one it has |
| `SlotCounting.SecondConnect` | mod/src/server/Client.cpp:992-998 | a second Connect of a connected player changes nothing |
| `SlotCounting.WaitsUnlessGiven` | mod/src/server/Client.cpp:1265-1286 | over any packets among which a disconnected player does not connect or move, its slot stays its own and unconnected, or, once given away, it has none |
| `SlotCounting.ComesBackIff` | mod/src/server/Client.cpp:853-862 | after a Disconnect of a player that is still there, its next PlayerInf puts it back, and nobody else, without counting it, if and only if its slot was not given away in between; otherwise nothing changes |
| `SlotCounting.BackButMiscounted` | mod/src/server/Client.cpp:853-862 | if the packets in between are right for the others, the table then holds exactly them and the player, and its count is one short |
| `Roster.HeardOfBroadcast` | server/Server/Server.cs:109-112 | what one client hears of a broadcast |
| `Roster.HeardOfWelcome` | server/Server/Server.cs:224-249 | the newcomer hears of everybody it meets, in order, however the messages interleave; nobody else hears of it |
| `Roster.EndKeepsRightIff` | server/Server/Server.cs:297-309 | the end of a session leaves a right table right if and only if the session was not connected, has the player's own id, or nobody is connected under its id any more |
| `Roster.FrameKeepsRightIff` | server/Server/Server.cs:252-268 | a forwarded frame leaves a right table right if and only if it is the player's own or changes nobody's connection in the table |
| `Roster.TellsEverybody` | server/Server/Server.cs:208-249 | an admission leaves every right table right and gives the newcomer a right one |
| `Roster.StepRightIff` | server/Server/Server.cs:128-311 | one step leaves a right table right, or makes the newcomer's right, if and only if it does not mislead |
| `Roster.AgreementIff` | server/Server/Server.cs:128-311 | over every run a player's table is right at every moment up to a step if and only if no earlier step misleads it |
| `Roster.MisleadsIffDropped` | server/Server/Server.cs:252-309 | when no session is superseded only a session's own Disconnect frame misleads |
| `Roster.TablesHoldTheOthers` | mod/src/server/Client.cpp:1265-1286 | over every run without takeovers a table holds exactly the ids of the other connected players at every moment if and only if no Disconnect frame of a session reaches it |
| `Roster.NewcomersFindSlots` | mod/src/server/Client.cpp:206 | at every admission each Connect sent to a right table finds a free slot, or its player's own, among `MaxPlayers - 1`, and so does each of the welcome |
| `Roster.SupersededExitMisleads` | server/Server/Server.cs:189-197 | a takeover leaves a right table right; the end of the old session then makes it wrong |
| `Roster.DoubledExitHeals` | server/Server/Server.cs:297-310 | after the end of a session whose id is still connected through another one, the next PlayerInf of that player, if nothing comes in between, makes the table of every other player hold the others again, with a count that is one short |
| `Takeover.TakeoverGoesWrong` | server/Server/Server.cs:297-309 | a run of seven steps after which a player's table lacks the one who reconnected, though both are connected |
| `ShineSync.BagGrowsBy` | server/Server/Program.cs:88-103 | a bag grows by the player's own news and by what it is sent, or is emptied |
| `ShineSync.SentIsNew` | server/Server/Program.cs:91-98 | what is sent is not in the bag, each moon once, and nothing when the sync is off |
| `ShineSync.BagsHaveNoDuplicates` | server/Server/Program.cs:179-188 | over every run no bag holds a moon twice |
| `ShineSync.SentOnce` | server/Server/Program.cs:88-103 | between two clears of a bag a moon is sent to its player at most once and only if the bag did not have it |
| `ShineSync.ReportedIsNotSentBack` | server/Server/Program.cs:179-188 | a moon the player reported while the sync was on and its save loaded is not sent to it until its bag is cleared |
| `ShineSync.SyncConverges` | server/Server/Program.cs:105-112 | after a completed sync a player in the game and outside a speedrun has the whole global set and was sent just the difference |
| `ShineSync.NewsReachesEverybody` | server/Server/Program.cs:179-188 | a report that is news reaches every such player, and is not sent back to its reporter |
| `ShineSync.SecondSyncIsSilent` | server/Server/Program.cs:105-112 | after a completed sync another one sends nothing |
| `ShineSync.Provenance` | server/Server/Program.cs:41-63 | every moon in the global set or a bag was reported while the sync was on and the save loaded, or was persisted |
| `ShineSync.NothingSentUntilCascade` | server/Server/Program.cs:130-147 | from a new save in Cap until Cascade the sync path sends the player nothing |
| `ShineSync.SpeedrunExactly` | server/Server/Program.cs:130-147 | over every run the sync is off for a player exactly between a new save in Cap and Cascade |
| `ShineSync.ClearedBags` | server/Server/Program.cs:637-646 | a bag is emptied together with the global set, and otherwise only grows |
| `ShineSync.GamePutsInGame` | server/Server/Program.cs:128 | a Game packet puts its player among those a sync visits if and only if it is connected, and nobody else |
| `ShineSync.PlayersInGame` | server/Server/Server.cs:13 | over every run a sync visits exactly those who are online by the last Join, Reconnect or Disconnect and have sent a Game packet; reports count of exactly those who have sent a Costume packet |
| `ShineSync.GlobalExactly` | server/Server/Program.cs:179-183 | over every run the global set is exactly the moons that were reported by somebody whose reports count, or persisted, and not cleared since |
| `ShineSync.SettingExactly` | server/Server/Program.cs:180 | over every run the sync is on exactly by the last switch, or as it was at the start |
| `ShineServer.Program.constructor` | server/Server/Program.cs:41-66 | the server starts with the persisted set |
| `ShineServer.Program.ClientJoined` | server/Server/Program.cs:68-78 | a first connection gets fresh metadata |
| `ShineServer.Program.Reconnect` | server/Server/Client.cs:32-40 | a reconnect keeps the player's metadata |
| `ShineServer.Program.Disconnect` | server/Server/Server.cs:299 | a player that leaves keeps its metadata |
| `ShineServer.Program.SetEnabled` | server/Server/Program.cs:664-668 | the sync is switched on or off, nothing else changes |
| `ShineServer.Program.ClientSyncShineBag` | server/Server/Program.cs:88-103 | sends part of the difference, all of it when no send fails, and adds just that to the bag |
| `ShineServer.Program.SyncShineBag` | server/Server/Program.cs:105-112 | the same for every player in the game; without a failed send everybody outside a speedrun has the whole global set and was sent just the difference, each moon once |
| `ShineServer.Program.HandleGame` | server/Server/Program.cs:124-147 | the Game step, after which the player is in the game exactly if it is connected, and whether a sync was scheduled |
| `ShineServer.Program.HandleCostume` | server/Server/Program.cs:170-177 | the Costume step: the sync, then the save counts as loaded; without a failed send a player outside a speedrun has the whole global set |
| `ShineServer.Program.HandleShine` | server/Server/Program.cs:179-189 | the Shine step with its refusals, and whether the packet is forwarded; an accepted new moon without a failed send leaves everybody in the game and outside a speedrun with the whole global set |
| `ShineServer.Program.ClearShines` | server/Server/Program.cs:637-646 | the global set and every bag are emptied |
| `SmoothMove.Smooth` | mod/src/helpers.cpp:129-161 | position and returned speed are the step of the specification |
| `SmoothMove.GapAlong` | mod/src/helpers.cpp:146-150 | the squared distance left after a part of the way |
| `SmoothMove.OneCall` | mod/src/helpers.cpp:138-157 | a call stays on the segment, arrives exactly when the step covers the squared distance, always within 0.2 s, then returns speed 0, and until then does not slow down and closes a tenth of the step |
| `SmoothMove.OneCallFromRest` | mod/src/helpers.hpp:158-159 | from rest one call arrives exactly if it takes 0.2 s, or ten times the squared distance where that is below 0.02 |
| `SmoothMove.CatchesUpInTime` | mod/src/helpers.hpp:158-159 | any calls that together take the catch-up time, with the returned speed fed back, end exactly at the target with speed 0, whatever the distance and the speed at the start |
| `SmoothMove.ArrivesAtSpeed` | mod/src/puppets/PuppetActor.cpp:138 | the speed fed back does not drop before arrival: calls in whose time the first speed closes the squared distance arrive |
| `SmoothMove.NotYetThere` | mod/src/helpers.cpp:138-150 | calls in whose time twice the first speed does not cover the squared distance do not arrive |
| `SmoothMove.NotBeforeHalfTime` | mod/src/helpers.hpp:158-159 | from rest and a squared distance of at least 0.02 the target is not reached before 0.1 s |
| `SmoothMove.ArrivesInTime` | mod/src/helpers.hpp:158-159 | with steps of at least `least`, as many calls as the squared distance holds tenths of it end exactly at the target with speed 0 |
| `SmoothMove.RunStaysOnSegment` | mod/src/puppets/PuppetActor.cpp:138 | over any calls with a fixed target the position stays on the segment |
| `SmoothMove.StaysAtTarget` | mod/src/helpers.cpp:158-161 | at the target it stays there with speed 0 |
| `Tokeniser.ReadQuoted` | server/Server/CommandHandler.cs:38-48 | the argument of an opened quote and its last piece, or an error |
| `Tokeniser.Tokenise` | server/Server/CommandHandler.cs:26-55 | the loop yields the argument list of the specification, or an error exactly when it does |
| `Tokeniser.JoinOfSplit` | server/Server/CommandHandler.cs:29 | joining the pieces of a line with spaces gives the line |
| `Tokeniser.ClosedByLast` | server/Server/CommandHandler.cs:40-47 | the quote a text opens is closed by its last piece if and only if the text is clean |
| `Tokeniser.FirstIsRead` | server/Server/CommandHandler.cs:36-52 | whatever pieces follow, an argument is read as itself and the reading goes on behind it if and only if it is renderable |
| `Tokeniser.UnquotableIsNotRead` | server/Server/CommandHandler.cs:36-49 | a quotation of any other text is read as a shorter text or not at all, whatever pieces follow |
| `Tokeniser.RoundTripIff` | server/Server/CommandHandler.cs:29-55 | a command with plain and quoted arguments, typed with any spaces between and after them, is read back as it is if and only if no quoted text has a leading space, a double space or a quote directly before a space |
| `Tokeniser.QuotationByCharacter` | server/Server/CommandHandler.cs:36-49 | an open quote is read if and only if it closes, at a quote before a space or the end with a quotable text before it, and the argument and the pieces behind it are those |
| `Tokeniser.LineByCharacter` | server/Server/CommandHandler.cs:26-55 | every line is read as the grammar over its characters says |
| `PlayerSelector.Search` | server/Server/Program.cs:266-267 | just the connected clients an argument matches |
| `PlayerSelector.SearchConcat` | server/Server/Program.cs:266-267 | they keep the order of the list and their number, part by part |
| `PlayerSelector.Exact` | server/Server/Program.cs:271 | the position of the first with exactly this name, or none when nobody has it |
| `PlayerSelector.ResolvesExactly` | server/Server/Program.cs:268-289 | the first match with exactly the argument's name, else the only match; ambiguous if and only if at least two match and none has its name |
| `PlayerSelector.ExactNameActs` | server/Server/Program.cs:271-277 | a command for somebody's exact name acts upon that player alone, whoever else it matches |
| `PlayerSelector.BeginningsMatch` | server/Server/Program.cs:266-267 | with a case folding letter by letter and an ordinal comparison, an argument that is no identifier matches exactly those whose folded name begins with it |
| `PlayerSelector.IdentifierMatches` | server/Server/Program.cs:267 | a connected player is matched by its identifier |
| `PlayerSelector.MultiUserCommandHelper` | server/Server/Program.cs:256-296 | who is acted upon in each mode, which arguments nobody matches, and the ambiguous ones, each once with its matches, in the order in which they are first given |
| `PlayerSelector.AddedExactly` | server/Server/Program.cs:264-293 | in add mode: those some argument resolves to and no later ambiguous argument matches |
| `PlayerSelector.ExcludedExactly` | server/Server/Program.cs:264-293 | in "!*" mode: the connected players without all resolved and all ambiguous matches |
| `PlayerSelector.OrderOfExclusions` | server/Server/Program.cs:263-290 | in "!*" mode the order and repetition of the arguments do not matter |
| `PlayerSelector.OrderOfAdditions` | server/Server/Program.cs:276-292 | in add mode an ambiguous argument takes off who was added before it and not who is added after it |
| `PlayerSelector.OneClassEach` | server/Server/Program.cs:268-292 | each argument that is looked up is exactly one of not found, ambiguous and resolved to a client it matches |
| `Poses.Client.Numbers` | mod/src/server/Client.cpp:482-512 | the two numbers of a pose: of its own action and sub-action, of the action of what is captured, or unknown |
| `Poses.Client.SendPlayerInfPacket` | mod/src/server/Client.cpp:514-526 | the packet is kept, and queued exactly when it differs from the last one |
| `Poses.Client.Resend` | mod/src/server/Client.cpp:375-378 | the last packet, if there is one, is written before those in the queue |
| `Poses.PacketShowsPose` | mod/src/server/Client.cpp:876-890 | a slot that shows the packet of a pose shows the pose: each name by an entry with its hash, or by its fallback |
| `Poses.ListedNameIsShown` | mod/src/algorithms/PlayerAnims.h:1148-1154 | a name in a table without collisions is shown as itself |
| `Poses.StepFollows` | mod/src/server/Client.cpp:514-526 | at every step the last packet on its way is the sender's last one, or has arrived, once any was sent |
| `Poses.PosesAgreeIff` | mod/src/server/Client.cpp:853-890 | with nothing on its way the receiver shows the packet of the last pose if and only if it was sent since the start, anew or again, or was shown at the start |
| `Poses.LastPoseIsShown` | mod/src/server/Client.cpp:482-526 | then the receiver shows what the player did last |
| `Poses.LateReceiverIsTold` | mod/src/server/Client.cpp:362-378 | whatever was sent before, a receiver shows the last packet once the sender has heard a Connect and everything has arrived |
| `EdgeFlags.TryConvertName` | mod/src/helpers.cpp:117-125 | the name of the first entry for the class, or the class name |
| `EdgeFlags.FirstEntryNames` | mod/src/helpers.cpp:117-125 | the name is that of the first entry for the class, whatever comes after it, and the class name only if there is none |
| `EdgeFlags.Client.SendCaptureInfPacket` | mod/src/server/Client.cpp:765-801 | a packet is queued exactly when the captured flag differs from the one last sent |
| `EdgeFlags.Client.SendHackCapInfPacket` | mod/src/server/Client.cpp:534-586 | a packet is queued while the cap flies and once when it stops |
| `EdgeFlags.OnePacketPerChange` | mod/src/server/Client.cpp:774-800 | there are as many capture packets as changes of the flag, and the flags last sent are those of the last calls |
| `EdgeFlags.OnePacketPerCapReport` | mod/src/server/Client.cpp:534-586 | there are as many cap packets as calls with a flying cap and calls at which it has just stopped |
| `EdgeFlags.OtherKeepsFlags` | mod/src/server/Client.cpp:984-1008 | other packets leave the player's slot and flags alone |
| `EdgeFlags.StepFollows` | mod/src/server/Client.cpp:916-948 | at every step the receiver's flags with the queued packets applied are the starting flags with everything sent since applied |
| `EdgeFlags.CapAfterAll` | mod/src/server/Client.cpp:916-928 | everything some calls send sets the cap flag to that of the last call if some call reports a flying cap, or any cap with one flying at the start, and leaves it alone otherwise |
| `EdgeFlags.CaptureAfterAll` | mod/src/server/Client.cpp:935-948 | it sets the captured flag, with the name of the last capture that began, if the flag changes among the calls, and leaves both alone otherwise |
| `EdgeFlags.FlagsAgreeIff` | mod/src/server/Client.cpp:916-948 | with the queue drained a receiver's flag is the sender's if and only if the calls since the start sent it, for a capture under a name that is not empty, or it agreed at the start |
| `EdgeFlags.SourceNamesAll` | mod/src/helpers.hpp:121-134 | no entry of the table of names is empty |
| `EdgeFlags.NameIsEmptyIff` | mod/src/helpers.cpp:117-125 | with such a table only an empty class name is converted to an empty name |
| `EdgeFlags.NamedFlagsAgreeIff` | mod/src/server/Client.cpp:765-801 | with class names that are not empty each flag agrees if and only if it was sent since the start or agreed at the start |
| `EdgeFlags.ReusedSlotKeepsFlags` | mod/src/server/Client.cpp:984-1008 | a player seated in a slot that was used before appears with the flags of the player before |
| `EdgeFlags.LateReceiverMissesCapture` | mod/src/server/Client.cpp:774-786 | a player captured before the receiver knew it is not shown as captured |

## Left out

Statements that are weaker than the source or rest on assumptions:

- Sessions.EveryRunKeepsInv: one iteration of a handler is one atomic step; races inside an iteration, `MaxPlayers` changed at run time and the ban list are not modelled.
- Sessions.ForwardedFrames: a message counts as handed over when it is written to the socket; failed sends are not modelled.
- Sessions.MetadataSurvives: player names are shared through the logger and are not modelled.
- Server.Client.Copy: the shared logger, and with it the player name, is not modelled.
- Server.Server.Admit: the game packets that `ClientJoined` sends to a first connection are not modelled.
- ShineServer.Program.ClientJoined: the same game packets are not modelled.
- Roster.AgreementIff: assumes that nobody registers under the empty id, under which the server does not check the ids of frames, a fresh slot table per connection, and delivery in order. How frames are decoded is a parameter, any function that yields packets of their sender. It says until when agreement lasts; when the players come back after a Disconnect too many is stated for one table (`SlotCounting.ComesBackIff`), not over runs of the server. For at most 33 players the table is the mod's array of 32.
- Roster.TablesHoldTheOthers: rests on the same assumptions.
- ModClient.Client.UpdatePlayerInfo: positions, rotations and blend weights are not modelled.
- ModClient.Client.UpdateHackCapInfo: the cap's position, rotation and animation are not modelled.
- EdgeFlags.Client.SendHackCapInfPacket: the cap's position, rotation and animation are not modelled.
- HashIndex.SortByHash: stands for the library's sort, by selection; the search stands for the library's lower bound.
- FrameStream.ReadFrames: what the handler does with a frame of a size from -20 to -1 after it was read is not modelled.
- ShineSync.SentOnce: covers the sync path only, not the direct forwarding of a player's own packet to the others, nor `shine send`.
- ShineServer.Program.ClientSyncShineBag: how many sends succeed before the socket fails is a parameter; a failed send counts as not sent.
- ShineServer.Program.HandleGame: the sync scheduled fifteen seconds after Cascade is an event of its own that may happen at any time; the merged broadcast of game packets is not modelled.
- ShineServer.Program.SyncShineBag: writing the persisted file is not modelled.
- SmoothMove.Smooth: rotation (`slerpTo`) and floating-point rounding are not modelled.
- PlayerSelector.MultiUserCommandHelper: `ToLower`, `StartsWith` and `Guid.TryParse` are parameters, any functions.
- Tokeniser.Tokenise: ends before the lookup of the command; the text of the error replies is not modelled.
- Poses.PosesAgreeIff: assumes no dropped packets, delivery in order, and that the receiver keeps the player's slot connected. Positions, rotations and weights are not modelled; that one of them has changed is part of the event.
- EdgeFlags.NamedFlagsAgreeIff: assumes that the engine's class names are not empty (without that `EdgeFlags.FlagsAgreeIff` gives the exact condition), no dropped packets, delivery in order, and that the receiver keeps the player's slot connected.

Not modelled at all:

- mod/src/server/SocketClient.cpp: native sockets and JSON; the server's reader is modelled instead. The two sides' byte formats differ at present, so they meet at the level of messages.
- `restartConnection` (mod/src/server/Client.cpp:141), which resets the count without clearing slots.
- The mod's buffer of collected moons and `removeShine`.
- Payload structures of packets, which are byte sequences here; tags, flags and other game modes.
- Settings, timers, Discord, ban handling, and the console commands other than those above.
- Actors, layouts, cameras, menus, engine and SDK headers, the patch generator and static tables.
