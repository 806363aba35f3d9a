# Proofs about the game server, its client and two indexes it vendors

This project models the authoritative game server (Server/GameServer), the parts of the Unity
client that must agree with it (Client/Assets/@Scripts), and two self-contained pieces of the
vendored protobuf sources, and proves properties of the model with Dafny 4.11.

`dafny verify dfyconfig.toml` checks everything.

## How the model is built

- **The game machine** (World.dfy, Runs.dfy) states by brute force, without any zone index, who is
  in the room, what each client shows and what each request does. Its theorems are about every run:
  any number of clients, any order of requests, any client input.
- **The server's objects** (Zones.dfy, Room.dfy, Registry.dfy, Server.dfy, Handlers.dfy) are classes
  with the fields, tables and loops of the source: zones over shared creature objects, the registry's
  three tables, the creature table and the packet handlers. Every handler is proved to be one step
  of the game machine, so the theorems about runs hold of the objects after any number of requests.
  `Handlers.PacketHandlers.ClientsShowTheRoom` is the result this is for.
- **What requests do, in plain terms** (Combat.dfy, Pace.dfy, Sending.dfy): hits and what is left,
  moves and the clock, and every packet that is sent, with no reference to the functions that the
  handlers are written with.
- **Connections** are one object that keeps everything sent on each connection, in order. What a
  client shows is the replay of that log through the client's packet handlers (Client.dfy). The game
  machine has the same logs, packet by packet, so a step says what is sent to whom and how often.
- **The running server** (Dispatch.dfy): `Dispatch.RunServer` starts a server and serves any sequence
  of requests, so every precondition of the handlers is met by some caller, and says which step each
  request was.
- **Several players on one connection** (SharedConnection.dfy): what a second login does to the
  registry, to the room and to the connection.
- **Movement and collision** (MapCollision.dfy, Movement.dfy) are over real coordinates.
- **Bytes**: the client's receive loop (Stream.dfy) and the server's, which differ (ServerReceive.dfy,
  with Packets.dfy for what they share), the frames that each is sent (Framing.dfy), and the client's
  send queue (SendQueue.dfy).
- **The heap** (PriorityQueue.dfy), **the symbol table** (Symbols.dfy, SymbolIndex.dfy,
  SymbolCompare.dfy) and **the arena** (Arena.dfy) stand on their own.

Where a statement one would expect is false of the code, the exact condition is proved: a second
login on one connection (`Registry.RunOneToOne`, `Handlers.PacketHandlers.HandleLogin`,
`SharedConnection.MoveShared`), maps narrower than a creature
(`MapCollisions.WalkableWithRadiusMeaning`), monsters loaded with no hit points
(`Runs.RunKeepsMonstersAlive`), a first move credited with 0.15 s only
(`Movement.SidesAgreeExactly`, `Movement.SidesAgreeOverTicks`), two moves in one millisecond
(`Movement.KeepsPaceExactly`), fast players and the teleport test (`Movement.NeverTeleportExactly`),
frame sizes of 0 or 1 at the client (`Stream.ParkedForever`) and of 0
at the server (`ServerReceive.LoopEndsExactly`), payloads over 65531 bytes
(`Framing.ClientMessagesArrive`) or just below 64 KiB on the server (`Framing.MakeSendBuffer`), names
below every key (`SymbolIndex.NeighboursDecide`), empty symbol names (`SymbolOrder.ShortcutIsExact`)
and block sizes that are no multiple of 8 (`Arena.SerialArena.CleanupList`).

Two places where the code differs from its own comments, and the model follows the code: the
comment on IsSubSymbol names the parent as the second argument, but the code tests whether the
first argument is the parent; and the comment in AddSymbol says that its iterator is at the last
symbol not above the new one, which is not so when the new one is below every symbol.

The server's receiving half is Server/ServerCore/Session.cpp (PacketSession::OnRecv, lines 325-347, and
Session::ProcessRecv, lines 242-274) with RecvBuffer.cpp beside it (lines 14-52). These two files are
not UTF-8 text. The rows about them name their lines in the last column, and their source column has
the code that takes the loop's packets (GameSession.cpp) or the declaration of the buffer (RecvBuffer.h).

Modelling decisions: floats are real numbers and conversion to a tile or zone number is the
mathematical floor; `sqrtf` is a parameter that must be the non-negative root; clock readings, what
the socket does with a batch, and which entry of a hash table comes next are inputs; the two kinds of
creature, Player and Monster, are one class with the fields of both; a thrown exception or a failed
ASSERT_CRASH is a result of its own (Pop, MakeSendBuffer, Throws); `std::map` is a sorted sequence;
pointer differences of cleanup nodes that are not a multiple of a node's size are rounded down; sizes
of the arena's structures are those of a 64-bit platform. A zone visitor is modelled as listing the
creatures first and visiting them afterwards, which is the same because no visitor changes a zone.

## Model

| member | source | states |
|---|---|---|
| `Handlers.PacketHandlers.ClientsShowTheRoom` | Server/GameServer/Room.cpp:185-268 | after any number of requests on any connections, each in-room client shows itself and exactly the creatures within the view radius of its server position, at their server positions; a player's client outside the room shows nothing; a player is in the room exactly when its state is InGame |
| `Handlers.PacketHandlers.StrangersShowNothing` | Client/Assets/@Scripts/Managers/Contents/ObjectManager.cs:145-152 | a connection without a logged-in player shows nothing |
| `Handlers.PacketHandlers.ZonesHoldTheirCreatures` | Server/GameServer/Zone.cpp:16-53 | in every reachable state a zone's tables hold exactly the creatures, and the players, that stand in its piece of the world, by coordinates |
| `Handlers.PacketHandlers.PlayersStandFree` | Server/GameServer/Room.cpp:404-453 | if the spawn point is free for radius 0.35 (inside the map, no wall in the square), every in-room player stands free in every reachable state |
| `Handlers.PacketHandlers.HitPointsAddUp` | Server/GameServer/CreatureStat.cpp:43-56 | a monster's hit points plus the damage dealt to it are what it was loaded with, and no request has killed a monster that is in the room |
| `Handlers.PacketHandlers.WornByHits` | Server/GameServer/Creature.cpp:27-58 | a monster of the running server has lost the damage of one attack for each hit on it, and has left the room exactly if its hits make up all it was loaded with |
| `Handlers.PacketHandlers.StrikesAreRare` | Server/GameServer/ClientPacketHandler.cpp:133-137 | if the clock has not run backwards, a player of the running server has landed at most T/cooldown + 1 attacks in any window of length T |
| `Handlers.PacketHandlers.NobodyOutruns` | Server/GameServer/MoveValidation.h:5-18 | a player that has been in the room since some request is no further from where it was then than 0.5 * moveSpeed + 0.35 for each of its moves since (moveSpeed not negative), whatever its client sent |
| `Handlers.PacketHandlers.NobodyOutrunsTheClock` | Server/GameServer/Room.cpp:410-421 | a player of the running server that has moved in time, without entering again, is no further from where it was than moveSpeed times the time between its moves, and 0.35 for each |
| `Handlers.PacketHandlers.NothingSentInVain` | Server/GameServer/Room.cpp:185-268 | no player's connection has ever been sent a spawn of what its client shows, or a despawn, death, position or attack of what it does not show |
| `Handlers.PacketHandlers.DeathsAreAnnouncedOnce` | Server/GameServer/RoomManager.cpp:110-122 | on the wire: each logged-in client has been sent the death of a monster exactly as often as it was killed in the client's view since its login, which is at most once; no client has been sent the death of a creature that is in the room or does not exist yet |
| `Handlers.PacketHandlers.StrangersHearNoDeaths` | Server/GameServer/RoomManager.cpp:110-122 | a connection without a player has never been sent a death |
| `Handlers.PacketHandlers.TableHoldsTheLiving` | Server/GameServer/CreatureManager.cpp:7-34 | a monster in the creature table has not died, is in the room, and is alive if every monster was loaded alive |
| `Handlers.PacketHandlers.TablesAgree` | Server/GameServer/PlayerManager.cpp:133-152 | in every reachable state the creature table holds exactly the logged-in players and the room's creatures, and the name, object and connection tables lead to the same player |
| `Handlers.PacketHandlers.HandleLogin` | Server/GameServer/ClientPacketHandler.cpp:20-31 | one answer, which says whether a fresh player was registered or the name was empty or taken; everything stays in order exactly when it is not a second login on a connection that has a player, and is then the Login step, a refusal told to the connection's player, or no step |
| `Handlers.PacketHandlers.HandleEnterGame` | Server/GameServer/ClientPacketHandler.cpp:33-48 | one step of the game machine for the connection's player, Enter or, without a map, the refusal; without a player only the refusal is sent; connections stay open |
| `Handlers.PacketHandlers.HandleLeaveGame` | Server/GameServer/ClientPacketHandler.cpp:50-70 | one Leave step, or only the refusal; connections stay open |
| `Handlers.PacketHandlers.HandleMove` | Server/GameServer/ClientPacketHandler.cpp:72-117 | one Move step for a player in game, otherwise nothing, and nothing is sent |
| `Handlers.PacketHandlers.HandleAttack` | Server/GameServer/ClientPacketHandler.cpp:119-201 | one Attack step for a player in game, otherwise nothing, and nothing is sent |
| `Handlers.PacketHandlers.OnDisconnected` | Server/GameServer/GameSession.cpp:27-32 | a disconnect logs the connection's player out and closes that connection and no other |
| `Handlers.PacketHandlers.OnConnected` | Server/GameServer/GameSession.cpp:22-25 | the new connection is open, nothing has been sent on it, and the game is as it was |
| `Handlers.PacketHandlers.FoundIt` | Server/GameServer/PlayerManager.cpp:92-102 | the connection table leads exactly to the logged-in player of the connection, who is in game exactly when it is in the room, at the position the game machine has for it |
| `Dispatch.RunServer` | Server/GameServer/GameSession.cpp:22-51 | from start-up with the given room data, map, stats and monsters, any sequence of requests on any connections is served and leaves everything in order, up to a second login on a connection that has a player; each request was exactly the step that the connection, the registry and the game called for at its turn, and the registry and the open connections are what the requests make of them |
| `Dispatch.ServeOne` | Server/GameServer/ClientPacketHandler.cpp:20-201 | one request of any kind on any connection: which step of the game it is, if any, the registry and the open connections afterwards, and what a connection without a player is answered |
| `Server.GameServer.EnterGame` | Server/GameServer/RoomManager.cpp:32-70 | with a loaded map, entering (or entering again) is the Enter step: every other player in view is sent one spawn, nobody else anything, and the player its list, once each; without one there is no room, and the player is sent the refusal and nobody anything else |
| `Server.GameServer.EnterAs` | Server/GameServer/RoomManager.cpp:32-70 | ... and keeps the registry, the zones, the tables and the pictures in order, refused or not |
| `Server.GameServer.LeaveGame` | Server/GameServer/RoomManager.cpp:72-97 | a player in the room is taken off every client that sees it and out of the room; one outside changes nothing |
| `Server.GameServer.LeaveAs` | Server/GameServer/ClientPacketHandler.cpp:61-69 | leaving with its answer is the Leave step, which clears the leaver's own client |
| `Server.GameServer.MovePlayer` | Server/GameServer/ClientPacketHandler.cpp:86-116 | the handler's validation, zone change, spawns, despawns and notices are the Move step with the validated position |
| `Server.GameServer.StrikeFirst` | Server/GameServer/ClientPacketHandler.cpp:146-174 | the monster hit was alive and in range and is left with its hit points less the damage, but not less than 0; no other is touched; none is hit only if none was alive and in range |
| `Server.GameServer.AttackAs` | Server/GameServer/ClientPacketHandler.cpp:133-198 | cooldown, hit, announcement with attacker, monster hit and its hit points left, death and removal are the Attack step on an admissible target |
| `Server.GameServer.Bury` | Server/GameServer/RoomManager.cpp:110-122 | one death packet to every player in view and none to anybody else, and the monster leaves the room, the zones and the creature table |
| `Server.GameServer.LoginAs` | Server/GameServer/PlayerManager.cpp:10-38 | a login is the Login step, a refusal or no step, with one answer on the connection; the server's objects stay in order exactly unless the connection already has a player |
| `Server.GameServer.LogoutAs` | Server/GameServer/PlayerManager.cpp:40-61 | a logout is the Logout step: the player leaves the room, the creature table and all three registry tables |
| `Server.GameServer.InitDefaultRoom` | Server/GameServer/RoomManager.cpp:159-179 | with a loaded map the room starts with one monster for each loaded entry, numbered in order, with the loaded position and hit points |
| `Server.LoadedMonsters` | Server/GameServer/Monster.cpp:5-27 | the monsters at start-up: numbers 1 to the number of entries, each with its entry's position and hit points |
| `Server.GameServer.SpawnMonster` | Server/GameServer/CreatureManager.cpp:57-72 | one more monster under a fresh id, in the room, its zone and the creature table |
| `Server.GameServer.Announce` | Server/GameServer/Room.cpp:397-402 | a broadcast puts the packet once on the connection of each logged-in player in the room that sees the position, and nothing on any other |
| `World.StepKeepsSynced` | Server/GameServer/Room.cpp:185-268 | every request keeps every client's picture equal to what it should show |
| `World.EnterKeepsSynced` | Server/GameServer/RoomManager.cpp:46-68 | entering keeps all pictures exact |
| `World.LeaveKeepsSynced` | Server/GameServer/RoomManager.cpp:84-96 | leaving keeps all pictures exact |
| `World.MoveKeepsSynced` | Server/GameServer/Room.cpp:336-350 | moving keeps the mover's and everybody else's picture exact |
| `World.AttackKeepsSynced` | Server/GameServer/ClientPacketHandler.cpp:192-198 | attacks and deaths keep all pictures exact |
| `World.OwnKeepsSynced` | Server/GameServer/Room.cpp:215-259 | the mover's spawns and despawns turn the old view into the new one |
| `World.OtherKeepsSynced` | Server/GameServer/Room.cpp:185-213 | another player's single spawn, despawn or notice turns its old view into the new one |
| `World.MovedInSteps` | Server/GameServer/ClientPacketHandler.cpp:91-115 | the handler's order of tick, synchronisation, own notice and broadcast has the effect of one step |
| `World.SpawnListShows` | Server/GameServer/Room.cpp:352-395 | the list for an entering player shows exactly the player and the creatures in view, whatever the order of the tables |
| `World.SpawnListOnce` | Server/GameServer/Room.cpp:352-395 | it names no object twice |
| `World.StepKeepsMonstersAlive` | Server/GameServer/Creature.cpp:27-40 | a step leaves no monster without hit points in the room, and cannot bring one to life or remove one that was loaded with none |
| `World.StepKeepsFreeTiles` | Server/GameServer/MapCollision.cpp:112-144 | no step moves a player onto a blocked square |
| `Sending.EntrantIsSent` | Server/GameServer/RoomManager.cpp:46-68 | an entering player is answered once, with its own id and a list of exactly itself and what it sees, nobody twice |
| `Sending.EntryIsSent` | Server/GameServer/RoomManager.cpp:46-68 | those who see the spawn point are sent one spawn of a player that was not in the room, and nobody else anything |
| `Sending.LeaveSends` | Server/GameServer/RoomManager.cpp:72-97 | whoever leaves or logs out is taken off each client that sees it by one packet; a leaver is answered |
| `Sending.MoverIsSent` | Server/GameServer/Room.cpp:215-259 | a mover is sent exactly one spawn for each creature it comes to see, one despawn for each it loses from view, nothing else about others, and its position once |
| `Sending.WatcherIsSent` | Server/GameServer/Room.cpp:185-213 | another player is sent one spawn, one despawn or neither, and the new position once if it sees it |
| `Sending.RunIsThrifty` | Server/GameServer/Room.cpp:185-268 | in every run no client is sent a spawn of what it shows, or a despawn, death, position or attack of what it does not |
| `Runs.RunKeepsInvariant` | Server/GameServer/Room.cpp:185-268 | in every state of every run: fresh ids, exact pictures, no negative hit points, players on free tiles |
| `Runs.RunConservesHp` | Server/GameServer/Creature.cpp:27-58 | over every run: hit points left plus damage dealt are the initial hit points, and a monster has been killed exactly once if it is gone and never before |
| `Combat.AttackMeaning` | Server/GameServer/ClientPacketHandler.cpp:133-198 | an attack on cooldown does nothing; any other hits a monster that is alive, in view and within attackRange, if there is one, leaves it hp - attackDamage or removes it at 0, and changes nobody else |
| `Combat.AttackSends` | Server/GameServer/ClientPacketHandler.cpp:176-198 | what each client is sent, in order: the attacker, the monster hit and what is left of it, to those who see the attacker, and the death to those who see the dead monster |
| `Combat.RunWears` | Server/GameServer/Creature.cpp:27-58 | in every run: a monster loaded with H points and hit k times has max(0, H - k * attackDamage) left, and is gone exactly if that is 0 and H was not |
| `Combat.DiesAtLastHit` | Server/GameServer/Creature.cpp:27-58 | it dies with exactly its ceil(H / attackDamage)-th hit and is never hit again |
| `Runs.StepAnnounces` | Server/GameServer/ClientPacketHandler.cpp:192-198 | a request sends a client one S_C_DIE for a monster if it kills the monster in the client's view, and none otherwise |
| `Runs.RunAnnouncesDeaths` | Server/GameServer/RoomManager.cpp:110-122 | over every run: the S_C_DIE packets of a monster on a client's connection are as many as its kills in view since the login, at most one, and it has left the room for good |
| `Runs.RunKeepsMonstersAlive` | Server/GameServer/Monster.cpp:5-27 | in every run all monsters in the room are alive exactly if all were loaded with hit points |
| `Runs.AttackRate` | Server/GameServer/ClientPacketHandler.cpp:133-137 | with a monotone clock, a player lands at most T/cooldown + 1 attacks in any window of length T |
| `Combat.ServedExactly` | Server/GameServer/ClientPacketHandler.cpp:133-137 | an attack is served exactly when at least the cooldown has passed since the last one that was |
| `Combat.FirstServedExactly` | Server/GameServer/ClientPacketHandler.cpp:133-137 | the first attack after a login is served exactly when the clock has reached the cooldown |
| `Runs.RunKeepsToSpeed` | Server/GameServer/Room.cpp:404-453 | over any stretch of any run that a creature spends in the room, it gets no further than 0.5 * moveSpeed + 0.35 for each of its own moves in that stretch, and other requests do not move it |
| `Pace.NextMoveIsValidated` | Server/GameServer/Room.cpp:410-421 | in every run the second of two moves of a player is validated with the ticks of both |
| `Pace.ClampedMoveIsKept` | Client/Assets/@Scripts/Controllers/Creatures/MyPlayerObject.cs:274-301 | in every run: of two moves at least 300 ms apart the server keeps the second as it is if the client has clamped it |
| `Pace.RunKeepsPace` | Server/GameServer/Room.cpp:404-453 | in every run: a player that moves in time and does not enter again gets no further than moveSpeed times the time between its moves, and 0.35 for each |
| `Rooms.Room.CanSee` | Server/GameServer/Room.cpp:94-108 | the two-stage visibility test is the plain disc test for all points |
| `Rooms.Room.IndexIsExact` | Server/GameServer/Zone.cpp:16-53 | each zone holds exactly the creatures standing in its piece of the world, by coordinates, and its player table exactly the players among them |
| `Rooms.Room.CollectSessionsWhoCanSee` | Server/GameServer/Room.cpp:110-132 | one entry, with its connection, for exactly each player that sees a point and is not on the excluded connection, also where players share one |
| `Rooms.Room.SendToSessions` | Server/GameServer/Room.cpp:134-144 | as many copies on a connection as the list has entries for it |
| `Rooms.Room.BroadcastToView` | Server/GameServer/Room.cpp:397-402 | one copy for each player that sees a point; where players have connections of their own, exactly their connections get it, once |
| `Rooms.Room.SyncOtherPlayersViewOfMover` | Server/GameServer/Room.cpp:185-213 | every other player's connection is sent a spawn, a despawn or nothing for that player, according to what it could and can see, in the order of the table where players share one |
| `Rooms.Room.SyncMoverViewOfEntities` | Server/GameServer/Room.cpp:215-259 | the mover's connection is sent one spawn for each creature that came into view and one despawn for each that went out of view, in the order of the visits, which miss none |
| `Rooms.Room.MonstersInView` | Server/GameServer/Room.h:44-69 | each registered monster within the view radius exactly once, and no other |
| `Rooms.Room.FillEnterGameSpawns` | Server/GameServer/Room.cpp:382-395 | the spawn list shows the player and exactly the creatures it sees |
| `Rooms.Room.EnterPlayer` | Server/GameServer/Room.cpp:279-315 | a new player appears at the spawn point in all tables and its zone; one already there stays as it is; one without a connection and a second object under an id of the table are refused without effect |
| `Rooms.Room.LeavePlayer` | Server/GameServer/Room.cpp:317-334 | the player leaves the room's table and its zone, nothing is erased for one that is not in the room, and the index stays exact |
| `Rooms.Room.OnPlayerMoved` | Server/GameServer/Room.cpp:336-350 | zone membership follows a changed position; every connection is sent what each of its players gains or loses as a watcher, in the order of the table, and then, if it is the mover's, what the mover gains or loses, also where players share connections or have none; where each has its own, nobody else is sent anything |
| `Rooms.Room.RegisterCreature` | Server/GameServer/Room.cpp:464-476 | any creature is entered in the zone whose piece of the world it stands in and in no other; for a new monster the index stays exact |
| `Rooms.Room.UnregisterCreature` | Server/GameServer/Room.cpp:478-490 | a creature leaves the zone it has recorded, or none if it has recorded none; for a registered monster the index stays exact |
| `Rooms.Creature.TakeDamage` | Server/GameServer/Creature.cpp:27-58 | the answer is what was really lost; a creature dies exactly when its hit points reach 0 |
| `Rooms.Creature.Monster` | Server/GameServer/Monster.cpp:5-27 | a loaded maximum of 0 or more is stored as it is, a negative one as 1 |
| `Rooms.AddKeepsExact` | Server/GameServer/Zone.cpp:33-46 | entering a creature in one zone, and a player in its player table too, keeps every zone table exact |
| `Rooms.RefileKeepsExact` | Server/GameServer/Room.cpp:342-347 | leaving the recorded zone and entering another keeps every zone table exact |
| `Zones.CanSeeIsDisc` | Server/GameServer/Room.cpp:94-108 | the zone test never rejects a point of the viewing disc, on the grid or off it |
| `Zones.VisibleZonesExact` | Server/GameServer/Room.cpp:68-92 | the listed zones are exactly those of the clamped rectangle, valid, once each, in index order |
| `Zones.ZoneOfPosition` | Server/GameServer/Room.cpp:38-47 | from coordinates: zone i is the zone of a position exactly when it lies in the i-th rectangle of the grid, the outer rectangles being open to the outside |
| `Zones.VisibleZonesMeetSquare` | Server/GameServer/Room.cpp:68-92 | a zone is listed exactly when its piece of the world meets the square around the viewer |
| `Zones.CollectVisibleZoneIndices` | Server/GameServer/Room.cpp:68-92 | the two loops list, once each and in index order, exactly the zones whose piece of the world meets the square of half-width viewRadius around the viewer |
| `Zones.IndexRoundTrip` | Server/GameServer/Room.cpp:38-53 | column and row of a zone's number are those it was made from |
| `Zones.IndexDecodes` | Server/GameServer/Room.cpp:49-58 | every valid number is the number of the column and row it decodes to |
| `Zones.FromRoomData` | Server/GameServer/Room.cpp:13-36 | the layout is always usable: usable data are kept, each unusable count becomes 1, an unusable cell size 10, and an unusable view radius 0.45 cells, so that the disc is narrower than a cell |
| `Client.ObjectManager.Handle` | Client/Assets/@Scripts/Packet/PacketHandler.cs:21-110 | the client's dictionary changes exactly as the packet says |
| `Client.ObjectManager.SpawnEntries` | Client/Assets/@Scripts/Managers/Contents/ObjectManager.cs:29-36 | spawning a list adds every entry that is not shown yet |
| `Client.SpawnAllPointwise` | Client/Assets/@Scripts/Managers/Contents/ObjectManager.cs:70-104 | what is shown already keeps its position, and only what the list names is added |
| `Client.SpawnAllMerges` | Client/Assets/@Scripts/Managers/Contents/ObjectManager.cs:29-76 | a spawn list in any order keeps what is shown and adds exactly the rest |
| `Registry.ServeOneToOne` | Server/GameServer/PlayerManager.cpp:133-170 | one request leaves the three tables in bijection exactly when they were and it is no second login on a bound connection |
| `Registry.RunOneToOne` | Server/GameServer/PlayerManager.cpp:10-61 | in every run the tables are in bijection exactly as long as no connection has logged in again before logging out |
| `Registry.StrandedPlayerStays` | Server/GameServer/PlayerManager.cpp:40-61 | after such a login the first player can never be logged out, and its name stays taken, in every continuation |
| `SharedConnection.StrandedCreatureStays` | Server/GameServer/PlayerManager.cpp:40-61 | the creature of such a player stays in the room, where it was, in every continuation, and every other player's packets add up to a picture that shows it exactly when it is in view |
| `SharedConnection.SecondLoginStrands` | Server/GameServer/PlayerManager.cpp:147-149 | a second login on a connection makes its first player unreachable |
| `SharedConnection.MoveShared` | Server/GameServer/ClientPacketHandler.cpp:91-115 | when one of any number of players on a connection moves: a connection that showed what the mover should see still does exactly when its watchers' packets leave the mover on the screen; one that showed what another of its players should see still does exactly when that player sees whatever comes into the mover's view and nothing that leaves it, and the mover is left on the screen exactly if the player sees it; what leaves the mover's view is not shown, whatever was shown before, nor is the mover if another player of the connection loses it and none gains it |
| `SharedConnection.MoverShownExactly` | Server/GameServer/Room.cpp:185-268 | the first of these conditions, for all rooms, logs and visiting orders |
| `SharedConnection.OtherShownExactly` | Server/GameServer/Room.cpp:185-268 | the second, likewise |
| `SharedConnection.WatchersDecide` | Server/GameServer/Room.cpp:185-213 | the mover is left on the screen if no other player of the connection loses it, and taken off if one does and none gains it |
| `SharedConnection.OneCompanionDecides` | Server/GameServer/Room.cpp:185-213 | with two players on the connection: the mover is left on the screen exactly if the other does not lose it from view, and is then shown exactly as the other should see it |
| `SharedConnection.ConnectionShows` | Server/GameServer/Room.cpp:185-268 | what any connection shows after a move, object by object, whatever it showed before |
| `Registry.After` | Server/GameServer/PlayerManager.cpp:133-170 | in every run the name and object tables agree, and a connection entry points at a registered player of that connection |
| `Registry.PlayerManager.Login` | Server/GameServer/PlayerManager.cpp:10-38 | a fresh player in all three tables, or nothing for an empty or taken name |
| `Registry.PlayerManager.Unregister` | Server/GameServer/PlayerManager.cpp:154-170 | a registered player leaves the name and id tables with the entry of its connection, even one that leads to another player, and has no connection |
| `Registry.PlayerManager.GenerateId` | Server/GameServer/ObjectIdGenerator.cpp:4-9 | the id differs from every id handed out before |
| `Movement.Validate` | Server/GameServer/Room.cpp:404-453 | the answer is the position that the ticks and coordinates call for: the seconds credited, the target they allow, and where the map lets it land |
| `Movement.ValidateMeaning` | Server/GameServer/Room.cpp:404-453 | the seconds are the time since the last move, at most 0.5, or 0.15 for a first move or one without any time since; a target within moveSpeed * seconds + 0.35 is taken, one within two and a half times that is pulled back to it, one beyond is refused; and it lands as ResolveMoveMeaning says |
| `Movement.HonestMoveIsKept` | Server/GameServer/Room.cpp:410-421 | over ticks: a free position within moveSpeed * (now - last) / 1000 + 0.35 is answered with itself up to 500 ms after the last move; later than that the bound is that of 500 ms, and for a first move or one without any time since the last it is that of 150 ms |
| `Movement.MoveWithinDistance` | Server/GameServer/Room.cpp:414-452 | an accepted move ends within moveSpeed * delta + 0.35 of the previous server position, for any client input |
| `Movement.ClampMeaning` | Server/GameServer/Room.cpp:430-450 | a client position within the credited distance is taken, one beyond it is pulled back to the point of the line at exactly that distance, one beyond two and a half times it is refused |
| `Movement.TeleportIsRejected` | Server/GameServer/Room.cpp:437-442 | a client position beyond two and a half times the credited distance leaves the player where it is, whatever the map |
| `Movement.RunDisplacement` | Server/GameServer/MoveValidation.h:5-18 | n moves displace a player by at most n * (0.5 * moveSpeed + 0.35) |
| `Movement.RunStaysWalkable` | Server/GameServer/MapCollision.cpp:112-144 | if the first position of a run of moves is free, every position is |
| `Movement.ServerKeepsClampedPosition` | Client/Assets/@Scripts/Controllers/Creatures/MyPlayerObject.cs:274-301 | a position passed through the client's clamp is returned unchanged by the server when it credits at least 0.3 s, or the player cannot move at all |
| `Movement.ClampedPositionIsNoTeleport` | Client/Assets/@Scripts/Controllers/Creatures/MyPlayerObject.cs:274-301 | such a position is never taken for a teleport when at least 0.12 s are credited |
| `Movement.ShortCreditDisagrees` | Server/GameServer/Room.cpp:414-421 | with any shorter credit than 0.3 s and a positive speed, some clamped position is changed; a first move after entering is such a case |
| `Movement.SidesAgreeExactly` | Client/Assets/@Scripts/Controllers/Creatures/MyPlayerObject.cs:274-301 | client and server agree on every clamped position, on every map, exactly when at least 0.3 s are credited or the speed is 0 |
| `Movement.SidesAgreeOverTicks` | Server/GameServer/Room.cpp:414-421 | in ticks: the server keeps every clamped position exactly when it has taken a move at least 300 ms before, or the player cannot move |
| `Movement.NeverTeleportExactly` | Server/GameServer/Room.cpp:437-442 | for each speed and credit: no clamped position is refused as a teleport exactly when moveSpeed * 0.3 + 0.35 is at most two and a half times the credited distance |
| `Movement.NoSpeedTeleportsExactly` | Server/GameServer/Room.cpp:437-442 | for all speeds at once exactly from 0.12 s on |
| `Movement.KeepsPaceExactly` | Server/GameServer/Room.cpp:414-421 | whatever the client sends, a move stays within moveSpeed times the time since the last one, plus 0.35, exactly if it comes some time after an earlier one, or 150 ms after tick 0, or the player cannot move; two moves in one millisecond are both credited 0.15 s |
| `Movement.ClampSend` | Client/Assets/@Scripts/Controllers/Creatures/MyPlayerObject.cs:274-301 | the client's clamp, with its guards for an unknown server position and a missing map: it aims at a position within moveSpeed * 0.3 + 0.35 as it is, at a farther one by the point of the line at exactly that distance, and sends where the map lets that land |
| `Movement.ClampClientMeaning` | Client/Assets/@Scripts/Controllers/Creatures/MyPlayerObject.cs:279-294 | a near position is kept, a far one lies on the segment at exactly moveSpeed * 0.3 + 0.35 |
| `MapCollisions.WalkableWithRadiusMeaning` | Server/GameServer/MapCollision.cpp:71-110 | exactly when the tile loop succeeds, on every loaded map: the border test and every point of the square inside the map walkable |
| `MapCollisions.WalkableIsOpen` | Server/GameServer/MapCollision.cpp:41-69 | from coordinates: a point is walkable exactly when some tile of the map covers it and that tile's flag is clear |
| `MapCollisions.WalkableIsFree` | Server/GameServer/MapCollision.cpp:71-110 | from coordinates: exactly when the square lies inside the map (on a map too narrow for it, its centre is open) and no wall tile reaches into it |
| `MapCollisions.WalkableWithRadiusOnWideMap` | Server/GameServer/MapCollision.cpp:26-110 | on a map as wide and high as the square: the square lies in the closed map and its points in the half-open map are walkable |
| `MapCollisions.NarrowMapAcceptsOverhang` | Server/GameServer/MapCollision.cpp:33-36 | on a narrower map the check accepts squares that stick out |
| `MapCollisions.TilesDecideSquare` | Server/GameServer/MapCollision.cpp:86-109 | finitely many tiles decide the question about all points of the square |
| `MapCollisions.ResolveMoveKeepsWalkable` | Server/GameServer/MapCollision.cpp:112-144 | a resolved move from a free position ends on a free position |
| `MapCollisions.ResolveMoveIdempotent` | Client/Assets/@Scripts/Data/MapCollision.cs:82-97 | what one side has resolved, the other side's resolution leaves alone |
| `MapCollisions.ResolveMoveNoFurther` | Server/GameServer/MapCollision.cpp:112-144 | sliding along an axis never moves further than asked |
| `MapCollisions.ResolveMoveMeaning` | Server/GameServer/MapCollision.cpp:112-144 | the target if it is free, else the slide along x if that is free, else the slide along y if that is free, else no move; with free as coordinates say |
| `MapCollisions.MapCollision.FromData` | Server/GameServer/MapCollision.cpp:7-24 | exactly the cells marked 0 are blocked; a world point is open exactly when the cell of the text it stands on, read row by row from the origin, is not marked or missing; an unusable tile size becomes 1 |
| `MapCollisions.MapCollision.IsWalkableWithRadius` | Client/Assets/@Scripts/Data/MapCollision.cs:41-80 | the loop over tiles decides the specification and, from coordinates, whether the square is free |
| `MapCollisions.MapCollision.ResolveMove` | Server/GameServer/MapCollision.cpp:112-144 | the four attempts in their order, by what is free from coordinates |
| `Stream.ChunksDoNotMatter` | Client/Assets/@Scripts/Packet/ServerCore/Session.cs:16-42 | for every way of cutting a stream into received pieces, delivered packets and kept bytes are those of parsing it at once |
| `Stream.ParseConserves` | Client/Assets/@Scripts/Packet/ServerCore/Session.cs:16-42 | delivered bytes followed by kept bytes are the received bytes; every packet has the length its header says |
| `Stream.ParseUnique` | Client/Assets/@Scripts/Packet/ServerCore/Session.cs:16-42 | there is only one way to cut a stream into such packets and a rest |
| `Stream.ParseSplit` | Client/Assets/@Scripts/Packet/ServerCore/Session.cs:224-232 | parsing in two steps, keeping the rest in between, is parsing at once |
| `Stream.RestFits` | Client/Assets/@Scripts/Packet/ServerCore/Session.cs:52 | what is kept is shorter than the receive buffer unless its header is 0 or 1 |
| `Stream.ParkedForever` | Client/Assets/@Scripts/Packet/ServerCore/Session.cs:31-32 | a stream never delivers anything again, whatever follows, exactly when what is left of it begins with a size of 0 or 1 |
| `Stream.ReceiveSession.OnRecv` | Client/Assets/@Scripts/Packet/ServerCore/Session.cs:16-42 | the loop delivers exactly the packets of the segment and answers how many bytes it used |
| `Stream.ReceiveSession.OnRecvCompleted` | Client/Assets/@Scripts/Packet/ServerCore/Session.cs:210-249 | whatever arrives in whatever pieces, delivered and kept bytes are those of one parse of everything received; the next receive has the whole buffer less the kept bytes, and none only if the stream is parked |
| `Stream.ReceiveSession.RegisterRecv` | Client/Assets/@Scripts/Packet/ServerCore/Session.cs:189-208 | the whole buffer except the kept bytes is posted |
| `Stream.RecvBuffer.Clean` | Client/Assets/@Scripts/Packet/ServerCore/RecvBuffer.cs:32-47 | the overlapping copy keeps the waiting bytes and frees everything behind them |
| `Stream.RecvBuffer.OnRead` | Client/Assets/@Scripts/Packet/ServerCore/RecvBuffer.cs:49-56 | read bytes leave the front; more than there are is refused without effect |
| `Stream.RecvBuffer.OnWrite` | Client/Assets/@Scripts/Packet/ServerCore/RecvBuffer.cs:58-65 | written bytes join the end; more than fit is refused without effect |
| `Framing.MessagesRoundTrip` | Server/Common/Protobuf/bin/Templates/PacketHandler.cs:43-60 | messages framed, joined, cut anywhere and received are the same messages in the same order, with nothing left |
| `Framing.FrameIsPacket` | Server/Common/Protobuf/bin/Templates/PacketHandler.h:55-69 | a frame is one packet, and unframing gives back id and payload |
| `Framing.FrameLayout` | Server/Common/Protobuf/bin/Templates/PacketHandler.h:55-69 | the bytes of a frame: size and id, low byte first, then the payload; the same on both sides up to 65531 bytes |
| `Framing.MakeSendBuffer` | Server/Common/Protobuf/bin/Templates/PacketHandler.h:55-69 | the buffer holds the frame, and exists exactly for payloads of up to 5996 bytes; payloads of 65532 to 65535 bytes, and no others, are written past the chunk; all others fail an ASSERT_CRASH |
| `Framing.ClientSendBuffer` | Client/Assets/@Scripts/Packet/ServerSession.cs:9-18 | the client's frame, with both lengths cut to 16 bits |
| `Framing.ClientMessagesArrive` | Client/Assets/@Scripts/Packet/ServerSession.cs:9-18 | any number of client messages, joined and cut anywhere, arrive at the server's loop as themselves, in order, and nothing else does, exactly when every payload has at most 65531 bytes; the loop then ends on every piece |
| `Framing.ClientFrameFate` | Client/Assets/@Scripts/Packet/ServerSession.cs:9-18 | (with Session.cpp:325-347) what the server's loop makes of the frame of any client message, whatever follows: one packet with what the 16-bit cut leaves of the payload; for a remainder of 65532 bytes a loop that never ends; for 65533 to 65535 a packet of 1 to 3 bytes, and the loop goes on inside the frame |
| `SendQueue.SendSession.Send` | Client/Assets/@Scripts/Packet/ServerCore/Session.cs:86-109 | a batch starts exactly when none is pending; batches and queue always make up what was queued, in order |
| `SendQueue.SendSession.RegisterSend` | Client/Assets/@Scripts/Packet/ServerCore/Session.cs:136-159 | the whole queue becomes the one batch in flight, synchronous completion and a throwing socket included |
| `SendQueue.SendSession.OnSendCompleted` | Client/Assets/@Scripts/Packet/ServerCore/Session.cs:161-187 | a reported batch is replaced by the whole queue as the next one, or the connection is closed |
| `SendQueue.SendSession.Disconnect` | Client/Assets/@Scripts/Packet/ServerCore/Session.cs:111-127 | after a disconnect what was handed over is still the beginning of what was queued |
| `ServerReceive.LoopEndsExactly` | Server/GameServer/GameSession.cpp:34-50 | (Session.cpp:325-347) the packet loop, round by round, ends exactly when no packet boundary it reaches with a whole header left carries size 0, and has then delivered and left what the parse says |
| `ServerReceive.HeaderBytes` | Server/GameServer/GameSession.cpp:34-50 | (Session.cpp:331-339) the guards of the loop in bytes: four bytes at least, the size in the first two, low byte first |
| `ServerReceive.ParseConserves` | Server/GameServer/GameSession.cpp:34-50 | (Session.cpp:325-347) delivered bytes followed by what is left are the received bytes, and no packet is empty |
| `ServerReceive.ParseSplit` | Server/GameServer/GameSession.cpp:34-50 | (Session.cpp:256-270) parsing in two steps, keeping the rest in between, is parsing at once |
| `ServerReceive.ChunksDoNotMatter` | Server/GameServer/GameSession.cpp:34-50 | (Session.cpp:242-274) for every way of cutting a stream into received pieces: the outcome is that of one parse, and the loop gets stuck on some piece exactly when the whole stream gets it stuck |
| `ServerReceive.SilentExactly` | Server/GameServer/GameSession.cpp:34-50 | (Session.cpp:331-339) a stream never delivers anything again exactly when what is left begins with size 0, and the loop is stuck exactly from four bytes of it on |
| `ServerReceive.RestFits` | Server/GameServer/GameSession.cpp:34-50 | (Session.cpp:325-347) a loop that is not stuck holds back less than the largest packet |
| `ServerReceive.Receiver.OnRecv` | Server/GameServer/GameSession.cpp:34-50 | (Session.cpp:325-347) the loop delivers exactly the packets of the segment and answers how many bytes it used, or never ends, exactly for the segments that the specification says |
| `ServerReceive.Receiver.ProcessRecv` | Server/ServerCore/RecvBuffer.h:7-30 | (Session.cpp:242-274) whatever arrives in whatever pieces, delivered and kept bytes are those of one parse of everything received, no overflow check ever fires, the next receive has 64 KiB, and the thread hangs exactly when the stream has size 0 at a packet boundary |
| `ServerReceive.RecvBuffer.Clean` | Server/ServerCore/RecvBuffer.h:7-30 | (RecvBuffer.cpp:14-33) the copy keeps the waiting bytes and makes room for a receive; its regions do not overlap |
| `PriorityQueues.PriorityQueue.Push` | Client/Assets/@Scripts/Utils/PriorityQueue.cs:9-31 | heap order and elements, for any total preorder |
| `PriorityQueues.PriorityQueue.Pop` | Client/Assets/@Scripts/Utils/PriorityQueue.cs:34-73 | a maximum is removed and answered, or none from an empty heap; heap order is kept |
| `PriorityQueues.PriorityQueue.SiftDown` | Client/Assets/@Scripts/Utils/PriorityQueue.cs:45-70 | the loop restores heap order below the root and keeps the elements |
| `PriorityQueues.PushAllPopAll` | Client/Assets/@Scripts/Utils/PriorityQueue.cs:9-73 | everything pushed and then popped comes out in descending order |
| `PriorityQueues.RootIsMaximum` | Client/Assets/@Scripts/Utils/PriorityQueue.cs:36-37 | the root is at least every element |
| `PriorityQueues.SwapUp` | Client/Assets/@Scripts/Utils/PriorityQueue.cs:19-29 | one swap of Push moves the only disorder up |
| `PriorityQueues.SwapDown` | Client/Assets/@Scripts/Utils/PriorityQueue.cs:52-69 | one swap of Pop moves the only disorder down |
| `SymbolIndex.NeighboursDecide` | Server/Libraries/Include/google/protobuf/descriptor_database.cc:208-240 | exactly when the two-neighbour check accepts a legal name: no key anywhere conflicts, or the name sorts below every key and only the first is its child |
| `SymbolIndex.AddIsExactUnlessBelowAll` | Server/Libraries/Include/google/protobuf/descriptor_database.cc:196-250 | on an empty map, or when some key is not above the name, the check is exact |
| `SymbolIndex.SkippedChildBreaksLookup` | Server/Libraries/Include/google/protobuf/descriptor_database.cc:231-234 | the exception is real: "a" is accepted after "a.b", and "a.c" is then not found |
| `SymbolIndex.InsertKeepsNoParents` | Server/Libraries/Include/google/protobuf/descriptor_database.cc:244-247 | an inserted name keeps the no-parent invariant exactly when it conflicted with nothing |
| `SymbolIndex.LookupIsExact` | Server/Libraries/Include/google/protobuf/descriptor_database.cc:298-305 | for every string, the one inspected key decides whether any key equals or is a parent of it, and only that key can be |
| `SymbolIndex.DescriptorIndex.AddSymbol` | Server/Libraries/Include/google/protobuf/descriptor_database.cc:196-250 | an accepted name is filed in its place, a refused one changes nothing; exactly when it is accepted and when the invariant survives |
| `SymbolIndex.DescriptorIndex.FindSymbol` | Server/Libraries/Include/google/protobuf/descriptor_database.cc:298-305 | the value of the key that equals or is a parent of the name; the default exactly when there is none |
| `SymbolIndex.FindLastLessOrEqual` | Server/Libraries/Include/google/protobuf/descriptor_database.cc:167-173 | the last key not above the name, or the first key |
| `Symbols.BetweenIsSubSymbol` | Server/Libraries/Include/google/protobuf/descriptor_database.cc:187-191 | a legal name between a name and its descendant is that name or a descendant, because '.' sorts first |
| `Symbols.SubSymbolMeaning` | Server/Libraries/Include/google/protobuf/descriptor_database.cc:184-191 | a name is a parent of exactly what continues it behind a dot |
| `Symbols.BelowMeaning` | Server/Libraries/Include/google/protobuf/descriptor_database.cc:196-205 | names are ordered by their first difference, a proper beginning first |
| `Symbols.ValidateSymbolName` | Server/Libraries/Include/google/protobuf/descriptor_database.cc:153-162 | the loop accepts exactly the names of letters, digits, underscores and dots |
| `SymbolOrder.ShortcutIsExact` | Server/Libraries/Include/google/protobuf/descriptor_database.cc:505-519 | the shortcut orders two keys as their full names, exactly except for an empty symbol in a package of the other's name |
| `SymbolOrder.LessIsStrictWeakOrder` | Server/Libraries/Include/google/protobuf/descriptor_database.cc:485-519 | with non-empty symbol names the comparator is a strict weak order whose equivalence is equality of full names |
| `SymbolOrder.EntryIsItsName` | Server/Libraries/Include/google/protobuf/descriptor_database.cc:481-519 | an entry is equivalent to exactly one name: package, dot and symbol, or the symbol alone without a package |
| `SymbolOrder.NamesAreOrdered` | Server/Libraries/Include/google/protobuf/descriptor_database.cc:505-519 | two names that are looked up are ordered as strings |
| `Arena.SerialArena.AllocateAligned` | Server/Libraries/Include/google/protobuf/arena_impl.h:151-163 | the piece is aligned to 8, inside its block, disjoint from every earlier piece and from all cleanup nodes |
| `Arena.SerialArena.AllocateAlignedWithCleanup` | Server/Libraries/Include/google/protobuf/arena_impl.h:179-192 | the same, and one more cleanup is registered |
| `Arena.SerialArena.AddCleanup` | Server/Libraries/Include/google/protobuf/arena_impl.h:194-199 | one more cleanup is registered, nothing is allocated |
| `Arena.SerialArena.AllocateNewBlock` | Server/Libraries/Include/google/protobuf/arena.cc:149-169 | the new block has room for the request; pieces, nodes and sums of the old blocks are kept |
| `Arena.SerialArena.SpaceUsed` | Server/Libraries/Include/google/protobuf/arena.cc:171-177 | the sum of the requested sizes |
| `Arena.SerialArena.CleanupList` | Server/Libraries/Include/google/protobuf/arena.cc:179-194 | every cleanup runs once in exact reverse order exactly when no later block of a size that is no multiple of 8 holds a single node; always so with aligned sizes |
| `Arena.SerialArena.RangesAvoidNodes` | Server/Libraries/Include/google/protobuf/arena_impl.h:179-192 | every piece lies below every cleanup node of its block |
| `Arena.RanIsReverse` | Server/Libraries/Include/google/protobuf/arena.cc:179-194 | what the walk over the blocks runs is the reverse of what was registered, exactly when no block is overlooked |
| `Arena.LoseCleanup` | Server/Libraries/Include/google/protobuf/arena.cc:164-166 | a cleanup in a block of 516 bytes is never run |
| `Arena.NextBlockSize` | Server/Libraries/Include/google/protobuf/arena.cc:53-68 | the next block fits the request, and is a multiple of 8 if the policy and the last block are |
| `Arena.NextBlockSizeExact` | Server/Libraries/Include/google/protobuf/arena.cc:53-68 | a request that fits gets twice the last block up to the limit, or the start size; one that does not gets just what it needs with the header |
| `Arena.AlignUpIsNextMultiple` | Server/Libraries/Include/google/protobuf/arena_impl.h:54-57 | the next multiple of 8 |

## Left out

- Threads, locks, JobQueue, JobTimer and GlobalQueue: each packet handler and each lock region is one atomic step.
- IEEE rounding, NaN, and overflow in conversions of float to int32; 32-bit overflow of ids and hit points.
- Sockets, IOCP, ODBC, JSON and file loading: loaded data and socket outcomes are parameters.
- Unity scenes, animation, interpolation, pooling, sound and UI. A dead object counts as removed when its packet arrives, not when its animation ends; a client whose map fails to load on entering is not modelled.
- What a client shows of an object beyond its presence and position: facing, state flags and hit points. S_C_ATTACK goes to those who see the attacker, so a client that sees only the target may show old hit points.
- Null-pointer guards and checks for non-positive ids, which the callers never trigger; rooms other than the default one; LogoutByPlayerId and UpdateSession; chat.
- The exchange of packets for events on the client's main thread (PacketQueue) and protobuf encoding: a payload is a sequence of bytes.
- Segments shorter than four bytes in the client's OnRecvPacket and the server's HandlePacket, where the id is read from whatever follows the segment: they unframe to nothing.
- The size of a spawn list: the answer to entering is sent whatever its length here, while a list of more than 5996 encoded bytes ends the server in one of the failures of `Framing.MakeSendBuffer`.
- SharedConnection.MoveShared: where one player of a connection loses the mover and another gains it, which of them comes last in the room's table decides; the order of the table is left open.
- The effect of a send callback that sends again: OnSend does nothing in the client.
- What a write past the end of a send buffer chunk does, and the four header bytes of a message of more than 131067 bytes that may be written past a nearly full chunk before its ASSERT_CRASH. SendBufferChunk's sharing of one chunk, and the sending half of the server's own Session.
- EncodedDescriptorDatabase apart from SymbolCompare (flat vectors, extensions, files), ThreadSafeArena, and freeing of blocks. size_t overflow, which GOOGLE_CHECK_LE excludes.
- Handlers.PacketHandlers.HandleLogin: after a second login on a bound connection only the registry and the answer are described here, because the game machine gives every player a connection of its own; the rest is in SharedConnection.dfy.
- SharedConnection.StrandedCreatureStays: an avatar's log is what the packets for that player add up to; it is its connection's log only while the player has the connection to itself.
- Easy members of the repository (buffer readers and writers, state flag helpers, stat components, LockQueue).
