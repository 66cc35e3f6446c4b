# Rock-Paper-Scissors duel server, modelled in Dafny

This project models the server side of a networked Rock-Paper-Scissors game built on
Unity and Mirror. Each connected player is an `RPSPlayer` object. It carries four battle
fields that only the server writes: `state`, `opponentNetId`, `myChoice` and
`isChallenger`. Clients send three commands:

- challenge a player by network id;
- answer a pending challenge;
- pick a move.

The server answers each command by updating the caller and the opponent it finds among
the spawned objects. It also sends each client targeted notifications. The
`RPSNetworkManager` keeps a table of players by connection. It can also search the
spawned players for an Idle one other than the caller.

The project is in three modules:

- `Duel` (duel.dfy) is the pure model.
  - The move and state enums, and `Compare` against an independent definition of "beats".
  - A `World` maps each spawned network id to a `PlayerRec`, a snapshot of that player's
    server-written fields.
  - Every server operation is a function from a world to a `Step`: the next world plus
    the notifications sent, in the order the code sends them.
  - On top of these sit a pairing invariant that every operation preserves, `Run` over
    whole sequences of events, selection and resolution lemmas, lemmas about
    disconnection, and a complete duel worked through step by step.
- `Players` (players.dfy) is the object model.
  - `RPSPlayer` is a class whose methods assign fields on `this` and on an opponent
    object, in the code's order and with its early returns.
  - `NetworkServer` stands in for Mirror's `NetworkServer.spawned`. It maps network ids to
    player objects and keeps the order a `foreach` visits them in. It also keeps a ghost
    log of the targeted notifications.
  - Every command method is proved to leave the spawned players exactly as the matching
    `Duel` function leaves the world (`Reflects`). Each one appends exactly that
    function's notifications to the log.
  - Aliasing is real: a player may challenge itself, since the code never forbids it.
    The object model and the world model then agree, update for update.
- `Manager` (manager.dfy) is the class `RPSNetworkManager`.
  - The `players` map from connections to players, kept by `OnStartServer`,
    `OnServerAddPlayer` and `OnServerDisconnect`.
  - The `FindAnyOtherPlayer` loop.

Three behaviours of the code are worth knowing; one would expect a game like this to
do otherwise in each, and the model follows the code:

- **No reset on disconnect.** `OnServerDisconnect` (RPSNetworkManager.cs:41-46) only
  drops the departed connection and destroys its player object. Nothing touches the
  opponent, whether it was WaitingConfirm or Selecting.
  - `Duel.DisconnectOrphans` proves that the survivor is left in its state, naming an
    id that no longer exists.
  - `Duel.OrphanedForever` proves that no later event frees it.
- **A missing opponent.** `CmdRespondToChallenge` (RPSPlayer.cs:174-175) and
  `CmdSelectChoice` (RPSPlayer.cs:224-225) return early when the opponent id is no
  longer spawned, and the caller is not reset. In `CmdSelectChoice` the caller's pick
  has already been recorded and acknowledged with a waiting notice by then
  (RPSPlayer.cs:221-222).
- **Any byte as a move.** `RPSChoice` is a byte enum (RPSPlayer.cs:7), and
  `CmdSelectChoice` (RPSPlayer.cs:216-221) stores whatever value the client sends:
  `None` as well as bytes 4 to 255, which the model carries as `OutOfRange`.
  - `Compare` of `None` or an out-of-range byte against a different value is -1 from
    both sides (`Duel.CompareWithNone`, `Duel.CompareOutOfRange`); equal values give 0.
  - Who wins then depends on who picked last. The last pick resolves the battle with
    the last picker as the first argument of `Server_ResolveBattle` (RPSPlayer.cs:228).
    That player is shown `Compare` of its own move, and the other player is shown the
    negation (RPSPlayer.cs:241-244).
  - So a pick of `None` made last loses (`Duel.SelectNoneLoses`).
  - An out-of-range byte made last loses (`Duel.SelectOutOfRangeLastLoses`,
    `Duel.ResolveBattleOutOfRange`), but one made first wins
    (`Duel.SelectOutOfRangeFirstWins`).
  - A pick of `None` is not locked in (`Duel.SelectNoneDoesNotLock`).

Either side of a pending challenge may answer it, because the code never checks
`isChallenger`. The state `Completed` is declared but never assigned;
`Duel.ReachableInv` proves that no player enters it in any run of joins and commands
without a disconnect.

## Model

| member | source | states |
|---|---|---|
| `Duel.Compare` | Assets/RockPaperScissors/Scripts/GameNetwork/RPSPlayer.cs:251-259 | Over every byte value: the result is 0 exactly when the two values are equal. It is 1 exactly when both are playable moves and the first beats the second under the Rock/Paper/Scissors cycle. Otherwise it is -1. |
| `Duel.CompareAntisymmetric` | Assets/RockPaperScissors/Scripts/GameNetwork/RPSPlayer.cs:251-259 | Between two real moves, one side's outcome is the negation of the other's. |
| `Duel.CompareWithNone` | Assets/RockPaperScissors/Scripts/GameNetwork/RPSPlayer.cs:251-259 | None against any other value gives -1 from both sides, so antisymmetry fails when None is involved. |
| `Duel.CompareOutOfRange` | Assets/RockPaperScissors/Scripts/GameNetwork/RPSPlayer.cs:251-259 | Over the byte enum of RPSPlayer.cs:7, a byte outside the declared values against any different value gives -1 from both sides, so antisymmetry fails there too. |
| `Duel.ResetBattleState` | Assets/RockPaperScissors/Scripts/GameNetwork/RPSPlayer.cs:277-285 | The four battle fields get their "no battle" values and the name is kept. |
| `Duel.Initialized` | Assets/RockPaperScissors/Scripts/GameNetwork/RPSPlayer.cs:43-51 | A freshly initialised player has cleared battle fields and the name "Player " followed by its id. |
| `Duel.StartChallenge` | Assets/RockPaperScissors/Scripts/GameNetwork/RPSPlayer.cs:138-153 | Nothing changes and nothing is sent unless both players are Idle. When both are, they are paired in WaitingConfirm, each naming the other. The challenger is flagged (unless it challenged itself) and the target is not. Choices, names and every other player are kept. Each side gets its UI notification, the challenger's first. |
| `Duel.RequestChallenge` | Assets/RockPaperScissors/Scripts/GameNetwork/RPSPlayer.cs:127-135 | The call is ignored unless the caller is Idle and the target id is spawned. Otherwise it is exactly StartChallenge, including a challenge to itself. |
| `Duel.RespondToChallenge` | Assets/RockPaperScissors/Scripts/GameNetwork/RPSPlayer.cs:170-196 | The call is ignored unless the caller is WaitingConfirm and its opponent is spawned; it works from either side. A reject resets both players and tells both, the caller first. An accept moves both to Selecting with no choice and tells both. No other player changes. |
| `Duel.ResolveBattle` | Assets/RockPaperScissors/Scripts/GameNetwork/RPSPlayer.cs:239-248 | Exactly two results are sent. `a` gets Compare(a's move, b's move) and `b` its negation, each with its own move first. Then both are reset and nobody else changes. |
| `Duel.SelectChoice` | Assets/RockPaperScissors/Scripts/GameNetwork/RPSPlayer.cs:216-229 | The call is ignored unless the caller is Selecting with no choice. Otherwise the choice, None included, is recorded and "waiting" is sent. If the opponent is spawned and has picked, the battle is resolved on the updated world; otherwise no other player changes. |
| `Duel.Apply` | Assets/RockPaperScissors/Scripts/GameNetwork/RPSNetworkManager.cs:29-39 | A server event never removes a player. A Join of a fresh non-zero id adds exactly its initialised record and sends nothing; a Join of a known id or of 0 changes nothing. Every other event keeps the set of ids, and one whose caller is not spawned changes nothing and sends nothing. |
| `Duel.OnlyPartnerPointsAt` | Assets/RockPaperScissors/Scripts/GameNetwork/RPSPlayer.cs:142-148 | Under the pairing invariant, a player naming an active player as opponent is named back by it. |
| `Duel.StartChallengePreservesInv` | Assets/RockPaperScissors/Scripts/GameNetwork/RPSPlayer.cs:138-153 | Starting a challenge keeps the pairing invariant. |
| `Duel.RespondToChallengePreservesInv` | Assets/RockPaperScissors/Scripts/GameNetwork/RPSPlayer.cs:170-196 | Answering a challenge keeps the pairing invariant. |
| `Duel.ResolveBattlePreservesInv` | Assets/RockPaperScissors/Scripts/GameNetwork/RPSPlayer.cs:239-248 | Resolving a battle between a Selecting player and its opponent keeps the pairing invariant. |
| `Duel.SelectChoicePreservesInv` | Assets/RockPaperScissors/Scripts/GameNetwork/RPSPlayer.cs:216-229 | Picking a move, with or without resolution, keeps the pairing invariant. |
| `Duel.ApplyPreservesInv` | Assets/RockPaperScissors/Scripts/GameNetwork/RPSPlayer.cs:127-229 | Every server event keeps the pairing invariant: a join, a challenge, an answer or a pick. |
| `Duel.RunPreservesInv` | Assets/RockPaperScissors/Scripts/GameNetwork/RPSPlayer.cs:127-229 | Every sequence of events without a disconnect keeps the pairing invariant. |
| `Duel.ReachableInv` | Assets/RockPaperScissors/Scripts/GameNetwork/RPSPlayer.cs:8 | From an empty server, whatever joins and commands arrive with no disconnect, the invariant holds and no player is ever Completed. A disconnect can break the invariant (see `Duel.DisconnectOrphans`). |
| `Duel.SelectChoiceIdempotent` | Assets/RockPaperScissors/Scripts/GameNetwork/RPSPlayer.cs:218-219 | After a real move is picked, any second pick by the same player is ignored and sends nothing. |
| `Duel.SelectNoneDoesNotLock` | Assets/RockPaperScissors/Scripts/GameNetwork/RPSPlayer.cs:216-228 | Picking None while the opponent has not picked changes no record; only the waiting notice is sent. The player may still pick, and a later pick behaves as if the None pick had not happened. |
| `Duel.SelectNoneLoses` | Assets/RockPaperScissors/Scripts/GameNetwork/RPSPlayer.cs:216-258 | In any world, including one after a disconnect: picking None after the opponent has picked resolves at once. The caller is shown -1 and the opponent 1. |
| `Duel.ResolveBattleFair` | Assets/RockPaperScissors/Scripts/GameNetwork/RPSPlayer.cs:239-248 | With two real moves, each side's result is Compare of its own move against the other's. A side is shown 1 exactly when its move beats the other. |
| `Duel.ResolveBattleOutOfRange` | Assets/RockPaperScissors/Scripts/GameNetwork/RPSPlayer.cs:239-248 | When the first side holds an out-of-range byte and the second a different value, the first is shown -1 and the second 1, although Compare from the second side is -1. |
| `Duel.SelectOutOfRangeFirstWins` | Assets/RockPaperScissors/Scripts/GameNetwork/RPSPlayer.cs:216-248 | In a fresh battle, an out-of-range byte picked first and a playable move picked second give two waiting notices. The second picker is shown -1 and the byte's side 1. |
| `Duel.SelectOutOfRangeLastLoses` | Assets/RockPaperScissors/Scripts/GameNetwork/RPSPlayer.cs:216-248 | In the same battle with the byte picked last, the byte's side is shown -1 and the playable move's side 1. |
| `Duel.DisconnectOrphans` | Assets/RockPaperScissors/Scripts/GameNetwork/RPSNetworkManager.cs:41-46 | Removing one side of a pending challenge or of a battle leaves the other in its state, naming an id that is gone. Nobody names it, and the pairing invariant is broken. |
| `Duel.OrphanedStep` | Assets/RockPaperScissors/Scripts/GameNetwork/RPSPlayer.cs:127-229 | No event except the departed id joining again frees an orphaned player: it keeps its state and its dangling opponent id. Only its own pick changes its record. |
| `Duel.OrphanedForever` | Assets/RockPaperScissors/Scripts/GameNetwork/RPSNetworkManager.cs:41-46 | Through any later sequence of events that does not bring the departed id back, an orphaned player stays orphaned with the same state and opponent id. One left WaitingConfirm keeps its whole record. |
| `Duel.ChallengeStep` | Assets/RockPaperScissors/Scripts/GameNetwork/RPSPlayer.cs:127-153 | One Idle player challenging another pairs them in WaitingConfirm with no choices and sends the two UI notifications. |
| `Duel.AcceptStep` | Assets/RockPaperScissors/Scripts/GameNetwork/RPSPlayer.cs:170-196 | The challenged player accepting moves both to Selecting with no choices and tells itself first. |
| `Duel.PickSteps` | Assets/RockPaperScissors/Scripts/GameNetwork/RPSPlayer.cs:216-248 | Rock from one side and then Scissors from the other yields two waiting notices and one pair of results (Scissors loses, Rock wins). Both players are then cleared. |
| `Duel.DuelRockBeatsScissors` | Assets/RockPaperScissors/Scripts/GameNetwork/RPSPlayer.cs:127-259 | A whole duel from two Idle players sends exactly eight notifications in order and leaves both Idle. |
| `Players.RPSPlayer.constructor` | Assets/RockPaperScissors/Scripts/GameNetwork/RPSPlayer.cs:22-38 | A new player object holds the declared defaults: Idle, opponent 0, no choice, not challenger. The name starts as the empty string where C# has null; `ServerInitialize` overwrites it before any use. |
| `Players.RPSPlayer.ServerInitialize` | Assets/RockPaperScissors/Scripts/GameNetwork/RPSPlayer.cs:43-51 | The object's fields become the initialised record for its id. |
| `Players.RPSPlayer.SetState` | Assets/RockPaperScissors/Scripts/GameNetwork/RPSPlayer.cs:114-118 | Only `state` changes. |
| `Players.RPSPlayer.ResetBattleState` | Assets/RockPaperScissors/Scripts/GameNetwork/RPSPlayer.cs:277-285 | The object's fields become the reset of its old record; the name is kept. |
| `Players.RPSPlayer.CmdRequestChallenge` | Assets/RockPaperScissors/Scripts/GameNetwork/RPSPlayer.cs:127-135 | The spawned players end as RequestChallenge leaves the world, and the log grows by exactly its notifications. |
| `Players.RPSPlayer.ServerStartChallenge` | Assets/RockPaperScissors/Scripts/GameNetwork/RPSPlayer.cs:138-153 | The spawned players end as StartChallenge leaves the world, even when target is this object, and the log grows by exactly its notifications. |
| `Players.RPSPlayer.CmdRespondToChallenge` | Assets/RockPaperScissors/Scripts/GameNetwork/RPSPlayer.cs:170-196 | The spawned players end as RespondToChallenge leaves the world, and the log grows by exactly its notifications. |
| `Players.RPSPlayer.EnterSelectingBoth` | Assets/RockPaperScissors/Scripts/GameNetwork/RPSPlayer.cs:188-192 | After the two SetState calls and the two choice resets, both objects are Selecting with no choice. No other spawned player changes. |
| `Players.RPSPlayer.ResetBoth` | Assets/RockPaperScissors/Scripts/GameNetwork/RPSPlayer.cs:182-183 | After the two ResetBattleState calls, both objects are reset, even when they are one object. No other spawned player changes. |
| `Players.RPSPlayer.RecordChoice` | Assets/RockPaperScissors/Scripts/GameNetwork/RPSPlayer.cs:221-222 | The caller's choice is stored, every other field and player is kept, and exactly one waiting notice to the caller is logged. |
| `Players.RPSPlayer.CmdSelectChoice` | Assets/RockPaperScissors/Scripts/GameNetwork/RPSPlayer.cs:216-229 | The spawned players end as SelectChoice leaves the world, and the log grows by exactly its notifications. |
| `Players.RPSPlayer.ServerResolveBattle` | Assets/RockPaperScissors/Scripts/GameNetwork/RPSPlayer.cs:239-248 | The spawned players end as ResolveBattle leaves the world, and the log grows by exactly its two results. |
| `Manager.RPSNetworkManager.constructor` | Assets/RockPaperScissors/Scripts/GameNetwork/RPSNetworkManager.cs:13 | The player table starts empty. |
| `Manager.RPSNetworkManager.OnStartServer` | Assets/RockPaperScissors/Scripts/GameNetwork/RPSNetworkManager.cs:21-27 | The player table is emptied. |
| `Manager.RPSNetworkManager.OnServerAddPlayer` | Assets/RockPaperScissors/Scripts/GameNetwork/RPSNetworkManager.cs:29-39 | An object without an RPSPlayer changes nothing. Otherwise the connection maps to the player and every other entry is kept. The player is initialised, and the spawned players end as a Join of its id leaves the world. |
| `Manager.RPSNetworkManager.OnServerDisconnect` | Assets/RockPaperScissors/Scripts/GameNetwork/RPSNetworkManager.cs:41-46 | Only the connection's entry is removed, and the connection's player object is destroyed. Every other player keeps its record, its opponent's included. |
| `Manager.RPSNetworkManager.FindAnyOtherPlayer` | Assets/RockPaperScissors/Scripts/GameNetwork/RPSNetworkManager.cs:49-59 | The result is null exactly when every spawned player is the caller or not Idle. Otherwise it is a spawned Idle player other than the caller, and the first such player in iteration order. Nothing is modified. |

## Left out

- Mirror's plumbing is not modelled:
  - the dispatch of Command, ClientRpc and TargetRpc messages;
  - SyncVar replication and its hooks;
  - `connectionToClient`.

  A targeted RPC is one entry appended to the ghost log, addressed by the receiving player's network id.
- `RpcUpdatePlayerState`, the broadcast inside `SetState` and `ResetBattleState`, is left out: it only refreshes client-side text.
- Presentation is left out, because it changes no server state:
  - the name, colour, state and choice hooks;
  - `UpdateStateTextLocal`;
  - `OnStartLocalPlayer`;
  - the result strings of `Target_ShowResult`;
  - CanvasBattle.cs, the controllers, the camera and the range detector.
- Players.RPSPlayer.ServerInitialize: the random `playerColor` is not modelled. It is a cosmetic float colour from a random source. The contract covers the name and the four battle fields only.
- RPSBattle.cs is not part of this model. It is an unused data holder and redeclares the two enums.
- `Debug.Log`, `Instance`, `OnStartHost` and `PlayerCount` are left out. They are logging, a static handle and a count over Mirror's connection table.
- Mirror's own spawning and destruction are reduced to `NetworkServer.Spawn` and `NetworkServer.Despawn`:
  - `base.OnServerAddPlayer` spawns the player object under a fresh non-zero id;
  - `base.OnServerDisconnect` destroys it.

  Mirror's id allocation is the precondition that the id is fresh.
- A spawned object without an RPSPlayer component is not represented. Every lookup in the core treats it like a missing id: `TryGetComponent` fails, or `GetComponent` returns null and the search skips it.
- Connections are identified by a natural number rather than by object identity.
- The iteration order of `NetworkServer.spawned` is given as an explicit duplicate-free sequence of ids. The order Mirror's dictionary actually uses is not modelled. Spawning appends to it and destruction removes from it.
- Duel.Beats and Duel.IsMove treat the three declared moves as the only playable ones. A byte outside the enum is kept as its value and compared as the code compares it. The `[System.Flags]` attribute on `RPSChoice` has no effect on the server logic.
- Concurrency is not modelled: Mirror runs every server handler on one thread, one message at a time.
- Network ids are 32-bit unsigned, as in Mirror. No arithmetic is done on them, so wrap-around never arises.
