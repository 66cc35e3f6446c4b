/**
  RPSNetworkManager on the server: the table of connected players by connection, kept
  in step with Mirror spawning a player object when a connection adds its player and
  destroying it when the connection goes away, and the search for an Idle player other
  than the caller.
 */
module Manager {
  import opened Duel
  import opened Players

  /** A client connection, identified by its connection id. */
  type Conn = nat

  /** A spawned player the search passes over: the caller itself, or one already in a challenge or a battle. */
  predicate Skipped(self: RPSPlayer?, p: RPSPlayer)
    reads p
  {
    p == self || p.state != Idle
  }

  class RPSNetworkManager {
    const server: NetworkServer
    var players: map<Conn, RPSPlayer>

    constructor (server: NetworkServer)
      ensures this.server == server && players == map[]
    {
      this.server := server;
      players := map[];
    }

    /** Starting the server forgets every player recorded before. */
    method OnStartServer()
      modifies this`players
      ensures players == map[]
    {
      players := map[];
    }

    /**
      A connection adds its player: Mirror spawns the new object under a fresh id; when
      it carries an RPSPlayer, the connection records it and the player is initialised,
      which in the world of battle records is exactly a Join of that id. An object
      without an RPSPlayer (`player == null`) is not recorded and not part of the world.
     */
    method OnServerAddPlayer(conn: Conn, player: RPSPlayer?)
      requires server.Valid()
      requires player != null ==> player.netId != NoOpponent && player.netId !in server.spawned
      modifies this`players, server`spawned, server`order, player
      ensures server.Valid()
      ensures player == null ==> players == old(players) && server.spawned == old(server.spawned)
      ensures player != null ==>
        && players == old(players)[conn := player]
        && server.spawned == old(server.spawned)[player.netId := player]
        && player.Rec() == Initialized(player.netId)
        && server.Reflects(Apply(old(server.Snapshot()), Join(player.netId)).world)
    {
      if player != null {
        ghost var w := server.Snapshot();
        server.Spawn(player);
        players := players[conn := player];
        player.ServerInitialize();
        forall id | id in server.spawned && id != player.netId
          ensures server.spawned[id].Rec() == w[id]
        {
          assert server.spawned[id].netId == id;
        }
      }
    }

    /**
      A connection goes away: it is dropped from the table, then Mirror destroys its
      player object. Nothing else changes; in particular an opponent waiting on the
      departed player keeps its battle fields.
     */
    method OnServerDisconnect(conn: Conn)
      requires server.Valid()
      modifies this`players, server`spawned, server`order
      ensures server.Valid()
      ensures players == old(players) - {conn}
      ensures conn !in old(players) ==> server.spawned == old(server.spawned)
      ensures conn in old(players) ==>
        && server.spawned == old(server.spawned) - {old(players)[conn].netId}
        && server.Reflects(old(server.Snapshot()) - {old(players)[conn].netId})
    {
      var gone := players;
      players := players - {conn};
      if conn in gone {
        ghost var w := server.Snapshot();
        server.ReflectsSnapshot(w);
        server.Despawn(gone[conn].netId);
        assert server.Reflects(w - {gone[conn].netId});
      }
    }

    /**
      The first spawned player, in the server's iteration order, that is neither `self`
      nor in a challenge or a battle; null when every spawned player is one of those.
     */
    method FindAnyOtherPlayer(self: RPSPlayer?) returns (found: RPSPlayer?)
      requires server.Valid()
      ensures found != null ==> server.Holds(found) && found != self && found.state == Idle
      ensures found != null ==>
        exists k :: 0 <= k < |server.order| && server.order[k] == found.netId
          && forall j :: 0 <= j < k ==> Skipped(self, server.spawned[server.order[j]])
      ensures found == null <==> forall id | id in server.spawned :: Skipped(self, server.spawned[id])
    {
      var i := 0;
      while i < |server.order|
        invariant 0 <= i <= |server.order|
        invariant forall j :: 0 <= j < i ==> Skipped(self, server.spawned[server.order[j]])
      {
        var player := server.spawned[server.order[i]];
        if player == self || player.state != Idle {
          i := i + 1;
          continue;
        }
        return player;
      }
      forall id | id in server.spawned ensures Skipped(self, server.spawned[id]) {
        var j :| 0 <= j < |server.order| && server.order[j] == id;
      }
      return null;
    }
  }
}
