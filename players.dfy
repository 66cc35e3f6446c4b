/**
  RPSPlayer as the server runs it: each player is an object whose battle fields the
  server commands assign in place, on the caller and on an opponent looked up by
  network id among the spawned objects. Every command is proved to do to the
  spawned players exactly what the matching transition of `Duel` does to the world,
  and to send the notifications that transition lists.
 */
module Players {
  import opened Duel

  /** The duplicate-free sequences. */
  predicate Distinct(s: seq<NetId>)
  {
    forall i, j | 0 <= i < j < |s| :: s[i] != s[j]
  }

  /** `s` without `id`, the order of the rest kept. */
  function Without(s: seq<NetId>, id: NetId): (r: seq<NetId>)
    ensures forall x :: x in r <==> x in s && x != id
  {
    if s == [] then []
    else if s[0] == id then Without(s[1..], id)
    else [s[0]] + Without(s[1..], id)
  }

  /** Removing an id keeps a duplicate-free sequence duplicate-free. */
  lemma {:induction false} WithoutDistinct(s: seq<NetId>, id: NetId)
    requires Distinct(s)
    ensures Distinct(Without(s, id))
  {
    if s != [] {
      assert Distinct(s[1..]) by {
        forall i, j | 0 <= i < j < |s[1..]| ensures s[1..][i] != s[1..][j] {
          assert s[1..][i] == s[i + 1] && s[1..][j] == s[j + 1];
        }
      }
      WithoutDistinct(s[1..], id);
      if s[0] != id {
        var rest := Without(s[1..], id);
        assert s[0] !in s[1..] by {
          forall k | 0 <= k < |s[1..]| ensures s[1..][k] != s[0] {
            assert s[1..][k] == s[k + 1];
          }
        }
        assert s[0] !in rest;
        var r := [s[0]] + rest;
        forall i, j | 0 <= i < j < |r| ensures r[i] != r[j] {
          assert r[j] == rest[j - 1];
          if i > 0 {
            assert r[i] == rest[i - 1];
          }
        }
      }
    }
  }

  /**
    Mirror's NetworkServer as far as the duel uses it: the spawned objects by network
    id (only those with an RPSPlayer component; an object without one fails the same
    lookups as a missing id), the order a `foreach` over them visits the ids, and the
    targeted notifications sent so far.
   */
  class NetworkServer {
    var spawned: map<NetId, RPSPlayer>
    var order: seq<NetId>
    ghost var log: seq<Notification>

    /** Every object sits under its own id, and id 0 is never used. */
    ghost predicate Keyed()
      reads this
    {
      && NoOpponent !in spawned
      && (forall id | id in spawned :: spawned[id].netId == id)
    }

    /** Keyed, and `order` lists each id once. */
    ghost predicate Valid()
      reads this
    {
      && Keyed()
      && (forall i | 0 <= i < |order| :: order[i] in spawned)
      && (forall id | id in spawned :: id in order)
      && Distinct(order)
    }

    /** `p` is the object spawned under its id. */
    ghost predicate Holds(p: RPSPlayer)
      reads this
    {
      p.netId in spawned && spawned[p.netId] == p
    }

    /** The battle fields of every spawned player, by id. */
    ghost function Snapshot(): World
      reads this, spawned.Values
    {
      map id | id in spawned :: spawned[id].Rec()
    }

    /** The spawned players' fields are exactly the records of `w`. */
    ghost predicate Reflects(w: World)
      reads this, spawned.Values
    {
      w.Keys == spawned.Keys && forall id | id in spawned :: spawned[id].Rec() == w[id]
    }

    lemma ReflectsSnapshot(w: World)
      ensures Reflects(w) <==> Snapshot() == w
    {
      if Reflects(w) {
        assert forall id | id in w :: Snapshot()[id] == w[id];
      }
    }

    constructor ()
      ensures Valid() && spawned == map[] && order == [] && log == []
    {
      spawned := map[];
      order := [];
      log := [];
    }

    /** Mirror spawning a player object under a fresh id. */
    method Spawn(p: RPSPlayer)
      requires Valid() && p.netId != NoOpponent && p.netId !in spawned
      modifies this`spawned, this`order
      ensures Valid()
      ensures spawned == old(spawned)[p.netId := p] && order == old(order) + [p.netId]
    {
      spawned := spawned[p.netId := p];
      order := order + [p.netId];
    }

    /** Mirror destroying a player object when its connection goes away. */
    method Despawn(id: NetId)
      requires Valid()
      modifies this`spawned, this`order
      ensures Valid()
      ensures spawned == old(spawned) - {id} && order == Without(old(order), id)
    {
      WithoutDistinct(order, id);
      spawned := spawned - {id};
      order := Without(order, id);
      forall i | 0 <= i < |order| ensures order[i] in spawned {
        assert order[i] in order;
      }
    }
  }

  class RPSPlayer {
    const netId: NetId
    var playerName: string
    var state: RPSState
    var opponentNetId: NetId
    var myChoice: RPSChoice
    var isChallenger: bool

    /** The battle fields and the name, as a value. */
    function Rec(): PlayerRec
      reads this
    {
      PlayerRec(playerName, state, opponentNetId, myChoice, isChallenger)
    }

    /** A player object as declared, before the server initialises it. */
    constructor (id: NetId)
      ensures netId == id
      ensures Rec() == PlayerRec("", Idle, NoOpponent, None, false)
    {
      netId := id;
      playerName := "";
      state := Idle;
      opponentNetId := NoOpponent;
      myChoice := None;
      isChallenger := false;
    }

    method ServerInitialize()
      modifies this
      ensures Rec() == Initialized(netId)
    {
      playerName := DefaultName(netId);
      state := Idle;
      opponentNetId := NoOpponent;
      myChoice := None;
      isChallenger := false;
    }

    method SetState(newState: RPSState)
      modifies this
      ensures Rec() == old(Rec()).(state := newState)
    {
      state := newState;
    }

    method ResetBattleState()
      modifies this
      ensures Rec() == Duel.ResetBattleState(old(Rec()))
    {
      state := Idle;
      opponentNetId := NoOpponent;
      myChoice := None;
      isChallenger := false;
    }

    method CmdRequestChallenge(server: NetworkServer, targetNetId: NetId, ghost w: World)
      requires server.Keyed() && server.Holds(this) && server.Reflects(w)
      modifies server`log, server.spawned.Values
      ensures server.Reflects(RequestChallenge(w, netId, targetNetId).world)
      ensures server.log == old(server.log) + RequestChallenge(w, netId, targetNetId).sent
    {
      if state != Idle || targetNetId !in server.spawned {
        return;
      }
      var target := server.spawned[targetNetId];
      ServerStartChallenge(server, target, w);
    }

    method ServerStartChallenge(server: NetworkServer, target: RPSPlayer, ghost w: World)
      requires server.Keyed() && server.Holds(this) && server.Holds(target) && server.Reflects(w)
      modifies server`log, server.spawned.Values
      ensures server.Reflects(StartChallenge(w, netId, target.netId).world)
      ensures server.log == old(server.log) + StartChallenge(w, netId, target.netId).sent
    {
      if state != Idle || target.state != Idle {
        return;
      }
      isChallenger := true;
      opponentNetId := target.netId;
      SetState(WaitingConfirm);

      target.isChallenger := false;
      target.opponentNetId := netId;
      target.SetState(WaitingConfirm);

      server.log := server.log + [ChallengerUI(netId, target.netId), OpponentUI(target.netId, netId)];

      ghost var s := StartChallenge(w, netId, target.netId);
      assert target.Rec() == s.world[target.netId];
      assert Rec() == s.world[netId];
      forall id | id in server.spawned && id != netId && id != target.netId
        ensures server.spawned[id].Rec() == s.world[id]
      {
        assert server.spawned[id] != this && server.spawned[id] != target;
        assert server.spawned[id].Rec() == old(server.spawned[id].Rec());
      }
    }

    method CmdRespondToChallenge(server: NetworkServer, accept: bool, ghost w: World)
      requires server.Keyed() && server.Holds(this) && server.Reflects(w)
      modifies server`log, server.spawned.Values
      ensures server.Reflects(RespondToChallenge(w, netId, accept).world)
      ensures server.log == old(server.log) + RespondToChallenge(w, netId, accept).sent
    {
      assert Rec() == w[netId];
      if state != WaitingConfirm || opponentNetId !in server.spawned {
        return;
      }
      var opponent := server.spawned[opponentNetId];
      assert opponent.Rec() == w[opponentNetId];
      ghost var s := RespondToChallenge(w, netId, accept);
      ghost var o := opponentNetId;
      assert CanRespond(w, netId) && o == opponent.netId;

      if !accept {
        assert s == Step(ResetPair(w, netId, o), [Rejected(netId), Rejected(o)]);
        server.log := server.log + [Rejected(netId), Rejected(opponent.netId)];
        ResetBoth(server, this, opponent, w);
        return;
      }
      assert s == Step(EnterSelecting(w, netId, o), [StartSelection(netId), StartSelection(o)]);
      EnterSelectingBoth(server, this, opponent, w);
      server.log := server.log + [StartSelection(netId), StartSelection(opponent.netId)];
    }

    /** The accepting branch's field updates: both players Selecting, then both choices cleared. */
    static method EnterSelectingBoth(server: NetworkServer, a: RPSPlayer, b: RPSPlayer, ghost w: World)
      requires server.Keyed() && server.Holds(a) && server.Holds(b) && server.Reflects(w)
      modifies a, b
      ensures server.Reflects(EnterSelecting(w, a.netId, b.netId))
    {
      a.SetState(Selecting);
      b.SetState(Selecting);
      a.myChoice := None;
      b.myChoice := None;
      ghost var w' := EnterSelecting(w, a.netId, b.netId);
      assert b.Rec() == w'[b.netId];
      assert a.Rec() == w'[a.netId];
      forall id | id in server.spawned && id != a.netId && id != b.netId
        ensures server.spawned[id].Rec() == w'[id]
      {
        assert server.spawned[id] != a && server.spawned[id] != b;
      }
    }

    /** The two ResetBattleState calls that end a challenge or a battle, `a` first. */
    static method ResetBoth(server: NetworkServer, a: RPSPlayer, b: RPSPlayer, ghost w: World)
      requires server.Keyed() && server.Holds(a) && server.Holds(b) && server.Reflects(w)
      modifies a, b
      ensures server.Reflects(ResetPair(w, a.netId, b.netId))
    {
      a.ResetBattleState();
      b.ResetBattleState();
      ghost var w' := ResetPair(w, a.netId, b.netId);
      assert b.Rec() == w'[b.netId];
      assert a.Rec() == w'[a.netId];
      forall id | id in server.spawned && id != a.netId && id != b.netId
        ensures server.spawned[id].Rec() == w'[id]
      {
        assert server.spawned[id] != a && server.spawned[id] != b;
      }
    }

    method CmdSelectChoice(server: NetworkServer, choice: RPSChoice, ghost w: World)
      requires server.Keyed() && server.Holds(this) && server.Reflects(w)
      modifies server`log, server.spawned.Values
      ensures server.Reflects(SelectChoice(w, netId, choice).world)
      ensures server.log == old(server.log) + SelectChoice(w, netId, choice).sent
    {
      assert Rec() == w[netId];
      if state != Selecting || myChoice != None {
        return;
      }
      ghost var o := opponentNetId;
      ghost var w1 := w[netId := w[netId].(myChoice := choice)];
      RecordChoice(server, choice, w);
      if opponentNetId !in server.spawned {
        assert SelectChoice(w, netId, choice) == Step(w1, [Waiting(netId, choice)]);
        return;
      }
      var other := server.spawned[opponentNetId];
      assert other.Rec() == w1[o];
      if other.myChoice == None {
        assert SelectChoice(w, netId, choice) == Step(w1, [Waiting(netId, choice)]);
        return;
      }
      ghost var r := ResolveBattle(w1, netId, o);
      assert SelectChoice(w, netId, choice) == Step(r.world, [Waiting(netId, choice)] + r.sent);
      ghost var log1 := server.log;
      assert log1 + r.sent == old(server.log) + SelectChoice(w, netId, choice).sent;
      ServerResolveBattle(server, this, other, w1);
    }

    /** The first half of CmdSelectChoice: the pick is stored and the caller is told it waits. */
    method RecordChoice(server: NetworkServer, choice: RPSChoice, ghost w: World)
      requires server.Keyed() && server.Holds(this) && server.Reflects(w)
      modifies this, server`log
      ensures server.Reflects(w[netId := w[netId].(myChoice := choice)])
      ensures server.log == old(server.log) + [Waiting(netId, choice)]
    {
      myChoice := choice;
      server.log := server.log + [Waiting(netId, choice)];
      ghost var w1 := w[netId := w[netId].(myChoice := choice)];
      forall id | id in server.spawned && id != netId ensures server.spawned[id].Rec() == w1[id] {
        assert server.spawned[id] != this;
      }
    }

    static method ServerResolveBattle(server: NetworkServer, a: RPSPlayer, b: RPSPlayer, ghost w: World)
      requires server.Keyed() && server.Holds(a) && server.Holds(b) && server.Reflects(w)
      modifies server`log, server.spawned.Values
      ensures server.Reflects(ResolveBattle(w, a.netId, b.netId).world)
      ensures server.log == old(server.log) + ResolveBattle(w, a.netId, b.netId).sent
    {
      var result := Compare(a.myChoice, b.myChoice);
      server.log := server.log + [ShowResult(a.netId, result, a.myChoice, b.myChoice), ShowResult(b.netId, -result, b.myChoice, a.myChoice)];
      ResetBoth(server, a, b, w);
    }
  }
}
