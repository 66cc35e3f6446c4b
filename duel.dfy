/**
  The server side of the Rock-Paper-Scissors duel, as values.

  Every spawned player carries four battle fields that only the server writes
  (`state`, `opponentNetId`, `myChoice`, `isChallenger`) besides its display name.
  A `World` maps each spawned network id to a snapshot of those fields, and every
  server transition of RPSPlayer is a function from a world to the next world and
  the targeted notifications it sends, in the order the code sends them.
  Two records that point at each other through `opponentNetId` are a pairing;
  nothing else stores it.
 */
module Duel {

  /** Mirror's network ids are unsigned 32-bit integers. */
  newtype NetId = x: int | 0 <= x < 0x1_0000_0000

  /** The value `opponentNetId` holds when a player has no opponent. */
  const NoOpponent: NetId := 0

  /** The byte values above the four declared ones. */
  type ExtraCode = b: int | 4 <= b < 256 witness 4

  /**
    A choice is a byte-backed enum: the four declared values, or any other byte a
    client puts in its command (`OutOfRange`), which the server takes as it comes.
   */
  datatype RPSChoice = None | Rock | Paper | Scissors | OutOfRange(code: ExtraCode)

  datatype RPSState = Idle | WaitingConfirm | Selecting | Completed

  /** The byte each choice is carried as. */
  function Ord(c: RPSChoice): nat
  {
    match c
    case None => 0
    case Rock => 1
    case Paper => 2
    case Scissors => 3
    case OutOfRange(b) => b
  }

  /** One of the three playable moves. */
  predicate IsMove(c: RPSChoice)
  {
    c == Rock || c == Paper || c == Scissors
  }

  /**
    Reference definition of "a beats b": both are real moves and `a` is the move
    one step after `b` in the cycle Rock, Paper, Scissors (Paper covers Rock,
    Scissors cut Paper, Rock breaks Scissors).
   */
  predicate Beats(a: RPSChoice, b: RPSChoice)
  {
    IsMove(a) && IsMove(b) && (Ord(a) - Ord(b)) % 3 == 1
  }

  /** The outcome of `a` against `b` from `a`'s side: 0 draw, 1 win, -1 loss. */
  function Compare(a: RPSChoice, b: RPSChoice): (r: int)
    ensures r == 0 <==> a == b
    ensures r == 1 <==> Beats(a, b)
    ensures r == -1 <==> a != b && !Beats(a, b)
  {
    if a == b then 0
    else if (a == Rock && b == Scissors) || (a == Scissors && b == Paper) || (a == Paper && b == Rock) then 1
    else -1
  }

  /** Between two playable moves the outcome for one side is the negation of the other's. */
  lemma CompareAntisymmetric(a: RPSChoice, b: RPSChoice)
    requires IsMove(a) && IsMove(b)
    ensures Compare(a, b) == -Compare(b, a)
  {
  }

  /** `None` loses against every other value from both sides, so antisymmetry fails there. */
  lemma CompareWithNone(c: RPSChoice)
    requires c != None
    ensures Compare(None, c) == -1 && Compare(c, None) == -1
    ensures Compare(None, c) != -Compare(c, None)
  {
  }

  /**
    A byte outside the declared values loses from both sides against any different
    value, playable moves included: antisymmetry fails for these too.
   */
  lemma CompareOutOfRange(x: RPSChoice, c: RPSChoice)
    requires x.OutOfRange? && c != x
    ensures Compare(x, c) == -1 && Compare(c, x) == -1
    ensures Compare(x, c) != -Compare(c, x)
  {
  }

  // ---------------------------------------------------------------------------
  // Player records and the world

  /** The server-written fields of one RPSPlayer (its colour is cosmetic and not kept). */
  datatype PlayerRec = PlayerRec(
    playerName: string,
    state: RPSState,
    opponentNetId: NetId,
    myChoice: RPSChoice,
    isChallenger: bool)

  /** The spawned players, by network id. */
  type World = map<NetId, PlayerRec>

  /** A targeted notification; `to` is the network id of the player whose client receives it. */
  datatype Notification =
    | ChallengerUI(to: NetId, oppId: NetId)
    | OpponentUI(to: NetId, challengerId: NetId)
    | Rejected(to: NetId)
    | StartSelection(to: NetId)
    | Waiting(to: NetId, choice: RPSChoice)
    | ShowResult(to: NetId, result: int, you: RPSChoice, opp: RPSChoice)

  /** The world after a transition, and the notifications it sent, in order. */
  datatype Step = Step(world: World, sent: seq<Notification>)

  /** The four battle fields hold their "no battle" values. */
  predicate Cleared(p: PlayerRec)
  {
    p.state == Idle && p.opponentNetId == NoOpponent && p.myChoice == None && !p.isChallenger
  }

  /** Every record outside `ids` is the same in both worlds, and no player appeared or vanished. */
  predicate OthersUnchanged(w: World, w': World, ids: set<NetId>)
  {
    w'.Keys == w.Keys && forall id | id in w && id !in ids :: w'[id] == w[id]
  }

  /** `a` and `b` are in state `st` and each names the other as its opponent. */
  predicate Paired(w: World, a: NetId, b: NetId, st: RPSState)
  {
    && a in w && b in w
    && w[a].state == st && w[b].state == st
    && w[a].opponentNetId == b && w[b].opponentNetId == a
  }

  function DigitChar(d: nat): char
    requires d < 10
  {
    "0123456789"[d]
  }

  /** The decimal digits of `n`, most significant first. */
  function Decimal(n: nat): (s: string)
    ensures |s| >= 1
    decreases n
  {
    if n < 10 then [DigitChar(n)] else Decimal(n / 10) + [DigitChar(n % 10)]
  }

  /** The name ServerInitialize gives a player: "Player " and its network id. */
  function DefaultName(id: NetId): string
  {
    "Player " + Decimal(id as nat)
  }

  // ---------------------------------------------------------------------------
  // Transitions

  /** ResetBattleState: the battle fields back to their defaults, the name kept. */
  function ResetBattleState(p: PlayerRec): (q: PlayerRec)
    ensures Cleared(q) && q.playerName == p.playerName
  {
    p.(state := Idle, opponentNetId := NoOpponent, myChoice := None, isChallenger := false)
  }

  /** ServerInitialize: the record of a freshly added player. */
  function Initialized(id: NetId): (p: PlayerRec)
    ensures Cleared(p) && p.playerName == DefaultName(id)
  {
    PlayerRec(DefaultName(id), Idle, NoOpponent, None, false)
  }

  /** Both players of a battle reset, `a` first; `a` and `b` may be the same player. */
  function ResetPair(w: World, a: NetId, b: NetId): (w': World)
    requires a in w && b in w
    ensures OthersUnchanged(w, w', {a, b})
    ensures w'[a] == ResetBattleState(w[a]) && w'[b] == ResetBattleState(w[b])
  {
    var w1 := w[a := ResetBattleState(w[a])];
    w1[b := ResetBattleState(w1[b])]
  }

  /**
    Both players of an accepted challenge move to Selecting, then both choices are
    cleared, in that order; `a` and `b` may be the same player.
   */
  function EnterSelecting(w: World, a: NetId, b: NetId): (w': World)
    requires a in w && b in w
    ensures OthersUnchanged(w, w', {a, b})
    ensures w'[a] == w[a].(state := Selecting, myChoice := None)
    ensures w'[b] == w[b].(state := Selecting, myChoice := None)
  {
    var w1 := w[a := w[a].(state := Selecting)];
    var w2 := w1[b := w1[b].(state := Selecting)];
    var w3 := w2[a := w2[a].(myChoice := None)];
    w3[b := w3[b].(myChoice := None)]
  }

  /**
    Server_StartChallenge: when both are Idle, `challenger` and `target` are paired in
    WaitingConfirm, the challenger flagged as such, and each is told about the other;
    otherwise nothing happens. The updates run in the code's order, so a player that
    challenges itself ends up paired with itself and not flagged as challenger.
   */
  function StartChallenge(w: World, challenger: NetId, target: NetId): (s: Step)
    requires challenger in w && target in w
    ensures s.world.Keys == w.Keys
    ensures w[challenger].state != Idle || w[target].state != Idle ==> s == Step(w, [])
    ensures w[challenger].state == Idle && w[target].state == Idle ==>
      && Paired(s.world, challenger, target, WaitingConfirm)
      && !s.world[target].isChallenger
      && (challenger != target ==> s.world[challenger].isChallenger)
      && s.world[challenger].myChoice == w[challenger].myChoice
      && s.world[target].myChoice == w[target].myChoice
      && s.world[challenger].playerName == w[challenger].playerName
      && s.world[target].playerName == w[target].playerName
      && OthersUnchanged(w, s.world, {challenger, target})
      && s.sent == [ChallengerUI(challenger, target), OpponentUI(target, challenger)]
  {
    if w[challenger].state != Idle || w[target].state != Idle then Step(w, [])
    else
      var w1 := w[challenger := w[challenger].(isChallenger := true, opponentNetId := target, state := WaitingConfirm)];
      var w2 := w1[target := w1[target].(isChallenger := false, opponentNetId := challenger, state := WaitingConfirm)];
      Step(w2, [ChallengerUI(challenger, target), OpponentUI(target, challenger)])
  }

  /**
    CmdRequestChallenge: an Idle caller whose target id is spawned starts a challenge;
    any other call is ignored. The target may be the caller itself.
   */
  function RequestChallenge(w: World, self: NetId, targetNetId: NetId): (s: Step)
    requires self in w
    ensures w[self].state != Idle || targetNetId !in w ==> s == Step(w, [])
    ensures w[self].state == Idle && targetNetId in w ==> s == StartChallenge(w, self, targetNetId)
  {
    if w[self].state != Idle then Step(w, [])
    else if targetNetId !in w then Step(w, [])
    else StartChallenge(w, self, targetNetId)
  }

  /** The caller may answer: it is WaitingConfirm and its opponent id is spawned. */
  predicate CanRespond(w: World, self: NetId)
    requires self in w
  {
    w[self].state == WaitingConfirm && w[self].opponentNetId in w
  }

  /**
    CmdRespondToChallenge: either side of a pending challenge answers. Rejecting tells
    both and resets both; accepting moves both to Selecting with no choice and tells
    both. A caller not WaitingConfirm, or whose opponent is gone, is ignored and stays
    as it is.
   */
  function RespondToChallenge(w: World, self: NetId, accept: bool): (s: Step)
    requires self in w
    ensures s.world.Keys == w.Keys
    ensures !CanRespond(w, self) ==> s == Step(w, [])
    ensures CanRespond(w, self) && !accept ==>
      var o := w[self].opponentNetId;
      && s.world[self] == ResetBattleState(w[self])
      && s.world[o] == ResetBattleState(w[o])
      && OthersUnchanged(w, s.world, {self, o})
      && s.sent == [Rejected(self), Rejected(o)]
    ensures CanRespond(w, self) && accept ==>
      var o := w[self].opponentNetId;
      && s.world[self] == w[self].(state := Selecting, myChoice := None)
      && s.world[o] == w[o].(state := Selecting, myChoice := None)
      && OthersUnchanged(w, s.world, {self, o})
      && s.sent == [StartSelection(self), StartSelection(o)]
  {
    if w[self].state != WaitingConfirm then Step(w, [])
    else if w[self].opponentNetId !in w then Step(w, [])
    else
      var o := w[self].opponentNetId;
      if !accept then Step(ResetPair(w, self, o), [Rejected(self), Rejected(o)])
      else Step(EnterSelecting(w, self, o), [StartSelection(self), StartSelection(o)])
  }

  /**
    Server_ResolveBattle: `a` learns Compare(a's choice, b's choice) and `b` its
    negation, each with its own choice first; then both are reset.
   */
  function ResolveBattle(w: World, a: NetId, b: NetId): (s: Step)
    requires a in w && b in w
    ensures OthersUnchanged(w, s.world, {a, b})
    ensures s.world[a] == ResetBattleState(w[a]) && s.world[b] == ResetBattleState(w[b])
    ensures |s.sent| == 2
    ensures s.sent[0].ShowResult? && s.sent[0].to == a && s.sent[1].ShowResult? && s.sent[1].to == b
    ensures s.sent[0].you == s.sent[1].opp == w[a].myChoice
    ensures s.sent[1].you == s.sent[0].opp == w[b].myChoice
    ensures s.sent[0].result == Compare(w[a].myChoice, w[b].myChoice)
    ensures s.sent[1].result == -s.sent[0].result
  {
    var r := Compare(w[a].myChoice, w[b].myChoice);
    var sent := [ShowResult(a, r, w[a].myChoice, w[b].myChoice), ShowResult(b, -r, w[b].myChoice, w[a].myChoice)];
    Step(ResetPair(w, a, b), sent)
  }

  /** The caller may pick: it is Selecting and has not picked yet (any value, None included, is taken). */
  predicate CanSelect(w: World, self: NetId)
    requires self in w
  {
    w[self].state == Selecting && w[self].myChoice == None
  }

  /**
    After the caller picked `choice`, its opponent is spawned and has picked too
    (when the caller is its own opponent, the pick just made is what is seen).
   */
  predicate Resolves(w: World, self: NetId, choice: RPSChoice)
    requires self in w
  {
    var o := w[self].opponentNetId;
    o in w && (if o == self then choice else w[o].myChoice) != None
  }

  /**
    CmdSelectChoice: a Selecting caller with no choice yet records `choice` and is told
    it waits; if its opponent has picked already, the battle is resolved at once.
    Any other call is ignored, so a first real pick is never replaced.
   */
  function SelectChoice(w: World, self: NetId, choice: RPSChoice): (s: Step)
    requires self in w
    ensures s.world.Keys == w.Keys
    ensures !CanSelect(w, self) ==> s == Step(w, [])
    ensures CanSelect(w, self) && !Resolves(w, self, choice) ==>
      && s.world[self] == w[self].(myChoice := choice)
      && OthersUnchanged(w, s.world, {self})
      && s.sent == [Waiting(self, choice)]
    ensures CanSelect(w, self) && Resolves(w, self, choice) ==>
      var o := w[self].opponentNetId;
      var r := ResolveBattle(w[self := w[self].(myChoice := choice)], self, o);
      s == Step(r.world, [Waiting(self, choice)] + r.sent)
  {
    if w[self].state != Selecting then Step(w, [])
    else if w[self].myChoice != None then Step(w, [])
    else
      var w1 := w[self := w[self].(myChoice := choice)];
      var sent := [Waiting(self, choice)];
      var o := w1[self].opponentNetId;
      if o !in w1 then Step(w1, sent)
      else if w1[o].myChoice == None then Step(w1, sent)
      else
        var r := ResolveBattle(w1, self, o);
        Step(r.world, sent + r.sent)
  }

  // ---------------------------------------------------------------------------
  // The pairing invariant

  /**
    What a player's battle fields satisfy while nobody disconnects: Completed is never
    entered, a choice is only held while Selecting, an Idle player has no opponent and
    no challenger flag, and a player in a challenge or a battle names a spawned
    opponent in the same state that names it back, exactly one of the two (when they
    are distinct) being the challenger.
   */
  ghost predicate PlayerOk(w: World, id: NetId)
    requires id in w
  {
    var p := w[id];
    && p.state != Completed
    && (p.myChoice != None ==> p.state == Selecting)
    && (p.state == Idle ==> p.opponentNetId == NoOpponent && !p.isChallenger)
    && (p.state == WaitingConfirm || p.state == Selecting ==>
          && p.opponentNetId in w
          && w[p.opponentNetId].state == p.state
          && w[p.opponentNetId].opponentNetId == id
          && (p.opponentNetId != id ==> w[p.opponentNetId].isChallenger != p.isChallenger))
  }

  /** No player has the id that means "no opponent", and every player is well formed. */
  ghost predicate Inv(w: World)
  {
    NoOpponent !in w && forall id | id in w :: PlayerOk(w, id)
  }

  /** In a well-formed world the only player naming an active player is its opponent. */
  lemma OnlyPartnerPointsAt(w: World, x: NetId, y: NetId)
    requires Inv(w) && x in w && y in w
    requires w[y].state == WaitingConfirm || w[y].state == Selecting
    requires w[x].opponentNetId == y
    ensures w[y].opponentNetId == x
  {
    assert PlayerOk(w, x);
    assert PlayerOk(w, y);
  }

  lemma StartChallengePreservesInv(w: World, challenger: NetId, target: NetId)
    requires Inv(w) && challenger in w && target in w
    ensures Inv(StartChallenge(w, challenger, target).world)
  {
    var w' := StartChallenge(w, challenger, target).world;
    if w[challenger].state == Idle && w[target].state == Idle {
      forall id | id in w' ensures PlayerOk(w', id) {
        assert PlayerOk(w, id);
        if id != challenger && id != target && (w[id].state == WaitingConfirm || w[id].state == Selecting) {
          assert PlayerOk(w, w[id].opponentNetId);
        }
      }
    }
  }

  lemma RespondToChallengePreservesInv(w: World, self: NetId, accept: bool)
    requires Inv(w) && self in w
    ensures Inv(RespondToChallenge(w, self, accept).world)
  {
    var w' := RespondToChallenge(w, self, accept).world;
    if CanRespond(w, self) {
      var o := w[self].opponentNetId;
      assert PlayerOk(w, self);
      assert PlayerOk(w, o);
      forall id | id in w' ensures PlayerOk(w', id) {
        assert PlayerOk(w, id);
        if id != self && id != o && (w[id].state == WaitingConfirm || w[id].state == Selecting) {
          var q := w[id].opponentNetId;
          assert PlayerOk(w, q);
          if q == self || q == o {
            OnlyPartnerPointsAt(w, id, q);
          }
        }
      }
    }
  }

  lemma ResolveBattlePreservesInv(w: World, a: NetId, b: NetId)
    requires Inv(w) && a in w && b in w
    requires w[a].state == Selecting && w[a].opponentNetId == b
    ensures Inv(ResolveBattle(w, a, b).world)
  {
    var w' := ResolveBattle(w, a, b).world;
    assert PlayerOk(w, a);
    forall id | id in w' ensures PlayerOk(w', id) {
      assert PlayerOk(w, id);
      if id != a && id != b && (w[id].state == WaitingConfirm || w[id].state == Selecting) {
        var q := w[id].opponentNetId;
        assert PlayerOk(w, q);
        if q == a || q == b {
          OnlyPartnerPointsAt(w, id, q);
        }
      }
    }
  }

  lemma SelectChoicePreservesInv(w: World, self: NetId, choice: RPSChoice)
    requires Inv(w) && self in w
    ensures Inv(SelectChoice(w, self, choice).world)
  {
    if CanSelect(w, self) {
      var w1 := w[self := w[self].(myChoice := choice)];
      assert Inv(w1) by {
        forall id | id in w1 ensures PlayerOk(w1, id) {
          assert PlayerOk(w, id);
          if id != self && (w[id].state == WaitingConfirm || w[id].state == Selecting) {
            assert PlayerOk(w, w[id].opponentNetId);
          }
        }
      }
      if Resolves(w, self, choice) {
        assert PlayerOk(w, self);
        ResolveBattlePreservesInv(w1, self, w[self].opponentNetId);
      }
    }
  }

  // ---------------------------------------------------------------------------
  // Sequences of server events

  /** One event the server handles; a command names the player it was sent to. */
  datatype Command =
    | Join(id: NetId)
    | Challenge(caller: NetId, targetNetId: NetId)
    | Respond(caller: NetId, accept: bool)
    | Select(caller: NetId, choice: RPSChoice)

  /**
    Join is a new connection's player being spawned under a fresh id and initialised
    (OnServerAddPlayer); Mirror hands out ids from 1 and never reuses a live one, so a
    Join of 0 or of a spawned id does not happen and is ignored here. A command for a
    player that is not spawned never arrives.
   */
  function Apply(w: World, c: Command): (s: Step)
    ensures w.Keys <= s.world.Keys
    ensures c.Join? && c.id !in w && c.id != NoOpponent ==> s == Step(w[c.id := Initialized(c.id)], [])
    ensures c.Join? && (c.id in w || c.id == NoOpponent) ==> s == Step(w, [])
    ensures !c.Join? ==> s.world.Keys == w.Keys
    ensures !c.Join? && c.caller !in w ==> s == Step(w, [])
  {
    match c
    case Join(id) => if id in w || id == NoOpponent then Step(w, []) else Step(w[id := Initialized(id)], [])
    case Challenge(caller, target) => if caller in w then RequestChallenge(w, caller, target) else Step(w, [])
    case Respond(caller, accept) => if caller in w then RespondToChallenge(w, caller, accept) else Step(w, [])
    case Select(caller, choice) => if caller in w then SelectChoice(w, caller, choice) else Step(w, [])
  }

  /** The commands handled one after the other, with every notification in the order sent. */
  function Run(w: World, cmds: seq<Command>): (s: Step)
    decreases |cmds|
  {
    if cmds == [] then Step(w, [])
    else
      var first := Apply(w, cmds[0]);
      var rest := Run(first.world, cmds[1..]);
      Step(rest.world, first.sent + rest.sent)
  }

  lemma ApplyPreservesInv(w: World, c: Command)
    requires Inv(w)
    ensures Inv(Apply(w, c).world)
  {
    match c
    case Join(id) =>
      if id !in w && id != NoOpponent {
        var w' := w[id := Initialized(id)];
        forall x | x in w' ensures PlayerOk(w', x) {
          if x != id {
            assert PlayerOk(w, x);
          }
        }
      }
    case Challenge(caller, target) =>
      if caller in w && w[caller].state == Idle && target in w {
        StartChallengePreservesInv(w, caller, target);
      }
    case Respond(caller, accept) =>
      if caller in w {
        RespondToChallengePreservesInv(w, caller, accept);
      }
    case Select(caller, choice) =>
      if caller in w {
        SelectChoicePreservesInv(w, caller, choice);
      }
  }

  /** Every sequence of events without a disconnect keeps the pairing invariant. */
  lemma {:induction false} RunPreservesInv(w: World, cmds: seq<Command>)
    requires Inv(w)
    ensures Inv(Run(w, cmds).world)
    decreases |cmds|
  {
    if cmds != [] {
      ApplyPreservesInv(w, cmds[0]);
      RunPreservesInv(Apply(w, cmds[0]).world, cmds[1..]);
    }
  }

  /**
    From a server with no players, whatever joins and commands arrive (a disconnect is
    not among them), no player is ever Completed, holds a choice outside Selecting, or is
    left in a one-sided pairing.
   */
  lemma ReachableInv(cmds: seq<Command>)
    ensures Inv(Run(map[], cmds).world)
    ensures forall id | id in Run(map[], cmds).world :: Run(map[], cmds).world[id].state != Completed
  {
    RunPreservesInv(map[], cmds);
    var w := Run(map[], cmds).world;
    forall id | id in w ensures w[id].state != Completed {
      assert PlayerOk(w, id);
    }
  }

  // ---------------------------------------------------------------------------
  // Selection

  /**
    Once a real move is picked the pick is final: a second CmdSelectChoice from the same
    player, whatever it carries, is ignored.
   */
  lemma SelectChoiceIdempotent(w: World, self: NetId, choice: RPSChoice, again: RPSChoice)
    requires self in w && choice != None
    ensures var s := SelectChoice(w, self, choice);
      SelectChoice(s.world, self, again) == Step(s.world, [])
  {
    var s := SelectChoice(w, self, choice);
    if CanSelect(w, self) && Resolves(w, self, choice) {
      var w1 := w[self := w[self].(myChoice := choice)];
      assert s.world[self] == ResetBattleState(w1[self]);
    }
  }

  /**
    Picking None is accepted and, when the opponent has not picked, leaves the player
    free to pick again: the pick is not locked in.
   */
  lemma SelectNoneDoesNotLock(w: World, self: NetId, again: RPSChoice)
    requires self in w && CanSelect(w, self) && !Resolves(w, self, None)
    ensures var s := SelectChoice(w, self, None);
      s.world == w && CanSelect(s.world, self)
      && SelectChoice(s.world, self, again) == SelectChoice(w, self, again)
  {
    var s := SelectChoice(w, self, None);
    assert s.world[self] == w[self];
  }

  /**
    If the opponent has picked, a pick of None is resolved at once and loses: the caller
    is shown -1 and the opponent 1, whatever the opponent picked.
   */
  lemma SelectNoneLoses(w: World, self: NetId)
    requires self in w && CanSelect(w, self) && Resolves(w, self, None)
    ensures var s := SelectChoice(w, self, None);
      |s.sent| == 3 && s.sent[1].ShowResult? && s.sent[1].to == self && s.sent[1].result == -1
      && s.sent[2].ShowResult? && s.sent[2].to == w[self].opponentNetId && s.sent[2].result == 1
  {
    var o := w[self].opponentNetId;
    var w1 := w[self := w[self].(myChoice := None)];
    assert o != self && w1[o].myChoice != None;
    CompareWithNone(w1[o].myChoice);
  }

  /**
    A resolution between two real moves shows each side the outcome from its own point of
    view: the second player's result is Compare of its own move against the first's.
   */
  lemma ResolveBattleFair(w: World, a: NetId, b: NetId)
    requires a in w && b in w && IsMove(w[a].myChoice) && IsMove(w[b].myChoice)
    ensures var s := ResolveBattle(w, a, b);
      && s.sent[0].result == Compare(w[a].myChoice, w[b].myChoice)
      && s.sent[1].result == Compare(w[b].myChoice, w[a].myChoice)
      && (s.sent[0].result == 1 <==> Beats(w[a].myChoice, w[b].myChoice))
      && (s.sent[1].result == 1 <==> Beats(w[b].myChoice, w[a].myChoice))
  {
    CompareAntisymmetric(w[a].myChoice, w[b].myChoice);
  }

  /**
    When the first side holds a byte outside the declared values and the second side a
    different value, the first is shown -1 and the second 1: the negation makes the
    second side the winner, although Compare from its own side says -1.
   */
  lemma ResolveBattleOutOfRange(w: World, a: NetId, b: NetId)
    requires a in w && b in w && w[a].myChoice.OutOfRange? && w[b].myChoice != w[a].myChoice
    ensures var s := ResolveBattle(w, a, b);
      && s.sent[0].result == -1 && s.sent[1].result == 1
      && Compare(w[b].myChoice, w[a].myChoice) == -1
  {
    CompareOutOfRange(w[a].myChoice, w[b].myChoice);
  }

  /**
    In a battle where neither side has picked, an out-of-range byte picked first wins: the
    second pick resolves with the second picker as the first argument of ResolveBattle,
    which is shown Compare(its move, the byte) == -1, and the byte's side is shown 1.
   */
  lemma SelectOutOfRangeFirstWins(w: World, a: NetId, b: NetId, m: RPSChoice, x: RPSChoice)
    requires a != b && Paired(w, a, b, Selecting)
    requires w[a].myChoice == None && w[b].myChoice == None
    requires x.OutOfRange? && IsMove(m)
    ensures Run(w, [Select(b, x), Select(a, m)]).sent
      == [Waiting(b, x), Waiting(a, m), ShowResult(a, -1, m, x), ShowResult(b, 1, x, m)]
  {
    var cmds := [Select(b, x), Select(a, m)];
    var s1 := Apply(w, cmds[0]);
    assert !Resolves(w, b, x);
    assert s1.world[b].myChoice == x && s1.world[a] == w[a];
    assert Resolves(s1.world, a, m);
    CompareOutOfRange(x, m);
    assert Run(s1.world, cmds[1..]) == Apply(s1.world, cmds[1]);
  }

  /**
    The other order of the same battle: an out-of-range byte picked last resolves with
    its own side first, and that side is shown -1 and the playable move's side 1.
   */
  lemma SelectOutOfRangeLastLoses(w: World, a: NetId, b: NetId, m: RPSChoice, x: RPSChoice)
    requires a != b && Paired(w, a, b, Selecting)
    requires w[a].myChoice == None && w[b].myChoice == None
    requires x.OutOfRange? && IsMove(m)
    ensures Run(w, [Select(a, m), Select(b, x)]).sent
      == [Waiting(a, m), Waiting(b, x), ShowResult(b, -1, x, m), ShowResult(a, 1, m, x)]
  {
    var cmds := [Select(a, m), Select(b, x)];
    var s1 := Apply(w, cmds[0]);
    assert !Resolves(w, a, m);
    assert s1.world[a].myChoice == m && s1.world[b] == w[b];
    assert Resolves(s1.world, b, x);
    CompareOutOfRange(x, m);
    assert Run(s1.world, cmds[1..]) == Apply(s1.world, cmds[1]);
  }

  // ---------------------------------------------------------------------------
  // Disconnection

  /**
    `self` is in a challenge or a battle with an opponent that is no longer spawned,
    and nobody else names it as opponent.
   */
  predicate Orphaned(w: World, self: NetId)
  {
    && self in w && self != NoOpponent
    && (w[self].state == WaitingConfirm || w[self].state == Selecting)
    && w[self].opponentNetId !in w
    && forall x | x in w && x != self :: w[x].opponentNetId != self
  }

  /**
    OnServerDisconnect only forgets the departed player; when that player was in a
    pending challenge or a battle, its opponent keeps its state and an opponent id
    that no longer resolves.
   */
  lemma DisconnectOrphans(w: World, a: NetId, b: NetId)
    requires Inv(w) && a in w && a != b
    requires w[a].state == WaitingConfirm || w[a].state == Selecting
    requires w[a].opponentNetId == b
    ensures Orphaned(w - {b}, a)
    ensures !Inv(w - {b})
  {
    assert PlayerOk(w, a);
    var w' := w - {b};
    forall x | x in w' && x != a ensures w'[x].opponentNetId != a {
      assert PlayerOk(w, x);
      if w[x].opponentNetId == a {
        OnlyPartnerPointsAt(w, x, a);
      }
    }
    assert !PlayerOk(w', a);
  }

  /**
    No event other than the departed id joining again frees an orphaned player: it keeps
    its state and its dangling opponent id. The only change it can see is its own first
    pick while Selecting, which is recorded but never resolved.
   */
  lemma OrphanedStep(w: World, self: NetId, c: Command)
    requires Orphaned(w, self)
    requires c != Join(w[self].opponentNetId)
    ensures Orphaned(Apply(w, c).world, self)
    ensures Apply(w, c).world[self].state == w[self].state
    ensures Apply(w, c).world[self].opponentNetId == w[self].opponentNetId
    ensures !(c.Select? && c.caller == self) ==> Apply(w, c).world[self] == w[self]
  {
    var w' := Apply(w, c).world;
    match c
    case Join(id) =>
    case Challenge(caller, target) =>
    case Respond(caller, accept) =>
      if caller in w {
        OrphanedRespond(w, self, caller, accept);
      }
    case Select(caller, choice) =>
      if caller in w {
        OrphanedSelect(w, self, caller, choice);
      }
  }

  /** OrphanedStep for an answer to a challenge. */
  lemma OrphanedRespond(w: World, self: NetId, caller: NetId, accept: bool)
    requires Orphaned(w, self) && caller in w
    ensures Orphaned(RespondToChallenge(w, caller, accept).world, self)
    ensures RespondToChallenge(w, caller, accept).world[self] == w[self]
  {
    var w' := RespondToChallenge(w, caller, accept).world;
    if CanRespond(w, caller) {
      assert caller != self;
      forall x | x in w' && x != self ensures w'[x].opponentNetId != self {
        assert w[x].opponentNetId != self;
      }
    }
  }

  /** OrphanedStep for a pick: only the orphan's own first pick touches its record. */
  lemma OrphanedSelect(w: World, self: NetId, caller: NetId, choice: RPSChoice)
    requires Orphaned(w, self) && caller in w
    ensures Orphaned(SelectChoice(w, caller, choice).world, self)
    ensures SelectChoice(w, caller, choice).world[self].state == w[self].state
    ensures SelectChoice(w, caller, choice).world[self].opponentNetId == w[self].opponentNetId
    ensures caller != self ==> SelectChoice(w, caller, choice).world[self] == w[self]
  {
    var w' := SelectChoice(w, caller, choice).world;
    if CanSelect(w, caller) {
      if caller == self {
        assert !Resolves(w, self, choice);
      } else {
        forall x | x in w' && x != self ensures w'[x].opponentNetId != self {
          assert w[x].opponentNetId != self;
        }
      }
    }
  }

  /**
    Without a forced reset on disconnect, an orphaned player never leaves its challenge
    or battle: no later sequence of events changes its state or its opponent id, and
    one left WaitingConfirm keeps its whole record.
   */
  lemma {:induction false} OrphanedForever(w: World, self: NetId, cmds: seq<Command>)
    requires Orphaned(w, self)
    requires forall i | 0 <= i < |cmds| :: cmds[i] != Join(w[self].opponentNetId)
    ensures Orphaned(Run(w, cmds).world, self)
    ensures Run(w, cmds).world[self].state == w[self].state
    ensures Run(w, cmds).world[self].opponentNetId == w[self].opponentNetId
    ensures w[self].state == WaitingConfirm ==> Run(w, cmds).world[self] == w[self]
    decreases |cmds|
  {
    if cmds != [] {
      OrphanedStep(w, self, cmds[0]);
      if cmds[0].Select? && cmds[0].caller == self && w[self].state == WaitingConfirm {
        assert !CanSelect(w, self);
      }
      OrphanedForever(Apply(w, cmds[0]).world, self, cmds[1..]);
    }
  }

  // ---------------------------------------------------------------------------
  // A complete duel

  /** Player `a` challenges the Idle player `b`. */
  lemma ChallengeStep(w: World, a: NetId, b: NetId)
    requires w.Keys == {a, b} && a != b && Cleared(w[a]) && Cleared(w[b])
    ensures var s := Apply(w, Challenge(a, b));
      && s.sent == [ChallengerUI(a, b), OpponentUI(b, a)]
      && s.world.Keys == {a, b} && Paired(s.world, b, a, WaitingConfirm)
      && s.world[a].myChoice == None && s.world[b].myChoice == None
  {
    assert RequestChallenge(w, a, b) == StartChallenge(w, a, b);
  }

  /** Player `b` accepts the challenge it is waiting on. */
  lemma AcceptStep(w: World, a: NetId, b: NetId)
    requires w.Keys == {a, b} && Paired(w, b, a, WaitingConfirm)
    ensures var s := Apply(w, Respond(b, true));
      && s.sent == [StartSelection(b), StartSelection(a)]
      && s.world.Keys == {a, b} && Paired(s.world, a, b, Selecting)
      && s.world[a].myChoice == None && s.world[b].myChoice == None
  {
    assert CanRespond(w, b);
  }

  /** Player `a` picks Rock, then player `b` picks Scissors, which settles the battle. */
  lemma PickSteps(w: World, a: NetId, b: NetId)
    requires w.Keys == {a, b} && a != b && Paired(w, a, b, Selecting)
    requires w[a].myChoice == None && w[b].myChoice == None
    ensures var s := Run(w, [Select(a, Rock), Select(b, Scissors)]);
      && s.sent == [Waiting(a, Rock), Waiting(b, Scissors),
                    ShowResult(b, -1, Scissors, Rock), ShowResult(a, 1, Rock, Scissors)]
      && s.world.Keys == {a, b} && Cleared(s.world[a]) && Cleared(s.world[b])
  {
    var cmds := [Select(a, Rock), Select(b, Scissors)];
    var s1 := Apply(w, cmds[0]);
    assert !Resolves(w, a, Rock);
    assert s1.world[a].myChoice == Rock && s1.world[b] == w[b];
    assert Resolves(s1.world, b, Scissors);
    var s2 := Apply(s1.world, cmds[1]);
    assert Run(s1.world, cmds[1..]) == s2;
  }

  /**
    Two distinct Idle players: `a` challenges `b`, `b` accepts, `a` picks Rock and `b`
    Scissors. The second pick resolves the battle once: `b` is shown (-1, Scissors,
    Rock), `a` (1, Rock, Scissors), and both end Idle.
   */
  lemma DuelRockBeatsScissors(w: World, a: NetId, b: NetId)
    requires w.Keys == {a, b} && a != b && Cleared(w[a]) && Cleared(w[b])
    ensures var s := Run(w, [Challenge(a, b), Respond(b, true), Select(a, Rock), Select(b, Scissors)]);
      && s.sent == [ChallengerUI(a, b), OpponentUI(b, a), StartSelection(b), StartSelection(a),
                    Waiting(a, Rock), Waiting(b, Scissors),
                    ShowResult(b, -1, Scissors, Rock), ShowResult(a, 1, Rock, Scissors)]
      && s.world.Keys == {a, b} && Cleared(s.world[a]) && Cleared(s.world[b])
  {
    var picks := [Select(a, Rock), Select(b, Scissors)];
    var rest := [Respond(b, true)] + picks;
    ChallengeStep(w, a, b);
    var s1 := Apply(w, Challenge(a, b));
    AcceptStep(s1.world, a, b);
    var s2 := Apply(s1.world, Respond(b, true));
    PickSteps(s2.world, a, b);
    var r2 := Run(s2.world, picks);
    assert rest[1..] == picks;
    var r1 := Run(s1.world, rest);
    assert r1 == Step(r2.world, s2.sent + r2.sent);
    assert ([Challenge(a, b)] + rest)[1..] == rest;
    assert Run(w, [Challenge(a, b)] + rest) == Step(r1.world, s1.sent + r1.sent);
    assert [Challenge(a, b)] + rest == [Challenge(a, b), Respond(b, true), Select(a, Rock), Select(b, Scissors)];
  }
}
