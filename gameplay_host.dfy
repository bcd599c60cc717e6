/**
 * The player and world-observation logic of the gameplay host: how
 * auto-possession scores pooled nodes and picks one, how a joining player is
 * given a player index and a default name, and how the host diffs the
 * connections, levels and local players it has seen against the world's
 * current ones.
 */
module Gameplay {
  import opened Common
  import opened Text
  import opened Handles

  /** The optional subsystems compiled in: physics, input and the renderer. */
  datatype Features = Features(physics: bool, input: bool, renderer: bool)

  /** What auto-possession reads off a pooled node: its handle, type, flags and scored component types. */
  datatype NodeView = NodeView(handle: Handle, isLocalPlayer: bool, active: bool, pendingDestroy: bool,
                               hasMovement: bool, hasInput: bool, hasCamera: bool)

  /** A LocalPlayer node: handle, node name, owning connection, player index, replication flag and possessed node. */
  datatype PlayerView = PlayerView(handle: Handle, name: string, owner: U64, index: U32, replicated: bool, possessed: Handle)

  /** The network role the host reports (IsClient, IsListenServer). */
  datatype NetRole = NetRole(isClient: bool, isListenServer: bool)

  const MovementScore := 100
  const InputScore := 80
  const CameraScore := 30

  // ---------------------------------------------------------------------------
  // Auto-possession
  // ---------------------------------------------------------------------------

  /** A node auto-possession considers at all: not a player, active and not being destroyed. */
  predicate Possessable(n: NodeView) {
    !n.isLocalPlayer && n.active && !n.pendingDestroy
  }

  /** The node carries a scored component whose subsystem is compiled in (input scores only with physics). */
  predicate HasScoredComponent(n: NodeView, f: Features) {
    (f.physics && n.hasMovement) || (f.input && f.physics && n.hasInput) || (f.renderer && n.hasCamera)
  }

  /**
   * `ScoreAutoPossessTarget`: -1 rules a node out; otherwise each scored
   * component adds its weight, so a node scores above zero exactly when it
   * has one.
   */
  function ScoreAutoPossessTarget(n: NodeView, f: Features): (r: int)
    ensures r == -1 <==> !Possessable(n)
    ensures r > 0 <==> Possessable(n) && HasScoredComponent(n, f)
    ensures Possessable(n) ==> 0 <= r <= MovementScore + InputScore + CameraScore
    ensures Possessable(n) && f.physics && n.hasMovement ==> r >= MovementScore
    ensures Possessable(n) && f.input && f.physics && n.hasInput ==> r >= InputScore
    ensures Possessable(n) && f.renderer && n.hasCamera ==> r >= CameraScore
  {
    if n.isLocalPlayer then -1
    else if !n.active || n.pendingDestroy then -1
    else
      (if f.physics && n.hasMovement then MovementScore else 0)
      + (if f.input && f.physics && n.hasInput then InputScore else 0)
      + (if f.renderer && n.hasCamera then CameraScore else 0)
  }

  /** Every scored component `b` has, `a` has too. */
  predicate ComponentsCover(a: NodeView, b: NodeView, f: Features) {
    (f.physics && b.hasMovement ==> a.hasMovement)
    && (f.input && f.physics && b.hasInput ==> a.hasInput)
    && (f.renderer && b.hasCamera ==> a.hasCamera)
  }

  /** Adding a scored component never lowers the score, and an extra one raises it. */
  lemma ScoreMonotone(a: NodeView, b: NodeView, f: Features)
    requires Possessable(a) && Possessable(b) && ComponentsCover(a, b, f)
    ensures ScoreAutoPossessTarget(a, f) >= ScoreAutoPossessTarget(b, f)
    ensures !ComponentsCover(b, a, f) ==> ScoreAutoPossessTarget(a, f) > ScoreAutoPossessTarget(b, f)
  {
  }

  /** Some player possesses the node with this id. */
  predicate Claimed(players: seq<PlayerView>, id: Uuid) {
    exists k :: 0 <= k < |players| && IsSet(players[k].possessed) && players[k].possessed.id == id
  }

  /** Node `k` may be auto-possessed: no player holds it and it scores above zero. */
  predicate Eligible(nodes: seq<NodeView>, players: seq<PlayerView>, f: Features, k: int) {
    0 <= k < |nodes| && !Claimed(players, nodes[k].handle.id) && ScoreAutoPossessTarget(nodes[k], f) > 0
  }

  /** Node `b` wins: eligible, scoring at least as much as every eligible node and more than every earlier one. */
  predicate Best(nodes: seq<NodeView>, players: seq<PlayerView>, f: Features, b: int) {
    Eligible(nodes, players, f, b)
    && forall j :: 0 <= j < |nodes| && Eligible(nodes, players, f, j) ==>
      ScoreAutoPossessTarget(nodes[j], f) <= ScoreAutoPossessTarget(nodes[b], f)
      && (j < b ==> ScoreAutoPossessTarget(nodes[j], f) < ScoreAutoPossessTarget(nodes[b], f))
  }

  /**
   * The winner among the first `n` pooled nodes, as the scan leaves it: the
   * position of the first eligible node with the highest score, -1 when none
   * of them is eligible.
   */
  function Winner(nodes: seq<NodeView>, players: seq<PlayerView>, f: Features, n: nat): (w: int)
    requires n <= |nodes|
    ensures -1 <= w < n
  {
    if n == 0 then -1
    else
      var w := Winner(nodes, players, f, n - 1);
      if Eligible(nodes, players, f, n - 1)
         && (w == -1 || ScoreAutoPossessTarget(nodes[n - 1], f) > ScoreAutoPossessTarget(nodes[w], f))
      then n - 1 else w
  }

  /**
   * The scan's winner is eligible and beats every eligible node before it
   * and ties or beats every one after it; there is none exactly when no node
   * of the prefix is eligible.
   */
  lemma {:induction false} WinnerIsBest(nodes: seq<NodeView>, players: seq<PlayerView>, f: Features, n: nat)
    requires n <= |nodes|
    ensures var w := Winner(nodes, players, f, n);
      && (w == -1 <==> forall j :: 0 <= j < n ==> !Eligible(nodes, players, f, j))
      && (w != -1 ==> Eligible(nodes, players, f, w))
      && (w != -1 ==> forall j :: 0 <= j < n && Eligible(nodes, players, f, j) ==>
            ScoreAutoPossessTarget(nodes[j], f) <= ScoreAutoPossessTarget(nodes[w], f)
            && (j < w ==> ScoreAutoPossessTarget(nodes[j], f) < ScoreAutoPossessTarget(nodes[w], f)))
  {
    if n > 0 {
      WinnerIsBest(nodes, players, f, n - 1);
    }
  }

  /** The node auto-possession settles on: the winner's handle, or the null handle. */
  function AutoPossessTarget(nodes: seq<NodeView>, players: seq<PlayerView>, f: Features): (r: Handle)
    ensures (forall k :: !Eligible(nodes, players, f, k)) ==> r == NullHandle
    ensures (exists k :: Eligible(nodes, players, f, k)) ==> exists b :: Best(nodes, players, f, b) && r == nodes[b].handle
  {
    var w := Winner(nodes, players, f, |nodes|);
    WinnerIsBest(nodes, players, f, |nodes|);
    if w == -1 then NullHandle
    else
      assert Best(nodes, players, f, w);
      nodes[w].handle
  }

  /**
   * `FindAutoPossessTarget`: over the pool in iteration order, the unclaimed
   * node with the highest positive score, the first one on a tie; the null
   * handle when no node qualifies.
   */
  method FindAutoPossessTarget(nodes: seq<NodeView>, players: seq<PlayerView>, f: Features) returns (r: Handle)
    ensures r == AutoPossessTarget(nodes, players, f)
  {
    var claimed: set<Uuid> := {};
    var i := 0;
    while i < |players|
      invariant i <= |players|
      invariant forall id :: id in claimed <==> exists k :: 0 <= k < i && IsSet(players[k].possessed) && players[k].possessed.id == id
    {
      if IsSet(players[i].possessed) {
        claimed := claimed + {players[i].possessed.id};
      }
      i := i + 1;
    }
    assert forall id :: id in claimed <==> Claimed(players, id);

    r := NullHandle;
    var bestScore := -1;
    ghost var best := -1;
    var n := 0;
    while n < |nodes|
      invariant n <= |nodes|
      invariant best == Winner(nodes, players, f, n)
      invariant r == (if best == -1 then NullHandle else nodes[best].handle)
      invariant bestScore == (if best == -1 then -1 else ScoreAutoPossessTarget(nodes[best], f))
    {
      if nodes[n].handle.id !in claimed {
        var score := ScoreAutoPossessTarget(nodes[n], f);
        if score > 0 && score > bestScore {
          bestScore := score;
          r := nodes[n].handle;
          best := n;
        }
      }
      n := n + 1;
    }
  }

  // ---------------------------------------------------------------------------
  // Players of one connection
  // ---------------------------------------------------------------------------

  /** The players a connection owns, in pool order. */
  function PlayersOf(players: seq<PlayerView>, owner: U64): (r: seq<PlayerView>)
    ensures |r| <= |players|
    ensures forall p :: p in r <==> p in players && p.owner == owner
  {
    if players == [] then []
    else
      var last := players[|players| - 1];
      PlayersOf(players[..|players| - 1], owner) + (if last.owner == owner then [last] else [])
  }

  /** `LocalPlayersForConnection`: the players owned by `owner`, in order. */
  method LocalPlayersForConnection(players: seq<PlayerView>, owner: U64) returns (matches: seq<PlayerView>)
    ensures matches == PlayersOf(players, owner)
  {
    matches := [];
    var i := 0;
    while i < |players|
      invariant i <= |players|
      invariant matches == PlayersOf(players[..i], owner)
    {
      assert players[..i + 1][..i] == players[..i];
      if players[i].owner == owner {
        matches := matches + [players[i]];
      }
      i := i + 1;
    }
    assert players[..i] == players;
  }

  /** A player of `owner` already holds player index `j`. */
  predicate IndexTaken(players: seq<PlayerView>, owner: U64, j: int) {
    exists k :: 0 <= k < |players| && players[k].owner == owner && players[k].index == j
  }

  /** Every player in the connection's list is one of the players, owned by that connection. */
  lemma MatchIsPlayer(players: seq<PlayerView>, owner: U64, k: nat)
    requires k < |PlayersOf(players, owner)|
    ensures exists q :: 0 <= q < |players| && players[q] == PlayersOf(players, owner)[k] && players[q].owner == owner
  {
    assert PlayersOf(players, owner)[k] in PlayersOf(players, owner);
  }

  /** Every player of the connection appears in the connection's list. */
  lemma PlayerIsMatch(players: seq<PlayerView>, owner: U64, q: nat)
    requires q < |players| && players[q].owner == owner
    ensures exists k :: 0 <= k < |PlayersOf(players, owner)| && PlayersOf(players, owner)[k] == players[q]
  {
    assert players[q] in players;
    assert players[q] in PlayersOf(players, owner);
  }

  /** An index of the connection's players is an index some player of that owner holds, and back. */
  lemma TakenThroughMatches(players: seq<PlayerView>, owner: U64, j: int)
    ensures (exists k :: 0 <= k < |PlayersOf(players, owner)| && PlayersOf(players, owner)[k].index == j) <==> IndexTaken(players, owner, j)
  {
    var m := PlayersOf(players, owner);
    if k :| 0 <= k < |m| && m[k].index == j {
      MatchIsPlayer(players, owner, k);
    }
    if q :| 0 <= q < |players| && players[q].owner == owner && players[q].index == j {
      PlayerIsMatch(players, owner, q);
    }
  }

  /** `idx` is the least player index the owner has free. */
  predicate LeastFree(players: seq<PlayerView>, owner: U64, idx: int) {
    0 <= idx < U32Max && !IndexTaken(players, owner, idx) && forall j :: 0 <= j < idx ==> IndexTaken(players, owner, j)
  }

  /**
   * `FirstAvailablePlayerIndexForOwner`: the least index below the largest
   * `unsigned int` that none of the owner's players holds; none when every
   * such index is taken.
   */
  method FirstAvailablePlayerIndexForOwner(players: seq<PlayerView>, owner: U64) returns (r: Option<U32>)
    ensures r.Some? ==> LeastFree(players, owner, r.value)
    ensures r.None? ==> forall j :: 0 <= j < U32Max ==> IndexTaken(players, owner, j)
  {
    var matches := LocalPlayersForConnection(players, owner);
    var used: set<int> := {};
    var i := 0;
    while i < |matches|
      invariant i <= |matches|
      invariant forall j :: j in used <==> exists k :: 0 <= k < i && matches[k].index == j
    {
      used := used + {matches[i].index};
      i := i + 1;
    }
    forall j | true
      ensures j in used <==> IndexTaken(players, owner, j)
    {
      TakenThroughMatches(players, owner, j);
    }
    var c := 0;
    while c < U32Max
      invariant c <= U32Max
      invariant forall j :: 0 <= j < c ==> IndexTaken(players, owner, j)
    {
      if c !in used {
        return Some(c);
      }
      c := c + 1;
    }
    return None;
  }

  /** Position `k` of `m` is the first player there with player index `index`. */
  predicate FirstWithIndex(m: seq<PlayerView>, index: U32, k: int) {
    0 <= k < |m| && m[k].index == index && forall j :: 0 <= j < k ==> m[j].index != index
  }

  /**
   * `FindLocalPlayerByOwnerAndIndex`: the handle of the owner's first player
   * with that index, or the null handle when the owner has none.
   */
  method FindLocalPlayerByOwnerAndIndex(players: seq<PlayerView>, owner: U64, index: U32) returns (r: Handle)
    ensures (forall k :: 0 <= k < |PlayersOf(players, owner)| ==> PlayersOf(players, owner)[k].index != index) ==> r == NullHandle
    ensures (exists k :: 0 <= k < |PlayersOf(players, owner)| && PlayersOf(players, owner)[k].index == index) ==>
      exists k :: FirstWithIndex(PlayersOf(players, owner), index, k) && r == PlayersOf(players, owner)[k].handle
  {
    var matches := LocalPlayersForConnection(players, owner);
    var i := 0;
    while i < |matches|
      invariant i <= |matches|
      invariant forall j :: 0 <= j < i ==> matches[j].index != index
    {
      if matches[i].index == index {
        assert FirstWithIndex(matches, index, i);
        return matches[i].handle;
      }
      i := i + 1;
    }
    return NullHandle;
  }

  // ---------------------------------------------------------------------------
  // Joining players
  // ---------------------------------------------------------------------------

  const LocalPlayerName := "LocalPlayer"
  const RemotePlayerPrefix := "RemotePlayer_"

  /** The default name of a remote player: the prefix, the owner in decimal, `_`, the index in decimal. */
  function RemotePlayerName(owner: nat, index: nat): (r: string)
    ensures |r| > |RemotePlayerPrefix| && r[..|RemotePlayerPrefix|] == RemotePlayerPrefix
  {
    RemotePlayerPrefix + DecimalText(owner) + "_" + DecimalText(index)
  }

  /** The name a joining player gets: its own, else `LocalPlayer` for connection 0, else its remote name. */
  function DefaultPlayerName(name: string, owner: U64, index: U32): (r: string)
    ensures r != ""
    ensures name != "" ==> r == name
    ensures name == "" && owner == 0 ==> r == LocalPlayerName
    ensures name == "" && owner != 0 ==> r == RemotePlayerName(owner, index)
  {
    if name != "" then name else if owner == 0 then LocalPlayerName else RemotePlayerName(owner, index)
  }

  /** The length of the leading run of digits. */
  function DigitRun(s: string): (r: nat)
    ensures r <= |s|
  {
    if s == [] || !IsDigit(s[0]) then 0 else 1 + DigitRun(s[1..])
  }

  lemma {:induction false} DigitRunBeforeUnderscore(a: string, b: string)
    requires AllDigits(a)
    ensures DigitRun(a + "_" + b) == |a|
  {
    if a != [] {
      assert (a + "_" + b)[1..] == a[1..] + "_" + b;
      DigitRunBeforeUnderscore(a[1..], b);
    }
  }

  /** Two digit runs joined by `_` split back into the same runs. */
  lemma DigitsSplit(a1: string, b1: string, a2: string, b2: string)
    requires AllDigits(a1) && AllDigits(a2)
    requires a1 + "_" + b1 == a2 + "_" + b2
    ensures a1 == a2 && b1 == b2
  {
    DigitRunBeforeUnderscore(a1, b1);
    DigitRunBeforeUnderscore(a2, b2);
    assert a1 == (a1 + "_" + b1)[..|a1|];
    assert a2 == (a2 + "_" + b2)[..|a2|];
    assert b1 == (a1 + "_" + b1)[|a1| + 1..];
    assert b2 == (a2 + "_" + b2)[|a2| + 1..];
  }

  /** Remote default names tell owners and indices apart: equal names mean the same owner and index. */
  lemma RemotePlayerNamesDistinct(o1: nat, i1: nat, o2: nat, i2: nat)
    requires RemotePlayerName(o1, i1) == RemotePlayerName(o2, i2)
    ensures o1 == o2 && i1 == i2
  {
    var n := |RemotePlayerPrefix|;
    assert RemotePlayerName(o1, i1)[n..] == DecimalText(o1) + "_" + DecimalText(i1);
    assert RemotePlayerName(o2, i2)[n..] == DecimalText(o2) + "_" + DecimalText(i2);
    DigitsSplit(DecimalText(o1), DecimalText(i1), DecimalText(o2), DecimalText(i2));
    DecimalTextValue(o1);
    DecimalTextValue(o2);
    DecimalTextValue(i1);
    DecimalTextValue(i2);
  }

  /** No two players share an owner and a player index. */
  predicate SlotsUnique(players: seq<PlayerView>) {
    forall i, j :: 0 <= i < j < |players| ==> players[i].owner != players[j].owner || players[i].index != players[j].index
  }

  predicate HandlesSet(players: seq<PlayerView>) {
    forall k :: 0 <= k < |players| ==> IsSet(players[k].handle)
  }

  /**
   * `CreateLocalPlayer`: the world creates the node (its outcome is
   * `created`); the new player appears last with an empty name replaced by
   * `LocalPlayer`, the given index, owner and replication flag, possessing
   * nothing.
   */
  method CreateLocalPlayer(players: seq<PlayerView>, name: string, index: U32, replicated: bool, owner: U64, created: Result<Handle>)
    returns (r: Result<Handle>, next: seq<PlayerView>)
    ensures r == created
    ensures created.Err? ==> next == players
    ensures created.Ok? ==> next == players + [PlayerView(created.value, if name == "" then LocalPlayerName else name, owner, index, replicated, NullHandle)]
  {
    var effectiveName := name;
    if effectiveName == "" {
      effectiveName := LocalPlayerName;
    }
    if created.Err? {
      return created, players;
    }
    next := players + [PlayerView(created.value, effectiveName, owner, index, replicated, NullHandle)];
    r := created;
  }

  // ---------------------------------------------------------------------------
  // Initial possession
  // ---------------------------------------------------------------------------

  /**
   * What the possession step asks before falling back to auto-possession,
   * with the answers given for the player at hand: the game mode's pick (only
   * asked on a server that has a game mode), the game's pick (only asked when
   * there is a game), and the picks of the initialised services in start
   * order. `inWorld` holds the non-null handles that borrow a node of the
   * player's world.
   */
  datatype PossessionSources = PossessionSources(gameModePick: Option<Handle>, gamePick: Option<Handle>,
                                                 servicePicks: seq<Handle>, inWorld: set<Handle>)

  /** `IsValidPossessionTargetForPlayer`: the null handle, or a node in the player's world. */
  predicate ValidTarget(src: PossessionSources, t: Handle) {
    IsNull(t) || t in src.inWorld
  }

  /** An answer that is a usable target: given, not null and valid. */
  predicate Picked(src: PossessionSources, pick: Option<Handle>) {
    pick.Some? && IsSet(pick.value) && ValidTarget(src, pick.value)
  }

  /**
   * The service loop's outcome: the first pick that is neither null nor
   * invalid, in start order; the null handle when there is none.
   */
  function FirstServicePick(picks: seq<Handle>, src: PossessionSources): (t: Handle)
    ensures IsSet(t) ==> t in picks && t in src.inWorld
    ensures IsSet(t) ==> exists k :: (0 <= k < |picks| && picks[k] == t
                                      && forall j :: 0 <= j < k ==> !(IsSet(picks[j]) && ValidTarget(src, picks[j])))
    ensures IsNull(t) ==> t == NullHandle && forall j :: 0 <= j < |picks| ==> !(IsSet(picks[j]) && ValidTarget(src, picks[j]))
  {
    if picks == [] then NullHandle
    else if IsSet(picks[0]) && ValidTarget(src, picks[0]) then picks[0]
    else
      var t := FirstServicePick(picks[1..], src);
      assert forall j :: 1 <= j < |picks| ==> picks[j] == picks[1..][j - 1];
      t
  }

  /**
   * The target the possession step settles on, `auto` being what
   * auto-possession finds: the null handle or a node of the player's world.
   */
  function ChosenTarget(src: PossessionSources, auto: Handle): (t: Handle)
    ensures IsNull(t) || t in src.inWorld
  {
    if Picked(src, src.gameModePick) then src.gameModePick.value
    else if Picked(src, src.gamePick) then src.gamePick.value
    else if IsSet(FirstServicePick(src.servicePicks, src)) then FirstServicePick(src.servicePicks, src)
    else if IsSet(auto) && ValidTarget(src, auto) then auto
    else NullHandle
  }

  /** The player after the possession step: one already possessing keeps its node; otherwise it takes the chosen target, if any. */
  function Possess(p: PlayerView, src: PossessionSources, auto: Handle): (q: PlayerView)
    ensures q == p.(possessed := q.possessed)
    ensures IsSet(p.possessed) ==> q == p
    ensures IsNull(p.possessed) && IsSet(q.possessed) ==> q.possessed in src.inWorld
  {
    if IsSet(p.possessed) then p
    else if IsSet(ChosenTarget(src, auto)) then p.(possessed := ChosenTarget(src, auto))
    else p
  }

  /**
   * The order in which the possession step consults its sources: a valid
   * game-mode pick wins; the game's pick counts only without one; a service
   * pick only when neither gave one, the first valid one in start order; and
   * auto-possession only when no source gave a target, its node being taken
   * when it lies in the player's world.
   */
  lemma PossessionPriority(p: PlayerView, src: PossessionSources, auto: Handle)
    requires IsNull(p.possessed)
    ensures Picked(src, src.gameModePick) ==> Possess(p, src, auto).possessed == src.gameModePick.value
    ensures !Picked(src, src.gameModePick) && Picked(src, src.gamePick) ==> Possess(p, src, auto).possessed == src.gamePick.value
    ensures !Picked(src, src.gameModePick) && !Picked(src, src.gamePick)
            && (exists j :: 0 <= j < |src.servicePicks| && IsSet(src.servicePicks[j]) && src.servicePicks[j] in src.inWorld) ==>
              Possess(p, src, auto).possessed == FirstServicePick(src.servicePicks, src)
    ensures !Picked(src, src.gameModePick) && !Picked(src, src.gamePick)
            && (forall j :: 0 <= j < |src.servicePicks| ==> IsNull(src.servicePicks[j]) || src.servicePicks[j] !in src.inWorld) ==>
              Possess(p, src, auto).possessed == (if IsSet(auto) && auto in src.inWorld then auto else p.possessed)
  {
  }

  /**
   * With no game mode, game or service answer, an unpossessed player takes
   * the best eligible node: unclaimed, highest positive score, first on a
   * tie, provided it lies in the player's world.
   */
  lemma AutoPossession(p: PlayerView, nodes: seq<NodeView>, players: seq<PlayerView>, f: Features, src: PossessionSources, b: int)
    requires IsNull(p.possessed) && src.gameModePick.None? && src.gamePick.None?
    requires forall j :: 0 <= j < |src.servicePicks| ==> IsNull(src.servicePicks[j])
    requires Best(nodes, players, f, b) && nodes[b].handle in src.inWorld && IsSet(nodes[b].handle)
    ensures Possess(p, src, AutoPossessTarget(nodes, players, f)).possessed == nodes[b].handle
  {
    BestUnique(nodes, players, f, b);
  }

  /** The best node is the only one. */
  lemma BestUnique(nodes: seq<NodeView>, players: seq<PlayerView>, f: Features, b: int)
    requires Best(nodes, players, f, b)
    ensures AutoPossessTarget(nodes, players, f) == nodes[b].handle
  {
    WinnerIsBest(nodes, players, f, |nodes|);
  }

  /**
   * `EnsurePlayerHasPossession`: a player that possesses a node keeps it;
   * otherwise the game mode (on a server), the game and the initialised
   * services are asked in that order, an invalid answer being discarded,
   * then auto-possession; a valid target found is possessed.
   */
  method EnsurePlayerHasPossession(p: PlayerView, players: seq<PlayerView>, nodes: seq<NodeView>, f: Features,
                                   src: PossessionSources) returns (q: PlayerView)
    ensures q == Possess(p, src, AutoPossessTarget(nodes, players, f))
  {
    if IsSet(p.possessed) {
      return p;
    }
    var selected := NullHandle;
    if src.gameModePick.Some? {
      selected := src.gameModePick.value;
      if !ValidTarget(src, selected) {
        selected := NullHandle;
      }
    }
    if IsNull(selected) && src.gamePick.Some? {
      selected := src.gamePick.value;
      if !ValidTarget(src, selected) {
        selected := NullHandle;
      }
    }
    if IsNull(selected) {
      var picks := src.servicePicks;
      var i := 0;
      while i < |picks| && IsNull(selected)
        invariant i <= |picks|
        invariant IsNull(selected) ==> FirstServicePick(picks, src) == FirstServicePick(picks[i..], src)
        invariant IsSet(selected) ==> selected == FirstServicePick(picks, src)
      {
        assert picks[i..][1..] == picks[i + 1..];
        selected := picks[i];
        if IsSet(selected) && !ValidTarget(src, selected) {
          selected := NullHandle;
        }
        i := i + 1;
      }
    }
    if IsNull(selected) {
      selected := FindAutoPossessTarget(nodes, players, f);
    }
    if IsNull(selected) || !ValidTarget(src, selected) {
      return p;
    }
    q := p.(possessed := selected);
  }

  /** The index a join settles on: the preferred one, else the least free one. */
  predicate ChosenIndex(players: seq<PlayerView>, owner: U64, preferred: Option<U32>, idx: int) {
    if preferred.Some? then idx == preferred.value else LeastFree(players, owner, idx)
  }

  /**
   * `Borrowed()` on the handle the lookup found: the position of that player
   * record, of the owner and at the index.
   */
  method PlayerNamed(players: seq<PlayerView>, h: Handle, owner: U64, index: U32) returns (q: nat)
    requires exists k :: 0 <= k < |players| && players[k].handle == h && players[k].owner == owner && players[k].index == index
    ensures q < |players| && players[q].handle == h && players[q].owner == owner && players[q].index == index
  {
    q := 0;
    while !(players[q].handle == h && players[q].owner == owner && players[q].index == index)
      invariant q < |players|
      invariant forall j :: 0 <= j < q ==> !(players[j].handle == h && players[j].owner == owner && players[j].index == index)
      decreases |players| - q
    {
      q := q + 1;
    }
  }

  /** Player `k` is the one a join returns: it has the returned handle, the owner and the chosen index. */
  predicate JoinedExisting(players: seq<PlayerView>, owner: U64, preferred: Option<U32>, h: Handle, k: int) {
    0 <= k < |players| && players[k].handle == h && players[k].owner == owner
    && ChosenIndex(players, owner, preferred, players[k].index)
  }

  /**
   * `p` is the player a join creates: the new handle, the default name, the
   * owner, the chosen index, which no player of the owner held, and the
   * replication flag, after the possession step over the grown player list.
   */
  predicate JoinedNew(players: seq<PlayerView>, owner: U64, name: string, preferred: Option<U32>, replicated: bool,
                      nodes: seq<NodeView>, f: Features, src: PossessionSources, h: Handle, p: PlayerView) {
    var newcomer := PlayerView(h, DefaultPlayerName(name, owner, p.index), owner, p.index, replicated, NullHandle);
    && p == Possess(newcomer, src, AutoPossessTarget(nodes, players + [newcomer], f))
    && ChosenIndex(players, owner, preferred, p.index)
    && (HandlesSet(players) ==> !IndexTaken(players, owner, p.index))
  }

  /**
   * `JoinPlayer`: refused on a pure client; the player index is the preferred
   * one or the owner's least free one; a player already at that owner and
   * index is returned, after the possession step; otherwise a new player is
   * created with the default name and then goes through the possession step.
   * `nodes` is the pool and `src` the possession sources' answers at that
   * step.
   */
  method JoinPlayer(players: seq<PlayerView>, owner: U64, name: string, preferred: Option<U32>, replicated: bool,
                    role: NetRole, created: Result<Handle>, nodes: seq<NodeView>, f: Features, src: PossessionSources)
    returns (r: Result<Handle>, next: seq<PlayerView>)
    ensures role.isClient && !role.isListenServer ==> r == Err(InvalidArgument) && next == players
    ensures r.Err? ==> next == players
    ensures r == Err(InternalError) && created != r ==> preferred.None? && forall j :: 0 <= j < U32Max ==> IndexTaken(players, owner, j)
    ensures r.Ok? && |next| == |players| ==>
      exists k :: (JoinedExisting(players, owner, preferred, r.value, k)
                   && next == players[k := Possess(players[k], src, AutoPossessTarget(nodes, players, f))])
    ensures |next| != |players| ==> (r.Ok? && r == created && |next| == |players| + 1 && next[..|players|] == players
      && JoinedNew(players, owner, name, preferred, replicated, nodes, f, src, r.value, next[|players|]))
    ensures SlotsUnique(players) && HandlesSet(players) ==> SlotsUnique(next)
  {
    if role.isClient && !role.isListenServer {
      return Err(InvalidArgument), players;
    }
    var playerIndex: U32 := 0;
    if preferred.Some? {
      playerIndex := preferred.value;
    } else {
      var available := FirstAvailablePlayerIndexForOwner(players, owner);
      if available.None? {
        return Err(InternalError), players;
      }
      playerIndex := available.value;
    }
    var existing := FindLocalPlayerByOwnerAndIndex(players, owner, playerIndex);
    if IsSet(existing) {
      ExistingIsPlayer(players, owner, playerIndex, existing);
      next := JoinExisting(players, owner, preferred, playerIndex, existing, nodes, f, src);
      return Ok(existing), next;
    }
    if HandlesSet(players) {
      NullMeansFree(players, owner, playerIndex);
    }
    var effectiveName := DefaultPlayerName(name, owner, playerIndex);
    r, next := CreateLocalPlayer(players, effectiveName, playerIndex, replicated, owner, created);
    if r.Ok? {
      next := PossessNew(players, next, nodes, f, src);
      assert JoinedNew(players, owner, name, preferred, replicated, nodes, f, src, r.value, next[|players|]);
    }
  }

  /** The existing-player branch of a join: the found player goes through the possession step. */
  method JoinExisting(players: seq<PlayerView>, owner: U64, preferred: Option<U32>, playerIndex: U32, existing: Handle,
                      nodes: seq<NodeView>, f: Features, src: PossessionSources) returns (next: seq<PlayerView>)
    requires ChosenIndex(players, owner, preferred, playerIndex)
    requires exists k :: 0 <= k < |players| && players[k].handle == existing && players[k].owner == owner && players[k].index == playerIndex
    ensures exists k :: (JoinedExisting(players, owner, preferred, existing, k)
                         && next == players[k := Possess(players[k], src, AutoPossessTarget(nodes, players, f))])
    ensures SlotsUnique(players) ==> SlotsUnique(next)
  {
    var k := PlayerNamed(players, existing, owner, playerIndex);
    var possessed := EnsurePlayerHasPossession(players[k], players, nodes, f, src);
    next := players[k := possessed];
    assert JoinedExisting(players, owner, preferred, existing, k);
    if SlotsUnique(players) {
      UpdateKeepsUnique(players, k, possessed);
    }
  }

  /** The new-player branch of a join: the appended player goes through the possession step over the grown list. */
  method PossessNew(players: seq<PlayerView>, grown: seq<PlayerView>, nodes: seq<NodeView>, f: Features, src: PossessionSources)
    returns (next: seq<PlayerView>)
    requires |grown| == |players| + 1 && grown[..|players|] == players
    ensures |next| == |grown| && next[..|players|] == players
    ensures next[|players|] == Possess(grown[|players|], src, AutoPossessTarget(nodes, grown, f))
    ensures SlotsUnique(grown) ==> SlotsUnique(next)
  {
    var possessed := EnsurePlayerHasPossession(grown[|players|], grown, nodes, f, src);
    next := grown[|players| := possessed];
    assert next[..|players|] == grown[..|players|];
    if SlotsUnique(grown) {
      UpdateKeepsUnique(grown, |players|, possessed);
    }
  }

  /** Replacing a player by one with the same owner and index keeps owner-index pairs unique. */
  lemma UpdateKeepsUnique(players: seq<PlayerView>, k: nat, p: PlayerView)
    requires SlotsUnique(players) && k < |players| && p.owner == players[k].owner && p.index == players[k].index
    ensures SlotsUnique(players[k := p])
  {
  }

  /** A non-null lookup result is a player of that owner at that index. */
  lemma ExistingIsPlayer(players: seq<PlayerView>, owner: U64, index: U32, h: Handle)
    requires IsSet(h)
    requires exists k :: FirstWithIndex(PlayersOf(players, owner), index, k) && h == PlayersOf(players, owner)[k].handle
    ensures exists k :: 0 <= k < |players| && players[k].handle == h && players[k].owner == owner && players[k].index == index
  {
    var m := PlayersOf(players, owner);
    var k :| FirstWithIndex(m, index, k) && h == m[k].handle;
    MatchIsPlayer(players, owner, k);
  }

  /** When every player has a handle, a null lookup result means the index is free for that owner. */
  lemma NullMeansFree(players: seq<PlayerView>, owner: U64, index: U32)
    requires HandlesSet(players)
    requires (exists k :: 0 <= k < |PlayersOf(players, owner)| && PlayersOf(players, owner)[k].index == index) ==>
      exists k :: FirstWithIndex(PlayersOf(players, owner), index, k) && NullHandle == PlayersOf(players, owner)[k].handle
    ensures !IndexTaken(players, owner, index)
  {
    var m := PlayersOf(players, owner);
    forall k | 0 <= k < |m| ensures IsSet(m[k].handle) {
      MatchIsPlayer(players, owner, k);
    }
    TakenThroughMatches(players, owner, index);
  }

  lemma AppendKeepsUnique(players: seq<PlayerView>, p: PlayerView)
    requires SlotsUnique(players) && !IndexTaken(players, p.owner, p.index)
    ensures SlotsUnique(players + [p])
  {
    var s := players + [p];
    forall i, j | 0 <= i < j < |s| ensures s[i].owner != s[j].owner || s[i].index != s[j].index {
      if j == |players| {
        assert s[i] == players[i];
      }
    }
  }

  // ---------------------------------------------------------------------------
  // Observed world state
  // ---------------------------------------------------------------------------

  /**
   * One diff of what was known against what is current: what appeared and
   * what disappeared, both empty when the diff is not reported. Applying a
   * reported diff to the known set gives the current one.
   */
  function Diff<T>(known: set<T>, current: set<T>, report: bool): (r: (set<T>, set<T>))
    ensures report ==> (known - r.1) + r.0 == current && r.0 * r.1 == {}
    ensures report ==> r.0 * known == {} && r.1 * current == {}
    ensures !report || known == current ==> r.0 == {} && r.1 == {}
  {
    if report then (current - known, known - current) else ({}, {})
  }

  /** The ids of the non-null handles. */
  function Ids(hs: seq<Handle>): set<Uuid> {
    set k | 0 <= k < |hs| && IsSet(hs[k]) :: hs[k].id
  }

  /** What one refresh notifies: connections added and removed, levels loaded and unloaded, players added and removed. */
  datatype ObservedChanges = ObservedChanges(
    connectionsAdded: set<U64>, connectionsRemoved: set<U64>,
    levelsLoaded: set<Uuid>, levelsUnloaded: set<Uuid>,
    playersAdded: set<Uuid>, playersRemoved: set<Uuid>)

  /** Collects the ids of the non-null handles, as the refresh's map-building loops do. */
  method CollectIds(hs: seq<Handle>) returns (ids: set<Uuid>)
    ensures forall id :: id in ids <==> exists k :: 0 <= k < |hs| && IsSet(hs[k]) && hs[k].id == id
  {
    ids := {};
    var i := 0;
    while i < |hs|
      invariant i <= |hs|
      invariant forall id :: id in ids <==> exists k :: 0 <= k < i && IsSet(hs[k]) && hs[k].id == id
    {
      if IsSet(hs[i]) {
        ids := ids + {hs[i].id};
      }
      i := i + 1;
    }
  }

  lemma CollectedIds(hs: seq<Handle>, ids: set<Uuid>)
    requires forall id :: id in ids <==> exists k :: 0 <= k < |hs| && IsSet(hs[k]) && hs[k].id == id
    ensures ids == Ids(hs)
  {
    forall id | id in Ids(hs) ensures id in ids {
      var k :| 0 <= k < |hs| && IsSet(hs[k]) && hs[k].id == id;
    }
  }

  /** The sets of connections, levels and local players a gameplay host last observed. */
  class GameplayHost {
    var knownConnectionIds: set<U64>
    var knownLevelIds: set<Uuid>
    var knownLocalPlayerIds: set<Uuid>

    constructor()
      ensures knownConnectionIds == {} && knownLevelIds == {} && knownLocalPlayerIds == {}
    {
      knownConnectionIds := {};
      knownLevelIds := {};
      knownLocalPlayerIds := {};
    }

    /**
     * `RefreshObservedConnectionState`: without a world nothing happens;
     * otherwise the session's connections (none without a session) become
     * the known ones, and the diff is reported only on a server outside a
     * seeding pass.
     */
    method RefreshObservedConnectionState(worldReady: bool, session: Option<seq<U64>>, isServer: bool, seedOnly: bool)
      returns (added: set<U64>, removed: set<U64>)
      modifies this`knownConnectionIds
      ensures !worldReady ==> added == {} && removed == {} && knownConnectionIds == old(knownConnectionIds)
      ensures worldReady ==> knownConnectionIds == (if session.Some? then set c | c in session.value else {})
      ensures worldReady ==> (added, removed) == Diff(old(knownConnectionIds), knownConnectionIds, !seedOnly && isServer)
    {
      if !worldReady {
        return {}, {};
      }
      var current: set<U64> := {};
      if session.Some? {
        var conns := session.value;
        var i := 0;
        while i < |conns|
          invariant i <= |conns|
          invariant current == set c | c in conns[..i]
        {
          assert conns[..i + 1] == conns[..i] + [conns[i]];
          current := current + {conns[i]};
          i := i + 1;
        }
        assert conns[..i] == conns;
      }
      added, removed := {}, {};
      if !seedOnly && isServer {
        added := current - knownConnectionIds;
        removed := knownConnectionIds - current;
      }
      knownConnectionIds := current;
    }

    /**
     * `RefreshObservedWorldState`: refreshes the connections, then diffs the
     * non-null level and local-player handles against the known ids
     * (reported unless seeding) and makes the current ids the known ones.
     */
    method RefreshObservedWorldState(levels: seq<Handle>, players: seq<Handle>, worldReady: bool, session: Option<seq<U64>>,
                                     isServer: bool, seedOnly: bool)
      returns (changes: ObservedChanges)
      modifies this
      ensures worldReady ==> knownConnectionIds == (if session.Some? then set c | c in session.value else {})
      ensures !worldReady ==> knownConnectionIds == old(knownConnectionIds)
      ensures (changes.connectionsAdded, changes.connectionsRemoved) == Diff(old(knownConnectionIds), knownConnectionIds, worldReady && !seedOnly && isServer)
      ensures knownLevelIds == Ids(levels) && knownLocalPlayerIds == Ids(players)
      ensures (changes.levelsLoaded, changes.levelsUnloaded) == Diff(old(knownLevelIds), knownLevelIds, !seedOnly)
      ensures (changes.playersAdded, changes.playersRemoved) == Diff(old(knownLocalPlayerIds), knownLocalPlayerIds, !seedOnly)
    {
      var connAdded, connRemoved := RefreshObservedConnectionState(worldReady, session, isServer, seedOnly);
      var currentLevels := CollectIds(levels);
      CollectedIds(levels, currentLevels);
      var currentPlayers := CollectIds(players);
      CollectedIds(players, currentPlayers);
      var loaded, unloaded, added, removed := {}, {}, {}, {};
      if !seedOnly {
        loaded := currentLevels - knownLevelIds;
        unloaded := knownLevelIds - currentLevels;
        added := currentPlayers - knownLocalPlayerIds;
        removed := knownLocalPlayerIds - currentPlayers;
      }
      knownLevelIds := currentLevels;
      knownLocalPlayerIds := currentPlayers;
      changes := ObservedChanges(connAdded, connRemoved, loaded, unloaded, added, removed);
    }
  }
}
