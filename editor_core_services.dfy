/**
 * Editor core services (src/Editor/EditorCoreServices.cpp): the undo/redo
 * command history, the Play-In-Editor (PIE) session machine, the paused
 * execution profile, the validation of hierarchy-panel actions and the
 * toolbar rule that decides when the editor world counts as reloaded.
 * Commands and world payloads are opaque: what a command's Execute or Undo
 * returns, and whether serialising, loading or starting gameplay works, are
 * parameters.
 */
module EditorCore {
  import opened Common
  import EditorLayout

  // ---------------------------------------------------------------------
  // Command history
  // ---------------------------------------------------------------------

  /** Identity of a command object held by the history. */
  type CommandId = nat

  /** m_maxHistory. */
  const MaxHistory: nat := 256

  /** The undo and redo stacks, tops last. */
  datatype History = History(undo: seq<CommandId>, redo: seq<CommandId>)

  /** Together the stacks never hold more than the history limit. */
  predicate Bounded(h: History) {
    |h.undo| + |h.redo| <= MaxHistory
  }

  /** A command that executed: redo is dropped, undo takes it, evicting its oldest entry when full. */
  function Executed(h: History, c: CommandId): History {
    History((if |h.undo| >= MaxHistory then h.undo[1..] else h.undo) + [c], [])
  }

  /** A command that undid: it moves from the top of undo to the top of redo. */
  function Undone(h: History): History
    requires h.undo != []
  {
    History(h.undo[..|h.undo| - 1], h.redo + [h.undo[|h.undo| - 1]])
  }

  /** A command that redid: it moves from the top of redo to the top of undo. */
  function Redone(h: History): History
    requires h.redo != []
  {
    History(h.undo + [h.redo[|h.redo| - 1]], h.redo[..|h.redo| - 1])
  }

  /**
   * Executing keeps the history bounded, leaves the command on top of undo
   * with nothing to redo, and forgets only the oldest entry, and only when
   * undo was full.
   */
  lemma ExecutedShape(h: History, c: CommandId)
    requires Bounded(h)
    ensures Bounded(Executed(h, c)) && |Executed(h, c).undo| <= MaxHistory
    ensures Executed(h, c).redo == [] && Executed(h, c).undo[|Executed(h, c).undo| - 1] == c
    ensures |h.undo| < MaxHistory ==> Executed(h, c).undo == h.undo + [c]
    ensures |h.undo| >= MaxHistory ==> Executed(h, c).undo == h.undo[1..] + [c] && |Executed(h, c).undo| == MaxHistory
  {
  }

  /** Undo then redo returns to the same history, and so does redo then undo. */
  lemma UndoRedoRoundTrip(h: History)
    ensures h.undo != [] ==> Undone(h).redo != [] && Redone(Undone(h)) == h
    ensures h.redo != [] ==> Redone(h).undo != [] && Undone(Redone(h)) == h
  {
    if h.undo != [] {
      assert h.undo[..|h.undo| - 1] + [h.undo[|h.undo| - 1]] == h.undo;
    }
    if h.redo != [] {
      assert h.redo[..|h.redo| - 1] + [h.redo[|h.redo| - 1]] == h.redo;
    }
  }

  /** Undo only moves one command between the stacks, so it keeps the bound. */
  lemma UndoneKeepsCommands(h: History)
    requires Bounded(h) && h.undo != []
    ensures Bounded(Undone(h))
    ensures multiset(Undone(h).undo + Undone(h).redo) == multiset(h.undo + h.redo)
  {
    var u, c := h.undo[..|h.undo| - 1], h.undo[|h.undo| - 1];
    assert h.undo == u + [c];
    assert multiset(h.undo + h.redo) == multiset(u) + multiset{c} + multiset(h.redo);
  }

  /** Redo only moves one command between the stacks, so it keeps the bound. */
  lemma RedoneKeepsCommands(h: History)
    requires Bounded(h) && h.redo != []
    ensures Bounded(Redone(h))
    ensures multiset(Redone(h).undo + Redone(h).redo) == multiset(h.undo + h.redo)
  {
    var d, c := h.redo[..|h.redo| - 1], h.redo[|h.redo| - 1];
    assert h.redo == d + [c];
    assert multiset(h.undo + h.redo) == multiset(h.undo) + multiset(d) + multiset{c};
  }

  class CommandService {
    var undoStack: seq<CommandId>
    var redoStack: seq<CommandId>

    function CurrentHistory(): History
      reads this
    {
      History(undoStack, redoStack)
    }

    predicate Valid()
      reads this
    {
      Bounded(CurrentHistory())
    }

    constructor()
      ensures Valid() && undoStack == [] && redoStack == []
    {
      undoStack := [];
      redoStack := [];
    }

    /**
     * Run a command (None is a null command) whose own Execute reports
     * `executeResult`; only a success touches the stacks.
     */
    method Execute(command: Option<CommandId>, executeResult: Outcome) returns (r: Outcome)
      requires Valid()
      modifies this
      ensures Valid()
      ensures r == if command.None? then Fail(InvalidArgument) else executeResult
      ensures CurrentHistory() == if r == Done then Executed(old(CurrentHistory()), command.value) else old(CurrentHistory())
    {
      if command.None? {
        return Fail(InvalidArgument);
      }
      if executeResult.Fail? {
        return executeResult;
      }
      ExecutedShape(CurrentHistory(), command.value);
      redoStack := [];
      if |undoStack| >= MaxHistory {
        undoStack := undoStack[1..];
      }
      undoStack := undoStack + [command.value];
      return Done;
    }

    /** Undo the newest command, whose Undo reports `undoResult`; on failure it goes back on undo. */
    method Undo(undoResult: Outcome) returns (r: Outcome)
      requires Valid()
      modifies this
      ensures Valid()
      ensures r == if old(undoStack) == [] then Fail(NotReady) else undoResult
      ensures CurrentHistory() == if r == Done then Undone(old(CurrentHistory())) else old(CurrentHistory())
    {
      if undoStack == [] {
        return Fail(NotReady);
      }
      UndoneKeepsCommands(CurrentHistory());
      var command := undoStack[|undoStack| - 1];
      undoStack := undoStack[..|undoStack| - 1];
      if undoResult.Fail? {
        undoStack := undoStack + [command];
        assert undoStack == old(undoStack);
        return undoResult;
      }
      redoStack := redoStack + [command];
      return Done;
    }

    /** Re-execute the newest undone command, whose Execute reports `redoResult`; on failure it goes back on redo. */
    method Redo(redoResult: Outcome) returns (r: Outcome)
      requires Valid()
      modifies this
      ensures Valid()
      ensures r == if old(redoStack) == [] then Fail(NotReady) else redoResult
      ensures CurrentHistory() == if r == Done then Redone(old(CurrentHistory())) else old(CurrentHistory())
    {
      if redoStack == [] {
        return Fail(NotReady);
      }
      RedoneKeepsCommands(CurrentHistory());
      var command := redoStack[|redoStack| - 1];
      redoStack := redoStack[..|redoStack| - 1];
      if redoResult.Fail? {
        redoStack := redoStack + [command];
        assert redoStack == old(redoStack);
        return redoResult;
      }
      undoStack := undoStack + [command];
      return Done;
    }

    method ClearHistory()
      modifies this
      ensures Valid() && undoStack == [] && redoStack == []
    {
      undoStack := [];
      redoStack := [];
    }
  }

  // ---------------------------------------------------------------------
  // Play-In-Editor
  // ---------------------------------------------------------------------

  /** EWorldKind. */
  datatype WorldKind = Runtime | Editor | PIE

  /** WorldExecutionProfile: which frame phases a world runs. */
  datatype ExecutionProfile = ExecutionProfile(
    runGameplay: bool, tickInput: bool, tickUi: bool, pumpNetworking: bool,
    tickEcsRuntime: bool, tickPhysicsSimulation: bool, allowPhysicsQueries: bool,
    tickAudio: bool, runNodeEndFrame: bool, buildUiRenderPackets: bool, renderFrame: bool)

  /** The member defaults of the profile: every phase on. */
  const DefaultProfile: ExecutionProfile := ExecutionProfile(true, true, true, true, true, true, true, true, true, true, true)

  /** The PIE profile, documented as equal to the runtime defaults. */
  const PieProfile: ExecutionProfile := DefaultProfile

  /** The PIE profile with gameplay, ECS, physics simulation, audio and networking stopped. */
  function PausedExecutionProfile(): (p: ExecutionProfile)
    ensures !p.runGameplay && !p.tickEcsRuntime && !p.tickPhysicsSimulation && !p.tickAudio && !p.pumpNetworking
    ensures p.tickInput == PieProfile.tickInput && p.tickUi == PieProfile.tickUi
    ensures p.allowPhysicsQueries == PieProfile.allowPhysicsQueries && p.runNodeEndFrame == PieProfile.runNodeEndFrame
    ensures p.buildUiRenderPackets == PieProfile.buildUiRenderPackets && p.renderFrame == PieProfile.renderFrame
  {
    PieProfile.(runGameplay := false, tickEcsRuntime := false, tickPhysicsSimulation := false, tickAudio := false, pumpNetworking := false)
  }

  /** EditorPieService::EState. */
  datatype PieState = Stopped | Playing | Paused

  /** The PIE service's state: the phase, whether an editor snapshot is held, and the saved editor kind and profile. */
  datatype PieSession = PieSession(state: PieState, hasSnapshot: bool, editorKind: WorldKind, editorProfile: ExecutionProfile)

  /** The parts of the runtime world the PIE service sets. */
  datatype WorldView = WorldView(kind: WorldKind, profile: ExecutionProfile)

  /**
   * What the collaborators report during a session change: saving the
   * editor world, loading the PIE copy, restoring the editor world on Stop,
   * whether gameplay is configured and whether starting it works.
   */
  datatype SessionEnv = SessionEnv(serialize: Outcome, pieLoad: Outcome, restore: Outcome, gameplayConfigured: bool, startGameplay: Outcome)

  /** A result, the new service state and the new world state (None: no runtime world). */
  datatype Transition = Transition(result: Outcome, session: PieSession, world: Option<WorldView>)

  /** An active session always holds the editor snapshot it returns to. */
  predicate SessionValid(s: PieSession) {
    s.state != Stopped ==> s.hasSnapshot
  }

  function GameplayStart(env: SessionEnv): Outcome {
    if env.gameplayConfigured && env.startGameplay.Fail? then env.startGameplay else Done
  }

  /**
   * Save the editor world and switch it to PIE. A failed PIE load or
   * gameplay start restores the editor kind and profile; the snapshot is
   * kept either way.
   */
  function StartTransition(s: PieSession, w: Option<WorldView>, env: SessionEnv): Transition {
    if w.None? then Transition(Fail(NotReady), s, w)
    else if env.serialize.Fail? then Transition(env.serialize, s, w)
    else
      var saved := s.(hasSnapshot := true, editorKind := w.value.kind, editorProfile := w.value.profile);
      if env.pieLoad.Fail? then Transition(env.pieLoad, saved, w)
      else if GameplayStart(env).Fail? then Transition(GameplayStart(env), saved, w)
      else Transition(Done, saved.(state := Playing), Some(WorldView(PIE, PieProfile)))
  }

  /** Switch a paused world back to the PIE profile; a failed gameplay start leaves the session paused. */
  function ResumeTransition(s: PieSession, w: Option<WorldView>, env: SessionEnv): Transition {
    if w.None? then Transition(Fail(NotReady), s, w)
    else
      var running := Some(WorldView(PIE, PieProfile));
      if GameplayStart(env).Fail? then Transition(GameplayStart(env), s, running)
      else Transition(Done, s.(state := Playing), running)
  }

  /**
   * Return to the editor world. Without a runtime world the session is
   * dropped and NotReady reported; without a snapshot only the kind and
   * profile are restored; a failed restore changes nothing.
   */
  function StopTransition(s: PieSession, w: Option<WorldView>, env: SessionEnv): Transition {
    if w.None? then Transition(Fail(NotReady), s.(state := Stopped, hasSnapshot := false), w)
    else if !s.hasSnapshot then Transition(Done, s.(state := Stopped), Some(WorldView(s.editorKind, s.editorProfile)))
    else if env.restore.Fail? then Transition(env.restore, s, w)
    else Transition(Done, s.(state := Stopped, hasSnapshot := false), Some(WorldView(s.editorKind, s.editorProfile)))
  }

  function PlayStep(s: PieSession, w: Option<WorldView>, env: SessionEnv): Transition {
    match s.state
    case Playing => Transition(Done, s, w)
    case Paused => ResumeTransition(s, w, env)
    case Stopped => StartTransition(s, w, env)
  }

  function PauseStep(s: PieSession, w: Option<WorldView>): Transition {
    if s.state != Playing then Transition(Done, s, w)
    else if w.None? then Transition(Fail(NotReady), s, w)
    else Transition(Done, s.(state := Paused), Some(WorldView(PIE, PausedExecutionProfile())))
  }

  function StopStep(s: PieSession, w: Option<WorldView>, env: SessionEnv): Transition {
    if s.state == Stopped then Transition(Done, s, w) else StopTransition(s, w, env)
  }

  /** Play is a no-op while playing; a successful Play always ends playing. */
  lemma PlayTransitions(s: PieSession, w: Option<WorldView>, env: SessionEnv)
    ensures s.state == Playing ==> PlayStep(s, w, env) == Transition(Done, s, w)
    ensures PlayStep(s, w, env).result == Done ==> PlayStep(s, w, env).session.state == Playing
    ensures PlayStep(s, w, env).result.Fail? ==> PlayStep(s, w, env).session.state == s.state
    ensures w.None? ==> PlayStep(s, w, env).world == w
  {
  }

  /** Pause acts only while playing, and then stops the simulation phases. */
  lemma PauseTransitions(s: PieSession, w: Option<WorldView>)
    ensures s.state != Playing ==> PauseStep(s, w) == Transition(Done, s, w)
    ensures s.state == Playing && w.Some? ==>
              PauseStep(s, w).session.state == Paused && !PauseStep(s, w).world.value.profile.runGameplay
  {
  }

  /** Stop is a no-op when stopped; a successful Stop always ends stopped. */
  lemma StopTransitions(s: PieSession, w: Option<WorldView>, env: SessionEnv)
    ensures s.state == Stopped ==> StopStep(s, w, env) == Transition(Done, s, w)
    ensures StopStep(s, w, env).result == Done ==> StopStep(s, w, env).session.state == Stopped
  {
  }

  /** Every transition keeps an active session's snapshot. */
  lemma TransitionsKeepSessionValid(s: PieSession, w: Option<WorldView>, env: SessionEnv)
    requires SessionValid(s)
    ensures SessionValid(PlayStep(s, w, env).session)
    ensures SessionValid(PauseStep(s, w).session)
    ensures SessionValid(StopStep(s, w, env).session)
  {
  }

  /** Playing from the editor and stopping again gives back the editor world's kind and profile. */
  lemma PlayStopRoundTrip(s: PieSession, w: WorldView, env: SessionEnv, env2: SessionEnv)
    requires s.state == Stopped && PlayStep(s, Some(w), env).result == Done
    ensures var t := PlayStep(s, Some(w), env);
      StopStep(t.session, t.world, env2).result == env2.restore &&
      (env2.restore == Done ==>
         StopStep(t.session, t.world, env2).world == Some(w) && !StopStep(t.session, t.world, env2).session.hasSnapshot)
  {
  }

  /** The runtime world's kind and execution profile. */
  class GameWorld {
    var kind: WorldKind
    var profile: ExecutionProfile

    constructor(kind: WorldKind, profile: ExecutionProfile)
      ensures this.kind == kind && this.profile == profile
    {
      this.kind := kind;
      this.profile := profile;
    }
  }

  function ViewOf(world: GameWorld?): Option<WorldView>
    reads world
  {
    if world == null then None else Some(WorldView(world.kind, world.profile))
  }

  class PieService {
    var state: PieState
    var hasSnapshot: bool
    var editorWorldKind: WorldKind
    var editorProfile: ExecutionProfile

    function Session(): PieSession
      reads this
    {
      PieSession(state, hasSnapshot, editorWorldKind, editorProfile)
    }

    predicate Valid()
      reads this
    {
      SessionValid(Session())
    }

    /** The state Initialize leaves: stopped, no snapshot, an editor world to return to. */
    constructor(editorProfile: ExecutionProfile)
      ensures Valid() && state == Stopped && !hasSnapshot
      ensures editorWorldKind == Editor && this.editorProfile == editorProfile
    {
      state := Stopped;
      hasSnapshot := false;
      editorWorldKind := Editor;
      this.editorProfile := editorProfile;
    }

    method StartSession(world: GameWorld?, env: SessionEnv) returns (r: Outcome)
      modifies this, world
      ensures Transition(r, Session(), ViewOf(world)) == StartTransition(old(Session()), old(ViewOf(world)), env)
    {
      if world == null {
        return Fail(NotReady);
      }
      if env.serialize.Fail? {
        return env.serialize;
      }
      hasSnapshot := true;
      editorWorldKind := world.kind;
      editorProfile := world.profile;
      world.kind := PIE;
      world.profile := PieProfile;
      if env.pieLoad.Fail? {
        world.kind := editorWorldKind;
        world.profile := editorProfile;
        return env.pieLoad;
      }
      if env.gameplayConfigured && env.startGameplay.Fail? {
        world.kind := editorWorldKind;
        world.profile := editorProfile;
        return env.startGameplay;
      }
      state := Playing;
      return Done;
    }

    method ResumeSession(world: GameWorld?, env: SessionEnv) returns (r: Outcome)
      modifies this, world
      ensures Transition(r, Session(), ViewOf(world)) == ResumeTransition(old(Session()), old(ViewOf(world)), env)
    {
      if world == null {
        return Fail(NotReady);
      }
      world.kind := PIE;
      world.profile := PieProfile;
      if env.gameplayConfigured && env.startGameplay.Fail? {
        return env.startGameplay;
      }
      state := Playing;
      return Done;
    }

    method StopSession(world: GameWorld?, env: SessionEnv) returns (r: Outcome)
      modifies this, world
      ensures Transition(r, Session(), ViewOf(world)) == StopTransition(old(Session()), old(ViewOf(world)), env)
    {
      if world == null {
        state := Stopped;
        hasSnapshot := false;
        return Fail(NotReady);
      }
      if !hasSnapshot {
        world.kind := editorWorldKind;
        world.profile := editorProfile;
        state := Stopped;
        return Done;
      }
      if env.restore.Fail? {
        return env.restore;
      }
      world.kind := editorWorldKind;
      world.profile := editorProfile;
      hasSnapshot := false;
      state := Stopped;
      return Done;
    }

    method Play(world: GameWorld?, env: SessionEnv) returns (r: Outcome)
      modifies this, world
      ensures Transition(r, Session(), ViewOf(world)) == PlayStep(old(Session()), old(ViewOf(world)), env)
    {
      if state == Playing {
        return Done;
      }
      if state == Paused {
        r := ResumeSession(world, env);
        return;
      }
      r := StartSession(world, env);
    }

    method Pause(world: GameWorld?) returns (r: Outcome)
      modifies this, world
      ensures Transition(r, Session(), ViewOf(world)) == PauseStep(old(Session()), old(ViewOf(world)))
    {
      if state != Playing {
        return Done;
      }
      if world == null {
        return Fail(NotReady);
      }
      world.kind := PIE;
      world.profile := PausedExecutionProfile();
      state := Paused;
      return Done;
    }

    method Stop(world: GameWorld?, env: SessionEnv) returns (r: Outcome)
      modifies this, world
      ensures Transition(r, Session(), ViewOf(world)) == StopStep(old(Session()), old(ViewOf(world)), env)
    {
      if state == Stopped {
        return Done;
      }
      r := StopSession(world, env);
    }
  }

  // ---------------------------------------------------------------------
  // Toolbar
  // ---------------------------------------------------------------------

  datatype ToolbarAction = PlayAction | PauseAction | StopAction | JoinLocalPlayer2 | OtherToolbarAction

  /** The world was reloaded: a successful Play from stopped, or a successful Stop of a running session. */
  function WorldReloaded(action: ToolbarAction, previous: PieState, r: Outcome): (reloaded: bool) {
    (action == PlayAction && previous == Stopped && r == Done)
    || (action == StopAction && previous != Stopped && r == Done)
  }

  /**
   * The toolbar's effect on the PIE session. Joining the second local
   * player needs an active session and a gameplay host, whose request
   * reports `joinResult`.
   */
  function ToolbarStep(action: ToolbarAction, s: PieSession, w: Option<WorldView>, env: SessionEnv, hostPresent: bool, joinResult: Outcome): Transition {
    match action
    case PlayAction => PlayStep(s, w, env)
    case PauseAction => PauseStep(s, w)
    case StopAction => StopStep(s, w, env)
    case JoinLocalPlayer2 =>
      if s.state == Stopped then Transition(Done, s, w)
      else if !hostPresent then Transition(Fail(NotReady), s, w)
      else Transition(joinResult, s, w)
    case OtherToolbarAction => Transition(Done, s, w)
  }

  /** A reload is exactly a successful toolbar action that crossed between stopped and running. */
  lemma ReloadIsSessionBoundary(action: ToolbarAction, s: PieSession, w: Option<WorldView>, env: SessionEnv, hostPresent: bool, joinResult: Outcome)
    ensures var t := ToolbarStep(action, s, w, env, hostPresent, joinResult);
      WorldReloaded(action, s.state, t.result) <==>
        t.result == Done && (action == PlayAction || action == StopAction)
        && (s.state == Stopped) != (t.session.state == Stopped)
  {
  }

  /**
   * Joining the second local player and any other toolbar action leave the
   * session and the world as they were and never count as a reload; the join
   * fails only while a session runs without a gameplay host, or when the
   * host's request does.
   */
  lemma ToolbarJoinKeepsSession(action: ToolbarAction, s: PieSession, w: Option<WorldView>, env: SessionEnv, hostPresent: bool, joinResult: Outcome)
    requires action == JoinLocalPlayer2 || action == OtherToolbarAction
    ensures var t := ToolbarStep(action, s, w, env, hostPresent, joinResult);
      t.session == s && t.world == w && !WorldReloaded(action, s.state, t.result)
      && (t.result != Done ==> action == JoinLocalPlayer2 && s.state != Stopped
                               && (if hostPresent then t.result == joinResult else t.result == Fail(NotReady)))
  {
  }

  /**
   * Apply one pending toolbar action; after a reload the selection (left to
   * the caller through `reloaded`) and the command history are cleared.
   */
  method ApplyToolbarAction(action: ToolbarAction, pie: PieService, world: GameWorld?, env: SessionEnv,
                            commands: CommandService?, hostPresent: bool, joinResult: Outcome)
    returns (r: Outcome, reloaded: bool)
    requires commands != null ==> commands.Valid()
    modifies pie, world, commands
    ensures Transition(r, pie.Session(), ViewOf(world)) ==
              ToolbarStep(action, old(pie.Session()), old(ViewOf(world)), env, hostPresent, joinResult)
    ensures reloaded == WorldReloaded(action, old(pie.state), r)
    ensures commands != null && reloaded ==> commands.undoStack == [] && commands.redoStack == []
    ensures commands != null && !reloaded ==> commands.undoStack == old(commands.undoStack) && commands.redoStack == old(commands.redoStack)
    ensures commands != null ==> commands.Valid()
  {
    reloaded := false;
    r := Done;
    var previousState := pie.state;
    match action {
      case PlayAction =>
        r := pie.Play(world, env);
        reloaded := previousState == Stopped && r == Done;
      case PauseAction =>
        r := pie.Pause(world);
      case StopAction =>
        r := pie.Stop(world, env);
        reloaded := previousState != Stopped && r == Done;
      case JoinLocalPlayer2 =>
        if pie.state != Stopped {
          if !hostPresent {
            r := Fail(NotReady);
          } else {
            r := joinResult;
          }
        }
      case OtherToolbarAction =>
    }
    if r == Done && reloaded && commands != null {
      commands.ClearHistory();
    }
  }

  // ---------------------------------------------------------------------
  // Hierarchy actions
  // ---------------------------------------------------------------------

  datatype HierarchyAction = CreatePrefab | DeleteNode | RemoveComponentType | AddNodeType | AddComponentType | OtherHierarchyAction

  /** A hierarchy-panel request; a null target handle is None. */
  datatype HierarchyRequest = HierarchyRequest(action: HierarchyAction, targetNode: Option<nat>, targetIsWorldRoot: bool, typeId: TypeId)

  /** A node a handle resolves to, and whether its type is a World. */
  datatype ResolvedNode = ResolvedNode(node: nat, isWorld: bool)

  /** What the type registry knows of a registered type. */
  datatype TypeFacts = TypeFacts(name: string, isNode: bool, isWorld: bool, isLevel: bool, isComponent: bool)

  /** The editor facts the validation reads. */
  datatype HierarchyEnv = HierarchyEnv(
    worldPresent: bool, assetServicePresent: bool,
    resolve: nat -> Option<ResolvedNode>, typeInfo: TypeId -> Option<TypeFacts>)

  /** The world edit an accepted request performs. */
  datatype HierarchyEdit =
    | MakePrefab(target: nat)
    | DestroyNode(node: nat)
    | RemoveComponent(node: nat, typeId: TypeId)
    | CreateNode(typeId: TypeId, name: string, parent: Option<nat>)
    | CreateComponent(node: nat, typeId: TypeId)

  /** A created node is named by its short type name, or "Node". */
  function CreatedNodeName(typeName: string): (r: string)
    ensures r != []
    ensures r == EditorLayout.ShortTypeLabel(typeName) || r == "Node"
  {
    var name := EditorLayout.ShortTypeLabel(typeName);
    if name == [] then "Node" else name
  }

  /** The checks ExecuteHierarchyAction makes before editing the world, in its order, and the edit it then makes. */
  function PlanHierarchyAction(req: HierarchyRequest, env: HierarchyEnv): (r: Result<HierarchyEdit>)
    ensures !env.worldPresent ==> r == Err(NotReady)
    ensures env.worldPresent && req.targetNode.None? && req.action in {DeleteNode, RemoveComponentType} ==> r == Err(InvalidArgument)
    ensures env.worldPresent && env.assetServicePresent && req.targetNode.None? && req.action == CreatePrefab ==> r == Err(InvalidArgument)
    ensures r.Ok? && r.value.DestroyNode? ==>
              req.action == DeleteNode && req.targetNode.Some? && env.resolve(req.targetNode.value) == Some(ResolvedNode(r.value.node, false))
    ensures r.Ok? && r.value.CreateNode? ==>
              req.action == AddNodeType && env.typeInfo(req.typeId).Some?
              && env.typeInfo(req.typeId).value.isNode && !env.typeInfo(req.typeId).value.isWorld
              && (env.typeInfo(req.typeId).value.isLevel ==> req.targetIsWorldRoot)
              && (r.value.parent.None? <==> req.targetIsWorldRoot) && r.value.name != []
    ensures r.Ok? && r.value.CreateComponent? ==>
              req.action == AddComponentType && req.targetNode.Some? && env.typeInfo(req.typeId).Some? && env.typeInfo(req.typeId).value.isComponent
    ensures r.Ok? && r.value.RemoveComponent? ==> req.action == RemoveComponentType && req.typeId != NilUuid
  {
    if !env.worldPresent then Err(NotReady)
    else if req.action == CreatePrefab then
      if !env.assetServicePresent then Err(NotReady)
      else if req.targetNode.None? then Err(InvalidArgument)
      else Ok(MakePrefab(req.targetNode.value))
    else if req.action == DeleteNode then
      if req.targetNode.None? then Err(InvalidArgument)
      else if env.resolve(req.targetNode.value).None? then Err(NotFound)
      else if env.resolve(req.targetNode.value).value.isWorld then Err(InvalidArgument)
      else Ok(DestroyNode(env.resolve(req.targetNode.value).value.node))
    else if req.action == RemoveComponentType then
      if req.targetNode.None? then Err(InvalidArgument)
      else if req.typeId == NilUuid then Err(InvalidArgument)
      else if env.resolve(req.targetNode.value).None? then Err(NotFound)
      else Ok(RemoveComponent(env.resolve(req.targetNode.value).value.node, req.typeId))
    else if env.typeInfo(req.typeId).None? then Err(NotFound)
    else
      var facts := env.typeInfo(req.typeId).value;
      if req.action == AddNodeType then
        if !facts.isNode then Err(InvalidArgument)
        else if facts.isWorld then Err(InvalidArgument)
        else if facts.isLevel && !req.targetIsWorldRoot then Err(InvalidArgument)
        else if req.targetIsWorldRoot then Ok(CreateNode(req.typeId, CreatedNodeName(facts.name), None))
        else if req.targetNode.None? || env.resolve(req.targetNode.value).None? then Err(NotFound)
        else Ok(CreateNode(req.typeId, CreatedNodeName(facts.name), Some(env.resolve(req.targetNode.value).value.node)))
      else if req.action != AddComponentType then Err(InvalidArgument)
      else if !facts.isComponent then Err(InvalidArgument)
      else if req.targetNode.None? then Err(InvalidArgument)
      else if env.resolve(req.targetNode.value).None? then Err(NotFound)
      else Ok(CreateComponent(env.resolve(req.targetNode.value).value.node, req.typeId))
  }

  /** The rejections the hierarchy panel relies on, stated per action. */
  lemma HierarchyRejections(req: HierarchyRequest, env: HierarchyEnv)
    requires env.worldPresent
    ensures (req.action == DeleteNode && req.targetNode.Some? && env.resolve(req.targetNode.value).Some?
             && env.resolve(req.targetNode.value).value.isWorld) ==> PlanHierarchyAction(req, env) == Err(InvalidArgument)
    ensures (req.action == AddNodeType && env.typeInfo(req.typeId).Some?
             && (!env.typeInfo(req.typeId).value.isNode || env.typeInfo(req.typeId).value.isWorld))
            ==> PlanHierarchyAction(req, env) == Err(InvalidArgument)
    ensures (req.action == AddNodeType && env.typeInfo(req.typeId).Some? && env.typeInfo(req.typeId).value.isLevel
             && !req.targetIsWorldRoot) ==> PlanHierarchyAction(req, env).Err?
    ensures req.action == AddComponentType && req.targetNode.None? ==> PlanHierarchyAction(req, env).Err?
    ensures req.action == OtherHierarchyAction ==> PlanHierarchyAction(req, env).Err?
  {
  }

  /**
   * The outcome of one hierarchy request: the validation's error, or what
   * the world reports for the edit (`applied`).
   */
  function ExecuteHierarchyAction(req: HierarchyRequest, env: HierarchyEnv, applied: Outcome): (r: Outcome)
    ensures PlanHierarchyAction(req, env).Err? ==> r == Fail(PlanHierarchyAction(req, env).code)
    ensures PlanHierarchyAction(req, env).Ok? ==> r == applied
  {
    match PlanHierarchyAction(req, env)
    case Err(code) => Fail(code)
    case Ok(_) => applied
  }

  /** A pending hierarchy request runs only while no PIE session is active; otherwise it is dropped. */
  function PendingHierarchyAction(state: PieState, req: HierarchyRequest, env: HierarchyEnv, applied: Outcome): (r: Option<Outcome>)
    ensures r.Some? <==> state == Stopped
    ensures r.Some? ==> r.value == ExecuteHierarchyAction(req, env, applied)
  {
    if state != Stopped then None else Some(ExecuteHierarchyAction(req, env, applied))
  }
}
