/**
 * The page's session controller: the four stages, the handlers that move
 * between them, the win-check effect and reset, composed into one step
 * function over the events the current screen offers.
 */
module Session {
  import opened Common
  import Text
  import ConfigForm
  import Assignment
  import Naming
  import Round

  datatype Stage = Configuring | EnteringNames | GameReady | PlayingRound

  /** The snapshot taken when the names are in. */
  datatype FullGameSettings = FullGameSettings(
    config: ConfigForm.GameConfiguration,
    playerNames: seq<string>,
    gameOption: string,
    imposterIndices: seq<int>)

  /** The page's state. */
  datatype State = State(
    currentStage: Stage,
    gameConfig: Option<ConfigForm.GameConfiguration>,
    gameOption: Option<string>,
    imposterIndices: seq<int>,
    fullGameSettings: Option<FullGameSettings>,
    playerStatuses: seq<Round.PlayerStatus>,
    isGameOver: bool,
    gameOverMessage: Option<Round.Outcome>)

  /** The options fetch as the page sees it: still loading, or settled with its result. */
  datatype Provider = Provider(isLoadingOptions: bool, options: Assignment.OptionsResult)

  /**
   * What can happen to the page. `Configure` carries the options fetch as it
   * stands, the form's configuration, the random value and the shuffled
   * player indices; `NamesDone` carries the names the sequencer hands over.
   */
  datatype Event =
    | Configure(provider: Provider, settings: ConfigForm.GameConfiguration, random: real, shuffled: seq<int>)
    | NamesDone(names: seq<string>)
    | Begin
    | Click(index: int)
    | Restart

  /** The state at load, and after every reset. */
  function Initial(): (s: State)
    ensures s.currentStage == Configuring
    ensures s.gameConfig.None? && s.gameOption.None? && s.fullGameSettings.None?
    ensures s.imposterIndices == [] && s.playerStatuses == []
    ensures !s.isGameOver && s.gameOverMessage.None?
  {
    State(Configuring, None, None, [], None, [], false, None)
  }

  /** A JavaScript string-or-null read as a condition: present and non-empty. */
  predicate Truthy(o: Option<string>) {
    o.Some? && o.value != ""
  }

  /**
   * `handleConfigurationComplete`: refused while the options are loading;
   * otherwise stores the configuration, draws the secret item and the
   * imposters, and moves on to name entry.
   */
  function ConfigurationComplete(prov: Provider, s: State, settings: ConfigForm.GameConfiguration, r: real, shuffled: seq<int>): (t: State)
    requires 0.0 <= r < 1.0
    requires settings.players >= 0 && Assignment.IsPermutation(shuffled, settings.players)
    ensures prov.isLoadingOptions ==> t == s
    ensures !prov.isLoadingOptions ==>
      && t.currentStage == EnteringNames
      && t.gameConfig == Some(settings)
      && t.gameOption == Some(Assignment.SelectItem(prov.options, settings.category, r).item)
      && t.imposterIndices == Assignment.ChooseImposters(settings.players, settings.imposters, shuffled)
      && t.(currentStage := s.currentStage, gameConfig := s.gameConfig, gameOption := s.gameOption,
            imposterIndices := s.imposterIndices) == s
  {
    if prov.isLoadingOptions then s
    else
      var selectedOption := Assignment.SelectItem(prov.options, settings.category, r).item;
      var selectedImposterIndices := Assignment.ChooseImposters(settings.players, settings.imposters, shuffled);
      s.(gameConfig := Some(settings), gameOption := Some(selectedOption),
         imposterIndices := selectedImposterIndices, currentStage := EnteringNames)
  }

  /**
   * `handlePlayerNamesSubmitted`: with a configuration and a (truthy) secret
   * item, takes the snapshot and moves to the ready screen; otherwise nothing.
   */
  function NamesSubmitted(s: State, names: seq<string>): (t: State)
    ensures !(s.gameConfig.Some? && Truthy(s.gameOption)) ==> t == s
    ensures s.gameConfig.Some? && Truthy(s.gameOption) ==>
      && t.currentStage == GameReady
      && t.fullGameSettings == Some(FullGameSettings(s.gameConfig.value, names, s.gameOption.value, s.imposterIndices))
      && t.(currentStage := s.currentStage, fullGameSettings := s.fullGameSettings) == s
  {
    if s.gameConfig.Some? && Truthy(s.gameOption) then
      s.(fullGameSettings := Some(FullGameSettings(s.gameConfig.value, names, s.gameOption.value, s.imposterIndices)),
         currentStage := GameReady)
    else s
  }

  /**
   * `handleBeginRound`: with the snapshot present, builds the roster from it,
   * clears any outcome and starts the round.
   */
  function BeginRound(s: State): (t: State)
    ensures s.fullGameSettings.None? ==> t == s
    ensures s.fullGameSettings.Some? ==>
      var fs := s.fullGameSettings.value;
      && t.currentStage == PlayingRound
      && |t.playerStatuses| == |fs.playerNames|
      && (forall i | 0 <= i < |fs.playerNames| ::
            && t.playerStatuses[i].name == fs.playerNames[i]
            && (t.playerStatuses[i].isImposter <==> i in fs.imposterIndices)
            && !t.playerStatuses[i].isEliminated
            && !t.playerStatuses[i].showRole)
      && !t.isGameOver && t.gameOverMessage.None?
      && t.(currentStage := s.currentStage, playerStatuses := s.playerStatuses,
            isGameOver := s.isGameOver, gameOverMessage := s.gameOverMessage) == s
  {
    if s.fullGameSettings.Some? then
      var fs := s.fullGameSettings.value;
      s.(playerStatuses := Round.BuildRoster(fs.playerNames, fs.imposterIndices),
         isGameOver := false, gameOverMessage := None, currentStage := PlayingRound)
    else s
  }

  /** Whether eliminated players' roles are shown: the snapshot's switch, false without a snapshot. */
  function RevealRole(s: State): bool {
    s.fullGameSettings.Some? && s.fullGameSettings.value.config.revealEliminatedPlayerRole
  }

  /** `handlePlayerCardClick`: eliminates the clicked player unless the game is over or they already are. */
  function CardClick(s: State, clicked: int): (t: State)
    requires 0 <= clicked < |s.playerStatuses|
    ensures s.isGameOver || s.playerStatuses[clicked].isEliminated ==> t == s
    ensures t.(playerStatuses := s.playerStatuses) == s
    ensures |t.playerStatuses| == |s.playerStatuses|
    ensures !s.isGameOver && !s.playerStatuses[clicked].isEliminated ==>
      && t.playerStatuses[clicked].isEliminated
      && t.playerStatuses[clicked].showRole == RevealRole(s)
      && t.playerStatuses[clicked].name == s.playerStatuses[clicked].name
      && t.playerStatuses[clicked].isImposter == s.playerStatuses[clicked].isImposter
      && forall j | 0 <= j < |s.playerStatuses| && j != clicked :: t.playerStatuses[j] == s.playerStatuses[j]
  {
    s.(playerStatuses := Round.Eliminate(s.playerStatuses, s.isGameOver, RevealRole(s), clicked))
  }

  /**
   * The win-check effect: only during a round, with a snapshot and a
   * non-empty roster, and only while the game is not over; an outcome ends
   * the game and is kept.
   */
  function CheckWin(s: State): (t: State)
    ensures s.currentStage != PlayingRound || s.fullGameSettings.None? || s.playerStatuses == [] || s.isGameOver ==> t == s
    ensures t.(isGameOver := s.isGameOver, gameOverMessage := s.gameOverMessage) == s
    ensures s.isGameOver ==> t.isGameOver
    ensures t.isGameOver && !s.isGameOver ==>
      t.gameOverMessage == Round.Evaluate(s.playerStatuses, s.fullGameSettings.value.config.imposters)
    ensures !t.isGameOver ==> t == s
    ensures s.currentStage == PlayingRound && s.fullGameSettings.Some? && s.playerStatuses != [] && !s.isGameOver ==>
      (t.isGameOver <==> Round.Evaluate(s.playerStatuses, s.fullGameSettings.value.config.imposters).Some?)
  {
    if s.currentStage != PlayingRound || s.fullGameSettings.None? || |s.playerStatuses| == 0 || s.isGameOver then s
    else
      match Round.Evaluate(s.playerStatuses, s.fullGameSettings.value.config.imposters)
      case Some(o) => s.(isGameOver := true, gameOverMessage := Some(o))
      case None => s
  }

  /** `resetGame`: everything derived is discarded and the session is back at configuration. */
  function Reset(s: State): (t: State)
    ensures t.currentStage == Configuring
    ensures t.gameConfig.None? && t.gameOption.None? && t.fullGameSettings.None?
    ensures t.imposterIndices == [] && t.playerStatuses == []
    ensures !t.isGameOver && t.gameOverMessage.None?
  {
    Initial()
  }

  /**
   * Whether the screen on show offers the event: the configuration form, the
   * name-entry form (rendered only with a configuration and a truthy item),
   * the ready screen (its buttons sit inside the snapshot), or the round's
   * cards and its reset button.
   */
  predicate Offered(s: State, ev: Event) {
    match ev
    case Configure(_, _, _, _) => s.currentStage == Configuring
    case NamesDone(_) => s.currentStage == EnteringNames && s.gameConfig.Some? && Truthy(s.gameOption)
    case Begin => s.currentStage == GameReady && s.fullGameSettings.Some?
    case Click(i) => s.currentStage == PlayingRound && 0 <= i < |s.playerStatuses|
    case Restart => (s.currentStage == GameReady && s.fullGameSettings.Some?) || s.currentStage == PlayingRound
  }

  /**
   * What the collaborators can deliver: the form emits a valid configuration,
   * the random value lies in [0, 1), the shuffle is a permutation of the
   * player indices, and the sequencer hands over one non-blank name per player.
   */
  predicate Producible(s: State, ev: Event) {
    match ev
    case Configure(_, settings, r, shuffled) =>
      && ConfigForm.ValidConfig(settings)
      && 0.0 <= r < 1.0
      && Assignment.IsPermutation(shuffled, settings.players)
    case NamesDone(names) =>
      s.gameConfig.Some? ==>
        && |names| == s.gameConfig.value.players
        && forall j | 0 <= j < |names| :: !Text.IsBlank(names[j])
    case _ => true
  }

  /** The handler the event triggers, without the effect. */
  function Handle(s: State, ev: Event): State
    requires Offered(s, ev) && Producible(s, ev)
  {
    match ev
    case Configure(prov, settings, r, shuffled) => ConfigurationComplete(prov, s, settings, r, shuffled)
    case NamesDone(names) => NamesSubmitted(s, names)
    case Begin => BeginRound(s)
    case Click(i) => CardClick(s, i)
    case Restart => Reset(s)
  }

  /**
   * One event: ignored unless the current screen offers it and the
   * collaborators can deliver it; otherwise its handler followed by the
   * win check.
   */
  function Step(s: State, ev: Event): State {
    if Offered(s, ev) && Producible(s, ev) then CheckWin(Handle(s, ev)) else s
  }

  function StepAll(s: State, evs: seq<Event>): State
    decreases |evs|
  {
    if evs == [] then s else StepAll(Step(s, evs[0]), evs[1..])
  }

  /** The stage that follows `st` in the forward direction. */
  function NextStage(st: Stage): Stage {
    match st
    case Configuring => EnteringNames
    case EnteringNames => GameReady
    case GameReady => PlayingRound
    case PlayingRound => PlayingRound
  }

  /** Stages only move forward one at a time; only a reset goes back, and it goes to the start. */
  lemma StepStageOrder(s: State, ev: Event)
    ensures var st := Step(s, ev).currentStage;
      || st == s.currentStage
      || (st == NextStage(s.currentStage) && !ev.Restart?)
      || (st == Configuring && ev.Restart?)
  {
  }

  /** The imposter indices drawn for a configuration: as many as configured, distinct, in range. */
  predicate ValidImposters(ids: seq<int>, cfg: ConfigForm.GameConfiguration) {
    && |ids| == cfg.imposters
    && Assignment.Distinct(ids)
    && forall i | 0 <= i < |ids| :: 0 <= ids[i] < cfg.players
  }

  /** What holds from name entry on: a valid configuration, an item, valid imposter indices. */
  predicate Configured(s: State) {
    && s.gameConfig.Some?
    && ConfigForm.ValidConfig(s.gameConfig.value)
    && s.gameOption.Some?
    && ValidImposters(s.imposterIndices, s.gameConfig.value)
  }

  /** The snapshot matches the configuration, item and imposters, with one non-blank name per player. */
  predicate Snapshot(s: State) {
    && Configured(s)
    && Truthy(s.gameOption)
    && s.fullGameSettings.Some?
    && var fs := s.fullGameSettings.value;
    && fs == FullGameSettings(s.gameConfig.value, fs.playerNames, s.gameOption.value, s.imposterIndices)
    && |fs.playerNames| == s.gameConfig.value.players
    && forall j | 0 <= j < |fs.playerNames| :: !Text.IsBlank(fs.playerNames[j])
  }

  /** The roster keeps each player's name and role from the snapshot. */
  predicate RosterMatches(s: State)
    requires s.fullGameSettings.Some?
  {
    var fs := s.fullGameSettings.value;
    && |s.playerStatuses| == |fs.playerNames|
    && forall i | 0 <= i < |fs.playerNames| ::
         && s.playerStatuses[i].name == fs.playerNames[i]
         && (s.playerStatuses[i].isImposter <==> i in fs.imposterIndices)
  }

  /** The session invariant, stage by stage. */
  predicate Inv(s: State) {
    && (s.isGameOver <==> s.gameOverMessage.Some?)
    && match s.currentStage
       case Configuring => s == Initial()
       case EnteringNames =>
         Configured(s) && s.fullGameSettings.None? && s.playerStatuses == [] && !s.isGameOver
       case GameReady =>
         Snapshot(s) && s.playerStatuses == [] && !s.isGameOver
       case PlayingRound =>
         && Snapshot(s)
         && RosterMatches(s)
         && (!s.isGameOver ==>
               Round.Evaluate(s.playerStatuses, s.fullGameSettings.value.config.imposters).None?)
  }

  lemma InitialInv()
    ensures Inv(Initial())
  {
  }

  /**
   * A round that has just begun from a valid configuration is not over: the
   * roster holds exactly the configured imposters, and they are a minority.
   */
  lemma BeginDoesNotEndRound(s: State)
    requires Inv(s) && s.currentStage == GameReady
    ensures !Step(s, Begin).isGameOver
    ensures Step(s, Begin).currentStage == PlayingRound
  {
    var fs := s.fullGameSettings.value;
    Round.FreshRosterCounts(fs.playerNames, fs.imposterIndices);
    ConfigForm.ValidConfigMinority(fs.config);
  }

  /** Every event keeps the invariant. */
  lemma StepKeepsInv(s: State, ev: Event)
    requires Inv(s)
    ensures Inv(Step(s, ev))
  {
    if Offered(s, ev) && Producible(s, ev) {
      match ev
      case Configure(prov, settings, r, shuffled) =>
      case NamesDone(names) =>
      case Begin =>
        BeginDoesNotEndRound(s);
      case Click(i) =>
        var t := Handle(s, ev);
        assert Snapshot(t);
        assert RosterMatches(t);
      case Restart =>
    }
  }

  /** Any sequence of events keeps the invariant. */
  lemma {:induction false} StepAllKeepsInv(s: State, evs: seq<Event>)
    requires Inv(s)
    ensures Inv(StepAll(s, evs))
    decreases |evs|
  {
    if evs != [] {
      StepKeepsInv(s, evs[0]);
      StepAllKeepsInv(Step(s, evs[0]), evs[1..]);
    }
  }

  /** Once the game is over nothing but a reset changes the session. */
  lemma GameOverIsFinal(s: State, ev: Event)
    requires Inv(s) && s.isGameOver && !ev.Restart?
    ensures Step(s, ev) == s
  {
  }

  /** The game stays over, with the same outcome, through any events that do not reset it. */
  lemma {:induction false} GameOverStaysOver(s: State, evs: seq<Event>)
    requires Inv(s) && s.isGameOver
    requires forall k | 0 <= k < |evs| :: !evs[k].Restart?
    ensures StepAll(s, evs) == s
    decreases |evs|
  {
    if evs != [] {
      GameOverIsFinal(s, evs[0]);
      GameOverStaysOver(s, evs[1..]);
    }
  }

  /** The sequencer's props for the session's name-entry stage. */
  function NamingProps(s: State): (p: Naming.Props)
    requires s.gameConfig.Some? && s.gameOption.Some?
    ensures p.numberOfPlayers == s.gameConfig.value.players
  {
    Naming.Props(s.gameConfig.value.players, s.gameOption.value, s.imposterIndices)
  }

  /**
   * Whatever the players do in the name-entry form, the names it completes
   * with are ones the session accepts, and they take it to the ready screen.
   */
  lemma SequencerFeedsSession(s: State, inputs: seq<Naming.Input>)
    requires Inv(s) && s.currentStage == EnteringNames && Truthy(s.gameOption)
    requires Naming.Run(NamingProps(s), Naming.Init(NamingProps(s)), inputs).Completed?
    ensures var names := Naming.Run(NamingProps(s), Naming.Init(NamingProps(s)), inputs).names;
      && Producible(s, NamesDone(names))
      && Step(s, NamesDone(names)).currentStage == GameReady
  {
    var p := NamingProps(s);
    Naming.InitInv(p);
    Naming.RunKeepsInv(p, Naming.Init(p), inputs);
  }
}
