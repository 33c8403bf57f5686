/**
 * The configuration form: category picker, player and imposter sliders and the
 * reveal switch, with the effects that keep the imposter count in range and
 * the submit handler that emits a game configuration.
 */
module ConfigForm {
  import opened Common

  const MinPlayers := 3
  const MaxPlayers := 20
  const DefaultPlayers := 5
  const MinImposters := 1

  /** The `value` of each entry of the category picker, in display order (icons and labels left out). */
  const Categories: seq<string> := ["location", "cities", "activities", "movies", "games", "mythology"]

  /** What the form hands to the session when the game is started. */
  datatype GameConfiguration = GameConfiguration(
    category: string,
    players: int,
    imposters: int,
    revealEliminatedPlayerRole: bool)

  /** The form's local state. */
  datatype FormState = FormState(
    selectedCategory: string,
    numberOfPlayers: int,
    numberOfImposters: int,
    revealRole: bool)

  /** A user action on one of the form's widgets. */
  datatype FormEvent =
    | SelectCategory(value: string)
    | SlidePlayers(players: int)
    | SlideImposters(imposters: int)
    | ToggleReveal(on: bool)

  function Max(a: int, b: int): int { if a >= b then a else b }
  function Min(a: int, b: int): int { if a <= b then a else b }

  /**
   * `max(MIN_IMPOSTERS_SLIDER, floor(players / 4))`: the bound the clamp uses
   * and the imposter slider's upper end. (Dafny's `/` by 4 rounds down, as
   * `Math.floor` does.) The ensures pin it down: 1 below 8 players, and
   * otherwise the largest m with 4m <= players.
   */
  function MaxImposters(players: int): (m: int)
    ensures m >= MinImposters
    ensures m == MinImposters || 4 * m <= players
    ensures players < 4 * (m + 1)
  {
    Max(MinImposters, players / 4)
  }

  /** The imposter slider's `max` prop; the same bound the clamp uses. */
  function SliderMax(f: FormState): (m: int)
    ensures m == MaxImposters(f.numberOfPlayers)
  {
    Max(MinImposters, f.numberOfPlayers / 4)
  }

  /** The clamp the player-count effect applies to the current imposter count. */
  function ClampImposters(current: int, players: int): (r: int)
    ensures MinImposters <= r <= MaxImposters(players)
    ensures MinImposters <= current <= MaxImposters(players) ==> r == current
    ensures current > MaxImposters(players) ==> r == MaxImposters(players)
    ensures current < MinImposters ==> r == MinImposters
  {
    Max(MinImposters, Min(current, MaxImposters(players)))
  }

  /** Clamping twice is clamping once. */
  lemma ClampIdempotent(current: int, players: int)
    ensures ClampImposters(ClampImposters(current, players), players) == ClampImposters(current, players)
  {
  }

  /**
   * Within the player slider's range the clamped count is between 1 and 5,
   * never exceeds the player count, and leaves the loyal players in a strict
   * majority.
   */
  lemma ClampWithinPlayerRange(current: int, players: int)
    requires MinPlayers <= players <= MaxPlayers
    ensures 1 <= ClampImposters(current, players) <= 5
    ensures ClampImposters(current, players) <= players
    ensures 2 * ClampImposters(current, players) < players
  {
  }

  /** The imposter count the form starts with. */
  function InitialImposters(): (k: int)
    ensures k == 1
  {
    Max(MinImposters, Min(MinImposters, MaxImposters(DefaultPlayers)))
  }

  /** The category effect: an empty selection is replaced by the first category. */
  function DefaultCategory(f: FormState): (g: FormState)
    ensures g.selectedCategory == (if f.selectedCategory == "" then Categories[0] else f.selectedCategory)
    ensures g.(selectedCategory := f.selectedCategory) == f
  {
    if |Categories| > 0 && f.selectedCategory == "" then f.(selectedCategory := Categories[0]) else f
  }

  /** The form as first shown, after its mount effects have run. */
  function Initial(): (f: FormState)
    ensures f == FormState("location", DefaultPlayers, 1, false)
  {
    DefaultCategory(FormState("", DefaultPlayers, InitialImposters(), false))
  }

  /**
   * Whether the widget can produce this event at all: the picker offers only
   * the listed categories, and each slider only values within its range.
   */
  predicate Producible(f: FormState, e: FormEvent) {
    match e
    case SelectCategory(v) => v in Categories
    case SlidePlayers(p) => MinPlayers <= p <= MaxPlayers
    case SlideImposters(k) => MinImposters <= k <= SliderMax(f)
    case ToggleReveal(_) => true
  }

  /**
   * One user action followed by the effect it triggers: a new player count
   * re-clamps the imposter count. The category effect does not fire again:
   * the picker only offers non-empty values. An event the widget cannot
   * produce leaves the form unchanged; every other event sets its own field
   * and leaves the rest alone.
   */
  function Apply(f: FormState, e: FormEvent): (g: FormState)
    ensures !Producible(f, e) ==> g == f
    ensures Producible(f, e) && e.SelectCategory? ==> g == f.(selectedCategory := e.value)
    ensures Producible(f, e) && e.SlideImposters? ==> g == f.(numberOfImposters := e.imposters)
    ensures Producible(f, e) && e.ToggleReveal? ==> g == f.(revealRole := e.on)
    ensures Producible(f, e) && e.SlidePlayers? ==>
      g == f.(numberOfPlayers := e.players, numberOfImposters := ClampImposters(f.numberOfImposters, e.players))
  {
    if !Producible(f, e) then f
    else
      match e
      case SelectCategory(v) => f.(selectedCategory := v)
      case SlidePlayers(p) => f.(numberOfPlayers := p, numberOfImposters := ClampImposters(f.numberOfImposters, p))
      case SlideImposters(k) => f.(numberOfImposters := k)
      case ToggleReveal(on) => f.(revealRole := on)
  }

  /** Applies the events in order. */
  function ApplyAll(f: FormState, es: seq<FormEvent>): FormState
    decreases |es|
  {
    if es == [] then f else ApplyAll(Apply(f, es[0]), es[1..])
  }

  /** The invariant the form keeps: a listed category and both counts within their sliders' ranges. */
  predicate Valid(f: FormState) {
    && f.selectedCategory in Categories
    && MinPlayers <= f.numberOfPlayers <= MaxPlayers
    && MinImposters <= f.numberOfImposters <= MaxImposters(f.numberOfPlayers)
  }

  /** A configuration the form can emit: a chosen category, counts in range. */
  predicate ValidConfig(c: GameConfiguration) {
    && c.category != ""
    && MinPlayers <= c.players <= MaxPlayers
    && MinImposters <= c.imposters <= MaxImposters(c.players)
  }

  lemma InitialValid()
    ensures Valid(Initial())
  {
  }

  lemma ApplyKeepsValid(f: FormState, e: FormEvent)
    requires Valid(f)
    ensures Valid(Apply(f, e))
  {
  }

  /** Whatever the user does, the form stays valid. */
  lemma {:induction false} ApplyAllKeepsValid(f: FormState, es: seq<FormEvent>)
    requires Valid(f)
    ensures Valid(ApplyAll(f, es))
    decreases |es|
  {
    if es != [] {
      ApplyKeepsValid(f, es[0]);
      ApplyAllKeepsValid(Apply(f, es[0]), es[1..]);
    }
  }

  /**
   * `handleStartGame`: nothing is emitted without a category; otherwise the
   * configuration carries exactly the form's current values.
   */
  function StartGame(f: FormState): (c: Option<GameConfiguration>)
    ensures c.None? <==> f.selectedCategory == ""
    ensures c.Some? ==>
      && c.value.category == f.selectedCategory
      && c.value.players == f.numberOfPlayers
      && c.value.imposters == f.numberOfImposters
      && c.value.revealEliminatedPlayerRole == f.revealRole
  {
    if f.selectedCategory == "" then None
    else Some(GameConfiguration(f.selectedCategory, f.numberOfPlayers, f.numberOfImposters, f.revealRole))
  }

  /** A valid form always emits, and what it emits is a valid configuration. */
  lemma StartGameFromValidForm(f: FormState)
    requires Valid(f)
    ensures StartGame(f).Some? && ValidConfig(StartGame(f).value)
  {
  }

  /** In a valid configuration the imposters are a strict minority. */
  lemma ValidConfigMinority(c: GameConfiguration)
    requires ValidConfig(c)
    ensures 0 < c.imposters && 2 * c.imposters < c.players
  {
  }
}
