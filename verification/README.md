# Imposter game: a Dafny model of the game core

This project models the core of a party game for one shared device. Players
configure a game with a category, a player count, an imposter count and a
switch that reveals eliminated players' roles. The page draws a secret item
from fetched option lists and picks the imposters at random. Each player then
enters a name and privately sees either the secret item or the word
"Imposter" until a timer hides it. In the round that follows, players are
eliminated one by one until a win rule ends the game.

The model is pure Dafny: immutable datatypes for each piece of state and a
total step function per component. Each React effect is folded into the event
that triggers it.

| module | file | what it models |
|---|---|---|
| `Common` | `common.dfy` | `Option` |
| `Text` | `text.dfy` | `String.prototype.trim` and `toLowerCase` on ASCII |
| `ConfigForm` | `config_form.dfy` | the configuration form. Its constants are 3..20 players, 5 by default, and at least 1 imposter. It covers the imposter clamp, the slider bound, the category default and `handleStartGame` |
| `Assignment` | `assignment.dfy` | the fallback chain for the secret item (chosen category, then the pooled items, then `"Mystery Item"`) and imposters as a prefix of a shuffle |
| `Round` | `round.dfy` | the roster, the one-way elimination and the three ordered win rules |
| `Naming` | `naming.dfy` | the name-entry sequencer: submit, reveal, the timer, auto-advance, "Previous" and the reload of the field |
| `Session` | `session.dfy` | the page's four stages, its handlers, the win-check effect and `resetGame`, composed into one `Step` over the events the current screen offers |

Behaviours of the code that the model keeps and states as lemmas:

- **"Previous" returns to the same player.** "Previous" moves back one player. The earlier player's name is already saved and non-blank, so the auto-advance effect at `src/components/player-name-entry-form.tsx:59-79` fires at once. The form lands back on the player it left, and any unsaved typing is lost (`Naming.PreviousReturnsToSamePlayer`). So the button never leaves the form on the earlier player.
- **The third win rule never fires after an elimination.** Rule 3 (no loyal player left) can only fire on a roster that starts with no loyal player. From a round in progress, one elimination always leaves a loyal player, because the loyal players strictly outnumbered the imposters (`Round.ThirdRuleNeverFollowsElimination`).
- **JavaScript truthiness is modelled.**
  - An empty revealed string counts as nothing shown, so the reveal is skipped.
  - An empty secret item counts as no item. The page then does not render the name form, and the session does not accept names.
- **The fetched options object is an ordered list of (key, items) entries.** The entries are in `Object.entries` order, and the pooled fallback list of `Object.values(..).flat()` depends on that order. With distinct keys, a lookup agrees with the map view (`Assignment.LookupAgreesWithMap`).

The page keeps the game-over message as a string. The model keeps the outcome instead, and `Round.Message` gives the text shown for it. `Round.MessageIdentifiesOutcome` shows that the outcome and its message determine each other.

Inputs from outside the code become parameters:

- the settled result of the options fetch (or "still loading");
- the random value `r`, a real in [0, 1);
- the shuffled index list, which may be any permutation;
- the firing of the reveal timer, as an input event.

## Model

| member | source | states |
|---|---|---|
| Text.Trim | src/components/player-name-entry-form.tsx:42-52 | the result is a slice of the input whose cut-off prefix and suffix are all white space; it has no white space at either end, and it is empty exactly when the input is all white space (the blank-name test) |
| Text.TrimIdempotent | src/components/player-name-entry-form.tsx:52 | trimming a saved name again changes nothing |
| Text.LowerChar | src/app/page.tsx:120 | a capital A-Z becomes the lower-case letter at the same alphabet position; no capital remains; any other character is kept |
| Text.ToLower | src/app/page.tsx:120 | the lower-cased key has the input's length and lower-cases it character by character |
| Text.ToLowerFacts | src/app/page.tsx:120 | the lookup key has no ASCII capital; lower-casing leaves a lower-case key alone and is idempotent |
| ConfigForm.MaxImposters | src/components/configure-game-form.tsx:68 | the bound is at least 1; it is 1 below 8 players and otherwise the largest m with 4m no more than the player count |
| ConfigForm.SliderMax | src/components/configure-game-form.tsx:91 | the imposter slider's maximum is the same bound the clamp uses |
| ConfigForm.ClampImposters | src/components/configure-game-form.tsx:67-72 | the clamped count lies in [1, bound]; an in-range count is kept, one above the bound becomes the bound, one below 1 becomes 1 |
| ConfigForm.ClampIdempotent | src/components/configure-game-form.tsx:67-72 | clamping twice is clamping once |
| ConfigForm.ClampWithinPlayerRange | src/components/configure-game-form.tsx:161-169 | for 3..20 players the clamped count is 1..5, at most the player count, and fewer than half the players |
| ConfigForm.InitialImposters | src/components/configure-game-form.tsx:51-55 | the form starts with one imposter |
| ConfigForm.DefaultCategory | src/components/configure-game-form.tsx:60-65 | an empty selection becomes the first category; a chosen one is kept; nothing else changes |
| ConfigForm.Initial | src/components/configure-game-form.tsx:47-65 | after its mount effects the form shows "location", 5 players, 1 imposter, reveal off |
| ConfigForm.Apply | src/components/configure-game-form.tsx:135-211 | the picker sets the category, the imposter slider the imposter count and the switch the reveal flag, each leaving every other field alone; a new player count sets the count and re-clamps the imposter count; a value the widget cannot produce changes nothing |
| ConfigForm.ApplyAllKeepsValid | src/components/configure-game-form.tsx:161-191 | whatever the user does, the category is a listed one and both counts stay within their sliders' ranges |
| ConfigForm.StartGame | src/components/configure-game-form.tsx:74-89 | nothing is emitted exactly when no category is selected; otherwise the configuration carries the form's current values |
| ConfigForm.StartGameFromValidForm | src/components/configure-game-form.tsx:74-89 | a valid form always emits, and what it emits is a valid configuration |
| ConfigForm.ValidConfigMinority | src/components/configure-game-form.tsx:68 | in a configuration the form can emit, imposters are at least one and a strict minority |
| Assignment.Lookup | src/app/page.tsx:121 | absent exactly when no entry has the key; when present, some entry with that key holds those items |
| Assignment.LookupAgreesWithMap | src/app/page.tsx:121 | with distinct keys, the list lookup agrees with the object seen as a map |
| Assignment.Flatten | src/app/page.tsx:128 | the pool holds exactly the items of all categories, and is empty exactly when every list is empty; its order is fixed by `Assignment.FlattenSingle` and `Assignment.FlattenAppend` |
| Assignment.FlattenSingle | src/app/page.tsx:128 | the pool of a single category is exactly that category's list |
| Assignment.FlattenAppend | src/app/page.tsx:128 | the pool of two runs of entries is the first run's pool followed by the second's, so the lists are joined in key order with repeats kept |
| Assignment.ScaledIndex | src/app/page.tsx:124 | `floor(r * len)` is a valid index and is the floor of the scaled value |
| Assignment.ScaledIndexReaches | src/app/page.tsx:124 | every index is reached by some random value in [0, 1) |
| Assignment.SelectItem | src/app/page.tsx:109-146 | the default after a failed fetch or with no keys. The item comes from the category exactly when its lower-cased key has a non-empty list. It comes from the pool exactly when that list is missing or empty and the pool is not. Otherwise it is the default. Each item is a member of the list it was drawn from |
| Assignment.CategoryItemReachable | src/app/page.tsx:123-125 | every item of the chosen category can be drawn |
| Assignment.PoolItemReachable | src/app/page.tsx:126-131 | when the chosen category has no items, every position of the non-empty pool is drawn, from the pool, by some random value |
| Assignment.ChooseImposters | src/app/page.tsx:150-153 | none when the count is not positive; otherwise the first min(count, players) shuffled indices, distinct and in range |
| Assignment.EveryPlayerCanBeImposter | src/app/page.tsx:151-153 | every player is made an imposter by some shuffle |
| Round.BuildRoster | src/app/page.tsx:184-189 | one card per name in order, an imposter exactly when its index was drawn, nobody eliminated, no role shown |
| Round.CountIsCard | src/app/page.tsx:219-221 | the card-by-card count of remaining players of a role is the size of the set of their positions |
| Round.Eliminate | src/app/page.tsx:197-212 | ignored once the game is over or for an eliminated card; otherwise only the clicked card becomes eliminated, its role shown exactly when the game reveals roles |
| Round.EliminateCounts | src/app/page.tsx:197-212 | an elimination lowers the remaining count of the clicked player's role by one and leaves the other role's count alone |
| Round.Evaluate | src/app/page.tsx:219-232 | each outcome holds exactly when its rule fires: the players win when imposters were configured and none remains; the imposters win by numbers when some remain and match or exceed a non-zero loyal count; they win by elimination when imposters were configured, some remain and no loyal player does; no outcome exactly when none of these holds |
| Round.MessageIdentifiesOutcome | src/app/page.tsx:226-231 | the three game-over messages are distinct, and a message opens with "Players Win!" exactly for the loyal players' win |
| Round.EvaluateCharacterised | src/app/page.tsx:226-232 | with imposters configured, the round goes on exactly while some imposter remains and the loyal players outnumber them; the players win exactly when no imposter remains |
| Round.NoImpostersNeverEnds | src/app/page.tsx:226-232 | with no imposter on the roster none remains, and with none configured either, the check never ends the round |
| Round.FreshRosterCounts | src/app/page.tsx:184-189 | a fresh roster has as many remaining imposters as distinct indices were drawn, and every other player is loyal |
| Round.ThirdRuleNeverFollowsElimination | src/app/page.tsx:230-231 | from a round in progress, one elimination never ends it by the all-loyal-eliminated rule |
| Round.FivePlayerScenario | src/app/page.tsx:197-232 | five players with one imposter: eliminating the imposter wins for the players; eliminating three loyal players instead wins for the imposters; a later click changes nothing |
| Session.Initial | src/app/page.tsx:32-41 | the page starts at configuration with nothing stored and no game over |
| Session.ConfigurationComplete | src/app/page.tsx:98-161 | refused while options load; otherwise stores the configuration, the drawn item and imposters, moves to name entry and changes nothing else |
| Session.NamesSubmitted | src/app/page.tsx:163-180 | only with a configuration and a truthy item: takes the snapshot of configuration, names, item and imposters and moves to the ready screen |
| Session.BeginRound | src/app/page.tsx:182-195 | with a snapshot, builds the roster from it, clears the outcome and starts the round; without one, nothing |
| Session.CardClick | src/app/page.tsx:197-212 | eliminates the clicked card unless the game is over or it already is; the role is shown per the snapshot's switch; nothing else changes |
| Session.CheckWin | src/app/page.tsx:214-245 | acts only during an unfinished round with a snapshot and a roster; there the game ends exactly when the rules give an outcome, and that outcome is kept; nothing else changes |
| Session.Reset | src/app/page.tsx:248-260 | back to configuration with everything derived discarded |
| Session.StepStageOrder | src/app/page.tsx:262-320 | stages move forward one at a time; only a reset goes back, to the start |
| Session.BeginDoesNotEndRound | src/app/page.tsx:182-232 | a round begun from a valid configuration is in progress, not over |
| Session.StepKeepsInv | src/app/page.tsx:98-260 | every event keeps the stage-by-stage invariant: configuration, item and imposters valid from name entry on; snapshot and roster consistent; an unfinished round has no outcome yet |
| Session.StepAllKeepsInv | src/app/page.tsx:98-260 | any sequence of events keeps that invariant |
| Session.GameOverIsFinal | src/app/page.tsx:197-198 | once the game is over, every event but a reset leaves the session unchanged |
| Session.GameOverStaysOver | src/app/page.tsx:214-217 | the game stays over, with the same outcome, through any events that do not reset it |
| Session.SequencerFeedsSession | src/components/player-name-entry-form.tsx:67-74 | whatever the players do, the names the form completes with are accepted by the page and take it to the ready screen |
| Naming.Init | src/components/player-name-entry-form.tsx:21-24 | one empty name per player, the first player, an empty field, nothing shown |
| Naming.Reload | src/components/player-name-entry-form.tsx:27-29 | the field shows the current player's saved name; nothing else changes |
| Naming.Edit | src/components/player-name-entry-form.tsx:117-126 | a disabled field takes no input; otherwise only the field changes, to the text cut at 30 characters |
| Naming.RevealFor | src/components/player-name-entry-form.tsx:55-56 | an imposter sees "Imposter", every other player sees the secret item |
| Naming.SubmitName | src/components/player-name-entry-form.tsx:40-57 | nothing while a reveal shows or for a blank name; otherwise only the current player's saved name becomes the trimmed name, and the reveal starts |
| Naming.FireTimer | src/components/player-name-entry-form.tsx:59-65 | the timer clears what is shown and nothing else |
| Naming.GoBack | src/components/player-name-entry-form.tsx:82-87 | unavailable while a reveal shows or on the first player; otherwise one player back, nothing shown, the field reloaded, the names kept |
| Naming.Settle | src/components/player-name-entry-form.tsx:59-79 | the effect does nothing while a reveal shows or the current name is blank; it only moves past players whose saved names are non-blank, keeps the reveal as it was, reloads the field with the saved name of the player it lands on, never changes the names, and hands over the saved list on completion |
| Naming.SettleAdvances | src/components/player-name-entry-form.tsx:66-75 | with nothing shown and a saved name, the effect moves forward or, on the last player, completes; it completes only if every later player has a saved name |
| Naming.ApplyKeepsInv | src/components/player-name-entry-form.tsx:40-87 | every input keeps the sequencer invariant: earlier players named, saved names trimmed and at most 30 characters |
| Naming.RunKeepsInv | src/components/player-name-entry-form.tsx:59-79 | any input sequence keeps the invariant, and completion hands over one non-blank, trimmed name per player |
| Naming.PreviousReturnsToSamePlayer | src/components/player-name-entry-form.tsx:82-87 | "Previous" followed by the effect lands back on the same player, with the field reloaded from the saved name |
| Naming.ScriptCompletes | src/components/player-name-entry-form.tsx:40-79 | players who each type a name, submit and wait complete the form with exactly their trimmed names, in order |

## Left out

- The options fetch, its JSON parsing and its error toast are left out. The settled result is a parameter: entries in key order, or a failure. A JSON value that is an object but not a list of strings under some key is not modelled.
- `Math.random()` and floating-point rounding are left out. The random value is an exact real in [0, 1). The `clientRandomValue ?? Math.random()` fallback is the same parameter.
- The shuffle `sort(() => 0.5 - Math.random())` is an arbitrary permutation input. Its bias is not modelled, and no claim of uniformity is made.
- The three-second `setTimeout` is an input event. Clearing it on re-render is not modelled, and neither are the timing and the race that clearing guards against.
- React scheduling is folded into the triggering event: effect re-runs, batching, repeated calls of `onNamesSubmitted` while the form stays mounted, and input focus.
- Rendering is left out: toasts, confetti, window resize, labels, icons and styling. The render guards that decide which handlers can be reached are kept in `Session.Offered`.
- `trim` and `toLowerCase` cover ASCII only. Unicode white space and non-ASCII case mapping are not modelled.
- Naming.Edit: the 30-character limit is counted in Dafny characters (Unicode scalar values), where the browser's `maxLength` counts UTF-16 code units. A name containing characters outside the Basic Multilingual Plane is cut later than in the browser, so `Naming.WellFormedName`, `Naming.ApplyKeepsInv` and `Naming.RunKeepsInv` bound the length in characters, not in code units.
- The configuration form's `isClient` placeholder render is left out. It only delays the form's first paint.
