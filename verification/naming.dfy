/**
 * The name-entry sequencer: one player at a time types a name, submits it,
 * privately sees "Imposter" or the secret item until the reveal timer fires,
 * and the form then moves on to the next player, completing with the list of
 * names after the last one.
 */
module Naming {
  import opened Common
  import Text

  /** What an imposter is shown instead of the secret item. */
  const ImposterReveal := "Imposter"

  /** The name field's `maxLength`. */
  const MaxNameLength := 30

  /** The component's props, fixed while it is mounted. */
  datatype Props = Props(numberOfPlayers: int, gameOption: string, imposterIndices: seq<int>)

  /** The component's state. */
  datatype Entry = Entry(
    playerNames: seq<string>,
    currentPlayerIndex: int,
    currentName: string,
    revealedContent: Option<string>)

  /** A user action, or the reveal timer firing. */
  datatype Input = Type(text: string) | Submit | TimerFires | Previous

  /** Still entering names, or finished with the full list handed to the session. */
  datatype Progress = Pending(state: Entry) | Completed(names: seq<string>)

  /** The state at mount: one empty name per player, first player, nothing revealed. */
  function Init(p: Props): (e: Entry)
    requires p.numberOfPlayers >= 0
    ensures |e.playerNames| == p.numberOfPlayers && e.currentPlayerIndex == 0
    ensures forall j | 0 <= j < |e.playerNames| :: e.playerNames[j] == ""
    ensures e.currentName == "" && e.revealedContent.None?
  {
    Entry(seq(p.numberOfPlayers, _ => ""), 0, "", None)
  }

  /**
   * A reveal is on screen. `revealedContent` is read for truthiness, so an
   * empty string counts as nothing revealed.
   */
  predicate Showing(e: Entry) {
    e.revealedContent.Some? && e.revealedContent.value != ""
  }

  /** The current index points into the name list. */
  predicate InRange(e: Entry) {
    0 <= e.currentPlayerIndex < |e.playerNames|
  }

  /** The reload effect: the field shows the name saved for the current player. */
  function Reload(e: Entry): (f: Entry)
    requires InRange(e)
    ensures f.currentName == e.playerNames[e.currentPlayerIndex]
    ensures f.(currentName := e.currentName) == e
  {
    e.(currentName := e.playerNames[e.currentPlayerIndex])
  }

  /** The field's new value; the browser keeps it within `maxLength`, and a disabled field takes no input. */
  function Edit(e: Entry, text: string): (f: Entry)
    ensures Showing(e) ==> f == e
    ensures !Showing(e) ==> f == e.(currentName := f.currentName)
    ensures |f.currentName| <= MaxNameLength || f.currentName == e.currentName
    ensures !Showing(e) && |text| <= MaxNameLength ==> f.currentName == text
    ensures !Showing(e) && |text| > MaxNameLength ==> f.currentName == text[..MaxNameLength]
  {
    if Showing(e) then e
    else e.(currentName := if |text| <= MaxNameLength then text else text[..MaxNameLength])
  }

  /** What the current player is shown after submitting. */
  function RevealFor(p: Props, index: int): (s: string)
    ensures s == ImposterReveal <==> index in p.imposterIndices || p.gameOption == ImposterReveal
    ensures index !in p.imposterIndices ==> s == p.gameOption
  {
    if index in p.imposterIndices then ImposterReveal else p.gameOption
  }

  /**
   * `handleNextPlayer`: while a reveal is showing the submit button is
   * disabled; a blank name is rejected; otherwise the trimmed name is saved
   * for the current player only and the reveal starts.
   */
  function SubmitName(p: Props, e: Entry): (f: Entry)
    requires InRange(e)
    ensures Showing(e) || Text.IsBlank(e.currentName) ==> f == e
    ensures !Showing(e) && !Text.IsBlank(e.currentName) ==>
      && f.currentPlayerIndex == e.currentPlayerIndex
      && |f.playerNames| == |e.playerNames|
      && f.playerNames[e.currentPlayerIndex] == Text.Trim(e.currentName)
      && (forall j | 0 <= j < |e.playerNames| && j != e.currentPlayerIndex :: f.playerNames[j] == e.playerNames[j])
      && f.revealedContent == Some(if e.currentPlayerIndex in p.imposterIndices then ImposterReveal else p.gameOption)
      && f.currentName == Text.Trim(e.currentName)
  {
    if Showing(e) then e
    else if Text.Trim(e.currentName) == "" then e
    else
      var updatedNames := e.playerNames[e.currentPlayerIndex := Text.Trim(e.currentName)];
      Reload(e.(playerNames := updatedNames, revealedContent := Some(RevealFor(p, e.currentPlayerIndex))))
  }

  /** The reveal timer clears what is shown; it only runs while something is shown. */
  function FireTimer(e: Entry): (f: Entry)
    ensures Showing(e) ==> f == e.(revealedContent := None)
    ensures !Showing(e) ==> f == e
    ensures !Showing(f)
  {
    if Showing(e) then e.(revealedContent := None) else e
  }

  /**
   * `handlePreviousPlayer`: disabled while a reveal shows and absent for the
   * first player; otherwise steps back one player, clears the reveal, and the
   * field reloads that player's saved name.
   */
  function GoBack(e: Entry): (f: Entry)
    requires InRange(e)
    ensures Showing(e) || e.currentPlayerIndex == 0 ==> f == e
    ensures !Showing(e) && e.currentPlayerIndex > 0 ==>
      && f.currentPlayerIndex == e.currentPlayerIndex - 1
      && f.playerNames == e.playerNames
      && f.revealedContent.None?
      && f.currentName == e.playerNames[e.currentPlayerIndex - 1]
  {
    if Showing(e) || e.currentPlayerIndex <= 0 then e
    else Reload(e.(revealedContent := None, currentPlayerIndex := e.currentPlayerIndex - 1))
  }

  /** The name list has one slot per player and the index points into it. */
  predicate Shape(p: Props, e: Entry) {
    |e.playerNames| == p.numberOfPlayers && InRange(e)
  }

  /** Saved names are trimmed and within the field's length limit. */
  predicate WellFormedName(s: string) {
    Text.IsTrimmed(s) && |s| <= MaxNameLength
  }

  /**
   * The sequencer's invariant: the shape holds, every player before the
   * current one has a non-blank name, every saved name is well formed, and
   * the field respects the length limit.
   */
  predicate Inv(p: Props, e: Entry) {
    && Shape(p, e)
    && (forall j | 0 <= j < e.currentPlayerIndex :: !Text.IsBlank(e.playerNames[j]))
    && (forall j | 0 <= j < |e.playerNames| :: WellFormedName(e.playerNames[j]))
    && |e.currentName| <= MaxNameLength
  }

  /**
   * The auto-advance effect, re-run until it stops firing: when nothing is
   * shown and the current player has a saved non-blank name, move to the next
   * player (reloading the field), or complete after the last one.
   */
  function Settle(p: Props, e: Entry): (r: Progress)
    requires Shape(p, e)
    ensures r.Pending? ==> Shape(p, r.state) && r.state.playerNames == e.playerNames
    ensures r.Completed? ==> r.names == e.playerNames
    ensures Showing(e) || Text.IsBlank(e.playerNames[e.currentPlayerIndex]) ==> r == Pending(e)
    ensures r.Pending? ==> r.state.revealedContent == e.revealedContent
    ensures r.Pending? && r.state.currentPlayerIndex != e.currentPlayerIndex ==>
      r.state.currentName == e.playerNames[r.state.currentPlayerIndex]
    ensures r.Pending? ==>
      forall j | e.currentPlayerIndex <= j < r.state.currentPlayerIndex :: !Text.IsBlank(e.playerNames[j])
    decreases p.numberOfPlayers - e.currentPlayerIndex
  {
    var i := e.currentPlayerIndex;
    if Showing(e) || Text.IsBlank(e.playerNames[i]) then Pending(e)
    else if i < p.numberOfPlayers - 1 then Settle(p, Reload(e.(currentPlayerIndex := i + 1)))
    else Completed(e.playerNames)
  }

  /**
   * The effect fires only when nothing is shown and the current player's
   * saved name is non-blank; it then moves forward, or completes on the last
   * player; it completes only when every player from the current one on has
   * a non-blank name, and it stops on a player with a blank name or a reveal.
   */
  lemma {:induction false} SettleAdvances(p: Props, e: Entry)
    requires Shape(p, e)
    ensures var i := e.currentPlayerIndex;
      !Showing(e) && !Text.IsBlank(e.playerNames[i]) ==>
        if i == p.numberOfPlayers - 1 then Settle(p, e) == Completed(e.playerNames)
        else Settle(p, e).Completed? || Settle(p, e).state.currentPlayerIndex > i
    ensures Settle(p, e).Pending? ==>
      var f := Settle(p, e).state;
      f.currentPlayerIndex >= e.currentPlayerIndex
      && (Showing(f) || Text.IsBlank(f.playerNames[f.currentPlayerIndex]))
    ensures Settle(p, e).Completed? ==>
      forall j | e.currentPlayerIndex <= j < p.numberOfPlayers :: !Text.IsBlank(e.playerNames[j])
    decreases p.numberOfPlayers - e.currentPlayerIndex
  {
    var i := e.currentPlayerIndex;
    if !Showing(e) && !Text.IsBlank(e.playerNames[i]) && i < p.numberOfPlayers - 1 {
      SettleAdvances(p, Reload(e.(currentPlayerIndex := i + 1)));
    }
  }

  /**
   * The effect keeps the invariant, and it completes only when every player
   * has a saved non-blank, well-formed name.
   */
  lemma {:induction false} SettleKeepsInv(p: Props, e: Entry)
    requires Inv(p, e)
    ensures Settle(p, e).Pending? ==> Inv(p, Settle(p, e).state)
    ensures Settle(p, e).Completed? ==>
      var names := Settle(p, e).names;
      && |names| == p.numberOfPlayers
      && forall j | 0 <= j < |names| :: !Text.IsBlank(names[j]) && WellFormedName(names[j])
    decreases p.numberOfPlayers - e.currentPlayerIndex
  {
    var i := e.currentPlayerIndex;
    if !Showing(e) && !Text.IsBlank(e.playerNames[i]) && i < p.numberOfPlayers - 1 {
      SettleKeepsInv(p, Reload(e.(currentPlayerIndex := i + 1)));
    }
  }

  /** The state change one input causes, before the effect runs. */
  function Apply(p: Props, e: Entry, input: Input): (f: Entry)
    requires InRange(e)
    ensures f.playerNames == e.playerNames || input.Submit?
    ensures |f.playerNames| == |e.playerNames| && InRange(f)
  {
    match input
    case Type(text) => Edit(e, text)
    case Submit => SubmitName(p, e)
    case TimerFires => FireTimer(e)
    case Previous => GoBack(e)
  }

  /** One input followed by the effect. */
  function Step(p: Props, e: Entry, input: Input): Progress
    requires Shape(p, e)
  {
    Settle(p, Apply(p, e, input))
  }

  /** Feeds the inputs in order; inputs after completion are ignored (the form is gone). */
  function Run(p: Props, e: Entry, inputs: seq<Input>): (r: Progress)
    requires Shape(p, e)
    ensures r.Pending? ==> Shape(p, r.state)
    decreases |inputs|
  {
    if inputs == [] then Pending(e)
    else
      var r := Step(p, e, inputs[0]);
      if r.Completed? then r else Run(p, r.state, inputs[1..])
  }

  lemma InitInv(p: Props)
    requires p.numberOfPlayers >= 1
    ensures Inv(p, Init(p))
    ensures Settle(p, Init(p)) == Pending(Init(p))
  {
  }

  /** Each input keeps the invariant. */
  lemma ApplyKeepsInv(p: Props, e: Entry, input: Input)
    requires Inv(p, e)
    ensures Inv(p, Apply(p, e, input))
  {
    match input
    case Submit => SubmitKeepsInv(p, e);
    case _ =>
  }

  lemma SubmitKeepsInv(p: Props, e: Entry)
    requires Inv(p, e)
    ensures Inv(p, SubmitName(p, e))
  {
    if !Showing(e) && !Text.IsBlank(e.currentName) {
      var f := SubmitName(p, e);
      var i := e.currentPlayerIndex;
      assert forall j | 0 <= j < |e.playerNames| && j != i :: f.playerNames[j] == e.playerNames[j];
      assert WellFormedName(f.playerNames[i]);
    }
  }

  /**
   * Whatever the players do, the sequencer keeps its invariant, and when it
   * completes it hands over exactly one non-blank, trimmed name per player.
   */
  lemma {:induction false} RunKeepsInv(p: Props, e: Entry, inputs: seq<Input>)
    requires Inv(p, e)
    ensures Run(p, e, inputs).Pending? ==> Inv(p, Run(p, e, inputs).state)
    ensures Run(p, e, inputs).Completed? ==>
      var names := Run(p, e, inputs).names;
      && |names| == p.numberOfPlayers
      && forall j | 0 <= j < |names| :: !Text.IsBlank(names[j]) && WellFormedName(names[j])
    decreases |inputs|
  {
    if inputs != [] {
      ApplyKeepsInv(p, e, inputs[0]);
      SettleKeepsInv(p, Apply(p, e, inputs[0]));
      var r := Step(p, e, inputs[0]);
      if r.Pending? {
        RunKeepsInv(p, r.state, inputs[1..]);
      }
    }
  }

  /**
   * "Previous" does not stay on the previous player: that player's name is
   * saved and non-blank, so the auto-advance effect fires at once and brings
   * the form back to the same player, with the field reloaded from the saved
   * name (any unsaved typing is lost).
   */
  lemma PreviousReturnsToSamePlayer(p: Props, e: Entry)
    requires Inv(p, e) && !Showing(e) && e.currentPlayerIndex > 0
    ensures Step(p, e, Previous) == Settle(p, Reload(e.(revealedContent := None)))
  {
    var back := GoBack(e);
    assert !Text.IsBlank(back.playerNames[back.currentPlayerIndex]);
    assert Reload(back.(currentPlayerIndex := e.currentPlayerIndex)) == Reload(e.(revealedContent := None));
  }

  /** The inputs of players who each type their name, submit it, and wait for the reveal to hide. */
  function Script(typed: seq<string>): (inputs: seq<Input>)
    ensures |inputs| == 3 * |typed|
  {
    if typed == [] then [] else [Type(typed[0]), Submit, TimerFires] + Script(typed[1..])
  }

  /** Names that can be typed into the field: non-blank, within the length limit. */
  predicate Typable(typed: seq<string>) {
    forall j | 0 <= j < |typed| :: !Text.IsBlank(typed[j]) && |typed[j]| <= MaxNameLength
  }

  function TrimAll(typed: seq<string>): (r: seq<string>)
    ensures |r| == |typed| && forall j | 0 <= j < |typed| :: r[j] == Text.Trim(typed[j])
  {
    seq(|typed|, j requires 0 <= j < |typed| => Text.Trim(typed[j]))
  }

  /**
   * Entering the names one by one completes the sequencer with exactly the
   * trimmed names, in player order.
   */
  lemma ScriptCompletes(p: Props, typed: seq<string>)
    requires p.numberOfPlayers >= 1 && |typed| == p.numberOfPlayers && Typable(typed)
    ensures Run(p, Init(p), Script(typed)) == Completed(TrimAll(typed))
  {
    ScriptFrom(p, typed, Init(p), 0);
    assert typed[0..] == typed;
  }

  /** The rest of a run after a step: finished, or the remaining inputs from the new state. */
  function Continue(p: Props, r: Progress, inputs: seq<Input>): Progress
    requires r.Pending? ==> Shape(p, r.state)
  {
    if r.Completed? then r else Run(p, r.state, inputs)
  }

  /** Running `xs` then `ys` is running `xs` and, unless that completed the form, `ys` from where it stopped. */
  lemma {:induction false} RunAppend(p: Props, e: Entry, xs: seq<Input>, ys: seq<Input>)
    requires Shape(p, e)
    ensures Run(p, e, xs + ys) == Continue(p, Run(p, e, xs), ys)
    decreases |xs|
  {
    if xs == [] {
      assert xs + ys == ys;
    } else {
      assert (xs + ys)[0] == xs[0] && (xs + ys)[1..] == xs[1..] + ys;
      var r := Step(p, e, xs[0]);
      if r.Pending? {
        RunAppend(p, r.state, xs[1..], ys);
      }
    }
  }

  /** After the reveal hides (or when nothing was shown), the form moves to the next player or completes. */
  lemma AdvanceAfterReveal(p: Props, e: Entry) returns (next: Entry)
    requires Shape(p, e) && !Showing(e) && !Text.IsBlank(e.playerNames[e.currentPlayerIndex])
    requires e.currentPlayerIndex + 1 < p.numberOfPlayers ==> e.playerNames[e.currentPlayerIndex + 1] == ""
    ensures Shape(p, next)
    ensures e.currentPlayerIndex == p.numberOfPlayers - 1 ==> Settle(p, e) == Completed(e.playerNames)
    ensures e.currentPlayerIndex < p.numberOfPlayers - 1 ==>
      && Settle(p, e) == Pending(next)
      && !Showing(next)
      && Text.IsBlank(next.playerNames[next.currentPlayerIndex])
      && next.currentPlayerIndex == e.currentPlayerIndex + 1
      && next.playerNames == e.playerNames
  {
    next := e;
    if e.currentPlayerIndex < p.numberOfPlayers - 1 {
      next := Reload(e.(currentPlayerIndex := e.currentPlayerIndex + 1));
      assert Settle(p, next) == Pending(next);
    }
  }

  /** Typing into the field of a player without a saved name leaves the effect idle. */
  lemma TypeThenRun(p: Props, e: Entry, t: string, rest: seq<Input>)
    requires Shape(p, e) && !Showing(e) && Text.IsBlank(e.playerNames[e.currentPlayerIndex])
    ensures Shape(p, Edit(e, t))
    ensures Run(p, e, [Type(t)] + rest) == Run(p, Edit(e, t), rest)
  {
    assert ([Type(t)] + rest)[0] == Type(t) && ([Type(t)] + rest)[1..] == rest;
    assert Step(p, e, Type(t)) == Pending(Edit(e, t));
  }

  /** Submitting a name that starts a reveal, then the timer: the reveal hides and the effect runs. */
  lemma SubmitThenTimer(p: Props, e: Entry)
    requires Shape(p, e) && Showing(SubmitName(p, e))
    ensures Run(p, e, [Submit, TimerFires]) == Settle(p, FireTimer(SubmitName(p, e)))
  {
    var two := [Submit, TimerFires];
    assert two[0] == Submit && two[1..] == [TimerFires];
    assert [TimerFires][0] == TimerFires && [TimerFires][1..] == [];
    assert Step(p, e, Submit) == Pending(SubmitName(p, e));
  }

  /** Submitting a name with nothing to reveal: the effect runs, then the timer does nothing. */
  lemma SubmitWithoutReveal(p: Props, e: Entry, next: Entry)
    requires Shape(p, e) && !Showing(SubmitName(p, e))
    requires Settle(p, SubmitName(p, e)) == Pending(next)
    requires Text.IsBlank(next.playerNames[next.currentPlayerIndex]) && !Showing(next)
    ensures Run(p, e, [Submit, TimerFires]) == Pending(next)
  {
    var two := [Submit, TimerFires];
    assert two[0] == Submit && two[1..] == [TimerFires];
    assert [TimerFires][0] == TimerFires && [TimerFires][1..] == [];
    assert Step(p, next, TimerFires) == Pending(next);
  }

  /** Submitting the last name with nothing to reveal completes the form at once. */
  lemma SubmitCompletes(p: Props, e: Entry, names: seq<string>)
    requires Shape(p, e) && !Showing(SubmitName(p, e))
    requires Settle(p, SubmitName(p, e)) == Completed(names)
    ensures Run(p, e, [Submit, TimerFires]) == Completed(names)
  {
    assert [Submit, TimerFires][0] == Submit;
  }

  /** Typing a non-blank name and submitting it saves its trimmed form for the current player. */
  lemma TypeAndSave(p: Props, e: Entry, t: string)
    requires Shape(p, e) && !Showing(e) && !Text.IsBlank(t) && |t| <= MaxNameLength
    requires Text.IsBlank(e.playerNames[e.currentPlayerIndex])
    ensures Shape(p, Edit(e, t))
    ensures Run(p, e, [Type(t), Submit, TimerFires]) == Run(p, Edit(e, t), [Submit, TimerFires])
    ensures var f := SubmitName(p, Edit(e, t));
      && Shape(p, f)
      && f.currentPlayerIndex == e.currentPlayerIndex
      && f.playerNames == e.playerNames[e.currentPlayerIndex := Text.Trim(t)]
      && !Text.IsBlank(f.playerNames[f.currentPlayerIndex])
  {
    var i := e.currentPlayerIndex;
    assert [Type(t), Submit, TimerFires] == [Type(t)] + [Submit, TimerFires];
    TypeThenRun(p, e, t, [Submit, TimerFires]);
    var e1 := Edit(e, t);
    assert e1.playerNames == e.playerNames && e1.currentName == t;
    var f := SubmitName(p, e1);
    assert f.playerNames == e.playerNames[i := Text.Trim(t)];
  }

  /**
   * After a saved name, whether or not a reveal showed, the timer leaves the
   * form on the next player with nothing shown.
   */
  lemma SubmitAndWait(p: Props, e: Entry) returns (next: Entry)
    requires Shape(p, e)
    requires var f := SubmitName(p, e);
      && !Text.IsBlank(f.playerNames[f.currentPlayerIndex])
      && f.currentPlayerIndex + 1 < p.numberOfPlayers
      && f.playerNames[f.currentPlayerIndex + 1] == ""
    ensures var f := SubmitName(p, e);
      && Shape(p, next) && !Showing(next)
      && next.currentPlayerIndex == f.currentPlayerIndex + 1
      && next.playerNames == f.playerNames
      && Run(p, e, [Submit, TimerFires]) == Pending(next)
  {
    var f := SubmitName(p, e);
    if Showing(f) {
      SubmitThenTimer(p, e);
      next := AdvanceAfterReveal(p, FireTimer(f));
    } else {
      next := AdvanceAfterReveal(p, f);
      SubmitWithoutReveal(p, e, next);
    }
  }

  /** After the last saved name, whether or not a reveal showed, the form completes. */
  lemma SubmitAndFinish(p: Props, e: Entry)
    requires Shape(p, e)
    requires var f := SubmitName(p, e);
      && !Text.IsBlank(f.playerNames[f.currentPlayerIndex])
      && f.currentPlayerIndex == p.numberOfPlayers - 1
    ensures Run(p, e, [Submit, TimerFires]) == Completed(SubmitName(p, e).playerNames)
  {
    var f := SubmitName(p, e);
    if Showing(f) {
      SubmitThenTimer(p, e);
      var _ := AdvanceAfterReveal(p, FireTimer(f));
    } else {
      var _ := AdvanceAfterReveal(p, f);
      SubmitCompletes(p, e, f.playerNames);
    }
  }

  /**
   * A player other than the last types a non-blank name, submits it and waits
   * for the reveal to hide: the trimmed name is saved and the form is on the
   * next player with nothing shown.
   */
  lemma OnePlayer(p: Props, e: Entry, t: string) returns (next: Entry)
    requires Shape(p, e) && !Showing(e) && !Text.IsBlank(t) && |t| <= MaxNameLength
    requires Text.IsBlank(e.playerNames[e.currentPlayerIndex])
    requires e.currentPlayerIndex + 1 < p.numberOfPlayers && e.playerNames[e.currentPlayerIndex + 1] == ""
    ensures Shape(p, next) && !Showing(next)
    ensures next.currentPlayerIndex == e.currentPlayerIndex + 1
    ensures next.playerNames == e.playerNames[e.currentPlayerIndex := Text.Trim(t)]
    ensures Run(p, e, [Type(t), Submit, TimerFires]) == Pending(next)
  {
    TypeAndSave(p, e, t);
    next := SubmitAndWait(p, Edit(e, t));
  }

  /** The last player types a non-blank name, submits it and waits: the form completes with that name saved. */
  lemma LastPlayer(p: Props, e: Entry, t: string)
    requires Shape(p, e) && !Showing(e) && !Text.IsBlank(t) && |t| <= MaxNameLength
    requires Text.IsBlank(e.playerNames[e.currentPlayerIndex])
    requires e.currentPlayerIndex == p.numberOfPlayers - 1
    ensures Run(p, e, [Type(t), Submit, TimerFires]) == Completed(e.playerNames[e.currentPlayerIndex := Text.Trim(t)])
  {
    TypeAndSave(p, e, t);
    SubmitAndFinish(p, Edit(e, t));
  }

  lemma ScriptCons(typed: seq<string>, i: nat)
    requires i < |typed|
    ensures Script(typed[i..]) == [Type(typed[i]), Submit, TimerFires] + Script(typed[i + 1..])
  {
    assert typed[i..][1..] == typed[i + 1..];
  }

  /** The induction behind `ScriptCompletes`: from player `i` on, with players before `i` done. */
  lemma {:induction false} ScriptFrom(p: Props, typed: seq<string>, e: Entry, i: nat)
    requires |typed| == p.numberOfPlayers && Typable(typed)
    requires i < |typed|
    requires Shape(p, e) && e.currentPlayerIndex == i && !Showing(e)
    requires forall j | 0 <= j < i :: e.playerNames[j] == Text.Trim(typed[j])
    requires forall j | i <= j < |typed| :: e.playerNames[j] == ""
    ensures Run(p, e, Script(typed[i..])) == Completed(TrimAll(typed))
    decreases |typed| - i
  {
    var rest := Script(typed[i + 1..]);
    ScriptCons(typed, i);
    RunAppend(p, e, [Type(typed[i]), Submit, TimerFires], rest);
    var names := e.playerNames[i := Text.Trim(typed[i])];
    assert !Text.IsBlank(typed[i]) && |typed[i]| <= MaxNameLength;
    if i == |typed| - 1 {
      LastPlayer(p, e, typed[i]);
      assert names == TrimAll(typed);
    } else {
      var next := OnePlayer(p, e, typed[i]);
      ScriptFrom(p, typed, next, i + 1);
    }
  }
}
