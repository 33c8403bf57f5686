/**
 * The round engine: the roster built when the round begins, one-way
 * elimination with an optional role reveal, and the three-rule win check.
 */
module Round {
  import opened Common

  /** One player's card in the round. */
  datatype PlayerStatus = PlayerStatus(name: string, isImposter: bool, isEliminated: bool, showRole: bool)

  /** How a round ended. */
  datatype Outcome =
    | AllImpostersEliminated
    | ImpostersMatchLoyal
    | AllLoyalEliminated

  /** Who won, as the game-over message opens. */
  function Headline(o: Outcome): string {
    if o.AllImpostersEliminated? then "Players Win!" else "Imposters Win!"
  }

  /** Why the game ended, as the game-over message continues. */
  function Reason(o: Outcome): string {
    match o
    case AllImpostersEliminated => "All imposters have been eliminated."
    case ImpostersMatchLoyal => "Their numbers match or exceed the loyal players."
    case AllLoyalEliminated => "All loyal players have been eliminated."
  }

  /** The game-over message shown for an outcome. */
  function Message(o: Outcome): string {
    Headline(o) + " " + Reason(o)
  }

  /**
   * The message tells the outcome apart: different outcomes show different
   * messages, and a message opens with "Players Win!" exactly for the loyal
   * players' win.
   */
  lemma MessageIdentifiesOutcome(a: Outcome, b: Outcome)
    ensures Message(a) == Message(b) ==> a == b
    ensures PlayersWon(a) <==> Message(a)[..12] == "Players Win!"
  {
    assert |Message(AllImpostersEliminated)| == 48;
    assert |Message(ImpostersMatchLoyal)| == 63;
    assert |Message(AllLoyalEliminated)| == 54;
    assert Message(a)[..12] == Headline(a)[..12];
    assert Message(a)[0] == Headline(a)[0];
    assert "Imposters Win!"[0] == 'I';
  }

  /** Whether the outcome is a win for the loyal players. */
  predicate PlayersWon(o: Outcome) {
    o.AllImpostersEliminated?
  }

  /**
   * The roster at the start of a round: one card per name, in order, marked
   * as imposter exactly when its index was drawn, nobody eliminated, no role shown.
   */
  function BuildRoster(names: seq<string>, imposterIndices: seq<int>): (roster: seq<PlayerStatus>)
    ensures |roster| == |names|
    ensures forall i | 0 <= i < |names| ::
      roster[i] == PlayerStatus(names[i], i in imposterIndices, false, false)
  {
    seq(|names|, i requires 0 <= i < |names| => PlayerStatus(names[i], i in imposterIndices, false, false))
  }

  /** The positions of the players not yet eliminated whose role is `imposter`. */
  function RemainingSet(roster: seq<PlayerStatus>, imposter: bool): set<int> {
    set i | 0 <= i < |roster| && !roster[i].isEliminated && roster[i].isImposter == imposter
  }

  /** How many players not yet eliminated have the role `imposter`, counted card by card. */
  function CountRemaining(roster: seq<PlayerStatus>, imposter: bool): (k: nat)
    ensures k <= |roster|
    decreases |roster|
  {
    if roster == [] then 0
    else
      var last := roster[|roster| - 1];
      CountRemaining(roster[..|roster| - 1], imposter)
        + if !last.isEliminated && last.isImposter == imposter then 1 else 0
  }

  /** The card-by-card count is the size of the set of remaining positions. */
  lemma {:induction false} CountIsCard(roster: seq<PlayerStatus>, imposter: bool)
    ensures CountRemaining(roster, imposter) == |RemainingSet(roster, imposter)|
    decreases |roster|
  {
    if roster != [] {
      var n := |roster|;
      var front := roster[..n - 1];
      CountIsCard(front, imposter);
      var extra := RemainingSetSnoc(roster, imposter);
      assert |RemainingSet(front, imposter) + extra| == |RemainingSet(front, imposter)| + |extra|;
    }
  }

  /** The positions remaining in a roster are those of all but its last card, plus the last if it remains. */
  lemma RemainingSetSnoc(roster: seq<PlayerStatus>, imposter: bool) returns (extra: set<int>)
    requires roster != []
    ensures var n := |roster|; var last := roster[n - 1];
      && extra == (if !last.isEliminated && last.isImposter == imposter then {n - 1} else {})
      && RemainingSet(roster, imposter) == RemainingSet(roster[..n - 1], imposter) + extra
      && RemainingSet(roster[..n - 1], imposter) !! extra
  {
    var n := |roster|;
    var front := roster[..n - 1];
    var last := roster[n - 1];
    extra := if !last.isEliminated && last.isImposter == imposter then {n - 1} else {};
    forall i
      ensures i in RemainingSet(roster, imposter) <==> i in RemainingSet(front, imposter) + extra
    {
      if 0 <= i < n - 1 {
        assert front[i] == roster[i];
      }
    }
  }

  /** Imposters still in the game. */
  function RemainingImposters(roster: seq<PlayerStatus>): nat {
    CountRemaining(roster, true)
  }

  /** Loyal players still in the game. */
  function RemainingLoyal(roster: seq<PlayerStatus>): nat {
    CountRemaining(roster, false)
  }

  /**
   * A card click: ignored once the game is over or for a card already
   * eliminated; otherwise that card alone is eliminated, its role shown
   * exactly when the game reveals eliminated roles.
   */
  function Eliminate(roster: seq<PlayerStatus>, isGameOver: bool, revealRole: bool, clicked: int): (r: seq<PlayerStatus>)
    requires 0 <= clicked < |roster|
    ensures isGameOver || roster[clicked].isEliminated ==> r == roster
    ensures |r| == |roster|
    ensures !isGameOver && !roster[clicked].isEliminated ==>
      && r[clicked].isEliminated
      && r[clicked].showRole == revealRole
      && r[clicked].name == roster[clicked].name
      && r[clicked].isImposter == roster[clicked].isImposter
      && forall j | 0 <= j < |roster| && j != clicked :: r[j] == roster[j]
  {
    if isGameOver || roster[clicked].isEliminated then roster
    else roster[clicked := roster[clicked].(isEliminated := true, showRole := revealRole)]
  }

  /** Each effective elimination removes exactly one player, of the clicked player's role. */
  lemma EliminateCounts(roster: seq<PlayerStatus>, revealRole: bool, clicked: int, imposter: bool)
    requires 0 <= clicked < |roster| && !roster[clicked].isEliminated
    ensures CountRemaining(Eliminate(roster, false, revealRole, clicked), imposter) ==
      CountRemaining(roster, imposter) - (if roster[clicked].isImposter == imposter then 1 else 0)
  {
    var r := Eliminate(roster, false, revealRole, clicked);
    CountIsCard(roster, imposter);
    CountIsCard(r, imposter);
    if roster[clicked].isImposter == imposter {
      assert RemainingSet(r, imposter) == RemainingSet(roster, imposter) - {clicked};
    } else {
      assert RemainingSet(r, imposter) == RemainingSet(roster, imposter);
    }
  }

  /**
   * The win check, rules tried in order: some imposter was configured and
   * none remains; imposters remain and match or exceed the loyal players
   * still in; imposters remain, no loyal player does, and some were configured.
   */
  function Evaluate(roster: seq<PlayerStatus>, totalImposters: int): (o: Option<Outcome>)
    ensures o == Some(AllImpostersEliminated) <==> totalImposters > 0 && RemainingImposters(roster) == 0
    ensures o == Some(ImpostersMatchLoyal) <==> RemainingImposters(roster) >= RemainingLoyal(roster) > 0
    ensures o == Some(AllLoyalEliminated) <==>
      totalImposters > 0 && RemainingImposters(roster) > 0 && RemainingLoyal(roster) == 0
    ensures o.None? <==>
      && !(totalImposters > 0 && RemainingImposters(roster) == 0)
      && !(RemainingImposters(roster) >= RemainingLoyal(roster) > 0)
      && !(totalImposters > 0 && RemainingImposters(roster) > 0 && RemainingLoyal(roster) == 0)
  {
    var imposters := RemainingImposters(roster);
    var loyal := RemainingLoyal(roster);
    if totalImposters > 0 && imposters == 0 then Some(AllImpostersEliminated)
    else if imposters > 0 && imposters >= loyal && loyal > 0 then Some(ImpostersMatchLoyal)
    else if imposters > 0 && loyal == 0 && totalImposters > 0 then Some(AllLoyalEliminated)
    else None
  }

  /**
   * With imposters configured, the round goes on exactly while some imposter
   * remains and the loyal players still in strictly outnumber them; the
   * loyal players win exactly when no imposter remains.
   */
  lemma EvaluateCharacterised(roster: seq<PlayerStatus>, totalImposters: int)
    requires totalImposters > 0
    ensures Evaluate(roster, totalImposters).None? <==>
      0 < RemainingImposters(roster) < RemainingLoyal(roster)
    ensures Evaluate(roster, totalImposters).Some? ==>
      (PlayersWon(Evaluate(roster, totalImposters).value) <==> RemainingImposters(roster) == 0)
  {
  }

  /** Without imposters on the roster none can remain, so the check never ends the round. */
  lemma {:induction false} NoImpostersNeverEnds(roster: seq<PlayerStatus>, totalImposters: int)
    requires forall i | 0 <= i < |roster| :: !roster[i].isImposter
    ensures RemainingImposters(roster) == 0
    ensures totalImposters <= 0 ==> Evaluate(roster, totalImposters).None?
    decreases |roster|
  {
    if roster != [] {
      NoImpostersNeverEnds(roster[..|roster| - 1], totalImposters);
    }
  }

  /** The positions of `ids` that fall in [0, n). */
  function IndexSetBelow(ids: seq<int>, n: nat): set<int> {
    set i | 0 <= i < n && i in ids
  }

  /** Distinct indices, all in range, make a set of the same size. */
  lemma {:induction false} DistinctIndicesCard(ids: seq<int>, n: nat)
    requires forall i, j | 0 <= i < j < |ids| :: ids[i] != ids[j]
    requires forall i | 0 <= i < |ids| :: 0 <= ids[i] < n
    ensures |IndexSetBelow(ids, n)| == |ids|
    decreases |ids|
  {
    if ids != [] {
      var last := ids[|ids| - 1];
      var front := ids[..|ids| - 1];
      DistinctIndicesCard(front, n);
      assert last !in front;
      assert IndexSetBelow(ids, n) == IndexSetBelow(front, n) + {last};
    }
  }

  /** On a roster where nobody is eliminated every player is either a remaining imposter or a remaining loyal one. */
  lemma {:induction false} FreshCountsSplit(roster: seq<PlayerStatus>)
    requires forall i | 0 <= i < |roster| :: !roster[i].isEliminated
    ensures RemainingImposters(roster) + RemainingLoyal(roster) == |roster|
    decreases |roster|
  {
    if roster != [] {
      FreshCountsSplit(roster[..|roster| - 1]);
    }
  }

  /**
   * A fresh roster has exactly as many imposters as distinct in-range
   * indices were drawn, and every other player is loyal.
   */
  lemma FreshRosterCounts(names: seq<string>, ids: seq<int>)
    requires forall i, j | 0 <= i < j < |ids| :: ids[i] != ids[j]
    requires forall i | 0 <= i < |ids| :: 0 <= ids[i] < |names|
    ensures RemainingImposters(BuildRoster(names, ids)) == |ids|
    ensures RemainingLoyal(BuildRoster(names, ids)) == |names| - |ids|
  {
    var roster := BuildRoster(names, ids);
    CountIsCard(roster, true);
    assert RemainingSet(roster, true) == IndexSetBelow(ids, |names|);
    DistinctIndicesCard(ids, |names|);
    FreshCountsSplit(roster);
  }

  /**
   * From a round still in progress, one elimination never ends it by the
   * third rule: the loyal players strictly outnumbered the imposters, so at
   * least one loyal player is still in afterwards. The third rule can only
   * fire on a roster that starts with no loyal player.
   */
  lemma ThirdRuleNeverFollowsElimination(roster: seq<PlayerStatus>, totalImposters: int, revealRole: bool, clicked: int)
    requires totalImposters > 0 && Evaluate(roster, totalImposters).None?
    requires 0 <= clicked < |roster| && !roster[clicked].isEliminated
    ensures Evaluate(Eliminate(roster, false, revealRole, clicked), totalImposters) != Some(AllLoyalEliminated)
  {
    EliminateCounts(roster, revealRole, clicked, false);
    EliminateCounts(roster, revealRole, clicked, true);
  }

  /**
   * Five players with the imposter at index 2: eliminating the imposter wins
   * for the players; eliminating players 0, 1 and 3 instead leaves one
   * imposter against one loyal player, a win for the imposters, after which
   * a further click changes nothing.
   */
  lemma FivePlayerScenario()
    ensures var r0 := BuildRoster(["Ann", "Bo", "Cy", "Di", "Ed"], [2]);
      && Evaluate(r0, 1).None?
      && Evaluate(Eliminate(r0, false, false, 2), 1) == Some(AllImpostersEliminated)
      && var r1 := Eliminate(r0, false, false, 0);
      && Evaluate(r1, 1).None?
      && var r2 := Eliminate(r1, false, false, 1);
      && Evaluate(r2, 1).None?
      && var r3 := Eliminate(r2, false, false, 3);
      && Evaluate(r3, 1) == Some(ImpostersMatchLoyal)
      && Eliminate(r3, true, false, 4) == r3
  {
    var r0 := BuildRoster(["Ann", "Bo", "Cy", "Di", "Ed"], [2]);
    FreshRosterCounts(["Ann", "Bo", "Cy", "Di", "Ed"], [2]);
    EliminateCounts(r0, false, 2, true);
    var r1 := Eliminate(r0, false, false, 0);
    EliminateCounts(r0, false, 0, true);
    EliminateCounts(r0, false, 0, false);
    var r2 := Eliminate(r1, false, false, 1);
    EliminateCounts(r1, false, 1, true);
    EliminateCounts(r1, false, 1, false);
    EliminateCounts(r2, false, 3, true);
    EliminateCounts(r2, false, 3, false);
  }
}
