/** The game state of the draw-ball game and the click handlers that change it.

    The player picks up to six of the balls 1..59 into the picked tracker, by
    clicking balls or by the lucky dip; starting the game draws six winning
    values into the winning tracker, counts the matches and, at the end of the
    round, pays out by a fixed table and resets.  Three buttons (reset, lucky
    dip, start game) are switched on and off by flipping their flags. */
module Game {
  import opened Slots

  /** The prize for a number of matched balls. */
  function Payout(amountMatched: int): (amountWon: nat)
    ensures amountMatched in PrizeTable ==> amountWon == PrizeTable[amountMatched]
    ensures amountMatched !in PrizeTable ==> amountWon == 0
  {
    match amountMatched
    case 3 => 50
    case 4 => 100
    case 5 => 200
    case 6 => 500
    case _ => 0
  }

  /** The prize table, as the pairs of matched count and prize. */
  const PrizeTable: map<int, nat> := map[3 := 50, 4 := 100, 5 := 200, 6 := 500]

  /** A prize is paid exactly for three to six matched balls. */
  lemma PayoutPositiveIff(amountMatched: int)
    ensures Payout(amountMatched) > 0 <==> 3 <= amountMatched <= 6
  {
  }

  /** Within the counts a round can produce, matching more balls never pays less. */
  lemma PayoutMonotonic(fewer: int, more: int)
    requires 0 <= fewer <= more <= SlotCount
    ensures Payout(fewer) <= Payout(more)
  {
  }

  /** The board's ball tracker: one "picked" flag per ball, all false. */
  method FillBallsTracker(max: nat) returns (arrayTracker: seq<bool>)
    ensures |arrayTracker| == max
    ensures forall k :: 0 <= k < max ==> !arrayTracker[k]
  {
    arrayTracker := [];
    for i := 0 to max
      invariant |arrayTracker| == i
      invariant forall k :: 0 <= k < i ==> !arrayTracker[k]
    {
      arrayTracker := arrayTracker + [false];
    }
  }

  /** A control button.  Clicks reach its handler only while `interactive` holds;
      `buttonMode` shows the pointer cursor.  Both start off. */
  class Button {
    var interactive: bool
    var buttonMode: bool

    constructor ()
      ensures !interactive && !buttonMode
    {
      interactive, buttonMode := false, false;
    }

    /** The two flags agree, as they do from creation on. */
    predicate Consistent()
      reads this
    {
      interactive == buttonMode
    }

    /** Switches the button on if it was off and off if it was on. */
    method ActivateDeactivate()
      modifies this
      ensures interactive == !old(interactive) && buttonMode == !old(buttonMode)
      ensures Consistent() == old(Consistent())
    {
      interactive := !interactive;
      buttonMode := !buttonMode;
    }
  }

  /** Both flags of `b` are the negation of what they were. */
  twostate predicate Flipped(b: Button)
    reads b
  {
    b.interactive == !old(b.interactive) && b.buttonMode == !old(b.buttonMode)
  }

  class GameState {
    /** One flag per ball on the board; only its length, the number of balls, is used. */
    const ballsTracker: seq<bool>
    /** The player's six slots, 0 for empty. */
    const picked: array<int>
    /** The six drawn values, 0 for empty. */
    const winning: array<int>
    /** How many winning balls are on display. */
    var winningShown: nat
    const resetButton: Button
    const luckyDipButton: Button
    const startGameButton: Button

    ghost predicate Valid()
      reads this, picked, winning, resetButton, luckyDipButton, startGameButton
    {
      && |ballsTracker| == BallCount
      && picked != winning
      && resetButton != luckyDipButton
      && resetButton != startGameButton
      && luckyDipButton != startGameButton
      && resetButton.Consistent()
      && luckyDipButton.Consistent()
      && startGameButton.Consistent()
      && resetButton.interactive == luckyDipButton.interactive
      && PickedShape(picked[..])
      && WinningShape(winning[..], winningShown)
    }

    /** The module-level set-up: the ball tracker, two empty trackers and three
        buttons, all switched off. */
    constructor ()
      ensures Valid()
      ensures fresh(picked) && fresh(winning)
      ensures fresh(resetButton) && fresh(luckyDipButton) && fresh(startGameButton)
      ensures forall k :: 0 <= k < |ballsTracker| ==> !ballsTracker[k]
      ensures Cleared(picked[..]) && Cleared(winning[..]) && winningShown == 0
      ensures !resetButton.interactive && !luckyDipButton.interactive && !startGameButton.interactive
    {
      var tracker := FillBallsTracker(BallCount);
      ballsTracker := tracker;
      winning := new int[SlotCount](_ => 0);
      picked := new int[SlotCount](_ => 0);
      winningShown := 0;
      resetButton := new Button();
      luckyDipButton := new Button();
      startGameButton := new Button();
    }

    /** Start-up: the reset and lucky dip buttons are switched on. */
    method Create()
      requires Valid()
      modifies resetButton, luckyDipButton
      ensures Valid()
      ensures Flipped(resetButton) && Flipped(luckyDipButton)
    {
      resetButton.ActivateDeactivate();
      luckyDipButton.ActivateDeactivate();
    }

    /** A click on ball `i` (showing number i + 1). */
    method HandleBallClick(i: int)
      requires Valid()
      requires 0 <= i < |ballsTracker|
      modifies picked, startGameButton
      ensures Valid()
      // an already picked ball is unpicked: its slot, and nothing else, is emptied
      ensures i + 1 in old(picked[..]) ==>
        && picked[..] == old(picked[..])[IndexOf(old(picked[..]), i + 1) := 0]
        && unchanged(startGameButton)
      // otherwise the ball goes into the lowest empty slot, if there is one
      ensures i + 1 !in old(picked[..]) && 0 in old(picked[..]) ==>
        picked[..] == old(picked[..])[IndexOf(old(picked[..]), 0) := i + 1]
      ensures i + 1 !in old(picked[..]) && 0 !in old(picked[..]) ==>
        picked[..] == old(picked[..])
      // and the start-game button is flipped exactly when no slot is left empty
      ensures i + 1 !in old(picked[..]) && 0 !in picked[..] ==> Flipped(startGameButton)
      ensures i + 1 !in old(picked[..]) && 0 in picked[..] ==> unchanged(startGameButton)
    {
      var at := IndexOf(picked[..], i + 1);
      if at >= 0 {
        picked[at] := 0;
        return;
      }
      for j := 0 to picked.Length
        modifies picked
        invariant forall k :: 0 <= k < j ==> picked[k] != 0
        invariant picked[..] == old(picked[..])
      {
        if picked[j] == 0 {
          picked[j] := i + 1;
          break;
        }
      }
      if IndexOf(picked[..], 0) < 0 {
        startGameButton.ActivateDeactivate();
      }
    }

    /** Lucky dip: every empty slot receives a random value the tracker does not
        hold yet; filled slots are kept. */
    method RandomPick()
      requires Valid()
      modifies picked, startGameButton
      ensures Valid()
      ensures 0 !in picked[..]
      ensures forall k :: 0 <= k < SlotCount && old(picked[k]) != 0 ==> picked[k] == old(picked[k])
      ensures forall k :: 0 <= k < SlotCount && old(picked[k]) == 0 ==> 1 <= picked[k] <= RandomMax
      ensures AllDistinct(picked[..])
      ensures Flipped(startGameButton)
    {
      for i := 0 to picked.Length
        modifies picked
        invariant PickedShape(picked[..])
        invariant forall k :: 0 <= k < i ==> picked[k] != 0
        invariant forall k :: 0 <= k < SlotCount && old(picked[k]) != 0 ==> picked[k] == old(picked[k])
        invariant forall k :: 0 <= k < i && old(picked[k]) == 0 ==> 1 <= picked[k] <= RandomMax
        invariant forall k :: i <= k < SlotCount ==> picked[k] == old(picked[k])
      {
        if picked[i] != 0 {
          continue;
        }
        FreshValueExists(picked[..], RandomMax);
        var randomNumber :| 1 <= randomNumber <= RandomMax && randomNumber !in picked[..];
        picked[i] := randomNumber;
      }
      if IndexOf(picked[..], 0) < 0 {
        startGameButton.ActivateDeactivate();
      }
    }

    /** The draw: unless every winning slot is already filled, all six receive
        random values, each one not yet in the tracker, and six winning balls go
        on display. */
    method RandomDraw()
      requires Valid()
      modifies winning, this`winningShown
      ensures Valid()
      ensures 0 !in old(winning[..]) ==> winning[..] == old(winning[..]) && winningShown == old(winningShown)
      ensures 0 in old(winning[..]) ==> winningShown == old(winningShown) + SlotCount
      ensures 0 !in winning[..] && BallsWithin(winning[..], 1, RandomMax) && AllDistinct(winning[..])
    {
      if IndexOf(winning[..], 0) < 0 {
        return;
      }
      for i := 0 to winning.Length
        modifies winning
        invariant forall a :: 0 <= a < i ==> 1 <= winning[a] <= RandomMax
        invariant forall a, b :: 0 <= a < i && 0 <= b < SlotCount && a != b ==> winning[a] != winning[b]
      {
        FreshValueExists(winning[..], RandomMax);
        var randomNumber :| 1 <= randomNumber <= RandomMax && randomNumber !in winning[..];
        winning[i] := randomNumber;
      }
      winningShown := winningShown + winning.Length;
    }

    /** The number of winning slots whose value the player picked. */
    method GetAmountNumberMatched() returns (amountNumberMatched: nat)
      ensures amountNumberMatched == Matches(picked[..], winning[..])
    {
      amountNumberMatched := 0;
      for i := 0 to winning.Length
        invariant amountNumberMatched == Matches(picked[..], winning[..i])
      {
        MatchesAppend(picked[..], winning[..i], winning[i]);
        assert winning[..i + 1] == winning[..i] + [winning[i]];
        if IndexOf(picked[..], winning[i]) >= 0 {
          amountNumberMatched := amountNumberMatched + 1;
        }
      }
      assert winning[..winning.Length] == winning[..];
    }

    /** The effect of a reset: every picked slot and every displayed winning slot
        emptied, the display cleared, the reset and lucky dip buttons flipped. */
    twostate predicate ResetDone()
      reads this, picked, winning, resetButton, luckyDipButton, startGameButton
    {
      && winning.Length == SlotCount
      && Cleared(picked[..])
      && (forall k :: 0 <= k < SlotCount && k < old(winningShown) ==> winning[k] == 0)
      && (forall k :: old(winningShown) <= k < SlotCount ==> winning[k] == old(winning[k]))
      && winningShown == 0
      && Flipped(resetButton) && Flipped(luckyDipButton)
      && unchanged(startGameButton)
    }

    method Reset()
      requires Valid()
      modifies picked, winning, this`winningShown, resetButton, luckyDipButton
      ensures Valid()
      ensures ResetDone()
      ensures Cleared(winning[..])
    {
      for i := 0 to picked.Length
        modifies picked
        invariant forall k :: 0 <= k < i ==> picked[k] == 0
      {
        if picked[i] == 0 {
          continue;
        }
        picked[i] := 0;
      }
      for i := 0 to winningShown
        modifies winning
        invariant forall k :: 0 <= k < i ==> winning[k] == 0
        invariant forall k :: i <= k < SlotCount ==> winning[k] == old(winning[k])
      {
        winning[i] := 0;
      }
      winningShown := 0;
      resetButton.ActivateDeactivate();
      luckyDipButton.ActivateDeactivate();
    }

    /** Start game: draw, count the matches and flip all three buttons.  The
        matched count is handed on to the end of the round. */
    method StartGame() returns (amountMatched: nat)
      requires Valid()
      modifies winning, this`winningShown, resetButton, luckyDipButton, startGameButton
      ensures Valid()
      ensures 0 !in old(winning[..]) ==> winning[..] == old(winning[..]) && winningShown == old(winningShown)
      ensures 0 in old(winning[..]) ==> winningShown == old(winningShown) + SlotCount
      ensures 0 !in winning[..] && BallsWithin(winning[..], 1, RandomMax) && AllDistinct(winning[..])
      ensures amountMatched == Matches(picked[..], winning[..])
      ensures amountMatched == |Elements(winning[..]) * Elements(picked[..])|
      ensures amountMatched <= SlotCount
      ensures Flipped(resetButton) && Flipped(luckyDipButton) && Flipped(startGameButton)
    {
      RandomDraw();
      amountMatched := GetAmountNumberMatched();
      MatchesIsIntersection(picked[..], winning[..]);
      resetButton.ActivateDeactivate();
      luckyDipButton.ActivateDeactivate();
      startGameButton.ActivateDeactivate();
    }

    /** The end of the round, once the winning balls have been shown: the prize
        for the matched count is announced and the game is reset. */
    method FinishRound(amountMatched: int) returns (amountWon: nat)
      requires Valid()
      modifies picked, winning, this`winningShown, resetButton, luckyDipButton
      ensures Valid()
      ensures amountWon == Payout(amountMatched)
      ensures ResetDone()
    {
      amountWon := Payout(amountMatched);
      Reset();
    }
  }
}
