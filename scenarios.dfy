/** Click sequences run against the game from a fresh start.  They show how the
    start-game button, which is flipped rather than set, follows the picks. */
module Scenarios {
  import opened Slots
  import opened Game

  /** A fresh game after start-up: everything empty, reset and lucky dip on, start game off. */
  method NewGame() returns (g: GameState)
    ensures g.Valid()
    ensures fresh(g.picked) && fresh(g.winning)
    ensures fresh(g.resetButton) && fresh(g.luckyDipButton) && fresh(g.startGameButton)
    ensures Cleared(g.picked[..]) && Cleared(g.winning[..]) && g.winningShown == 0
    ensures g.resetButton.interactive && g.luckyDipButton.interactive && !g.startGameButton.interactive
  {
    g := new GameState();
    g.Create();
  }

  /** Clicking a ball not yet picked when slot `k` is the lowest empty one puts the
      ball into slot `k`. */
  method ClickIntoSlot(g: GameState, i: int, k: int)
    requires g.Valid() && 0 <= i < BallCount && i + 1 !in g.picked[..]
    requires 0 <= k < SlotCount && g.picked[k] == 0
    requires forall j :: 0 <= j < k ==> g.picked[j] != 0
    modifies g.picked, g.startGameButton
    ensures g.Valid()
    ensures g.picked[..] == old(g.picked[..])[k := i + 1]
    ensures 0 in g.picked[..] ==> unchanged(g.startGameButton)
    ensures 0 !in g.picked[..] ==> Flipped(g.startGameButton)
  {
    assert IndexOf(g.picked[..], 0) == k;
    g.HandleBallClick(i);
  }

  /** Clicking balls 1 to 6 in turn on an empty tracker fills the slots in order and
      switches start game on. */
  method PickOneToSix(g: GameState)
    requires g.Valid() && Cleared(g.picked[..]) && !g.startGameButton.interactive
    modifies g.picked, g.startGameButton
    ensures g.Valid()
    ensures g.picked[..] == [1, 2, 3, 4, 5, 6]
    ensures g.startGameButton.interactive
  {
    assert g.picked[..] == [0, 0, 0, 0, 0, 0];
    ClickIntoSlot(g, 0, 0);
    assert g.picked[..] == [1, 0, 0, 0, 0, 0];
    ClickIntoSlot(g, 1, 1);
    assert g.picked[..] == [1, 2, 0, 0, 0, 0];
    ClickIntoSlot(g, 2, 2);
    assert g.picked[..] == [1, 2, 3, 0, 0, 0];
    ClickIntoSlot(g, 3, 3);
    assert g.picked[..] == [1, 2, 3, 4, 0, 0];
    ClickIntoSlot(g, 4, 4);
    assert g.picked[..] == [1, 2, 3, 4, 5, 0];
    ClickIntoSlot(g, 5, 5);
    assert g.picked[..] == [1, 2, 3, 4, 5, 6];
  }

  /** Unpicking a ball of a full tracker leaves start game on with a slot empty. */
  method UnpickAfterFull() returns (startEnabled: bool, slotEmpty: bool)
    ensures startEnabled && slotEmpty
  {
    var g := NewGame();
    PickOneToSix(g);
    g.HandleBallClick(0);
    startEnabled := g.startGameButton.interactive;
    slotEmpty := IndexOf(g.picked[..], 0) >= 0;
  }

  /** Clicking a seventh ball changes no slot but switches start game off, although
      six balls are picked. */
  method SeventhBallAfterFull() returns (startEnabled: bool, picks: seq<int>)
    ensures !startEnabled && picks == [1, 2, 3, 4, 5, 6]
  {
    var g := NewGame();
    PickOneToSix(g);
    g.HandleBallClick(6);
    startEnabled := g.startGameButton.interactive;
    picks := g.picked[..];
  }

  /** A lucky dip on a full tracker changes no slot but switches start game off. */
  method LuckyDipAfterFull() returns (startEnabled: bool, picks: seq<int>)
    ensures !startEnabled && picks == [1, 2, 3, 4, 5, 6]
  {
    var g := NewGame();
    PickOneToSix(g);
    g.RandomPick();
    startEnabled := g.startGameButton.interactive;
    picks := g.picked[..];
  }

  /** A whole round (lucky dip, start game, end of round) pays by the table for a
      match count of at most six and brings the game back to its start-up state. */
  method LuckyDipRound() returns (amountMatched: nat, amountWon: nat, back: bool)
    ensures amountMatched <= SlotCount && amountWon == Payout(amountMatched)
    ensures back
  {
    var g := NewGame();
    g.RandomPick();
    amountMatched := g.StartGame();
    amountWon := g.FinishRound(amountMatched);
    back := && Cleared(g.picked[..]) && Cleared(g.winning[..]) && g.winningShown == 0
            && g.resetButton.interactive && g.luckyDipButton.interactive
            && !g.startGameButton.interactive;
  }
}
