/** The colour rule of Canvas.paintComponent: one roll in 1..10 per pane. */
module Palette {

  datatype Colour = White | Black | Red | Yellow | Blue

  /** The if-chain on the roll (int) (Math.random() * 10 + 1). */
  function PaneColour(roll: int): (c: Colour) {
    if roll == 1 then Black
    else if roll == 2 then Red
    else if roll == 3 then Yellow
    else if roll == 4 then Blue
    else White
  }

  /** The rolls in 1..10 that give colour c. */
  ghost function RollsFor(c: Colour): (rolls: set<int>) {
    set roll | 1 <= roll <= 10 && PaneColour(roll) == c
  }

  /** Over the ten rolls, black, red, yellow and blue take one roll each and
      white takes the other six (the 60% white weighting). */
  lemma ColourChoice()
    ensures RollsFor(Black) == {1} && RollsFor(Red) == {2}
    ensures RollsFor(Yellow) == {3} && RollsFor(Blue) == {4}
    ensures RollsFor(White) == {5, 6, 7, 8, 9, 10}
    ensures |RollsFor(White)| == 6
    ensures forall c :: c != White ==> |RollsFor(c)| == 1
  {
    assert RollsFor(White) == {5, 6, 7, 8, 9, 10} by {
      forall roll | roll in RollsFor(White) ensures roll in {5, 6, 7, 8, 9, 10} {
      }
    }
  }

  /** The fill colours of lines 183-187, as RGB triples. */
  function Rgb(c: Colour): (rgb: (int, int, int)) {
    match c
    case White => (250, 250, 250)
    case Black => (10, 15, 20)
    case Red => (220, 45, 60)
    case Yellow => (250, 225, 65)
    case Blue => (50, 80, 195)
  }
}
