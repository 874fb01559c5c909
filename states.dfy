/** The game phases of lifepong/core/states.py. `Paused` is declared but nothing enters or leaves it. */
module States {
  datatype GameState = Placement | Playing | Paused
}
