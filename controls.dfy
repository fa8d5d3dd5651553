/** The React `Controls` component (src/renderers/react/Controls.tsx): the
    speed slider and the Play/Pause button, as calls on the game. */
module Controls {
  import opened GameStore

  function Abs(v: int): nat
  {
    if v < 0 then -v else v
  }

  /** `Math.abs(value - SPEED_RANGE_MAX_VALUE) * SPEED_INTERVAL`: the slider level
      turned into a tick interval, inverted so that a higher level is faster. */
  function SpeedLevelToInterval(level: int, maxLevel: int, speedInterval: nat): (interval: nat)
    ensures interval == 0 <==> level == maxLevel || speedInterval == 0
  {
    ProductIsZero(Abs(level - maxLevel), speedInterval);
    Abs(level - maxLevel) * speedInterval
  }

  lemma ProductIsZero(a: nat, b: nat)
    ensures a * b == 0 <==> a == 0 || b == 0
  {
    if a > 0 && b > 0 {
      assert a * b >= b by {
        assert a * b == (a - 1) * b + b;
      }
    }
  }

  /** Up to the maximum level, raising the level never lengthens the interval. */
  lemma HigherLevelIsNotSlower(lower: int, higher: int, maxLevel: int, speedInterval: nat)
    requires lower <= higher <= maxLevel
    ensures SpeedLevelToInterval(higher, maxLevel, speedInterval) <= SpeedLevelToInterval(lower, maxLevel, speedInterval)
  {
  }

  /** The level is not clamped: d above the maximum is as slow as d below it. */
  lemma NoClampingAboveMaximum(d: int, maxLevel: int, speedInterval: nat)
    ensures SpeedLevelToInterval(maxLevel + d, maxLevel, speedInterval) == SpeedLevelToInterval(maxLevel - d, maxLevel, speedInterval)
  {
  }

  /** The slider's `onChange`: only the interval of the game changes. */
  method OnSpeedChange(game: Game, level: int, maxLevel: int, speedInterval: nat)
    requires game.Valid()
    modifies game
    ensures game.Valid()
    ensures game.interval == SpeedLevelToInterval(level, maxLevel, speedInterval)
    ensures game.initial == old(game.initial)
    ensures game.log == old(game.log) + [SetIntervalCommand(SpeedLevelToInterval(level, maxLevel, speedInterval))]
    ensures game.grid == old(game.grid) && game.isRunning == old(game.isRunning)
  {
    game.SetInterval(SpeedLevelToInterval(level, maxLevel, speedInterval));
  }

  /** The button shows Pause while the component believes the game runs and
      calls `stop`; otherwise it shows Play and calls `run`. */
  method OnPlayPauseClick(game: Game, shownRunning: bool)
    requires game.Valid()
    modifies game
    ensures game.Valid()
    ensures game.isRunning == !shownRunning
    ensures game.initial == old(game.initial)
    ensures game.log == old(game.log) + [if shownRunning then StopCommand else RunCommand]
    ensures game.grid == old(game.grid) && game.interval == old(game.interval)
  {
    if shownRunning {
      game.Stop();
    } else {
      game.Run();
    }
  }
}
