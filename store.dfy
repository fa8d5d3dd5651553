/** The state store of `Game` (src/core/Game.ts): one `Life` record, updated by
    commands that are partial records merged field by field. */
module GameStore {
  import opened Cells
  import GameRules

  /** The `Life` record (src/types/Life.ts). */
  datatype Life = Life(state: Grid, isRunning: bool, interval: int)

  /** A `Partial<Life>`: each field is either carried by the command or absent. */
  datatype Command = Command(state: Option<Grid>, isRunning: Option<bool>, interval: Option<int>)

  /** The `{}` the command subject starts with. */
  const EmptyCommand := Command(None, None, None)

  function SetIntervalCommand(interval: int): Command { Command(None, None, Some(interval)) }
  function SetStateCommand(state: Grid): Command { Command(Some(state), None, None) }
  const RunCommand := Command(None, Some(true), None)
  const StopCommand := Command(None, Some(false), None)

  function Override<T>(current: T, replacement: Option<T>): T
  {
    match replacement
    case Some(v) => v
    case None => current
  }

  /** `{ ...life, ...command }` */
  function Merge(life: Life, cmd: Command): Life
  {
    Life(Override(life.state, cmd.state),
         Override(life.isRunning, cmd.isRunning),
         Override(life.interval, cmd.interval))
  }

  /** `{ ...first, ...second }` on two commands: the later one wins field by field. */
  function Combine(first: Command, second: Command): Command
  {
    Command(if second.state.Some? then second.state else first.state,
            if second.isRunning.Some? then second.isRunning else first.isRunning,
            if second.interval.Some? then second.interval else first.interval)
  }

  /** The `scan` of the commands issued so far, seeded with the initial state. */
  function Replay(initial: Life, log: seq<Command>): Life
  {
    if log == [] then initial else Merge(Replay(initial, log[..|log| - 1]), log[|log| - 1])
  }

  // ---------------------------------------------------------------------------
  // Properties of the merge and the fold

  /** A merged record takes each field from the command when the command
      carries it and from the old record otherwise. */
  lemma MergeOverwritesCarriedFields(life: Life, cmd: Command)
    ensures cmd.state.Some? ==> Merge(life, cmd).state == cmd.state.value
    ensures cmd.state.None? ==> Merge(life, cmd).state == life.state
    ensures cmd.isRunning.Some? ==> Merge(life, cmd).isRunning == cmd.isRunning.value
    ensures cmd.isRunning.None? ==> Merge(life, cmd).isRunning == life.isRunning
    ensures cmd.interval.Some? ==> Merge(life, cmd).interval == cmd.interval.value
    ensures cmd.interval.None? ==> Merge(life, cmd).interval == life.interval
  {
  }

  /** Applying the same command twice is the same as applying it once. */
  lemma MergeIdempotent(life: Life, cmd: Command)
    ensures Merge(Merge(life, cmd), cmd) == Merge(life, cmd)
  {
  }

  /** Two commands in a row act as their combination. */
  lemma MergeCombine(life: Life, first: Command, second: Command)
    ensures Merge(Merge(life, first), second) == Merge(life, Combine(first, second))
  {
  }

  /** Empty commands anywhere in the log change nothing. */
  lemma {:induction false} ReplaySkipsEmpty(initial: Life, log: seq<Command>)
    ensures Replay(initial, log) == Replay(initial, Without(log, EmptyCommand))
  {
    if log != [] {
      var front := log[..|log| - 1];
      var last := log[|log| - 1];
      assert log == front + [last];
      WithoutAppend(front, last, EmptyCommand);
      ReplaySkipsEmpty(initial, front);
      if last != EmptyCommand {
        assert Without(log, EmptyCommand) == Without(front, EmptyCommand) + [last];
        var w := Without(log, EmptyCommand);
        assert w[..|w| - 1] == Without(front, EmptyCommand) && w[|w| - 1] == last;
        assert Replay(initial, w) == Merge(Replay(initial, Without(front, EmptyCommand)), last);
      } else {
        var r := Replay(initial, front);
        assert Merge(r, last) == Life(r.state, r.isRunning, r.interval) == r;
        assert Without(log, EmptyCommand) == Without(front, EmptyCommand) + [];
        assert Without(front, EmptyCommand) + [] == Without(front, EmptyCommand);
      }
    }
  }

  /** `log` with every occurrence of `c` removed. */
  function Without(log: seq<Command>, c: Command): (r: seq<Command>)
    ensures |r| <= |log|
    ensures forall k :: 0 <= k < |r| ==> r[k] != c
  {
    if log == [] then []
    else if log[0] == c then Without(log[1..], c)
    else [log[0]] + Without(log[1..], c)
  }

  lemma {:induction false} WithoutAppend(log: seq<Command>, last: Command, c: Command)
    ensures Without(log + [last], c) == Without(log, c) + (if last == c then [] else [last])
  {
    if log != [] {
      assert (log + [last])[1..] == log[1..] + [last];
      WithoutAppend(log[1..], last, c);
    }
  }

  // ---------------------------------------------------------------------------
  // The store

  class Game {
    var grid: Grid
    var isRunning: bool
    var interval: int

    /** The state the store was created with, and every command pushed since. */
    ghost var initial: Life
    ghost var log: seq<Command>

    /** The latest value of `life$`. */
    function Current(): Life
      reads this
    {
      Life(grid, isRunning, interval)
    }

    /** The current state is the fold of every command issued so far. */
    ghost predicate Valid()
      reads this
    {
      Current() == Replay(initial, log)
    }

    /** The subject starts with `{}`, which the fold merges into the initial state. */
    constructor (initialState: Life)
      ensures Valid()
      ensures Current() == initialState
      ensures initial == initialState && log == [EmptyCommand]
    {
      grid := initialState.state;
      isRunning := initialState.isRunning;
      interval := initialState.interval;
      initial := initialState;
      log := [EmptyCommand];
    }

    /** `commands$.next(cmd)` followed by one step of the fold. */
    method Push(cmd: Command)
      requires Valid()
      modifies this
      ensures Valid()
      ensures Current() == Merge(old(Current()), cmd)
      ensures initial == old(initial) && log == old(log) + [cmd]
    {
      grid := Override(grid, cmd.state);
      isRunning := Override(isRunning, cmd.isRunning);
      interval := Override(interval, cmd.interval);
      log := log + [cmd];
      assert log[..|log| - 1] == old(log);
    }

    method SetInterval(newInterval: int)
      requires Valid()
      modifies this
      ensures Valid() && initial == old(initial) && log == old(log) + [SetIntervalCommand(newInterval)]
      ensures interval == newInterval
      ensures grid == old(grid) && isRunning == old(isRunning)
    {
      Push(SetIntervalCommand(newInterval));
    }

    method SetState(state: Grid)
      requires Valid()
      modifies this
      ensures Valid() && initial == old(initial) && log == old(log) + [SetStateCommand(state)]
      ensures grid == state
      ensures isRunning == old(isRunning) && interval == old(interval)
    {
      Push(SetStateCommand(state));
    }

    method Run()
      requires Valid()
      modifies this
      ensures Valid() && initial == old(initial) && log == old(log) + [RunCommand]
      ensures isRunning
      ensures grid == old(grid) && interval == old(interval)
    {
      Push(RunCommand);
    }

    method Stop()
      requires Valid()
      modifies this
      ensures Valid() && initial == old(initial) && log == old(log) + [StopCommand]
      ensures !isRunning
      ensures grid == old(grid) && interval == old(interval)
    {
      Push(StopCommand);
    }

    /** One timer emission: only while running, the latest grid is advanced one
        generation and pushed as a command that carries only `state`. */
    method Tick() returns (advanced: bool)
      requires Valid()
      modifies this
      ensures Valid() && initial == old(initial)
      ensures advanced == old(isRunning)
      ensures advanced ==> log == old(log) + [SetStateCommand(GameRules.Advance(old(grid)))]
      ensures advanced ==> grid == GameRules.Advance(old(grid))
      ensures !advanced ==> log == old(log) && grid == old(grid)
      ensures isRunning == old(isRunning) && interval == old(interval)
    {
      advanced := isRunning;
      if advanced {
        Push(SetStateCommand(GameRules.Advance(grid)));
      }
    }
  }

}
