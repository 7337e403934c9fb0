/** The command, state and flags through which a stage's thread is controlled. */
module StageControl {
  datatype Command = Run | Pause | Resume | Reset | Shutdown

  datatype StageState = Created | Starting | Running | Paused | Stopping | Stopped | Error

  datatype Flags = Flags(command: Command, shutdown: bool, paused: bool)

  /** One of the two stores that setting a command consists of. */
  datatype Store = StoreCommand(command: Command) | StoreFlag(command: Command)

  function Initial(): Flags {
    Flags(Run, false, false)
  }

  function Apply(f: Flags, store: Store): Flags {
    match store
    case StoreCommand(c) => f.(command := c)
    case StoreFlag(Shutdown) => f.(shutdown := true)
    case StoreFlag(Pause) => f.(paused := true)
    case StoreFlag(Resume) => f.(paused := false)
    case StoreFlag(Run) => f.(paused := false)
    case StoreFlag(Reset) => f
  }

  /** Both stores of one command, with nothing in between. */
  function Commanded(f: Flags, c: Command): Flags {
    Apply(Apply(f, StoreCommand(c)), StoreFlag(c))
  }

  function ApplyAll(f: Flags, stores: seq<Store>): Flags {
    if stores == [] then f else Apply(ApplyAll(f, stores[..|stores| - 1]), stores[|stores| - 1])
  }

  function CommandToU8(c: Command): nat {
    match c
    case Run => 0
    case Pause => 1
    case Resume => 2
    case Reset => 3
    case Shutdown => 4
  }

  function CommandFromU8(v: nat): Command {
    match v
    case 0 => Run
    case 1 => Pause
    case 2 => Resume
    case 3 => Reset
    case 4 => Shutdown
    case _ => Run
  }

  function StateToU8(s: StageState): nat {
    match s
    case Created => 0
    case Starting => 1
    case Running => 2
    case Paused => 3
    case Stopping => 4
    case Stopped => 5
    case Error => 6
  }

  function StateFromU8(v: nat): StageState {
    match v
    case 0 => Created
    case 1 => Starting
    case 2 => Running
    case 3 => Paused
    case 4 => Stopping
    case 5 => Stopped
    case 6 => Error
    case _ => Created
  }

  /**
   * However the stores of racing commands interleave, a shutdown request is never undone, and
   * there is one exactly if some shutdown flag was stored.
   */
  lemma {:induction false} ShutdownIsPermanent(f: Flags, stores: seq<Store>)
    ensures ApplyAll(f, stores).shutdown <==> f.shutdown || StoreFlag(Shutdown) in stores
  {
    if stores != [] {
      var before := stores[..|stores| - 1];
      ShutdownIsPermanent(f, before);
      assert stores == before + [stores[|stores| - 1]];
    }
  }

  /** A store that decides whether the stage is paused. */
  predicate Pausing(store: Store) {
    store.StoreFlag? && (store.command.Pause? || store.command.Resume? || store.command.Run?)
  }

  /** The last pausing store decides; commands, resets and shutdowns leave the flag alone. */
  lemma {:induction false} LastPausingStoreWins(f: Flags, stores: seq<Store>, last: nat)
    requires last < |stores| && Pausing(stores[last])
    requires forall i :: last < i < |stores| ==> !Pausing(stores[i])
    ensures ApplyAll(f, stores).paused <==> stores[last].command.Pause?
  {
    if last < |stores| - 1 {
      LastPausingStoreWins(f, stores[..|stores| - 1], last);
    }
  }

  /** The shared control block, its fields stored as small numbers and flags. */
  class StageControl {
    var command: nat
    var state: nat
    var shutdown: bool
    var paused: bool

    ghost function View(): Flags
      reads this
    {
      Flags(CommandFromU8(command), shutdown, paused)
    }

    constructor ()
      ensures View() == Initial() && StateFromU8(state) == Created
    {
      command, state, shutdown, paused := 0, 0, false, false;
    }

    method SetCommand(c: Command)
      modifies this`command, this`shutdown, this`paused
      ensures View() == Commanded(old(View()), c)
    {
      command := CommandToU8(c);
      match c
      case Shutdown => shutdown := true;
      case Pause => paused := true;
      case Resume => paused := false;
      case Run => paused := false;
      case Reset => {}
    }

    method SetState(s: StageState)
      modifies this`state
      ensures StateFromU8(state) == s
    {
      state := StateToU8(s);
    }

    method RequestShutdown()
      modifies this`command, this`shutdown, this`paused
      ensures View() == old(View()).(command := Command.Shutdown, shutdown := true)
    {
      SetCommand(Command.Shutdown);
    }
  }
}
