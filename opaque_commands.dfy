/**
 * Commands whose classes the composition factories and the subsystem
 * defaults construct but whose behaviour is not part of this model:
 * each is only what its constructor is given.
 */
module OpaqueCommands {
  import opened Wrappers
  import opened Commands

  /** A `NullCommand`, the default command of a subsystem, known here only as a fresh object. */
  class NullCommand {
    const base: Command

    constructor ()
      ensures fresh(base)
    {
      base := new Command(Some("NullCommand"));
    }
  }

  /** A `ParallelRaceGroup`, known here only by its children, in order. */
  class ParallelRaceGroup {
    const base: Command
    var children: seq<Command>

    constructor (commands: seq<Command>)
      ensures fresh(base) && children == commands
    {
      base := new Command(Some("ParallelRaceGroup"));
      children := commands;
    }
  }

  /** A `ParallelDeadlineGroup`, known here only by its deadline and its other commands. */
  class ParallelDeadlineGroup {
    const base: Command
    const deadline: Command
    var others: seq<Command>

    constructor (deadline: Command, others: seq<Command>)
      ensures fresh(base) && this.deadline == deadline && this.others == others
    {
      base := new Command(Some("ParallelDeadlineGroup"));
      this.deadline := deadline;
      this.others := others;
    }
  }

  /** A `PerpetualCommand`, known here only by the command it wraps. */
  class PerpetualCommand {
    const base: Command
    const command: Command

    constructor (command: Command)
      ensures fresh(base) && this.command == command
    {
      base := new Command(Some("PerpetualCommand"));
      this.command := command;
    }
  }

  /** A `ForcedParallelCommand`, known here only by the command it wraps. */
  class ForcedParallelCommand {
    const base: Command
    const command: Command

    constructor (command: Command)
      ensures fresh(base) && this.command == command
    {
      base := new Command(Some("ForcedParallelCommand"));
      this.command := command;
    }
  }
}
