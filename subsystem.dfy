/**
 * The defaults of the `Subsystem` interface. A subsystem is an identity; the
 * hooks the host calls around the control loop act on a world `W` that the
 * defaults leave as it is.
 */
module Subsystems {
  import opened Commands
  import opened OpaqueCommands

  datatype Subsystem = Subsystem(id: nat) {
    /** By default a subsystem stands for itself alone. */
    function Subsystems(): (r: set<Subsystem>)
      ensures this in r
      ensures forall s :: s in r ==> s == this
    {
      {this}
    }

    /** By default a fresh `NullCommand`, built anew on each access. */
    method DefaultCommand() returns (c: NullCommand)
      ensures fresh(c) && fresh(c.base)
    {
      c := new NullCommand();
    }

    /** By default `initialize` does nothing. */
    method Initialize<W>(world: W) returns (world': W)
      ensures world' == world
    {
      world' := world;
    }

    /** By default `periodic` does nothing. */
    method Periodic<W>(world: W) returns (world': W)
      ensures world' == world
    {
      world' := world;
    }
  }

  /** Two accesses to the default command give two different objects. */
  method DefaultCommandIsFreshEachTime(s: Subsystem)
  {
    var first := s.DefaultCommand();
    var second := s.DefaultCommand();
    assert first != second;
  }
}
