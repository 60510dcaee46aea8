/**
 * What `LambdaCommand.requires` as written does to the requirement-conflict
 * check of `ParallelGroup`, next to the corrected `RequiresEach`.
 */
module RequirementFindings {
  import opened Wrappers
  import opened Commands
  import opened ParallelGroups
  import opened LambdaCommands

  /**
   * Two lambda commands that both `requires` the same resource are still
   * accepted side by side by `ParallelGroup`: each holds only its own array.
   */
  method SharedResourceNotDetected()
  {
    var lift := new LambdaCommand<int>("lift", Some("LambdaCommand"));
    var claw := new LambdaCommand<int>("claw", Some("LambdaCommand"));
    var _, liftArgs := lift.Requires([Resource(7)]);
    var _, clawArgs := claw.Requires([Resource(7)]);
    assert liftArgs != clawArgs;
    assert lift.base.requirements == {VarargArray(liftArgs)};
    assert claw.base.requirements == {VarargArray(clawArgs)};
    var reqs := RequirementSets([lift.base, claw.base]);
    assert reqs[0] !! reqs[1];
    assert PairwiseDisjoint(reqs);
    var g := ParallelGroup.New([lift.base, claw.base]);
    assert g.Success?;
  }

  /** With the arguments spread, the shared resource is a conflict. */
  method SharedResourceDetected()
  {
    var lift := new LambdaCommand<int>("lift", Some("LambdaCommand"));
    var claw := new LambdaCommand<int>("claw", Some("LambdaCommand"));
    var _ := lift.RequiresEach([Resource(7)]);
    var _ := claw.RequiresEach([Resource(7)]);
    assert Resource(7) in lift.base.requirements * claw.base.requirements;
    var g := ParallelGroup.New([lift.base, claw.base]);
    var reqs := RequirementSets([lift.base, claw.base]);
    assert reqs[0] == lift.base.requirements && reqs[1] == claw.base.requirements;
    assert Resource(7) in reqs[0] * reqs[1];
    assert g == Failure(IllegalState(ConflictMessage));
  }
}
