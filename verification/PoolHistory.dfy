/** What the command log of the GEO set says about one driver. */
module PoolHistory {
  import opened Wrappers
  import opened GeoPool

  /** The last command that named `driver`. */
  function LastCommand(commands: seq<Command>, driver: DriverId): Option<Command> {
    if commands == [] then None
    else
      var last := commands[|commands| - 1];
      if last.driver == driver then Some(last) else LastCommand(commands[..|commands| - 1], driver)
  }

  /** Claimed, and not re-added or removed by anyone since. */
  predicate ClaimedLast(commands: seq<Command>, driver: DriverId) {
    var last := LastCommand(commands, driver);
    last.Some? && last.value.Claimed?
  }

  /** How often GEOADD replied that `driver` is a new member. */
  function Insertions(commands: seq<Command>, driver: DriverId): nat {
    if commands == [] then 0
    else
      var last := commands[|commands| - 1];
      Insertions(commands[..|commands| - 1], driver)
      + if last.Added? && last.driver == driver && last.isNew then 1 else 0
  }

  /** How often ZREM replied that it removed `driver`. */
  function Removals(commands: seq<Command>, driver: DriverId): nat {
    if commands == [] then 0
    else
      var last := commands[|commands| - 1];
      Removals(commands[..|commands| - 1], driver)
      + if last.Removed? && last.driver == driver && last.wasMember then 1 else 0
  }

  function Claims(commands: seq<Command>, driver: DriverId): nat {
    if commands == [] then 0
    else
      var last := commands[|commands| - 1];
      Claims(commands[..|commands| - 1], driver) + if last.Claimed? && last.driver == driver then 1 else 0
  }

  lemma Appended(commands: seq<Command>, c: Command, driver: DriverId)
    ensures LastCommand(commands + [c], driver) == if c.driver == driver then Some(c) else LastCommand(commands, driver)
    ensures Insertions(commands + [c], driver)
         == Insertions(commands, driver) + if c.Added? && c.driver == driver && c.isNew then 1 else 0
    ensures Removals(commands + [c], driver)
         == Removals(commands, driver) + if c.Removed? && c.driver == driver && c.wasMember then 1 else 0
    ensures Claims(commands + [c], driver)
         == Claims(commands, driver) + if c.Claimed? && c.driver == driver then 1 else 0
  {
    assert (commands + [c])[..|commands|] == commands;
  }

  /** Every insertion of `driver` is accounted for: claimed, removed, or still pooled. */
  predicate Balanced(pool: Pool, driver: DriverId) {
    Insertions(pool.commands, driver)
      == Claims(pool.commands, driver) + Removals(pool.commands, driver) + if driver in pool.members then 1 else 0
  }

  lemma OperationsKeepBalance(pool: Pool, d: DriverId, at: Point, driver: DriverId)
    requires Balanced(pool, driver)
    ensures Balanced(Add(pool, d, at), driver)
    ensures Balanced(Remove(pool, d), driver)
    ensures d in pool.members ==> Balanced(Claim(pool, Some(d)), driver)
  {
    Appended(pool.commands, Added(d, at, d !in pool.members), driver);
    Appended(pool.commands, Removed(d, d in pool.members), driver);
    Appended(pool.commands, Claimed(d), driver);
  }
}
