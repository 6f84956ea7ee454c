/** Two inputs behind the conditions of recovery and migration. */
module ControlExample {
  import opened Text
  import opened ControlTasks
  import opened ControlTables
  import opened ControlMigrations

  function NamelessContract(): Contract { Contract(Schema("", "", ""), "{}") }

  function Creation(): Request { ControlTasks.CreateTask("t", "a", "w", NamelessContract()) }

  /** A task created with a contract that names no schema is accepted, and can never be recovered. */
  lemma NamelessSchemaIsNotRecovered()
    ensures Outcome(map[], Creation(), NoFault).Ok?
    ensures var v := Perform(map[], Creation(), NoFault);
      AllKept(v) && Versioned(v) && "t" in v && Recover(TablesOf(v), "t") == Err(Corrupt)
  {
    hide Represents, KeptTask, Recover, TablesOf;
    var v := Perform(map[], Creation(), NoFault);
    PerformKeeps(map[], Creation(), NoFault);
    KeptAreVersioned(v);
    TablesStand(v);
    RecoverExactly(TablesOf(v), v, "t");
  }

  /** Version 1 tables in which one agent owns two tasks. */
  function Shared(): TablesOne {
    TablesOne(
      {"s", "t"}, map["s" := "a", "t" := "a"], map["s" := "w", "t" := "w"],
      map["s" := NamelessContract(), "t" := NamelessContract()], {"s", "t"},
      map[Key("s", 1) := TaskCreated, Key("s", 2) := OwnerAssigned, Key("t", 1) := TaskCreated,
        Key("t", 2) := OwnerAssigned])
  }

  /** Version 1 could write them, and they cannot be migrated. */
  lemma SharedOwnerIsNotMigrated()
    ensures WrittenByOne(Shared()) && Migrated(One(Shared())).None?
  {
    hide Migrated;
    assert "s" != "t" by { assert "s"[0] != "t"[0]; }
    assert Shared().owners["s"] == Shared().owners["t"];
    MigrateOne(Shared());
  }
}
