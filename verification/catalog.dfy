/**
 * The state catalog: the two static tables of the controller.
 * `States` maps each state name to the light command sent for it,
 * `PriorityTable` maps each state name to its arbitration priority.
 */
module Catalog {
  import opened Wrappers

  type StateName = string

  /** The bridge's `alert` effect: "none", "select" (one blink) or "lselect" (pulsing). */
  datatype Alert = NoAlert | Select | LongSelect

  /**
   * The payload of one light command. The CIE xy colour coordinates are
   * floating point in the source and are not part of this model.
   */
  datatype Command = Command(on: bool, brightness: Option<nat>, alert: Option<Alert>)

  /** The largest brightness the bridge accepts. */
  const MaxBrightness: nat := 254

  const States: map<StateName, Command> := map[
    "thinking" := Command(true, Some(254), Some(LongSelect)),
    "attention" := Command(true, Some(254), Some(LongSelect)),
    "permission" := Command(true, Some(254), Some(LongSelect)),
    "error" := Command(true, Some(254), Some(NoAlert)),
    "success" := Command(true, Some(254), Some(NoAlert)),
    "session" := Command(true, Some(80), Some(NoAlert)),
    "off" := Command(false, None, None)
  ]

  /** Higher number wins when several sessions are active. */
  const PriorityTable: map<StateName, nat> := map[
    "off" := 0,
    "session" := 10,
    "success" := 20,
    "thinking" := 30,
    "error" := 40,
    "attention" := 50,
    "permission" := 60
  ]

  /** Seconds the success colour is shown before it is demoted. */
  const SuccessDuration: nat := 5

  /** Seconds after which a session record is stale. */
  const StaleThreshold: nat := 3600

  /** `STATE_PRIORITY.get(name, 0)`: a name missing from the table ranks like "off". */
  function Priority(name: StateName): nat {
    if name in PriorityTable then PriorityTable[name] else 0
  }

  /**
   * `Priority` ranks a state of the table by its entry; it is 0 exactly for
   * "off" and for the names the table does not know.
   */
  lemma PriorityDefault(name: StateName)
    ensures name in PriorityTable ==> Priority(name) == PriorityTable[name]
    ensures Priority(name) == 0 <==> name == "off" || name !in PriorityTable
  {
  }

  /**
   * The two tables describe the same states, priorities are pairwise distinct,
   * and "off" is the unique state of the lowest priority, 0.
   */
  lemma TablesAgree()
    ensures States.Keys == PriorityTable.Keys
    ensures forall a, b :: a in PriorityTable && b in PriorityTable && a != b ==> PriorityTable[a] != PriorityTable[b]
    ensures "off" in PriorityTable && PriorityTable["off"] == 0
    ensures forall s :: s in PriorityTable && s != "off" ==> PriorityTable[s] > 0
  {
  }

  /** Every payload in the catalog is well formed: only "off" turns the light off, brightness is in range. */
  lemma CommandsWellFormed()
    ensures forall s :: s in States ==> (States[s].on <==> s != "off")
    ensures forall s :: s in States && States[s].brightness.Some? ==> States[s].brightness.value <= MaxBrightness
    ensures forall s :: s in States ==> (States[s].brightness.Some? <==> States[s].on)
  {
  }

  /**
   * The validation half of `set_light_state`: an unknown name is rejected,
   * a known one yields its payload. The bridge call itself is not modelled.
   */
  function CommandFor(name: StateName): (r: Option<Command>)
    ensures r.Some? <==> name in PriorityTable
    ensures r.Some? <==> name in States
    ensures r.Some? ==> (r.value.on <==> name != "off")
    ensures r.Some? && r.value.brightness.Some? ==> r.value.brightness.value <= MaxBrightness
  {
    TablesAgree();
    CommandsWellFormed();
    if name in States then Some(States[name]) else None
  }
}
