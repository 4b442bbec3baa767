/**
 * The static risk taxonomy of `src/data/Data.tsx`: three damaging-energy
 * mechanisms (DEMs) with their scenario lists, four tier-1 equipment groups
 * with their tier-2 children, and four operating contexts that all share the
 * same equipment list.
 */
module Catalogue {
  import opened Seqs

  /** A damaging-energy mechanism and the scenarios (risk events) it groups. */
  datatype Dem = Dem(name: string, scenarios: seq<string>)

  /** A tier-1 equipment group and the names of its tier-2 children. */
  datatype EquipmentGroup = EquipmentGroup(name: string, children: seq<string>)

  /** An operating context and the equipment available in it. */
  datatype ContextEntry = ContextEntry(name: string, children: seq<EquipmentGroup>)

  const V2pScenarios: seq<string> := [
    "Vehicle in control contacts person involved in the task",
    "Vehicle in control contacts person not involved in the task",
    "Vehicle not in control / moves unexpectedly contacting person including rollaway",
    "Person in footprint of vehicle including rollaway",
    "Merging, overtaking, path crossover, junction, intersection crossover",
    "Head-on, dove tailing, rear end, blind approach"
  ]

  const V2vScenarios: seq<string> := [
    "Collision between two vehicles at an intersection or junction",
    "Rear-end collision due to sudden braking or inattention",
    "Side-swipe collision while merging or changing lanes",
    "Head-on collision due to wrong-way entry or overtaking misjudgment",
    "T-bone collision at a crossroad or stop sign violation"
  ]

  const V2eScenarios: seq<string> := [
    "Vehicle impacts stationary object (barrier, bollard, tree, pole)",
    "Vehicle collides with building or site infrastructure",
    "Vehicle leaves the roadway and enters an exclusion zone",
    "Vehicle skids or loses control due to environmental conditions"
  ]

  const VehicleToPerson: string := "Vehicle to person"
  const VehicleToVehicle: string := "Vehicle to vehicle"
  const VehicleToEnvironment: string := "Vehicle to environment"

  /** `allDEMs`, in the key order `Object.entries` yields. */
  const AllDems: seq<Dem> := [
    Dem(VehicleToPerson, V2pScenarios),
    Dem(VehicleToVehicle, V2vScenarios),
    Dem(VehicleToEnvironment, V2eScenarios)
  ]

  const Equipment: seq<EquipmentGroup> := [
    EquipmentGroup("Passenger", ["Light Vehicles", "High Occupancy Vehicles"]),
    EquipmentGroup("Highway Goods Vehicle", ["Road going and road used"]),
    EquipmentGroup("Non Heavy Mobile Equipment", ["Road going but not normally road used", "Operational Vehicles"]),
    EquipmentGroup("Heavy Mobile Equipment", ["Rubber Tyre Heavy Vehicle", "Tracked Heavy Vehicle"])
  ]

  const OperatingContexts: seq<ContextEntry> := [
    ContextEntry("Non-mining onsite", Equipment),
    ContextEntry("Offsite", Equipment),
    ContextEntry("Surface", Equipment),
    ContextEntry("Underground", Equipment)
  ]

  function DemNames(ds: seq<Dem>): seq<string> {
    Map((d: Dem) => d.name, ds)
  }

  function GroupNames(gs: seq<EquipmentGroup>): seq<string> {
    Map((g: EquipmentGroup) => g.name, gs)
  }

  function ContextNames(cs: seq<ContextEntry>): seq<string> {
    Map((c: ContextEntry) => c.name, cs)
  }

  /** The scenario lists of `ds`, flattened in order (`Object.values(allDEMs).flat()`). */
  function ScenariosOf(ds: seq<Dem>): seq<string> {
    Concat(Map((d: Dem) => d.scenarios, ds))
  }

  /** Every catalogue scenario, mechanism by mechanism. */
  function AllScenarios(): seq<string> {
    ScenariosOf(AllDems)
  }

  /** The shape of the catalogue: sizes and the equipment list every context shares. */
  lemma CatalogueShape()
    ensures |AllDems| == 3 && |Equipment| == 4 && |OperatingContexts| == 4
    ensures forall c :: c in OperatingContexts ==> c.children == Equipment
  {
  }

  /** The mechanism keys, in order, and no two alike. */
  lemma MechanismNames()
    ensures DemNames(AllDems) == [VehicleToPerson, VehicleToVehicle, VehicleToEnvironment]
    ensures Distinct(DemNames(AllDems))
  {
    assert VehicleToPerson[11] != VehicleToVehicle[11];
    assert VehicleToPerson[11] != VehicleToEnvironment[11];
    assert VehicleToVehicle[11] != VehicleToEnvironment[11];
  }

  /** `Object.values(allDEMs).flat()` is the three scenario lists one after another: 15 scenarios. */
  lemma AllScenariosShape()
    ensures AllScenarios() == V2pScenarios + V2vScenarios + V2eScenarios
    ensures |AllScenarios()| == 15
  {
    var m := Map((d: Dem) => d.scenarios, AllDems);
    assert m == [V2pScenarios, V2vScenarios, V2eScenarios];
    assert Concat(m[1..][1..][1..]) == [];
    assert Concat(m[1..][1..]) == V2eScenarios;
    assert Concat(m[1..]) == V2vScenarios + V2eScenarios;
  }

  /** No two catalogue contexts share a name. */
  lemma ContextNamesDistinct()
    ensures Distinct(ContextNames(OperatingContexts))
  {
    var names := ContextNames(OperatingContexts);
    assert names == ["Non-mining onsite", "Offsite", "Surface", "Underground"];
    assert |names[0]| == 17 && |names[1]| == 7 && |names[2]| == 7 && |names[3]| == 11;
    assert names[1][0] != names[2][0];
  }

  /** No two tier-1 groups share a name. */
  lemma EquipmentNamesDistinct()
    ensures Distinct(GroupNames(Equipment))
  {
    var names := GroupNames(Equipment);
    assert names == ["Passenger", "Highway Goods Vehicle", "Non Heavy Mobile Equipment", "Heavy Mobile Equipment"];
    assert |names[0]| == 9 && |names[1]| == 21 && |names[2]| == 26 && |names[3]| == 22;
  }

  /** No group lists a tier-2 name twice. */
  lemma ChildNamesDistinct()
    ensures forall g :: g in Equipment ==> Distinct(g.children)
  {
    assert "Light Vehicles"[0] != "High Occupancy Vehicles"[0];
    assert "Road going but not normally road used"[0] != "Operational Vehicles"[0];
    assert "Rubber Tyre Heavy Vehicle"[0] != "Tracked Heavy Vehicle"[0];
  }
}
