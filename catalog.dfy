/**
  The compiled-in catalog: the vehicles offered in the sidebar and the
  default maintenance tasks shown for a vehicle with no history.
 */
module Catalog {

  datatype Vehicle = Vehicle(name: string, logo: string)

  datatype DefaultTask = DefaultTask(task: string, intervalMiles: nat, intervalMonths: nat)

  const VEHICLES: seq<Vehicle> := [
    Vehicle("2008 BMW M3", "logo_2008_m3.svg"),
    Vehicle("2013 BMW 335i M Sport Sedan", "logo_2013_335i.svg"),
    Vehicle("2020 BMW X7 xDrive40i", "logo_2020_x7.svg"),
    Vehicle("2021 BMW X3 sDrive30i", "logo_2021_x3.svg")
  ]

  const DEFAULT_TASKS: seq<DefaultTask> := [
    DefaultTask("Oil Change", 7500, 12),
    DefaultTask("Brake Fluid", 30000, 24),
    DefaultTask("Coolant Flush", 60000, 48),
    DefaultTask("Spark Plugs", 45000, 36),
    DefaultTask("Air Filter", 15000, 12)
  ]

  /** The catalog is never empty and vehicle names identify vehicles. */
  lemma CatalogWellFormed()
    ensures |VEHICLES| == 4 && |DEFAULT_TASKS| == 5
    ensures forall a, b :: 0 <= a < b < |VEHICLES| ==> VEHICLES[a].name != VEHICLES[b].name
  {
  }
}
