/** The records of package jsondb as json.Unmarshal leaves them: the
    galaxy file's systems, planets and species. Only the fields some
    modelled code reads are kept. The species record follows the Species
    type of store/jsondb/species.go, which has the Key, Contacts, Allies,
    Enemies, Aliens and BankedEconUnits fields the loaders use. */
module JsonDbTypes {

  datatype JCoords = JCoords(x: int, y: int, z: int)

  /** A star system: its numeric id, its "SPnn"-style key, its position,
      the indexes (into the planet list) of its planets in orbit order,
      and the keys of the species that visited it. */
  datatype JSystem = JSystem(
    id: int, key: string, coords: JCoords, planets: seq<int>, visitedBy: seq<string>)

  /** A planet. Percentages and the hundredths-valued figures are whole
      numbers in the file. */
  datatype JPlanet = JPlanet(
    id: int, temperatureClass: int, pressureClass: int, gases: map<string, int>,
    diameter: int, gravity: int, miningDifficulty: int, econEfficiency: int,
    mdIncrease: int, message: int)

  /** One tech field: level, initial level, knowledge and experience. */
  datatype Technology = Technology(level: int, init: int, knowledge: int, xp: int)

  datatype JTech = JTech(
    biology: Technology, gravitics: Technology, lifeSupport: Technology,
    manufacturing: Technology, mining: Technology, military: Technology)

  datatype JSpecies = JSpecies(
    id: int, key: string, name: string, governmentName: string, governmentType: string,
    autoOrders: bool, tech: JTech, bankedEconUnits: int, hpOriginalBase: int,
    fleetCost: int, fleetPercentCost: int,
    contacts: seq<string>, allies: seq<string>, enemies: seq<string>,
    aliens: map<int, string>)

  /** The whole file. Of the galaxy block only the turn number is read. */
  datatype JStore = JStore(
    version: string, turnNumber: int, systems: seq<JSystem>, planets: seq<JPlanet>,
    species: map<string, JSpecies>)
}
