/** store/codes.go: the item and ship code tables. Each ship figure is
    its own table in the source; the lemmas below state how the tables
    relate. Receivers are left out: every method reads only the code. Go's
    `int` is 64 bits, so products on transport sizes wrap around. */
module ShipCodes {
  import opened Common

  /** The record Store.Codes returns. Only the name is ever filled in. */
  datatype CodeInfo = CodeInfo(code: string, name: string, descr: string, storageRequired: int)

  /** Store.Codes: the name of a code in the code list, with the template
      entries "GUn", "SGn" and "TRn" listed literally. */
  function Codes(code: string): CodeInfo
  {
    CodeInfo("", CodeName(code), "", 0)
  }

  function CodeName(code: string): string
  {
    match code
    case "AU" => "Colonial Manufacturing Unit"
    case "BAS" => "Starbase"
    case "BC" => "Battlecruiser"
    case "BI" => "Biology tech level"
    case "BM" => "Battlemoon"
    case "BR" => "Battlestar"
    case "BS" => "Battleship"
    case "BW" => "Battleworld"
    case "CA" => "Heavy Cruiser"
    case "CC" => "Command Cruiser"
    case "CL" => "Light Cruiser"
    case "CS" => "Strike Cruiser"
    case "CT" => "Corvette"
    case "CU" => "Colonist Unit"
    case "DD" => "Destroyer"
    case "DN" => "Dreadnought"
    case "DR" => "Damage Repair Unit"
    case "ES" => "Escort"
    case "FD" => "Field Distortion Unit"
    case "FF" => "Frigate"
    case "FJ" => "Forced Jump Unit"
    case "FM" => "Forced Mis-jump Unit"
    case "FS" => "Fail-Safe Jump Unit"
    case "GT" => "Gravitic Telescope Unit"
    case "GUn" => "Auxiliary Gun Unit, Mark-n"
    case "GV" => "Gravitics tech level"
    case "GW" => "Germ Warfare Bomb"
    case "IU" => "Colonial Mining Unit"
    case "JP" => "Jump Portal Units"
    case "LS" => "Life Support tech level"
    case "MA" => "Manufacturing tech level"
    case "MI" => "Mining tech level"
    case "ML" => "Military tech level"
    case "PB" => "Picketboat"
    case "PD" => "Planetary Defense Unit"
    case "PL" => "Planet"
    case "RM" => "Raw Material Unit"
    case "SD" => "Super Dreadnought"
    case "SGn" => "Auxiliary Shield Generator, Mark-n"
    case "SP" => "Species"
    case "SU" => "Starbase Unit"
    case "TP" => "Terraforming Plant"
    case "TRn" => TransportText
    case _ => ""
  }

  const TransportText: string := "Transport, eg. TR7 for 70,000 tons, TR14 for 140,000 tons, etc."

  /** The fixed descriptions of Item.Descr's table. */
  function DescrTable(code: string): Option<string>
  {
    match code
    case "AU" => Some("Colonial Manufacturing Unit")
    case "BAS" => Some("Starbase")
    case "BC" => Some("Battlecruiser")
    case "BI" => Some("Biology tech level")
    case "BM" => Some("Battlemoon")
    case "BR" => Some("Battlestar")
    case "BS" => Some("Battleship")
    case "BW" => Some("Battleworld")
    case "CA" => Some("Heavy Cruiser")
    case "CC" => Some("Command Cruiser")
    case "CL" => Some("Light Cruiser")
    case "CS" => Some("Strike Cruiser")
    case "CT" => Some("Corvette")
    case "CU" => Some("Colonist Unit")
    case "DD" => Some("Destroyer")
    case "DN" => Some("Dreadnought")
    case "DR" => Some("Damage Repair Unit")
    case "ES" => Some("Escort")
    case "FD" => Some("Field Distortion Unit")
    case "FF" => Some("Frigate")
    case "FJ" => Some("Forced Jump Unit")
    case "FM" => Some("Forced Mis-jump Unit")
    case "FS" => Some("Fail-Safe Jump Unit")
    case "GT" => Some("Gravitic Telescope Unit")
    case "GV" => Some("Gravitics tech level")
    case "GW" => Some("Germ Warfare Bomb")
    case "IU" => Some("Colonial Mining Unit")
    case "JP" => Some("Jump Portal Units")
    case "LS" => Some("Life Support tech level")
    case "MA" => Some("Manufacturing tech level")
    case "MI" => Some("Mining tech level")
    case "ML" => Some("Military tech level")
    case "PB" => Some("Picketboat")
    case "PD" => Some("Planetary Defense Unit")
    case "PL" => Some("Planet")
    case "RM" => Some("Raw Material Unit")
    case "SD" => Some("Super Dreadnought")
    case "SP" => Some("Species")
    case "SU" => Some("Starbase Unit")
    case "TP" => Some("Terraforming Plant")
    case _ => None
  }

  /** "?code?", the text for a code no table knows. */
  function Unknown(code: string): string
  {
    "?" + code + "?"
  }

  /** Item.Descr, as written: the gun unit's mark is appended after the
      template's own "n". */
  function Descr(code: string): string
  {
    if DescrTable(code).Some? then DescrTable(code).value
    else if HasPrefix(code, "GU") then "Auxiliary Gun Unit, Mark-n" + code[2..]
    else if HasPrefix(code, "TR") then TransportText
    else if HasPrefix(code, "SG") then "Auxiliary Shield Generator, Mark-" + code[2..]
    else Unknown(code)
  }

  /** Item.Descr with the gun unit's mark written like the shield
      generator's. */
  function DescrCorrected(code: string): string
  {
    if DescrTable(code).Some? then DescrTable(code).value
    else if HasPrefix(code, "GU") then "Auxiliary Gun Unit, Mark-" + code[2..]
    else if HasPrefix(code, "TR") then TransportText
    else if HasPrefix(code, "SG") then "Auxiliary Shield Generator, Mark-" + code[2..]
    else Unknown(code)
  }

  /** The transport size n of a code "TRn", when n parses. */
  function TransportSize(code: string): Option<int>
  {
    if HasPrefix(code, "TR") then Atoi(code[2..]) else None
  }

  /** Ship.CarryingCapacity. */
  function CarryingCapacity(code: string): int
  {
    match code
    case "PB" => 1
    case "CT" => 2
    case "ES" => 5
    case "FF" => 10
    case "DD" => 15
    case "CL" => 20
    case "CS" => 25
    case "CA" => 30
    case "CC" => 35
    case "BC" => 40
    case "BS" => 45
    case "DN" => 50
    case "SD" => 55
    case "BM" => 60
    case "BW" => 65
    case "BR" => 70
    case "BAS" => 0
    case "SU" => 0
    case _ => if TransportSize(code).Some? then Wrap64(TransportSize(code).value * 10_000) else 0
  }

  /** Ship.Class. */
  function Class(code: string): string
  {
    match code
    case "PB" => "Picketboat"
    case "CT" => "Corvette"
    case "ES" => "Escort"
    case "FF" => "Frigate"
    case "DD" => "Destroyer"
    case "CL" => "Light Cruiser"
    case "CS" => "Strike Cruiser"
    case "CA" => "Heavy Cruiser"
    case "CC" => "Command Cruiser"
    case "BC" => "Battlecruiser"
    case "BS" => "Battleship"
    case "DN" => "Dreadnought"
    case "SD" => "Super Dreadnought"
    case "BM" => "Battlemoon"
    case "BW" => "Battleworld"
    case "BR" => "Battlestar"
    case "BAS" => "Starbase"
    case "SU" => "Starbase Unit"
    case _ => if HasPrefix(code, "TR") then TransportText else Unknown(code)
  }

  /** Ship.FTLCost. */
  function FTLCost(code: string): int
  {
    match code
    case "PB" => 100
    case "CT" => 200
    case "ES" => 500
    case "FF" => 1_000
    case "DD" => 1_500
    case "CL" => 2_000
    case "CS" => 2_500
    case "CA" => 3_000
    case "CC" => 3_500
    case "BC" => 4_000
    case "BS" => 4_500
    case "DN" => 5_000
    case "SD" => 5_500
    case "BM" => 6_000
    case "BW" => 6_500
    case "BR" => 7_000
    case "BAS" => 0
    case "SU" => 0
    case _ => if TransportSize(code).Some? then Wrap64(TransportSize(code).value * 50) else 0
  }

  /** MaxTonnage: the largest tonnage a manufacturing level can build. */
  function MaxTonnage(maLevel: int): int
  {
    Wrap64(maLevel * 5_000)
  }

  /** Ship.MinMALevel. Starbases have no entry and fall through to 0. */
  function MinMALevel(code: string): int
  {
    match code
    case "PB" => 2
    case "CT" => 4
    case "ES" => 10
    case "FF" => 20
    case "DD" => 30
    case "CL" => 40
    case "CS" => 50
    case "CA" => 60
    case "CC" => 70
    case "BC" => 80
    case "BS" => 90
    case "DN" => 100
    case "SD" => 110
    case "BM" => 120
    case "BW" => 130
    case "BR" => 140
    case _ => if TransportSize(code).Some? then Wrap64(TransportSize(code).value * 2) else 0
  }

  /** Ship.SublightCost: three quarters of the FTL cost, in Go's 64-bit
      integer arithmetic. */
  function SublightCost(code: string): int
  {
    Quot(Wrap64(75 * FTLCost(code)), 100)
  }

  /** Ship.Tonnage. */
  function Tonnage(code: string): int
  {
    match code
    case "PB" => 10_000
    case "CT" => 20_000
    case "ES" => 50_000
    case "FF" => 100_000
    case "DD" => 150_000
    case "CL" => 200_000
    case "CS" => 250_000
    case "CA" => 300_000
    case "CC" => 350_000
    case "BC" => 400_000
    case "BS" => 450_000
    case "DN" => 500_000
    case "SD" => 550_000
    case "BM" => 600_000
    case "BW" => 650_000
    case "BR" => 700_000
    case "BAS" => 0
    case "SU" => 0
    case _ => if TransportSize(code).Some? then Wrap64(TransportSize(code).value * 10_000) else 0
  }

  // ---------------------------------------------------------------------
  // How the tables relate

  /** The warship classes, smallest first. */
  const Warships: seq<string> :=
    ["PB", "CT", "ES", "FF", "DD", "CL", "CS", "CA", "CC", "BC", "BS", "DN", "SD", "BM", "BW", "BR"]

  predicate IsWarship(code: string)
  {
    code in Warships
  }

  /** No exact ship code starts with "TR", so a transport code always
      reaches the prefix test. */
  lemma TransportIsNotTabled(code: string)
    requires HasPrefix(code, "TR")
    ensures !IsWarship(code) && code != "BAS" && code != "SU" && DescrTable(code).None?
  {
    assert code[0] == 'T' && code[1] == 'R';
  }

  /** Warship figures scale with carrying capacity: tonnage is 10,000 per
      unit, FTL cost 100 per unit, and the minimum manufacturing level two
      per unit; the class name is the item description. */
  lemma WarshipFigures(code: string)
    requires IsWarship(code)
    ensures CarryingCapacity(code) > 0
    ensures Tonnage(code) == 10_000 * CarryingCapacity(code)
    ensures FTLCost(code) == 100 * CarryingCapacity(code)
    ensures MinMALevel(code) == 2 * CarryingCapacity(code)
  {
  }

  /** A warship's sublight cost is exactly three quarters of its FTL cost. */
  lemma WarshipSublight(code: string)
    requires IsWarship(code)
    ensures 4 * SublightCost(code) == 3 * FTLCost(code)
  {
    var g := GroupOf(code);
    if g < 2 {
      SublightSmall(code);
    } else {
      SublightLarge(code);
    }
  }

  lemma SublightSmall(code: string)
    requires code == "PB" || code == "CT" || code == "ES" || code == "FF" || code == "DD" || code == "CL" || code == "CS" || code == "CA"
    ensures 4 * SublightCost(code) == 3 * FTLCost(code)
  {
  }

  lemma SublightLarge(code: string)
    requires code == "CC" || code == "BC" || code == "BS" || code == "DN" || code == "SD" || code == "BM" || code == "BW" || code == "BR"
    ensures 4 * SublightCost(code) == 3 * FTLCost(code)
  {
  }

  /** A warship's class is its name in the code list and its item
      description. */
  lemma WarshipNames(code: string)
    requires IsWarship(code)
    ensures Class(code) == Descr(code) && Class(code) == CodeName(code)
  {
    var g := GroupOf(code);
    if g == 0 {
      Names0(code);
    } else if g == 1 {
      Names1(code);
    } else if g == 2 {
      Names2(code);
    } else {
      Names3(code);
    }
  }

  lemma Names0(code: string)
    requires code == "PB" || code == "CT" || code == "ES" || code == "FF"
    ensures Class(code) == Descr(code) && Class(code) == CodeName(code)
  {
  }

  lemma Names1(code: string)
    requires code == "DD" || code == "CL" || code == "CS" || code == "CA"
    ensures Class(code) == Descr(code) && Class(code) == CodeName(code)
  {
  }

  lemma Names2(code: string)
    requires code == "CC" || code == "BC" || code == "BS" || code == "DN"
    ensures Class(code) == Descr(code) && Class(code) == CodeName(code)
  {
  }

  lemma Names3(code: string)
    requires code == "SD" || code == "BM" || code == "BW" || code == "BR"
    ensures Class(code) == Descr(code) && Class(code) == CodeName(code)
  {
  }

  /** Warships come in four groups of four, so that per-code facts can be
      checked a group at a time. */
  lemma GroupOf(code: string) returns (g: int)
    requires IsWarship(code)
    ensures 0 <= g < 4
    ensures g == 0 ==> code == "PB" || code == "CT" || code == "ES" || code == "FF"
    ensures g == 1 ==> code == "DD" || code == "CL" || code == "CS" || code == "CA"
    ensures g == 2 ==> code == "CC" || code == "BC" || code == "BS" || code == "DN"
    ensures g == 3 ==> code == "SD" || code == "BM" || code == "BW" || code == "BR"
  {
    var k :| 0 <= k < |Warships| && Warships[k] == code;
    g := k / 4;
  }

  /** Each warship class carries more than the one before it. */
  lemma WarshipsAscend(i: int, j: int)
    requires 0 <= i < j < |Warships|
    ensures CarryingCapacity(Warships[i]) < CarryingCapacity(Warships[j])
  {
    forall k | 0 <= k < |Warships|
      ensures CarryingCapacity(Warships[k]) == if k == 0 then 1 else if k == 1 then 2 else 5 * (k - 1)
    {
    }
  }

  /** A transport "TRn" carries and weighs n * 10,000, costs n * 50 to
      jump and needs manufacturing level 2n, all in 64-bit arithmetic. */
  lemma TransportFigures(code: string, n: int)
    requires HasPrefix(code, "TR") && Atoi(code[2..]) == Some(n)
    ensures CarryingCapacity(code) == Wrap64(n * 10_000) == Tonnage(code)
    ensures FTLCost(code) == Wrap64(n * 50)
    ensures MinMALevel(code) == Wrap64(n * 2)
    ensures Class(code) == Descr(code) == TransportText
  {
    TransportIsNotTabled(code);
  }

  /** A ship's minimum manufacturing level is exactly the level whose
      maximum tonnage is the ship's tonnage, for every code. */
  lemma {:induction false} MinMALevelBuildsTonnage(code: string)
    ensures MaxTonnage(MinMALevel(code)) == Tonnage(code)
  {
    if HasPrefix(code, "TR") {
      TransportIsNotTabled(code);
      if TransportSize(code).Some? {
        var n := TransportSize(code).value;
        Wrap64Mul(n * 2, 5_000);
        assert n * 2 * 5_000 == n * 10_000;
      }
    } else if code == "BAS" || code == "SU" {
    } else if IsWarship(code) {
      WarshipFigures(code);
    }
  }

  /** Starbases carry nothing, weigh nothing, cost nothing to move and
      have no minimum manufacturing level. */
  lemma StarbaseFigures(code: string)
    requires code == "BAS" || code == "SU"
    ensures CarryingCapacity(code) == 0 && Tonnage(code) == 0 && FTLCost(code) == 0
    ensures MinMALevel(code) == 0 && SublightCost(code) == 0
    ensures Class(code) == Descr(code) == CodeName(code)
  {
  }

  /** A code that is no ship yields zero figures and "?code?" as class. */
  lemma NonShipFigures(code: string)
    requires !IsWarship(code) && code != "BAS" && code != "SU" && !HasPrefix(code, "TR")
    ensures CarryingCapacity(code) == 0 && Tonnage(code) == 0 && FTLCost(code) == 0
    ensures MinMALevel(code) == 0 && SublightCost(code) == 0
    ensures Class(code) == Unknown(code)
  {
  }

  /** Sublight travel costs three quarters of FTL travel, rounded toward
      zero, when the FTL cost is non-negative and 75 times it fits. */
  lemma SublightThreeQuarters(code: string)
    requires 0 <= 75 * FTLCost(code) <= MaxInt64
    ensures 4 * SublightCost(code) <= 3 * FTLCost(code) < 4 * SublightCost(code) + 4
    ensures 0 <= SublightCost(code) <= FTLCost(code)
  {
  }

  /** Every name in the code list is the item description of the same
      code, except the three templates GUn, SGn and TRn. */
  lemma CodeListMatchesDescr(code: string)
    requires CodeName(code) != "" && code != "GUn" && code != "SGn" && code != "TRn"
    ensures Descr(code) == CodeName(code)
  {
  }

  /** Item.Descr as written: gun units read "Mark-n3" where shield
      generators read "Mark-3". */
  lemma GunMarkAsWritten()
    ensures Descr("GU3") == "Auxiliary Gun Unit, Mark-n3"
    ensures Descr("SG3") == "Auxiliary Shield Generator, Mark-3"
  {
    assert DescrTable("GU3").None?;
    assert HasPrefix("GU3", "GU") && "GU3"[2..] == "3";
    assert DescrTable("SG3").None?;
    assert "SG3"[..2] == "SG";
    assert HasPrefix("SG3", "SG") && "SG3"[2..] == "3";
  }

  /** The corrected description names a gun unit's mark like a shield
      generator's, and agrees with Item.Descr on every other code. */
  lemma GunMarkCorrected(code: string)
    ensures HasPrefix(code, "GU") && DescrTable(code).None? ==>
      DescrCorrected(code) == "Auxiliary Gun Unit, Mark-" + code[2..]
    ensures HasPrefix(code, "SG") && DescrTable(code).None? ==>
      DescrCorrected(code) == "Auxiliary Shield Generator, Mark-" + code[2..]
    ensures !HasPrefix(code, "GU") ==> DescrCorrected(code) == Descr(code)
  {
    if HasPrefix(code, "SG") {
      assert code[0] == 'S';
    }
  }
}
