/** The coarse region of Colombia a latitude and longitude fall in. */
module Regions {

  datatype Region = Caribe | Sur | Pacifico | Andina

  /** The label the dashboard stores in its `Region` column. */
  function Label(r: Region): string {
    match r
    case Caribe => "Caribe"
    case Sur => "Sur"
    case Pacifico => "Pacífico"
    case Andina => "Andina"
  }

  /**
   * First match wins: north of latitude 8 is Caribe whatever the
   * longitude; south of latitude 2 is Sur before the longitude is looked
   * at; of the rest, west of longitude -75 is Pacífico and all else is
   * Andina.
   */
  function GetRegion(lat: real, lon: real): (r: Region)
    ensures r == Caribe <==> lat > 8.0
    ensures r == Sur <==> lat < 2.0
    ensures r == Pacifico <==> 2.0 <= lat <= 8.0 && lon < -75.0
    ensures r == Andina <==> 2.0 <= lat <= 8.0 && lon >= -75.0
  {
    if lat > 8.0 then Caribe
    else if lat < 2.0 then Sur
    else if lon < -75.0 then Pacifico
    else Andina
  }

  /** Different regions carry different labels. */
  lemma LabelInjective(r1: Region, r2: Region)
    ensures Label(r1) == Label(r2) ==> r1 == r2
  {
    if r1 != r2 {
      assert Label(r1)[0] != Label(r2)[0] || |Label(r1)| != |Label(r2)|;
    }
  }

  /** The four reference points, one per region. */
  lemma RegionExamples()
    ensures GetRegion(9.0, -70.0) == Caribe
    ensures GetRegion(1.0, -80.0) == Sur
    ensures GetRegion(5.0, -76.0) == Pacifico
    ensures GetRegion(5.0, -70.0) == Andina
  {
  }
}
