/** The hard-coded place data of the map component: one centroid per district,
    ordered name-variant entries for five districts, and the city default.
    Coordinates are integers in units of 1e-4 degrees (every literal in the
    tables has four decimals, and nothing computes with them). */
module Gazetteer {

  /** Latitude and longitude, in 1e-4 degrees. */
  datatype Coord = Coord(lat: int, lon: int)

  /** A district's entries in declaration order, which is the order
      `Object.keys` and `Object.entries` visit them. */
  type Entries = seq<(string, Coord)>

  /** The data the resolver consults: district centroids, per-district
      neighbourhood entries, and the coordinate used when nothing else applies. */
  datatype Places = Places(centroids: map<string, Coord>, neighborhoods: map<string, Entries>, fallback: Coord)

  /** Istanbul's centre, `defaultCenter`. */
  const DefaultCenter: Coord := Coord(410082, 289784)

  /** `districtCoordinates`. */
  const DistrictCoordinates: map<string, Coord> := map[
    "Kadıköy" := Coord(409833, 290333),
    "Üsküdar" := Coord(410214, 290119),
    "Beşiktaş" := Coord(410422, 290081),
    "Şişli" := Coord(410603, 289858),
    "Beyoğlu" := Coord(410369, 289850),
    "Bakırköy" := Coord(409826, 288578),
    "Fatih" := Coord(410186, 289497),
    "Kartal" := Coord(409108, 292161),
    "Maltepe" := Coord(409359, 291433),
    "Pendik" := Coord(408754, 292350),
    "Beykoz" := Coord(411350, 291025),
    "Sarıyer" := Coord(411083, 290594),
    "Ataşehir" := Coord(409839, 291283),
    "Başakşehir" := Coord(411006, 288031),
    "Beylikdüzü" := Coord(410025, 286378),
    "Esenyurt" := Coord(410342, 286772),
    "Küçükçekmece" := Coord(410069, 287892),
    "Zeytinburnu" := Coord(409878, 289078),
    "Kağıthane" := Coord(410783, 289744),
    "Güngören" := Coord(410214, 288706),
    "Bahçelievler" := Coord(410014, 288503),
    "Avcılar" := Coord(410225, 287097),
    "Bağcılar" := Coord(410406, 288456),
    "Esenler" := Coord(410475, 288628),
    "Gaziosmanpaşa" := Coord(410689, 289025),
    "Sultangazi" := Coord(411122, 288719),
    "Eyüpsultan" := Coord(410469, 289428),
    "Arnavutköy" := Coord(411956, 287336),
    "Çatalca" := Coord(411425, 284556),
    "Silivri" := Coord(410739, 282464),
    "Şile" := Coord(411783, 296103),
    "Çekmeköy" := Coord(410261, 291797),
    "Sancaktepe" := Coord(410022, 292431),
    "Sultanbeyli" := Coord(409606, 292683),
    "Tuzla" := Coord(408278, 293069),
    "Adalar" := Coord(408733, 290917),
    "Ümraniye" := Coord(410214, 291203)
  ]

  /** `neighborhoodCoordinates`, one ordered entry list per district. */
  const NeighborhoodCoordinates: map<string, Entries> := map[
    "Üsküdar" := UskudarEntries,
    "Kadıköy" := KadikoyEntries,
    "Beşiktaş" := BesiktasEntries,
    "Şişli" := SisliEntries,
    "Beyoğlu" := BeyogluEntries
  ]

  const UskudarEntries: Entries := [
    ("Çengelköy", Coord(410579, 290514)),
    ("Çengelköy Mh.", Coord(410579, 290514)),
    ("Çengelköy Mah.", Coord(410579, 290514)),
    ("Çengelköy Mahallesi", Coord(410579, 290514)),
    ("Beylerbeyi", Coord(410428, 290414)),
    ("Beylerbeyi Mh.", Coord(410428, 290414)),
    ("Kuzguncuk", Coord(410294, 290233)),
    ("Kuzguncuk Mh.", Coord(410294, 290233)),
    ("Selimiye", Coord(410153, 290150)),
    ("Selimiye Mh.", Coord(410153, 290150)),
    ("Bulgurlu", Coord(410081, 290364)),
    ("Bulgurlu Mh.", Coord(410081, 290364)),
    ("Ahmediye", Coord(410181, 290058)),
    ("Ahmediye Mh.", Coord(410181, 290058)),
    ("Altunizade", Coord(410236, 290358)),
    ("Altunizade Mh.", Coord(410236, 290358)),
    ("Acıbadem", Coord(410125, 290258)),
    ("Acıbadem Mh.", Coord(410125, 290258))
  ]

  const KadikoyEntries: Entries := [
    ("Moda", Coord(409803, 290253)),
    ("Moda Mh.", Coord(409803, 290253)),
    ("Moda Mah.", Coord(409803, 290253)),
    ("Bahariye", Coord(409864, 290267)),
    ("Bahariye Mh.", Coord(409864, 290267)),
    ("Bostancı", Coord(409558, 290997)),
    ("Bostancı Mh.", Coord(409558, 290997)),
    ("Fenerbahçe", Coord(409675, 290256)),
    ("Fenerbahçe Mh.", Coord(409675, 290256)),
    ("Göztepe", Coord(409767, 290675)),
    ("Göztepe Mh.", Coord(409767, 290675)),
    ("Caddebostan", Coord(409642, 290667)),
    ("Caddebostan Mh.", Coord(409642, 290667)),
    ("Kozyatağı", Coord(409742, 290981)),
    ("Kozyatağı Mh.", Coord(409742, 290981))
  ]

  const BesiktasEntries: Entries := [
    ("Ortaköy", Coord(410475, 290242)),
    ("Ortaköy Mh.", Coord(410475, 290242)),
    ("Bebek", Coord(410803, 290431)),
    ("Bebek Mh.", Coord(410803, 290431)),
    ("Etiler", Coord(410828, 290567)),
    ("Etiler Mh.", Coord(410828, 290567)),
    ("Levent", Coord(410819, 290108)),
    ("Levent Mh.", Coord(410819, 290108)),
    ("Arnavutköy", Coord(410647, 290392)),
    ("Arnavutköy Mh.", Coord(410647, 290392))
  ]

  const SisliEntries: Entries := [
    ("Nişantaşı", Coord(410447, 289878)),
    ("Nişantaşı Mh.", Coord(410447, 289878)),
    ("Teşvikiye", Coord(410472, 289831)),
    ("Teşvikiye Mh.", Coord(410472, 289831)),
    ("Mecidiyeköy", Coord(410717, 289925)),
    ("Mecidiyeköy Mh.", Coord(410717, 289925)),
    ("Gayrettepe", Coord(410689, 289975)),
    ("Gayrettepe Mh.", Coord(410689, 289975))
  ]

  const BeyogluEntries: Entries := [
    ("Taksim", Coord(410369, 289850)),
    ("Taksim Mh.", Coord(410369, 289850)),
    ("Cihangir", Coord(410317, 289836)),
    ("Cihangir Mh.", Coord(410317, 289836)),
    ("Galata", Coord(410242, 289742)),
    ("Galata Mh.", Coord(410242, 289742)),
    ("Karaköy", Coord(410225, 289775)),
    ("Karaköy Mh.", Coord(410225, 289775))
  ]

  /** The tables of the map component as one value. */
  const Istanbul: Places := Places(DistrictCoordinates, NeighborhoodCoordinates, DefaultCenter)

  /** Two districts appear in neither table. */
  lemma Uncharted(d: string)
    requires d == "Bayrampaşa" || d == "Büyükçekmece"
    ensures d !in DistrictCoordinates && d !in NeighborhoodCoordinates
  {
  }

  /** Üsküdar's centroid. */
  lemma UskudarCentroid(d: string)
    requires d == "Üsküdar"
    ensures d in DistrictCoordinates && DistrictCoordinates[d] == Coord(410214, 290119)
  {
  }
}
