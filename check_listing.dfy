/** The listing-check form: its fields, the edits its inputs make, the request
    payload built on submit and the submit gating. */
module ListingForm {
  import opened JsString
  import opened JsNumber
  import opened FormHelpers
  import opened Gazetteer
  import opened Resolver

  /** The districts offered by the district select, in display order. */
  const IstanbulDistricts: seq<string> := [
    "Adalar", "Arnavutköy", "Ataşehir", "Avcılar", "Bağcılar", "Bahçelievler",
    "Bakırköy", "Başakşehir", "Bayrampaşa", "Beşiktaş", "Beykoz", "Beylikdüzü",
    "Beyoğlu", "Büyükçekmece", "Çatalca", "Çekmeköy", "Esenler", "Esenyurt",
    "Eyüpsultan", "Fatih", "Gaziosmanpaşa", "Güngören", "Kadıköy", "Kağıthane",
    "Kartal", "Küçükçekmece", "Maltepe", "Pendik", "Sancaktepe", "Sarıyer",
    "Silivri", "Sultanbeyli", "Sultangazi", "Şile", "Şişli", "Tuzla", "Ümraniye",
    "Üsküdar", "Zeytinburnu"
  ]

  /** The two purposes the purpose buttons set. */
  const Purposes: seq<string> := ["yatırım", "oturma"]

  /** `formData`: every field is the string its input holds. */
  datatype Form = Form(
    district: string, neighborhood: string,
    netM2: string, grossM2: string, rooms: string,
    buildingAge: string, floor: string, numFloors: string, bathrooms: string,
    askingPrice: string, purpose: string)

  /** The initial `formData`: everything empty, the purpose `yatırım`. */
  const InitialForm: Form := Form("", "", "", "", "", "", "", "", "", "", "yatırım")

  /** One change made by an input of the form, with the raw value it delivers. */
  datatype Edit =
    | SetDistrict(district: string)
    | SetNeighborhood(text: string)
    | SetAskingPrice(text: string)
    | SetNetM2(text: string)
    | SetGrossM2(text: string)
    | SetRooms(option: string)
    | SetBuildingAge(text: string)
    | SetFloor(text: string)
    | SetNumFloors(text: string)
    | SetBathrooms(text: string)
    | SetPurpose(purpose: string)

  /** The values a select or a button can deliver: a listed district or the
      empty placeholder, one of the room options, one of the two purposes.
      Text inputs deliver anything. */
  predicate Deliverable(e: Edit)
  {
    match e
    case SetDistrict(d) => d == [] || d in IstanbulDistricts
    case SetRooms(r) => r in RoomOptions
    case SetPurpose(p) => p in Purposes
    case _ => true
  }

  /** The `onChange` and `onClick` handlers: each replaces one field, the
      numeric ones through `formatNumber`, the price through `parsePrice`. */
  function Apply(f: Form, e: Edit): Form
  {
    match e
    case SetDistrict(d) => f.(district := d)
    case SetNeighborhood(t) => f.(neighborhood := t)
    case SetAskingPrice(t) => f.(askingPrice := ParsePrice(t))
    case SetNetM2(t) => f.(netM2 := FormatNumber(t))
    case SetGrossM2(t) => f.(grossM2 := FormatNumber(t))
    case SetRooms(r) => f.(rooms := r)
    case SetBuildingAge(t) => f.(buildingAge := FormatNumber(t))
    case SetFloor(t) => f.(floor := FormatNumber(t))
    case SetNumFloors(t) => f.(numFloors := FormatNumber(t))
    case SetBathrooms(t) => f.(bathrooms := FormatNumber(t))
    case SetPurpose(p) => f.(purpose := p)
  }

  /** What the inputs maintain: numeric fields hold digits only, the price has
      no dot, and the choice fields hold a value their control offers. */
  predicate WellFormed(f: Form)
  {
    && (f.district == [] || f.district in IstanbulDistricts)
    && AllDigits(f.netM2) && AllDigits(f.grossM2)
    && AllDigits(f.buildingAge) && AllDigits(f.floor) && AllDigits(f.numFloors) && AllDigits(f.bathrooms)
    && '.' !in f.askingPrice
    && (f.rooms == [] || f.rooms in RoomOptions)
    && f.purpose in Purposes
  }

  lemma InitialWellFormed()
    ensures WellFormed(InitialForm)
  {
    assert InitialForm.purpose == Purposes[0];
  }

  /** Every edit an input can make keeps the form well formed. */
  lemma ApplyPreservesWellFormed(f: Form, e: Edit)
    requires WellFormed(f) && Deliverable(e)
    ensures WellFormed(Apply(f, e))
  {
  }

  /** The same for any run of edits from the initial form. */
  lemma {:induction false} EditsPreserveWellFormed(f: Form, es: seq<Edit>)
    requires WellFormed(f) && forall k :: 0 <= k < |es| ==> Deliverable(es[k])
    ensures WellFormed(ApplyAll(f, es))
    decreases |es|
  {
    if es != [] {
      ApplyPreservesWellFormed(f, es[0]);
      EditsPreserveWellFormed(Apply(f, es[0]), es[1..]);
    }
  }

  function ApplyAll(f: Form, es: seq<Edit>): Form
    decreases |es|
  {
    if es == [] then f else ApplyAll(Apply(f, es[0]), es[1..])
  }

  // ------------------------------------------------------ the payload

  /** The JSON object `handleSubmit` posts: the four keys it always holds, and
      the optional ones as `Some` exactly when the key is present. A NaN number
      is serialised as `null`. */
  datatype Payload = Payload(
    district: string, netM2: JsNum, rooms: JsNum, askingPrice: JsNum,
    neighborhood: Option<string>, grossM2: Option<JsNum>, buildingAge: Option<JsNum>,
    floor: Option<JsNum>, numFloors: Option<JsNum>, bathrooms: Option<JsNum>,
    purpose: Option<string>)

  /** An optional key: present with `value` exactly when `field` is non-empty. */
  function IfPresent<T>(field: string, value: T): (r: Option<T>)
    ensures r.Some? <==> field != []
    ensures r.Some? ==> r.value == value
  {
    if field != [] then Some(value) else None
  }

  /** The payload of `handleSubmit`. `net_m2` is the net area or, when that is
      empty or zero, the gross area; `rooms` is the parsed room count or 0; the
      price is sent with its dots removed; each optional key is present exactly
      when its field is non-empty. */
  function PayloadOf(f: Form): (p: Payload)
    ensures p.district == f.district
    ensures IsTruthy(ToNumber(f.netM2)) ==> p.netM2 == ToNumber(f.netM2)
    ensures !IsTruthy(ToNumber(f.netM2)) ==> p.netM2 == ToNumber(f.grossM2)
    ensures f.rooms == [] ==> p.rooms == Num(0)
    ensures p.askingPrice == ToNumber(ParsePrice(f.askingPrice))
    ensures p.neighborhood.Some? <==> f.neighborhood != []
    ensures p.grossM2.Some? <==> f.grossM2 != []
    ensures p.buildingAge.Some? <==> f.buildingAge != []
    ensures p.floor.Some? <==> f.floor != []
    ensures p.numFloors.Some? <==> f.numFloors != []
    ensures p.bathrooms.Some? <==> f.bathrooms != []
    ensures p.purpose.Some? <==> f.purpose != []
    ensures p.neighborhood.Some? ==> p.neighborhood.value == f.neighborhood
    ensures p.grossM2.Some? ==> p.grossM2.value == ToNumber(f.grossM2)
    ensures p.buildingAge.Some? ==> p.buildingAge.value == ToNumber(f.buildingAge)
    ensures p.floor.Some? ==> p.floor.value == ToNumber(f.floor)
    ensures p.numFloors.Some? ==> p.numFloors.value == ToNumber(f.numFloors)
    ensures p.bathrooms.Some? ==> p.bathrooms.value == ToNumber(f.bathrooms)
    ensures p.purpose.Some? ==> p.purpose.value == f.purpose
  {
    Payload(
      f.district,
      Or(ToNumber(f.netM2), ToNumber(f.grossM2)),
      Or(ParseRooms(f.rooms), Num(0)),
      ToNumber(ParsePrice(f.askingPrice)),
      IfPresent(f.neighborhood, f.neighborhood),
      IfPresent(f.grossM2, ToNumber(f.grossM2)),
      IfPresent(f.buildingAge, ToNumber(f.buildingAge)),
      IfPresent(f.floor, ToNumber(f.floor)),
      IfPresent(f.numFloors, ToNumber(f.numFloors)),
      IfPresent(f.bathrooms, ToNumber(f.bathrooms)),
      IfPresent(f.purpose, f.purpose))
  }

  /** `handleSubmit`'s construction: the four required keys, then each optional
      key added when its field is non-empty. */
  method BuildPayload(f: Form) returns (payload: Payload)
    ensures payload == PayloadOf(f)
  {
    var neighborhood: Option<string> := None;
    if f.neighborhood != [] { neighborhood := Some(f.neighborhood); }
    var grossM2: Option<JsNum> := None;
    if f.grossM2 != [] { grossM2 := Some(ToNumber(f.grossM2)); }
    var buildingAge: Option<JsNum> := None;
    if f.buildingAge != [] { buildingAge := Some(ToNumber(f.buildingAge)); }
    var floor: Option<JsNum> := None;
    if f.floor != [] { floor := Some(ToNumber(f.floor)); }
    var numFloors: Option<JsNum> := None;
    if f.numFloors != [] { numFloors := Some(ToNumber(f.numFloors)); }
    var bathrooms: Option<JsNum> := None;
    if f.bathrooms != [] { bathrooms := Some(ToNumber(f.bathrooms)); }
    var purpose: Option<string> := None;
    if f.purpose != [] { purpose := Some(f.purpose); }
    payload := Payload(
      f.district,
      Or(ToNumber(f.netM2), ToNumber(f.grossM2)),
      Or(ParseRooms(f.rooms), Num(0)),
      ToNumber(ParsePrice(f.askingPrice)),
      neighborhood, grossM2, buildingAge, floor, numFloors, bathrooms, purpose);
  }

  /** On a well-formed form the area is never NaN: it is the net area when
      that is non-zero and the gross area otherwise (0 when both are empty). */
  lemma PayloadArea(f: Form)
    requires WellFormed(f)
    ensures DecimalValue(f.netM2) != 0 ==> PayloadOf(f).netM2 == Num(DecimalValue(f.netM2))
    ensures DecimalValue(f.netM2) == 0 ==> PayloadOf(f).netM2 == Num(DecimalValue(f.grossM2))
  {
    ToNumberOfDigits(f.netM2);
    ToNumberOfDigits(f.grossM2);
  }

  /** On a well-formed form the room count is 0 without a choice and 1 to 6
      for the six options, in order. */
  lemma PayloadRooms(f: Form)
    requires WellFormed(f)
    ensures f.rooms == [] ==> PayloadOf(f).rooms == Num(0)
    ensures forall k :: 0 <= k < |RoomOptions| && f.rooms == RoomOptions[k] ==> PayloadOf(f).rooms == Num(k + 1)
  {
    RoomOptionValues();
  }

  /** A price typed or pasted as dot-grouped digits (`1.250.000`) is stored
      without its dots and sent as the value of its digits. */
  lemma PayloadPrice(f: Form, groups: seq<string>)
    requires |groups| >= 1 && forall k :: 0 <= k < |groups| ==> AllDigits(groups[k])
    ensures Apply(f, SetAskingPrice(Join(groups, '.'))).askingPrice == Concat(groups)
    ensures AllDigits(Concat(groups)) &&
      PayloadOf(Apply(f, SetAskingPrice(Join(groups, '.')))).askingPrice == Num(DecimalValue(Concat(groups)))
  {
    ParsePriceOfGroupedDigits(groups);
    ConcatOfDigits(groups);
    DigitsHaveNoDot(Concat(groups));
    ParsePriceWithoutDots(Concat(groups));
    ToNumberOfDigits(Concat(groups));
  }

  /** A price typed with a leading minus sign is sent as a negative number,
      as `Number` reads it. */
  lemma PayloadNegativePrice(f: Form, digits: string)
    requires digits != [] && AllDigits(digits)
    ensures PayloadOf(Apply(f, SetAskingPrice("-" + digits))).askingPrice == Num(-(DecimalValue(digits) as int))
  {
    DigitsHaveNoDot(digits);
    assert '.' !in "-" + digits;
    ParsePriceWithoutDots("-" + digits);
    ToNumberOfSigned(digits);
  }

  // ------------------------------------------------------ submit gating

  /** The submit button is enabled when nothing is loading and the district,
      net area, rooms and asking price are all filled in. */
  predicate SubmitEnabled(f: Form, loading: bool)
  {
    !loading && f.district != [] && f.netM2 != [] && f.rooms != [] && f.askingPrice != []
  }

  /** A form that can be submitted sends a real room count between 1 and 6. */
  lemma SubmittedRooms(f: Form)
    requires WellFormed(f) && SubmitEnabled(f, false)
    ensures PayloadOf(f).rooms.Num? && 1 <= PayloadOf(f).rooms.value <= 6
  {
    PayloadRooms(f);
    var k :| 0 <= k < |RoomOptions| && f.rooms == RoomOptions[k];
  }

  /** The initial form cannot be submitted, and while loading nothing can. */
  lemma SubmitGating(f: Form)
    ensures !SubmitEnabled(InitialForm, false)
    ensures !SubmitEnabled(f, true)
  {
  }

  // ------------------------------------------------------ with the map

  /** A district of the list that has a centroid or is one of the two that do not. */
  predicate CentredOrKnownGap(d: string)
  {
    d in DistrictCoordinates || d == "Bayrampaşa" || d == "Büyükçekmece"
  }

  lemma CentredBetween(lo: nat, hi: nat)
    requires (lo, hi) in {(0, 10), (10, 20), (20, 30), (30, 39)}
    ensures forall i :: lo <= i < hi ==> CentredOrKnownGap(IstanbulDistricts[i])
  {
  }

  /** The selectable districts without a centroid are Bayrampaşa and
      Büyükçekmece only. */
  lemma DistrictsWithoutCentroid()
    ensures forall d :: d in IstanbulDistricts && d !in DistrictCoordinates ==> d == "Bayrampaşa" || d == "Büyükçekmece"
  {
    CentredBetween(0, 10);
    CentredBetween(10, 20);
    CentredBetween(20, 30);
    CentredBetween(30, 39);
    forall d | d in IstanbulDistricts
      ensures CentredOrKnownGap(d)
    {
      var i :| 0 <= i < |IstanbulDistricts| && IstanbulDistricts[i] == d;
    }
  }

  /** Both of them are offered by the select. */
  lemma UncentredDistrictsSelectable(d: string)
    requires d == "Bayrampaşa" || d == "Büyükçekmece"
    ensures d in IstanbulDistricts && d !in DistrictCoordinates
  {
    Uncharted(d);
    if d == "Bayrampaşa" { ListedAt8(); } else { ListedAt13(); }
  }

  lemma ListedAt8()
    ensures IstanbulDistricts[8] == "Bayrampaşa"
  {
  }

  lemma ListedAt13()
    ensures IstanbulDistricts[13] == "Büyükçekmece"
  {
  }

  /** For those two the map shows the city centre whatever the neighbourhood. */
  lemma UncentredDistrictShowsDefault(d: string, n: Option<string>)
    requires d == "Bayrampaşa" || d == "Büyükçekmece"
    ensures Resolve(Istanbul, Some(d), n) == Resolution(Default, DefaultCenter)
  {
    Uncharted(d);
    ResolveDistrictFallback(Istanbul, Some(d), n);
  }
}
