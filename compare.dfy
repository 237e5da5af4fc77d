/** The two-listing comparison page: each side's fields and edits, the
    request body sent for each side, the compare gating and the rule that
    names the winning listing. */
module ComparePage {
  import opened JsString
  import opened JsNumber
  import opened FormHelpers
  import opened ListingForm

  /** One side of the comparison (`property1`, `property2`). */
  datatype Property = Property(
    district: string, neighborhood: string, netM2: string, rooms: string, askingPrice: string)

  const EmptyProperty: Property := Property("", "", "", "", "")

  /** The `comparison` state. */
  datatype Comparison = Comparison(first: Property, second: Property)

  const InitialComparison: Comparison := Comparison(EmptyProperty, EmptyProperty)

  datatype Side = First | Second

  /** A change made by one input, with the value it delivers. */
  datatype PropertyEdit =
    | SetDistrict(district: string)
    | SetNeighborhood(text: string)
    | SetNetM2(text: string)
    | SetRooms(option: string)
    | SetAskingPrice(text: string)

  /** The district and rooms selects deliver the empty placeholder or one of
      their options; text inputs deliver anything. */
  predicate Deliverable(e: PropertyEdit)
  {
    match e
    case SetDistrict(d) => d == [] || d in IstanbulDistricts
    case SetRooms(r) => r == [] || r in RoomOptions
    case _ => true
  }

  /** The handlers of one side: the area goes through `formatNumber`, the
      price through `parsePrice`, the rest is stored as delivered. */
  function ApplyTo(p: Property, e: PropertyEdit): Property
  {
    match e
    case SetDistrict(d) => p.(district := d)
    case SetNeighborhood(t) => p.(neighborhood := t)
    case SetNetM2(t) => p.(netM2 := FormatNumberUnguarded(t))
    case SetRooms(r) => p.(rooms := r)
    case SetAskingPrice(t) => p.(askingPrice := ParsePrice(t))
  }

  /** An edit changes its own side and leaves the other as it was. */
  function Apply(c: Comparison, side: Side, e: PropertyEdit): (r: Comparison)
    ensures side == First ==> r.first == ApplyTo(c.first, e) && r.second == c.second
    ensures side == Second ==> r.second == ApplyTo(c.second, e) && r.first == c.first
  {
    match side
    case First => c.(first := ApplyTo(c.first, e))
    case Second => c.(second := ApplyTo(c.second, e))
  }

  /** What the inputs of a side maintain. */
  predicate WellFormed(p: Property)
  {
    && (p.district == [] || p.district in IstanbulDistricts)
    && AllDigits(p.netM2)
    && (p.rooms == [] || p.rooms in RoomOptions)
    && '.' !in p.askingPrice
  }

  lemma EmptyWellFormed()
    ensures WellFormed(InitialComparison.first) && WellFormed(InitialComparison.second)
  {
  }

  /** Every deliverable edit keeps both sides well formed. */
  lemma ApplyPreservesWellFormed(c: Comparison, side: Side, e: PropertyEdit)
    requires WellFormed(c.first) && WellFormed(c.second) && Deliverable(e)
    ensures WellFormed(Apply(c, side, e).first) && WellFormed(Apply(c, side, e).second)
  {
  }

  // ------------------------------------------------------ the request bodies

  /** The body posted for one side; `neighborhood` is `Some` exactly when the
      key is present. */
  datatype RequestBody = RequestBody(
    district: string, netM2: JsNum, rooms: JsNum, askingPrice: JsNum, neighborhood: Option<string>)

  /** The body of one side: the area and price as numbers, the parsed room
      count (with no `|| 0` here), and the neighbourhood spread in only when
      it is non-empty. */
  function Body(p: Property): (b: RequestBody)
    ensures b.district == p.district
    ensures b.netM2 == ToNumber(p.netM2)
    ensures b.rooms == ParseRooms(p.rooms)
    ensures b.askingPrice == ToNumber(ParsePrice(p.askingPrice))
    ensures b.neighborhood.Some? <==> p.neighborhood != []
    ensures b.neighborhood.Some? ==> b.neighborhood.value == p.neighborhood
  {
    RequestBody(
      p.district, ToNumber(p.netM2), ParseRooms(p.rooms), ToNumber(ParsePrice(p.askingPrice)),
      if p.neighborhood != [] then Some(p.neighborhood) else None)
  }

  /** On a well-formed side the body carries plain numbers: the area's decimal
      value (0 when empty), a room count of 0 with no choice or 1 to 6, and a
      stored price of digits as its decimal value. */
  lemma BodyNumbers(p: Property)
    requires WellFormed(p)
    ensures Body(p).netM2 == Num(DecimalValue(p.netM2))
    ensures p.rooms == [] ==> Body(p).rooms == Num(0)
    ensures forall k :: 0 <= k < |RoomOptions| && p.rooms == RoomOptions[k] ==> Body(p).rooms == Num(k + 1)
    ensures AllDigits(p.askingPrice) ==> Body(p).askingPrice == Num(DecimalValue(p.askingPrice))
  {
    ToNumberOfDigits(p.netM2);
    RoomOptionValues();
    if AllDigits(p.askingPrice) {
      ParsePriceWithoutDots(p.askingPrice);
      ToNumberOfDigits(p.askingPrice);
    }
  }

  /** A price typed as digit groups separated by dots is stored without the
      dots, and the body then carries the value of all its digits together. */
  lemma BodyPrice(p: Property, groups: seq<string>)
    requires |groups| >= 1 && forall k :: 0 <= k < |groups| ==> AllDigits(groups[k])
    ensures ApplyTo(p, PropertyEdit.SetAskingPrice(Join(groups, '.'))).askingPrice == Concat(groups)
    ensures AllDigits(Concat(groups)) &&
      Body(ApplyTo(p, PropertyEdit.SetAskingPrice(Join(groups, '.')))).askingPrice == Num(DecimalValue(Concat(groups)))
  {
    ParsePriceOfGroupedDigits(groups);
    ConcatOfDigits(groups);
    DigitsHaveNoDot(Concat(groups));
    ParsePriceWithoutDots(Concat(groups));
    ToNumberOfDigits(Concat(groups));
  }

  /** Without the `|| 0` the room count is still the one the listing form
      sends, because `parseRooms` already maps the empty choice to 0. */
  lemma RoomsAgreeWithListingForm(rooms: string)
    requires rooms == [] || rooms in RoomOptions
    ensures ParseRooms(rooms) == Or(ParseRooms(rooms), Num(0))
  {
    RoomOptionValues();
  }

  /** The compare button is enabled when nothing is loading and both
      districts are chosen. */
  predicate CompareEnabled(c: Comparison, loading: bool)
  {
    !loading && c.first.district != [] && c.second.district != []
  }

  /** Gating depends on the districts only: the other fields of either side
      can be edited freely without enabling or disabling comparison. */
  lemma GatingIgnoresOtherFields(c: Comparison, side: Side, e: PropertyEdit, loading: bool)
    requires !e.SetDistrict?
    ensures CompareEnabled(Apply(c, side, e), loading) == CompareEnabled(c, loading)
  {
  }

  // ------------------------------------------------------ the winner

  datatype Choice = Listing1 | Listing2

  /** `d || 999` for a difference percentage: an absent or zero value
      becomes 999. */
  function OrDefault(d: Option<real>): (r: real)
    ensures d.Some? && d.value != 0.0 ==> r == d.value
    ensures d.None? || d.value == 0.0 ==> r == 999.0
  {
    if d.Some? && d.value != 0.0 then d.value else 999.0
  }

  function Abs(x: real): (r: real)
    ensures r >= 0.0 && (r == x || r == -x)
  {
    if x < 0.0 then -x else x
  }

  /** A difference that `||` keeps: present and non-zero. */
  predicate Kept(d: Option<real>) {
    d.Some? && d.value != 0.0
  }

  /** The winner expression as written. Two kept differences are compared by
      absolute value; a missing or zero difference stands for 999, so it wins
      only against a rival beyond 999; ties go to listing 2. */
  function WinnerAsWritten(d1: Option<real>, d2: Option<real>): (w: Choice)
    ensures Kept(d1) && Kept(d2) ==> (w == Listing1 <==> Abs(d1.value) < Abs(d2.value))
    ensures !Kept(d1) ==> (w == Listing1 <==> Kept(d2) && Abs(d2.value) > 999.0)
    ensures Kept(d1) && !Kept(d2) ==> (w == Listing1 <==> Abs(d1.value) < 999.0)
  {
    if Abs(OrDefault(d1)) < Abs(OrDefault(d2)) then Listing1 else Listing2
  }

  /** A listing priced exactly at its estimate (difference 0%) loses to one
      that is 50% off, because `|| 999` treats the 0 as missing. */
  lemma ExactEstimateLoses()
    ensures WinnerAsWritten(Some(0.0), Some(50.0)) == Listing2
    ensures Winner(Some(0.0), Some(50.0)) == Listing1
  {
  }

  /** `d ?? 999`: only an absent difference becomes 999. */
  function Defaulted(d: Option<real>): (r: real)
    ensures d.Some? ==> r == d.value
    ensures d.None? ==> r == 999.0
  {
    if d.Some? then d.value else 999.0
  }

  /** The winner with only a missing difference replaced: of two present
      differences the one closer to 0 wins, a 0% difference included; a
      missing one stands for 999; ties go to listing 2. */
  function Winner(d1: Option<real>, d2: Option<real>): (w: Choice)
    ensures d1.Some? && d2.Some? ==> (w == Listing1 <==> Abs(d1.value) < Abs(d2.value))
    ensures d1.None? ==> (w == Listing1 <==> d2.Some? && Abs(d2.value) > 999.0)
    ensures d1.Some? && d2.None? ==> (w == Listing1 <==> Abs(d1.value) < 999.0)
  {
    if Abs(Defaulted(d1)) < Abs(Defaulted(d2)) then Listing1 else Listing2
  }

  /** The two rules agree whenever no difference is exactly 0. */
  lemma WinnerAgreesAwayFromZero(d1: Option<real>, d2: Option<real>)
    requires d1.None? || d1.value != 0.0
    requires d2.None? || d2.value != 0.0
    ensures Winner(d1, d2) == WinnerAsWritten(d1, d2)
  {
  }

  /** Swapping the listings swaps the winner unless their differences tie. */
  lemma WinnerSymmetric(d1: Option<real>, d2: Option<real>)
    requires Abs(Defaulted(d1)) != Abs(Defaulted(d2))
    ensures Winner(d1, d2) == Listing1 <==> Winner(d2, d1) == Listing2
  {
  }
}
