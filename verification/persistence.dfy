/** The translation `PersistenceService` performs between agencies and the
    flat records it serialises: a type tag, the common fields, and optional
    kind-specific fields that are null when a kind does not have them. */
module Persistence {

  import opened Common
  import opened Listings
  import opened Agencies

  const RentableTag: string := "RentableApartment"
  const ApartmentTag: string := "Apartment"
  const HouseTag: string := "House"

  datatype PropertyDto = PropertyDto(
    kind: string,
    address: string,
    indoorArea: real,
    propertyValue: real,
    latitude: real,
    longitude: real,
    floor: Option<int>,
    hasElevator: Option<bool>,
    monthlyRent: Option<real>,
    isRented: Option<bool>,
    outdoorArea: Option<real>)

  /** An agency record as deserialised: its name and its list of listing
      records may each be JSON `null`, and so may any element of the list. */
  datatype AgencyDto = AgencyDto(name: Option<string>, properties: Option<seq<Option<PropertyDto>>>)

  /** The common fields of `Property` are the record's. */
  predicate CopiesCommon(d: PropertyDto, p: Property) {
    p.address == d.address && p.indoorArea == d.indoorArea && p.propertyValue == d.propertyValue &&
    p.latitude == d.latitude && p.longitude == d.longitude
  }

  /** `MapPropertyToDto`: the subclass is tested before its base class, so a
      rentable apartment is tagged as such and keeps its rent and flag. */
  function PropertyToDto(p: Property): (d: PropertyDto)
    ensures CopiesCommon(d, p)
    ensures d.kind == RentableTag <==> p.RentableApartment?
    ensures d.kind == ApartmentTag <==> p.Apartment?
    ensures d.kind == HouseTag <==> p.House?
    ensures p.RentableApartment? ==>
      d.floor == Some(p.floor) && d.hasElevator == Some(p.hasElevator) &&
      d.monthlyRent == Some(p.monthlyRent) && d.isRented == Some(p.isRented) && d.outdoorArea.None?
    ensures p.Apartment? ==>
      d.floor == Some(p.floor) && d.hasElevator == Some(p.hasElevator) &&
      d.monthlyRent.None? && d.isRented.None? && d.outdoorArea.None?
    ensures p.House? ==>
      d.outdoorArea == Some(p.outdoorArea) &&
      d.floor.None? && d.hasElevator.None? && d.monthlyRent.None? && d.isRented.None?
  {
    match p
    case RentableApartment(addr, indoor, value, lat, lon, floor, elevator, rent, rented) =>
      PropertyDto(RentableTag, addr, indoor, value, lat, lon,
                  Some(floor), Some(elevator), Some(rent), Some(rented), None)
    case Apartment(addr, indoor, value, lat, lon, floor, elevator) =>
      PropertyDto(ApartmentTag, addr, indoor, value, lat, lon,
                  Some(floor), Some(elevator), None, None, None)
    case House(addr, indoor, value, lat, lon, outdoor) =>
      PropertyDto(HouseTag, addr, indoor, value, lat, lon,
                  None, None, None, None, Some(outdoor))
  }

  function OrDefault<T>(o: Option<T>, default: T): T {
    match o
    case Some(v) => v
    case None => default
  }

  /** `CreateApartment`: missing floor is 0, missing elevator is false. */
  function CreateApartment(d: PropertyDto): (p: Property)
    ensures p.Apartment? && CopiesCommon(d, p)
    ensures p.floor == (if d.floor.Some? then d.floor.value else 0)
    ensures p.hasElevator <==> d.hasElevator == Some(true)
  {
    Apartment(d.address, d.indoorArea, d.propertyValue, d.latitude, d.longitude,
              OrDefault(d.floor, 0), OrDefault(d.hasElevator, false))
  }

  /** `CreateRentableApartment`: missing rent is 0, and the apartment is
      rented only when the record says `true`. */
  function CreateRentableApartment(d: PropertyDto): (p: Property)
    ensures p.RentableApartment? && CopiesCommon(d, p)
    ensures p.floor == (if d.floor.Some? then d.floor.value else 0)
    ensures p.hasElevator <==> d.hasElevator == Some(true)
    ensures p.monthlyRent == (if d.monthlyRent.Some? then d.monthlyRent.value else 0.0)
    ensures p.isRented <==> d.isRented == Some(true)
  {
    var ra := NewRentableApartment(d.address, d.indoorArea, OrDefault(d.floor, 0), OrDefault(d.hasElevator, false),
                                   OrDefault(d.monthlyRent, 0.0), d.propertyValue, d.latitude, d.longitude);
    if d.isRented == Some(true) then ra.(isRented := true) else ra
  }

  /** `CreateHouse`: missing outdoor area is 0. */
  function CreateHouse(d: PropertyDto): (p: Property)
    ensures p.House? && CopiesCommon(d, p)
    ensures p.outdoorArea == (if d.outdoorArea.Some? then d.outdoorArea.value else 0.0)
  {
    House(d.address, d.indoorArea, d.propertyValue, d.latitude, d.longitude, OrDefault(d.outdoorArea, 0.0))
  }

  /** `MapDtoToProperty`: the three known tags (compared case-sensitively)
      build their kind; any other tag yields null. */
  function DtoToProperty(d: PropertyDto): (r: Option<Property>)
    ensures r.None? <==> d.kind != RentableTag && d.kind != ApartmentTag && d.kind != HouseTag
    ensures r.Some? ==> CopiesCommon(d, r.value)
    ensures r.Some? ==> (r.value.RentableApartment? <==> d.kind == RentableTag)
    ensures r.Some? ==> (r.value.Apartment? <==> d.kind == ApartmentTag)
    ensures r.Some? ==> (r.value.House? <==> d.kind == HouseTag)
    ensures d.kind == RentableTag ==> r == Some(CreateRentableApartment(d))
    ensures d.kind == ApartmentTag ==> r == Some(CreateApartment(d))
    ensures d.kind == HouseTag ==> r == Some(CreateHouse(d))
  {
    if d.kind == RentableTag then Some(CreateRentableApartment(d))
    else if d.kind == ApartmentTag then Some(CreateApartment(d))
    else if d.kind == HouseTag then Some(CreateHouse(d))
    else None
  }

  /** Writing a listing out and reading it back gives the same listing: same
      kind, every field, and the rented flag. */
  lemma PropertyRoundTrip(p: Property)
    ensures DtoToProperty(PropertyToDto(p)) == Some(p)
  {
  }

  /** The agency's listings as records, in order. */
  function PropertiesToDto(ps: seq<Property>): (ds: seq<Option<PropertyDto>>)
    ensures |ds| == |ps|
    ensures forall i :: 0 <= i < |ps| ==> ds[i] == Some(PropertyToDto(ps[i]))
  {
    seq(|ps|, i requires 0 <= i < |ps| => Some(PropertyToDto(ps[i])))
  }

  /** `MapAgencyToDto`. */
  function AgencyToDto(a: Agency): (d: AgencyDto)
    ensures d.name == Some(a.name)
    ensures d.properties == Some(PropertiesToDto(a.properties))
  {
    AgencyDto(Some(a.name), Some(PropertiesToDto(a.properties)))
  }

  /** One pass of `MapDtoToAgency`'s loop body before the add: a null
      element throws inside the `try` and is skipped like an unknown tag. */
  function ReadRecord(o: Option<PropertyDto>): (r: Option<Property>)
    ensures o.None? ==> r.None?
    ensures o.Some? ==> r == DtoToProperty(o.value)
  {
    match o
    case None => None
    case Some(d) => DtoToProperty(d)
  }

  /** The listings the records describe, dropping null records and records
      with an unknown tag. */
  function KnownProperties(ds: seq<Option<PropertyDto>>): (ps: seq<Property>)
    ensures |ps| <= |ds|
    decreases |ds|
  {
    if |ds| == 0 then []
    else
      match ReadRecord(ds[|ds| - 1])
      case None => KnownProperties(ds[..|ds| - 1])
      case Some(p) => KnownProperties(ds[..|ds| - 1]) + [p]
  }

  /** Every non-null record with a known tag contributes its listing, and
      every listing read comes from such a record. */
  lemma {:induction false} KnownPropertiesMembers(ds: seq<Option<PropertyDto>>)
    ensures forall i :: 0 <= i < |ds| && ds[i].Some? && DtoToProperty(ds[i].value).Some? ==>
      DtoToProperty(ds[i].value).value in KnownProperties(ds)
    ensures forall p :: p in KnownProperties(ds) ==>
      exists i :: 0 <= i < |ds| && ds[i].Some? && DtoToProperty(ds[i].value) == Some(p)
    decreases |ds|
  {
    if |ds| > 0 {
      var n := |ds| - 1;
      var init := ds[..n];
      KnownPropertiesMembers(init);
      assert ds == init + [ds[n]];
      KnownPropertiesSnoc(init, ds[n]);
      assert forall i :: 0 <= i < n ==> init[i] == ds[i];
      forall p | p in KnownProperties(ds)
        ensures exists i :: 0 <= i < |ds| && ds[i].Some? && DtoToProperty(ds[i].value) == Some(p)
      {
        if p in KnownProperties(init) {
          var i :| 0 <= i < n && init[i].Some? && DtoToProperty(init[i].value) == Some(p);
          assert ds[i] == init[i];
        } else {
          assert ReadRecord(ds[n]) == Some(p);
        }
      }
    }
  }

  /** The body of `MapDtoToAgency`'s loop: every listing is offered to
      `AddProperty` in order, and one whose add throws is skipped. */
  function AddEach(a: Agency, ps: seq<Property>): (r: Agency)
    ensures r.name == a.name
    ensures Valid(a) ==> Valid(r)
    decreases |ps|
  {
    if |ps| == 0 then a
    else AddProperty(AddEach(a, ps[..|ps| - 1]), Some(ps[|ps| - 1])).agency
  }

  /** Why `MapDtoToAgency` throws: the constructor rejects a null name, and
      `foreach` over a null list throws outside the loop's `try`. */
  datatype MapError = AgencyFailed(error: AgencyError) | PropertiesIsNull

  /** `MapDtoToAgency`: a null name makes the constructor throw, and a null
      list makes the loop throw; otherwise the known listings are added in
      order, duplicates skipped. */
  function DtoToAgency(d: AgencyDto): (r: Result<Agency, MapError>)
    ensures r.Err? <==> d.name.None? || d.properties.None?
    ensures d.name.None? ==> r == Err(AgencyFailed(NameIsNull))
    ensures d.name.Some? && d.properties.None? ==> r == Err(PropertiesIsNull)
    ensures r.Ok? ==> r.value.name == d.name.value && Valid(r.value)
  {
    match NewAgency(d.name)
    case Err(e) => Err(AgencyFailed(e))
    case Ok(a) =>
      match d.properties
      case None => Err(PropertiesIsNull)
      case Some(ps) => Ok(AddEach(a, KnownProperties(ps)))
  }

  /** An agency record `MapDtoToAgency` maps without throwing: present, with
      a name and a list. */
  predicate Mappable(o: Option<AgencyDto>) {
    o.Some? && o.value.name.Some? && o.value.properties.Some?
  }

  /** The mapping step of `LoadAsync`. A null document reads as no agencies
      (`?? new List<AgencyDto>()`). A null record, or a record whose mapping
      throws, sends the whole load to its catch, which returns no agencies. */
  function LoadAgencies(file: Option<seq<Option<AgencyDto>>>): (r: seq<Agency>)
    ensures file.None? ==> r == []
    ensures file.Some? && (forall i :: 0 <= i < |file.value| ==> Mappable(file.value[i])) ==>
      |r| == |file.value| &&
      forall i :: 0 <= i < |file.value| ==> Ok(r[i]) == DtoToAgency(file.value[i].value)
    ensures file.Some? && (exists i :: 0 <= i < |file.value| && !Mappable(file.value[i])) ==> r == []
  {
    match file
    case None => []
    case Some(ds) =>
      if forall i :: 0 <= i < |ds| ==> Mappable(ds[i]) then
        seq(|ds|, i requires 0 <= i < |ds| && Mappable(ds[i]) => DtoToAgency(ds[i].value).value)
      else []
  }

  // ---------------------------------------------------------------------
  // A reference for what `MapDtoToAgency` keeps: the first listing of every
  // address, in order.

  /** `ps[i]` is the first listing with its address, ignoring case. */
  predicate FirstOfItsAddress(ps: seq<Property>, i: nat)
    requires i < |ps|
  {
    forall j :: 0 <= j < i ==> !SameAddress(ps[j].address, ps[i].address)
  }

  /** Keeps `ps[i]` exactly when no earlier listing has the same address. */
  function FirstByAddress(ps: seq<Property>): (r: seq<Property>)
    ensures forall q :: q in r ==> q in ps
    decreases |ps|
  {
    if |ps| == 0 then []
    else
      var init := FirstByAddress(ps[..|ps| - 1]);
      if FirstOfItsAddress(ps, |ps| - 1) then init + [ps[|ps| - 1]] else init
  }

  /** Every address in `ps` is represented in `FirstByAddress(ps)`. */
  lemma {:induction false} FirstByAddressCovers(ps: seq<Property>, i: nat)
    requires i < |ps|
    ensures HasAddress(FirstByAddress(ps), ps[i].address)
    decreases |ps|
  {
    var n := |ps| - 1;
    var init := ps[..n];
    var r := FirstByAddress(ps);
    if i < n {
      FirstByAddressCovers(init, i);
      var k :| 0 <= k < |FirstByAddress(init)| && SameAddress(FirstByAddress(init)[k].address, init[i].address);
      assert r[k] == FirstByAddress(init)[k];
    } else if FirstOfItsAddress(ps, n) {
      assert r[|r| - 1] == ps[n];
    } else {
      var j :| 0 <= j < n && SameAddress(ps[j].address, ps[n].address);
      FirstByAddressCovers(init, j);
      var k :| 0 <= k < |FirstByAddress(init)| && SameAddress(FirstByAddress(init)[k].address, init[j].address);
      assert r[k] == FirstByAddress(init)[k];
    }
  }

  /** Adding the listings one by one into an empty agency keeps exactly the
      first listing of every address, in order. */
  lemma {:induction false} AddEachKeepsFirst(name: string, ps: seq<Property>)
    ensures AddEach(Agency(name, []), ps).properties == FirstByAddress(ps)
    decreases |ps|
  {
    if |ps| > 0 {
      var n := |ps| - 1;
      AddEachKeepsFirst(name, ps[..n]);
      if FirstOfItsAddress(ps, n) {
        AddFirstOfAddress(name, ps);
      } else {
        AddRepeatedAddress(name, ps);
      }
    }
  }

  /** Helper for `AddEachKeepsFirst`: a listing with a new address is added. */
  lemma AddFirstOfAddress(name: string, ps: seq<Property>)
    requires |ps| > 0 && FirstOfItsAddress(ps, |ps| - 1)
    requires AddEach(Agency(name, []), ps[..|ps| - 1]).properties == FirstByAddress(ps[..|ps| - 1])
    ensures AddEach(Agency(name, []), ps).properties == FirstByAddress(ps)
  {
    var n := |ps| - 1;
    var init := ps[..n];
    var acc := AddEach(Agency(name, []), init);
    forall k | 0 <= k < |acc.properties| ensures !SameAddress(acc.properties[k].address, ps[n].address) {
      assert acc.properties[k] in init;
      var j :| 0 <= j < n && init[j] == acc.properties[k];
      assert ps[j] == init[j];
    }
  }

  /** Helper for `AddEachKeepsFirst`: a listing whose address was seen is
      rejected. */
  lemma AddRepeatedAddress(name: string, ps: seq<Property>)
    requires |ps| > 0 && !FirstOfItsAddress(ps, |ps| - 1)
    requires AddEach(Agency(name, []), ps[..|ps| - 1]).properties == FirstByAddress(ps[..|ps| - 1])
    ensures AddEach(Agency(name, []), ps).properties == FirstByAddress(ps)
  {
    var n := |ps| - 1;
    var init := ps[..n];
    var j :| 0 <= j < n && SameAddress(ps[j].address, ps[n].address);
    assert init[j] == ps[j];
    FirstByAddressCovers(init, j);
  }

  /** A list that already has unique addresses keeps every listing. */
  lemma {:induction false} FirstByAddressOfUnique(ps: seq<Property>)
    requires UniqueAddresses(ps)
    ensures FirstByAddress(ps) == ps
    decreases |ps|
  {
    if |ps| > 0 {
      var n := |ps| - 1;
      assert UniqueAddresses(ps[..n]);
      FirstByAddressOfUnique(ps[..n]);
      assert ps[..n] + [ps[n]] == ps;
    }
  }

  /** `MapDtoToAgency` keeps, in order, the first listing of every address
      among the records with a known tag. */
  lemma DtoToAgencyKeepsFirst(d: AgencyDto)
    requires d.name.Some? && d.properties.Some?
    ensures DtoToAgency(d).Ok?
    ensures DtoToAgency(d).value.properties == FirstByAddress(KnownProperties(d.properties.value))
  {
    AddEachKeepsFirst(d.name.value, KnownProperties(d.properties.value));
  }

  /** Reading one more record adds its listing, if its tag is known. */
  lemma KnownPropertiesSnoc(ds: seq<Option<PropertyDto>>, d: Option<PropertyDto>)
    ensures KnownProperties(ds + [d]) ==
            KnownProperties(ds) + (if ReadRecord(d).Some? then [ReadRecord(d).value] else [])
  {
    assert (ds + [d])[..|ds|] == ds;
  }

  /** Reading back the records of a listing sequence gives the listings. */
  lemma {:induction false} KnownPropertiesRoundTrip(ps: seq<Property>)
    ensures KnownProperties(PropertiesToDto(ps)) == ps
    decreases |ps|
  {
    if |ps| > 0 {
      var n := |ps| - 1;
      var init, last := PropertiesToDto(ps[..n]), Some(PropertyToDto(ps[n]));
      PropertiesToDtoSnoc(ps);
      KnownPropertiesRoundTrip(ps[..n]);
      PropertyRoundTrip(ps[n]);
      KnownPropertiesSnoc(init, last);
      assert KnownProperties(PropertiesToDto(ps)) == ps[..n] + [ps[n]];
      assert ps[..n] + [ps[n]] == ps;
    }
  }

  /** The records of a non-empty sequence end with the last listing's. */
  lemma PropertiesToDtoSnoc(ps: seq<Property>)
    requires |ps| > 0
    ensures PropertiesToDto(ps) == PropertiesToDto(ps[..|ps| - 1]) + [Some(PropertyToDto(ps[|ps| - 1]))]
  {
  }

  /** Saving a valid agency and loading it back gives the same name and the
      same listings in the same order. */
  lemma AgencyRoundTrip(a: Agency)
    requires Valid(a)
    ensures DtoToAgency(AgencyToDto(a)) == Ok(a)
  {
    KnownPropertiesRoundTrip(a.properties);
    AddEachKeepsFirst(a.name, a.properties);
    FirstByAddressOfUnique(a.properties);
  }
}
