/** `RealEstateAgency`: a named, ordered list of listings in which no two
    addresses are equal ignoring case. */
module Agencies {

  import opened Common
  import opened Listings

  /** `char.ToUpperInvariant` restricted to ASCII letters. */
  function UpperChar(c: char): char {
    if 'a' <= c <= 'z' then (c as int - 32) as char else c
  }

  /** The key `StringComparison.OrdinalIgnoreCase` compares. */
  function FoldCase(s: string): (f: string)
    ensures |f| == |s|
    ensures forall i :: 0 <= i < |s| ==> f[i] == UpperChar(s[i])
  {
    seq(|s|, i requires 0 <= i < |s| => UpperChar(s[i]))
  }

  /** `string.Equals(a, b, StringComparison.OrdinalIgnoreCase)`. */
  predicate SameAddress(a: string, b: string) {
    FoldCase(a) == FoldCase(b)
  }

  /** Equal ignoring case means: same length, and letters that differ only
      in ASCII case at every position. */
  lemma SameAddressCharwise(a: string, b: string)
    ensures SameAddress(a, b) <==> |a| == |b| && forall i :: 0 <= i < |a| ==> UpperChar(a[i]) == UpperChar(b[i])
  {
    if |a| == |b| && forall i :: 0 <= i < |a| ==> UpperChar(a[i]) == UpperChar(b[i]) {
      assert FoldCase(a) == FoldCase(b);
    }
  }

  lemma SameAddressTransitive(a: string, b: string, c: string)
    requires SameAddress(a, b) && SameAddress(b, c)
    ensures SameAddress(a, c)
  {
  }

  datatype Agency = Agency(name: string, properties: seq<Property>)

  /** The invariant `AddProperty` maintains. */
  predicate UniqueAddresses(ps: seq<Property>) {
    forall i, j :: 0 <= i < j < |ps| ==> !SameAddress(ps[i].address, ps[j].address)
  }

  predicate Valid(a: Agency) {
    UniqueAddresses(a.properties)
  }

  /** Some listing's address equals `address` ignoring case. */
  predicate HasAddress(ps: seq<Property>, address: string) {
    exists i :: 0 <= i < |ps| && SameAddress(ps[i].address, address)
  }

  /** The exceptions the agency throws. */
  datatype AgencyError =
    | NameIsNull            // ArgumentNullException("name")
    | PropertyIsNull        // ArgumentNullException("property")
    | DuplicateAddress(address: string)  // InvalidOperationException

  /** The constructor: a null name is rejected, otherwise the list starts
      empty. */
  function NewAgency(name: Option<string>): (r: Result<Agency, AgencyError>)
    ensures r.Err? <==> name.None?
    ensures r.Err? ==> r.error == NameIsNull
    ensures r.Ok? ==> r.value.name == name.value && |r.value.properties| == 0 && Valid(r.value)
  {
    match name
    case None => Err(NameIsNull)
    case Some(n) => Ok(Agency(n, []))
  }

  /** The agency after a call, and the exception the call threw, if any. */
  datatype Outcome = Outcome(agency: Agency, error: Option<AgencyError>)

  /** `AddProperty`: rejects null and any address already present ignoring
      case, leaving the list as it was; otherwise appends at the end. */
  function AddProperty(a: Agency, p: Option<Property>): (r: Outcome)
    ensures p.None? ==> r.error == Some(PropertyIsNull)
    ensures p.Some? ==> (r.error.Some? <==> HasAddress(a.properties, p.value.address))
    ensures r.error.Some? ==> r.agency == a
    ensures r.error.None? ==>
      r.agency.name == a.name &&
      |r.agency.properties| == |a.properties| + 1 &&
      r.agency.properties[..|a.properties|] == a.properties &&
      r.agency.properties[|a.properties|] == p.value
    ensures Valid(a) ==> Valid(r.agency)
  {
    match p
    case None => Outcome(a, Some(PropertyIsNull))
    case Some(q) =>
      if HasAddress(a.properties, q.address) then Outcome(a, Some(DuplicateAddress(q.address)))
      else
        var ps := a.properties + [q];
        assert forall i :: 0 <= i < |a.properties| ==> !SameAddress(ps[i].address, q.address);
        Outcome(Agency(a.name, ps), None)
  }

  /** `List.Find` with the case-insensitive address test: the position of the
      first listing whose address matches. */
  function FindByAddress(ps: seq<Property>, address: string): (r: Option<nat>)
    ensures r.Some? ==> r.value < |ps| && SameAddress(ps[r.value].address, address)
    ensures r.Some? ==> forall j :: 0 <= j < r.value ==> !SameAddress(ps[j].address, address)
    ensures r.None? <==> !HasAddress(ps, address)
  {
    if |ps| == 0 then None
    else if SameAddress(ps[0].address, address) then Some(0)
    else
      match FindByAddress(ps[1..], address)
      case None =>
        assert forall j :: 1 <= j < |ps| ==> ps[j] == ps[1..][j - 1];
        None
      case Some(k) =>
        assert forall j :: 1 <= j <= k ==> ps[j] == ps[1..][j - 1];
        Some(k + 1)
  }

  /** The listing at `i` is a rentable apartment nobody rents yet. */
  predicate CanRent(ps: seq<Property>, i: nat) {
    i < |ps| && IsRentable(ps[i]) && !ps[i].isRented
  }

  /** `RentProperty`: false and no change when no address matches, the match
      is not rentable, or it is already rented; otherwise marks exactly that
      listing rented and returns true. */
  function RentProperty(a: Agency, address: string): (r: (Agency, bool))
    ensures r.1 <==> FindByAddress(a.properties, address).Some? &&
                     CanRent(a.properties, FindByAddress(a.properties, address).value)
    ensures !r.1 ==> r.0 == a
    ensures r.1 ==>
      var i := FindByAddress(a.properties, address).value;
      r.0.name == a.name && |r.0.properties| == |a.properties| &&
      r.0.properties[i] == a.properties[i].(isRented := true) &&
      forall j :: 0 <= j < |a.properties| && j != i ==> r.0.properties[j] == a.properties[j]
    ensures Valid(a) ==> Valid(r.0)
  {
    match FindByAddress(a.properties, address)
    case None => (a, false)
    case Some(i) =>
      var p := a.properties[i];
      if !IsRentable(p) then (a, false)
      else if p.isRented then (a, false)
      else
        var ps := a.properties[i := p.(isRented := true)];
        assert forall j :: 0 <= j < |ps| ==> ps[j].address == a.properties[j].address;
        (Agency(a.name, ps), true)
  }

  /** Renting the same address twice: the second call fails and changes
      nothing. */
  lemma RentTwice(a: Agency, address: string)
    ensures var (a1, _) := RentProperty(a, address);
            RentProperty(a1, address) == (a1, false)
  {
    var (a1, ok) := RentProperty(a, address);
    if ok {
      var i := FindByAddress(a.properties, address).value;
      assert forall j :: 0 <= j < |a.properties| ==> a1.properties[j].address == a.properties[j].address;
      assert FindByAddress(a1.properties, address) == Some(i);
    }
  }

  /** In a valid agency an address matches at most one listing, so the
      listing `RentProperty` acts on is the only one with that address. */
  lemma FindIsOnlyMatch(a: Agency, address: string, j: nat)
    requires Valid(a) && j < |a.properties| && SameAddress(a.properties[j].address, address)
    ensures FindByAddress(a.properties, address) == Some(j)
  {
    var i := FindByAddress(a.properties, address).value;
    if i < j {
      SameAddressTransitive(a.properties[i].address, address, a.properties[j].address);
    }
  }
}
