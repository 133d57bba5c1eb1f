/** The listing hierarchy (`Property`, `Apartment`, `RentableApartment`,
    `House`) as one tagged value, and the marker style the map derives from a
    listing. Every kind carries the common fields: address, indoor area,
    value and coordinates. */
module Listings {

  datatype Property =
    | Apartment(address: string, indoorArea: real, propertyValue: real,
                latitude: real, longitude: real,
                floor: int, hasElevator: bool)
    | RentableApartment(address: string, indoorArea: real, propertyValue: real,
                        latitude: real, longitude: real,
                        floor: int, hasElevator: bool,
                        monthlyRent: real, isRented: bool)
    | House(address: string, indoorArea: real, propertyValue: real,
            latitude: real, longitude: real,
            outdoorArea: real)

  /** The `RentableApartment` constructor: a new rentable apartment is never
      rented. */
  function NewRentableApartment(address: string, indoorArea: real, floor: int, hasElevator: bool,
                                monthlyRent: real, propertyValue: real,
                                latitude: real, longitude: real): (p: Property)
    ensures IsRentable(p) && !p.isRented
    ensures p.address == address && p.indoorArea == indoorArea && p.propertyValue == propertyValue
    ensures p.latitude == latitude && p.longitude == longitude
    ensures p.floor == floor && p.hasElevator == hasElevator && p.monthlyRent == monthlyRent
  {
    RentableApartment(address, indoorArea, propertyValue, latitude, longitude,
                      floor, hasElevator, monthlyRent, false)
  }

  /** Only `RentableApartment` implements `IRentable`. */
  predicate IsRentable(p: Property) {
    p.RentableApartment?
  }

  /** The three marker looks a listing can have on the map. */
  datatype Style = Available | Rented | NotForRent

  datatype Color = Gray | DarkSlateGray | LimeGreen | DarkGreen | DodgerBlue | Navy

  /** Fill and border colour of a marker glyph. */
  datatype Palette = Palette(fill: Color, border: Color)

  /** The style branch of `DrawPropertyMarker`. */
  function StyleOf(p: Property): (s: Style)
    ensures s == Rented <==> IsRentable(p) && p.isRented
    ensures s == Available <==> IsRentable(p) && !p.isRented
    ensures s == NotForRent <==> !IsRentable(p)
  {
    if IsRentable(p) then (if p.isRented then Rented else Available) else NotForRent
  }

  function PaletteOf(s: Style): Palette {
    match s
    case Rented => Palette(Gray, DarkSlateGray)
    case Available => Palette(LimeGreen, DarkGreen)
    case NotForRent => Palette(DodgerBlue, Navy)
  }

  /** The colours a listing's marker is drawn with. */
  function MarkerColors(p: Property): (c: Palette)
    ensures c == Palette(Gray, DarkSlateGray) <==> IsRentable(p) && p.isRented
    ensures c == Palette(LimeGreen, DarkGreen) <==> IsRentable(p) && !p.isRented
    ensures c == Palette(DodgerBlue, Navy) <==> !IsRentable(p)
  {
    PaletteOf(StyleOf(p))
  }

  /** Distinct styles are drawn with distinct fill and border colours, so the
      style of a marker can be read off the map. */
  lemma PalettesDistinguishStyles(s: Style, t: Style)
    ensures PaletteOf(s).fill == PaletteOf(t).fill <==> s == t
    ensures PaletteOf(s).border == PaletteOf(t).border <==> s == t
  {
  }
}
