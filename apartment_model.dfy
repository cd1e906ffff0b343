/** The `Apartment` and `ApartmentImage` records (app/models/apartment.py):
    their column defaults and the delete-orphan cascade from an apartment to
    its images. Bookings refer to apartments but are not part of the cascade. */
module ApartmentModel {
  import opened Wrappers

  /** One listing. `created_at`/`updated_at` are clock readings the caller
      supplies. `bathrooms` is kept as the value the form parsed (a float)
      although the column is declared `Integer`. */
  datatype Apartment = Apartment(
    id: int,
    title: string,
    description: string,
    address: string,
    city: string,
    state: string,
    zipCode: string,
    pricePerMonth: real,
    minContractDuration: int,
    bedrooms: int,
    bathrooms: real,
    areaSqft: int,
    isAvailable: bool,
    createdAt: int,
    updatedAt: int,
    ownerId: int)

  datatype ApartmentImage = ApartmentImage(
    id: int,
    filename: string,
    caption: Option<string>,
    isPrimary: bool,
    createdAt: int,
    apartmentId: int)

  /** `Apartment(...)` with the required columns given: it is available,
      owned by `ownerId`, and stamped `now`. */
  function NewApartment(id: int, title: string, description: string, address: string,
                        city: string, state: string, zipCode: string, pricePerMonth: real,
                        minContractDuration: int, bedrooms: int, bathrooms: real, areaSqft: int,
                        ownerId: int, now: int): (a: Apartment)
    ensures a.isAvailable
    ensures a.id == id && a.ownerId == ownerId && a.createdAt == now && a.updatedAt == now
    ensures a.pricePerMonth == pricePerMonth && a.minContractDuration == minContractDuration
  {
    Apartment(id, title, description, address, city, state, zipCode, pricePerMonth,
              minContractDuration, bedrooms, bathrooms, areaSqft, true, now, now, ownerId)
  }

  /** `ApartmentImage(...)`: not the primary image unless set later. */
  function NewImage(id: int, filename: string, caption: Option<string>, apartmentId: int, now: int): (g: ApartmentImage)
    ensures !g.isPrimary
    ensures g.apartmentId == apartmentId && g.filename == filename
  {
    ApartmentImage(id, filename, caption, false, now, apartmentId)
  }

  /** The images that remain after the apartment `apartmentId` is deleted:
      `cascade='all, delete-orphan'` removes exactly that apartment's images. */
  function CascadeImages(images: seq<ApartmentImage>, apartmentId: int): (r: seq<ApartmentImage>)
    ensures forall g :: g in r <==> g in images && g.apartmentId != apartmentId
    ensures |r| <= |images|
  {
    if images == [] then []
    else if images[0].apartmentId == apartmentId then CascadeImages(images[1..], apartmentId)
    else [images[0]] + CascadeImages(images[1..], apartmentId)
  }

  /** The first apartment with the given id (`Apartment.query.get`). */
  function FindApartment(apartments: seq<Apartment>, apartmentId: int): (r: Option<Apartment>)
    ensures r.Some? ==> r.value in apartments && r.value.id == apartmentId
    ensures r.None? ==> forall a :: a in apartments ==> a.id != apartmentId
  {
    if apartments == [] then None
    else if apartments[0].id == apartmentId then Some(apartments[0])
    else FindApartment(apartments[1..], apartmentId)
  }
}
