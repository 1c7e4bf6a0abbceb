/** The records the catalog API exchanges (dummy/products.go, lines 11-64).

    Floating-point and time values are carried through the client untouched, so
    they are opaque here: a float64 is kept as its IEEE-754 bit pattern and a
    time.Time as an uninterpreted instant.
 */
module Products {
  import opened GoTypes

  /** A float64 kept as its bit pattern; the client does no arithmetic on it. */
  datatype Float64 = Float64(bits: bv64)

  /** A time.Time kept as an opaque instant; the zero value is Instant(0, 0). */
  datatype Time = Instant(seconds: int, nanos: nat)

  datatype Dimension = Dimension(width: Float64, height: Float64, depth: Float64)

  datatype Meta = Meta(createdAt: Time, updatedAt: Time, barcode: string, qrCode: string)

  datatype Review = Review(
    rating: Uint8,
    comment: string,
    date: Time,
    reviewerName: string,
    reviewerEmail: string)

  datatype Product = Product(
    id: Int64,
    title: string,
    description: string,
    category: string,
    price: Float64,
    discountPercentage: Float64,
    rating: Float64,
    stock: Uint64,
    tags: seq<string>,
    brand: string,
    sku: string,
    weight: Float64,
    dimensions: Dimension,
    warrantyInfo: string,
    shippingInfo: string,
    availabilityStatus: string,
    reviews: seq<Review>,
    returnPolicy: string,
    minimumOrderQuantity: Uint64,
    meta: Meta,
    thumbnail: string,
    images: seq<string>,
    isDeleted: bool,
    deletedOn: Time)

  /** One page of the listing endpoint: the items plus the server's own
      account of total, skip and limit (the number of items it returned). */
  datatype ProductResponse = ProductResponse(
    products: seq<Product>,
    total: Uint64,
    skip: Uint64,
    limit: Uint64)

  const ZeroFloat: Float64 := Float64(0)
  const ZeroTime: Time := Instant(0, 0)

  /** Go's zero value `Product{}`: what the single-item operations hand back on failure. */
  const ZeroProduct: Product := Product(
    0, "", "", "", ZeroFloat, ZeroFloat, ZeroFloat, 0, [], "", "", ZeroFloat,
    Dimension(ZeroFloat, ZeroFloat, ZeroFloat), "", "", "", [], "", 0,
    Meta(ZeroTime, ZeroTime, "", ""), "", [], false, ZeroTime)

  /** Go's zero value `ProductResponse{}`. */
  const EmptyPage: ProductResponse := ProductResponse([], 0, 0, 0)
}
