/**
 * The catalog's persistent entities: a product and the images attached to it,
 * with the field choices, lengths, decimal bounds and defaults the schema declares.
 * Prices are integer cents.
 */
module Catalog {
  import opened Options

  type ProductId = nat
  type ImageId = nat

  /** The two product kinds; new products are tote bags unless told otherwise. */
  datatype ProductType = Totebag | Tshirt

  const DefaultProductType: ProductType := Totebag

  const ProductTypeMaxLength: nat := 10
  const TitleMaxLength: nat := 200
  const SizesMaxLength: nat := 100
  const ColorMaxLength: nat := 10
  const PriceMaxDigits: nat := 10

  /** The stored code of a product type; it fits the column. */
  function ProductTypeCode(t: ProductType): (code: string)
    ensures 0 < |code| <= ProductTypeMaxLength
  {
    match t
    case Totebag => "TOTEBAG"
    case Tshirt => "TSHIRT"
  }

  /** Reads a product-type code; exactly the declared codes are accepted. */
  function ParseProductType(code: string): (r: Option<ProductType>)
    ensures r.Some? ==> ProductTypeCode(r.value) == code
    ensures r.None? <==> forall t: ProductType :: ProductTypeCode(t) != code
  {
    if code == "TOTEBAG" then Some(Totebag)
    else if code == "TSHIRT" then Some(Tshirt)
    else None
  }

  /** The six image colours. */
  datatype Color = White | Black | Red | Blue | Green | Yellow

  /** The stored code of a colour; it fits the column. */
  function ColorCode(c: Color): (code: string)
    ensures 0 < |code| <= ColorMaxLength
  {
    match c
    case White => "WHITE"
    case Black => "BLACK"
    case Red => "RED"
    case Blue => "BLUE"
    case Green => "GREEN"
    case Yellow => "YELLOW"
  }

  /** Reads a colour code; exactly the declared codes are accepted. */
  function ParseColor(code: string): (r: Option<Color>)
    ensures r.Some? ==> ColorCode(r.value) == code
    ensures r.None? <==> forall c: Color :: ColorCode(c) != code
  {
    if code == "WHITE" then Some(White)
    else if code == "BLACK" then Some(Black)
    else if code == "RED" then Some(Red)
    else if code == "BLUE" then Some(Blue)
    else if code == "GREEN" then Some(Green)
    else if code == "YELLOW" then Some(Yellow)
    else None
  }

  function Pow10(k: nat): (r: nat)
    ensures r >= 1
  {
    if k == 0 then 1 else 10 * Pow10(k - 1)
  }

  function Abs(x: int): nat {
    if x < 0 then -x else x
  }

  /** The number of decimal digits needed to write `n`. */
  function DigitCount(n: nat): nat {
    if n < 10 then 1 else 1 + DigitCount(n / 10)
  }

  /** Having at most `k` digits is the same as lying below 10^k. */
  lemma {:induction false} DigitCountBound(n: nat, k: nat)
    requires k >= 1
    ensures DigitCount(n) <= k <==> n < Pow10(k)
    decreases k
  {
    if n < 10 {
      assert Pow10(k) >= 10 by { Pow10AtLeastTen(k); }
    } else if k == 1 {
      assert Pow10(1) == 10;
    } else {
      DigitCountBound(n / 10, k - 1);
      assert n / 10 < Pow10(k - 1) <==> n < 10 * Pow10(k - 1);
    }
  }

  lemma Pow10AtLeastTen(k: nat)
    requires k >= 1
    ensures Pow10(k) >= 10
  {
    if k > 1 {
      Pow10AtLeastTen(k - 1);
    }
  }

  /**
   * A price in cents fits a decimal column of ten digits with two decimal places
   * when its magnitude, written in cents, needs at most ten digits: holding the
   * price in cents fixes the two decimal places, so only the digit total remains.
   */
  predicate ValidPrice(cents: int) {
    DigitCount(Abs(cents)) <= PriceMaxDigits
  }

  const PriceCentsBound: int := 10_000_000_000

  /** The digit bound on a price is the open interval (-10^10, 10^10) in cents. */
  lemma ValidPriceRange(cents: int)
    ensures ValidPrice(cents) <==> -PriceCentsBound < cents < PriceCentsBound
  {
    DigitCountBound(Abs(cents), PriceMaxDigits);
    assert Pow10(PriceMaxDigits) == PriceCentsBound;
  }

  /** Sizes may be null or blank, and otherwise fit their column. */
  predicate ValidSizes(sizes: Option<string>) {
    sizes.None? || |sizes.value| <= SizesMaxLength
  }

  /** A product row. `availableSizes` is the comma-separated size list, nullable. */
  datatype Product = Product(
    title: string,
    description: string,
    priceCents: int,
    productType: ProductType,
    availableSizes: Option<string>)

  predicate ValidProduct(p: Product) {
    && |p.title| <= TitleMaxLength
    && ValidPrice(p.priceCents)
    && ValidSizes(p.availableSizes)
  }

  /** An image row: its owning product, the stored file name, an optional colour code, and display attributes. */
  datatype ProductImage = ProductImage(
    product: ProductId,
    file: string,
    color: Option<string>,
    isFeatured: bool,
    order: nat)

  /** An image as the database creates it when only owner, file and colour are given. */
  function NewImage(owner: ProductId, file: string, color: Option<string>): ProductImage {
    ProductImage(owner, file, color, false, 0)
  }

  /** A colour column holds one of the six codes, or is null or blank. */
  predicate ValidImageColor(color: Option<string>) {
    color.None? || color.value == "" || ParseColor(color.value).Some?
  }

  /** Every colour the schema admits fits its ten-character column. */
  lemma ValidImageColorFits(color: Option<string>)
    requires ValidImageColor(color) && color.Some?
    ensures |color.value| <= ColorMaxLength
  {
    if color.value != "" {
      var c := ParseColor(color.value).value;
      assert ColorCode(c) == color.value;
    }
  }
}
