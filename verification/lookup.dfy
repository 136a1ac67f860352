/**
 * Product lookup by barcode (services/foodService.ts, `getProductByBarcode`
 * and `getMockProduct`). The network request is replaced by its outcome,
 * the clock by `now`, and `Math.random()` by `random`.
 */
module Lookup {
  import opened Wrappers
  import opened Products
  import opened Normalizer
  import opened ScanHistory

  /** What the product-database request came back with. */
  datatype FetchOutcome =
    | NotFound                   // the response's `status` is 0
    | Failed                     // the request, the JSON parse or the record access threw
    | Found(record: OffProduct)  // a product record

  /** The product handed to the caller and the storage left behind. */
  datatype LookupResult = LookupResult(product: Product, storage: Storage)

  /** The two stand-in products, both carrying the requested barcode. */
  function MockProducts(barcode: string, now: Timestamp): (ms: seq<Product>)
    ensures |ms| == 2
    ensures forall i :: 0 <= i < |ms| ==> ms[i].barcode == barcode && IsClassified(ms[i].allergens)
  {
    [ Product(
        barcode, "Organic Peanut Butter", "Nature's Best", None,
        Some(["Organic Peanuts", "Salt"]),
        AllergenMap(
          milk := NotPresent, eggs := NotPresent, peanuts := Present, treeNuts := MayContain,
          soy := NotPresent, wheat := NotPresent, fish := NotPresent, shellfish := NotPresent),
        Some("b"), Some(now)),
      Product(
        barcode, "Whole Wheat Bread", "Bakery Fresh", None,
        Some(["Whole Wheat Flour", "Water", "Yeast", "Salt", "Sugar"]),
        AllergenMap(
          milk := NotPresent, eggs := NotPresent, peanuts := NotPresent, treeNuts := NotPresent,
          soy := MayContain, wheat := Present, fish := NotPresent, shellfish := NotPresent),
        Some("a"), Some(now)) ]
  }

  /** `Math.floor(random * 2)` for a `random` in [0, 1): always a valid index into the two stand-ins. */
  function MockIndex(random: real): (i: nat)
    requires 0.0 <= random < 1.0
    ensures i < 2
    ensures i == 0 <==> random < 0.5
  {
    (random * 2.0).Floor
  }

  /** `getMockProduct(barcode)`. */
  function GetMockProduct(barcode: string, now: Timestamp, random: real): (p: Product)
    requires 0.0 <= random < 1.0
    ensures p in MockProducts(barcode, now)
    ensures p.barcode == barcode && IsClassified(p.allergens)
  {
    MockProducts(barcode, now)[MockIndex(random)]
  }

  /**
   * `getProductByBarcode(barcode)`: a found record is normalised, recorded
   * in the history and returned; on any other outcome a stand-in product is
   * returned and the storage is left alone.
   */
  function GetProductByBarcode(barcode: string, outcome: FetchOutcome, storage: Storage, now: Timestamp, random: real): (r: LookupResult)
    requires 0.0 <= random < 1.0
    ensures r.product.barcode == barcode
    ensures r.product.name != "" && r.product.brand != ""
    ensures IsClassified(r.product.allergens)
    ensures outcome.Found? ==> r.product == ParseOpenFoodFactsProduct(outcome.record, barcode, now)
    ensures outcome.Found? ==> r.storage == AddToScanHistory(storage, r.product)
    ensures !outcome.Found? ==> r.storage == storage && r.product in MockProducts(barcode, now)
  {
    match outcome
    case Found(record) =>
      var product := ParseOpenFoodFactsProduct(record, barcode, now);
      LookupResult(product, AddToScanHistory(storage, product))
    case _ =>
      LookupResult(GetMockProduct(barcode, now, random), storage)
  }

  /** A successful lookup with storage available puts the product at the head of the history. */
  lemma FoundLookupIsMostRecent(barcode: string, record: OffProduct, storage: Storage, now: Timestamp, random: real)
    requires 0.0 <= random < 1.0
    requires storage.Available?
    ensures var r := GetProductByBarcode(barcode, Found(record), storage, now, random);
            && GetScanHistory(r.storage)[0] == r.product
            && Occurrences(GetScanHistory(r.storage), barcode) == 1
  {
    var r := GetProductByBarcode(barcode, Found(record), storage, now, random);
    AddLeavesOneEntryPerBarcode(GetScanHistory(storage), r.product);
  }

  /** A failed lookup leaves the history as it was. */
  lemma FailedLookupKeepsHistory(barcode: string, outcome: FetchOutcome, storage: Storage, now: Timestamp, random: real)
    requires 0.0 <= random < 1.0
    requires !outcome.Found?
    ensures GetScanHistory(GetProductByBarcode(barcode, outcome, storage, now, random).storage) == GetScanHistory(storage)
  {
  }
}
