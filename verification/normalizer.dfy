/**
 * The product normaliser of services/foodService.ts
 * (`parseOpenFoodFactsProduct`): a sparse database record becomes a `Product`.
 */
module Normalizer {
  import opened Wrappers
  import opened Text
  import opened Products
  import Allergens
  import Ingredients

  /**
   * The fields of a product-database record the normaliser reads; each may
   * be absent.
   */
  datatype OffProduct = OffProduct(
    productName: Option<string>,
    brands: Option<string>,
    imageFrontUrl: Option<string>,
    ingredientsText: Option<string>,
    allergensTags: Option<seq<string>>,
    tracesTags: Option<seq<string>>,
    nutritionGrades: Option<string>)

  const UnknownProductName: string := "Unknown Product"
  const UnknownBrandName: string := "Unknown Brand"

  /**
   * `value || fallback` on an optional string: JavaScript treats both an
   * absent value and the empty string as false.
   */
  function OrElse(value: Option<string>, fallback: string): (r: string)
    ensures value.Some? && value.value != "" ==> r == value.value
    ensures value.None? || value.value == "" ==> r == fallback
  {
    match value
    case Some(v) => if v != "" then v else fallback
    case None => fallback
  }

  /**
   * `parseOpenFoodFactsProduct(openFoodProduct, barcode)`; `now` is the
   * instant `new Date()` would read.
   */
  function ParseOpenFoodFactsProduct(record: OffProduct, barcode: string, now: Timestamp): (p: Product)
    ensures p.barcode == barcode
    ensures p.name != "" && p.brand != ""
    ensures record.productName.Some? && record.productName.value != "" ==> p.name == record.productName.value
    ensures record.productName.None? || record.productName.value == "" ==> p.name == UnknownProductName
    ensures record.brands.Some? && record.brands.value != "" ==> p.brand == record.brands.value
    ensures record.brands.None? || record.brands.value == "" ==> p.brand == UnknownBrandName
    ensures p.image == record.imageFrontUrl && p.nutritionGrade == record.nutritionGrades
    ensures p.scanDate == Some(now)
    ensures p.ingredients == Some(Ingredients.ParseIngredients(record.ingredientsText.GetOr("")))
    ensures p.ingredients.Some? && |p.ingredients.value| <= Ingredients.MaxIngredients
    ensures IsClassified(p.allergens)
    ensures forall k :: Get(p.allergens, k) == Allergens.ExpectedStatus(
              record.allergensTags.GetOr([]), record.tracesTags.GetOr([]), record.ingredientsText.GetOr(""), k)
  {
    var allergens := Allergens.ParseAllergens(
      record.allergensTags.GetOr([]),
      record.tracesTags.GetOr([]),
      record.ingredientsText.GetOr(""));
    Product(
      barcode,
      OrElse(record.productName, UnknownProductName),
      OrElse(record.brands, UnknownBrandName),
      record.imageFrontUrl,
      Some(Ingredients.ParseIngredients(record.ingredientsText.GetOr(""))),
      allergens,
      record.nutritionGrades,
      Some(now))
  }

  /** The record with every optional field absent. */
  const EmptyRecord := OffProduct(None, None, None, None, None, None, None)

  /**
   * A record with nothing in it still yields a complete product: default
   * names, no ingredients and every allergen `NotPresent`.
   */
  lemma EmptyRecordDefaults(barcode: string, now: Timestamp)
    ensures var p := ParseOpenFoodFactsProduct(EmptyRecord, barcode, now);
            && p.barcode == barcode
            && p.name == UnknownProductName && p.brand == UnknownBrandName
            && p.ingredients == Some([])
            && p.allergens == Uniform(NotPresent)
  {
    var p := ParseOpenFoodFactsProduct(EmptyRecord, barcode, now);
    forall k ensures Get(p.allergens, k) == NotPresent {
      assert !Allergens.AnyMentions([], k);
      Allergens.NoLowerCaseNoMention(Lower(""), k);
    }
    Extensionality(p.allergens, Uniform(NotPresent));
  }
}
