/** The product record and its allergen map (types/product.ts). */
module Products {
  import opened Wrappers

  /** How far a product is known to contain one allergen. */
  datatype AllergenStatus = Present | MayContain | NotPresent | Unknown

  /** The closed set of allergens a product is classified against. */
  datatype AllergenKey = Milk | Eggs | Peanuts | TreeNuts | Soy | Wheat | Fish | Shellfish

  /** Every key, in the order the classifier visits them. */
  const AllKeys: seq<AllergenKey> := [Milk, Eggs, Peanuts, TreeNuts, Soy, Wheat, Fish, Shellfish]

  /** The allergen record: one status per key, so no key can be missing. */
  datatype AllergenMap = AllergenMap(
    milk: AllergenStatus,
    eggs: AllergenStatus,
    peanuts: AllergenStatus,
    treeNuts: AllergenStatus,
    soy: AllergenStatus,
    wheat: AllergenStatus,
    fish: AllergenStatus,
    shellfish: AllergenStatus)

  /** A point in time, as produced by `new Date()`; the model never inspects it. */
  datatype Timestamp = Timestamp(millis: int)

  /** A scanned product. `image`, `ingredients`, `nutritionGrade` and `scanDate` are optional. */
  datatype Product = Product(
    barcode: string,
    name: string,
    brand: string,
    image: Option<string>,
    ingredients: Option<seq<string>>,
    allergens: AllergenMap,
    nutritionGrade: Option<string>,
    scanDate: Option<Timestamp>)

  /** `allergens[key]`. */
  function Get(m: AllergenMap, k: AllergenKey): AllergenStatus {
    match k
    case Milk => m.milk
    case Eggs => m.eggs
    case Peanuts => m.peanuts
    case TreeNuts => m.treeNuts
    case Soy => m.soy
    case Wheat => m.wheat
    case Fish => m.fish
    case Shellfish => m.shellfish
  }

  /** `allergens[key] = status`: only `key` changes. */
  function Set(m: AllergenMap, k: AllergenKey, s: AllergenStatus): (r: AllergenMap)
    ensures Get(r, k) == s
    ensures forall k' :: k' != k ==> Get(r, k') == Get(m, k')
  {
    match k
    case Milk => m.(milk := s)
    case Eggs => m.(eggs := s)
    case Peanuts => m.(peanuts := s)
    case TreeNuts => m.(treeNuts := s)
    case Soy => m.(soy := s)
    case Wheat => m.(wheat := s)
    case Fish => m.(fish := s)
    case Shellfish => m.(shellfish := s)
  }

  /** The map with every key set to `s`. */
  function Uniform(s: AllergenStatus): (r: AllergenMap)
    ensures forall k :: Get(r, k) == s
  {
    AllergenMap(s, s, s, s, s, s, s, s)
  }

  /** Two allergen maps are equal exactly when they agree on every key. */
  lemma Extensionality(m: AllergenMap, m': AllergenMap)
    requires forall k :: Get(m, k) == Get(m', k)
    ensures m == m'
  {
    assert Get(m, Milk) == Get(m', Milk) && Get(m, Eggs) == Get(m', Eggs);
    assert Get(m, Peanuts) == Get(m', Peanuts) && Get(m, TreeNuts) == Get(m', TreeNuts);
    assert Get(m, Soy) == Get(m', Soy) && Get(m, Wheat) == Get(m', Wheat);
    assert Get(m, Fish) == Get(m', Fish) && Get(m, Shellfish) == Get(m', Shellfish);
  }

  /** A key is one of the eight constructors. */
  lemma KeyCase(k: AllergenKey)
    ensures k == Milk || k == Eggs || k == Peanuts || k == TreeNuts
            || k == Soy || k == Wheat || k == Fish || k == Shellfish
  {
  }

  /** The key order lists each of the eight keys exactly once. */
  lemma AllKeysEnumerates()
    ensures |AllKeys| == 8
    ensures forall k :: k in AllKeys
    ensures forall i, j :: 0 <= i < j < |AllKeys| ==> AllKeys[i] != AllKeys[j]
  {
    forall k ensures k in AllKeys {
      match k
      case Milk => assert AllKeys[0] == k;
      case Eggs => assert AllKeys[1] == k;
      case Peanuts => assert AllKeys[2] == k;
      case TreeNuts => assert AllKeys[3] == k;
      case Soy => assert AllKeys[4] == k;
      case Wheat => assert AllKeys[5] == k;
      case Fish => assert AllKeys[6] == k;
      case Shellfish => assert AllKeys[7] == k;
    }
  }

  /** The record viewed as a JavaScript object: exactly the eight keys, each with its status. */
  function Entries(m: AllergenMap): (r: map<AllergenKey, AllergenStatus>)
    ensures forall k :: k in r && r[k] == Get(m, k)
    ensures |r| == 8
  {
    var r := map[Milk := m.milk, Eggs := m.eggs, Peanuts := m.peanuts, TreeNuts := m.treeNuts,
                 Soy := m.soy, Wheat := m.wheat, Fish := m.fish, Shellfish := m.shellfish];
    assert forall k :: k in r && r[k] == Get(m, k) by {
      forall k ensures k in r && r[k] == Get(m, k) {
        KeyCase(k);
      }
    }
    r
  }

  /** No key is left `Unknown`. */
  predicate IsClassified(m: AllergenMap) {
    forall k :: Get(m, k) != Unknown
  }
}
