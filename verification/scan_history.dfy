/**
 * The scan history of services/storageService.ts: a most-recent-first list
 * of products, unique by barcode and capped in length, kept in one storage
 * slot.
 */
module ScanHistory {
  import opened Wrappers
  import opened Products

  /** The history never holds more than this many products. */
  const MaxHistoryItems: nat := 50

  // ---------------------------------------------------------------------------
  // The list transformation
  // ---------------------------------------------------------------------------

  /** `a` is `b` with some elements left out, the rest in the same order. */
  predicate IsSubsequence<T(==)>(a: seq<T>, b: seq<T>)
    decreases |b|
  {
    a == [] || (b != [] && if a[0] == b[0] then IsSubsequence(a[1..], b[1..]) else IsSubsequence(a, b[1..]))
  }

  /** Number of entries of `history` carrying `barcode`. */
  function Occurrences(history: seq<Product>, barcode: string): nat
    decreases |history|
  {
    if history == [] then 0
    else (if history[0].barcode == barcode then 1 else 0) + Occurrences(history[1..], barcode)
  }

  /** No barcode appears twice. */
  predicate UniqueBarcodes(history: seq<Product>) {
    forall i, j :: 0 <= i < j < |history| ==> history[i].barcode != history[j].barcode
  }

  /** `history.filter(item => item.barcode !== barcode)`. */
  function WithoutBarcode(history: seq<Product>, barcode: string): (r: seq<Product>)
    ensures forall i :: 0 <= i < |r| ==> r[i].barcode != barcode
    ensures forall p :: p in r <==> p in history && p.barcode != barcode
    ensures |r| == |history| - Occurrences(history, barcode)
    ensures IsSubsequence(r, history)
    decreases |history|
  {
    if history == [] then []
    else
      var rest := WithoutBarcode(history[1..], barcode);
      assert forall p :: p in history <==> p == history[0] || p in history[1..];
      if history[0].barcode == barcode then
        SubsequenceOfTail(rest, history);
        rest
      else
        assert ([history[0]] + rest)[1..] == rest;
        [history[0]] + rest
  }

  lemma {:induction false} SubsequenceOfTail<T>(a: seq<T>, b: seq<T>)
    requires b != [] && IsSubsequence(a, b[1..])
    ensures IsSubsequence(a, b)
    decreases |b|, 0
  {
    if a != [] && a[0] == b[0] {
      SubsequenceDropFirst(a, b[1..]);
    }
  }

  lemma {:induction false} SubsequenceDropFirst<T>(a: seq<T>, b: seq<T>)
    requires a != [] && IsSubsequence(a, b)
    ensures IsSubsequence(a[1..], b)
    decreases |b|, 1
  {
    if a[0] == b[0] {
      SubsequenceOfTail(a[1..], b);
    } else {
      SubsequenceDropFirst(a, b[1..]);
      SubsequenceOfTail(a[1..], b);
    }
  }

  lemma {:induction false} SubsequencePrefix<T>(a: seq<T>, b: seq<T>, n: nat)
    requires IsSubsequence(a, b) && n <= |a|
    ensures IsSubsequence(a[..n], b)
    decreases |b|
  {
    if n > 0 {
      if a[0] == b[0] {
        SubsequencePrefix(a[1..], b[1..], n - 1);
        assert a[..n][1..] == a[1..][..n - 1];
      } else {
        SubsequencePrefix(a, b[1..], n);
      }
    }
  }

  /**
   * The history after scanning `product`: older entries with the same
   * barcode removed, `product` put first, the list cut to `MaxHistoryItems`.
   */
  function AddToHistory(history: seq<Product>, product: Product): (r: seq<Product>)
    ensures 1 <= |r| <= MaxHistoryItems
    ensures r[0] == product
    ensures forall i :: 1 <= i < |r| ==> r[i].barcode != product.barcode
    ensures IsSubsequence(r[1..], history)
    ensures |r| == if 1 + |history| - Occurrences(history, product.barcode) <= MaxHistoryItems
                   then 1 + |history| - Occurrences(history, product.barcode)
                   else MaxHistoryItems
  {
    var kept := WithoutBarcode(history, product.barcode);
    var all := [product] + kept;
    assert all[1..] == kept;
    if |all| <= MaxHistoryItems then all
    else
      assert all[..MaxHistoryItems][1..] == kept[..MaxHistoryItems - 1];
      SubsequencePrefix(kept, history, MaxHistoryItems - 1);
      all[..MaxHistoryItems]
  }

  // ---------------------------------------------------------------------------
  // Properties of an add
  // ---------------------------------------------------------------------------

  /** Filtering out a barcode nobody carries changes nothing. */
  lemma {:induction false} WithoutAbsentBarcode(history: seq<Product>, barcode: string)
    requires forall i :: 0 <= i < |history| ==> history[i].barcode != barcode
    ensures WithoutBarcode(history, barcode) == history
    ensures Occurrences(history, barcode) == 0
    decreases |history|
  {
    if history != [] {
      WithoutAbsentBarcode(history[1..], barcode);
      assert [history[0]] + history[1..] == history;
    }
  }

  /** Filtering cannot bring in a barcode the history did not have. */
  lemma WithoutBarcodeAvoids(history: seq<Product>, barcode: string, other: string)
    requires forall i :: 0 <= i < |history| ==> history[i].barcode != other
    ensures forall j :: 0 <= j < |WithoutBarcode(history, barcode)| ==> WithoutBarcode(history, barcode)[j].barcode != other
  {
    var r := WithoutBarcode(history, barcode);
    forall j | 0 <= j < |r| ensures r[j].barcode != other {
      assert r[j] in history;
    }
  }

  /** Filtering keeps barcodes unique. */
  lemma {:induction false} WithoutBarcodeKeepsUnique(history: seq<Product>, barcode: string)
    requires UniqueBarcodes(history)
    ensures UniqueBarcodes(WithoutBarcode(history, barcode))
    decreases |history|
  {
    if history != [] {
      var tail := history[1..];
      var rest := WithoutBarcode(tail, barcode);
      WithoutBarcodeKeepsUnique(tail, barcode);
      if history[0].barcode != barcode {
        assert forall i :: 0 <= i < |tail| ==> tail[i] == history[i + 1];
        WithoutBarcodeAvoids(tail, barcode, history[0].barcode);
        var r := [history[0]] + rest;
        assert forall j :: 1 <= j < |r| ==> r[j] == rest[j - 1];
      }
    }
  }

  /** The added product's barcode occurs exactly once afterwards. */
  lemma AddLeavesOneEntryPerBarcode(history: seq<Product>, product: Product)
    ensures Occurrences(AddToHistory(history, product), product.barcode) == 1
  {
    var r := AddToHistory(history, product);
    WithoutAbsentBarcode(r[1..], product.barcode);
  }

  /** Adding to a history with unique barcodes gives a history with unique barcodes. */
  lemma AddPreservesUniqueBarcodes(history: seq<Product>, product: Product)
    requires UniqueBarcodes(history)
    ensures UniqueBarcodes(AddToHistory(history, product))
  {
    var kept := WithoutBarcode(history, product.barcode);
    WithoutBarcodeKeepsUnique(history, product.barcode);
    var r := AddToHistory(history, product);
    assert forall j :: 1 <= j < |r| ==> r[j] == kept[j - 1];
  }

  /** Everything after the new entry is the filtered old history, cut to fit. */
  lemma AddKeepsMostRecentRest(history: seq<Product>, product: Product)
    ensures var kept := WithoutBarcode(history, product.barcode);
            AddToHistory(history, product)[1..] ==
            if |kept| < MaxHistoryItems then kept else kept[..MaxHistoryItems - 1]
  {
  }

  /** Adding the same product twice in a row is the same as adding it once. */
  lemma AddIdempotent(history: seq<Product>, product: Product)
    ensures AddToHistory(AddToHistory(history, product), product) == AddToHistory(history, product)
  {
    var r := AddToHistory(history, product);
    WithoutAbsentBarcode(r[1..], product.barcode);
    assert r == [r[0]] + r[1..];
    assert WithoutBarcode(r, product.barcode) == WithoutBarcode(r[1..], product.barcode);
  }

  /** A new barcode on a full history pushes out the oldest entry and keeps the rest in order. */
  lemma AddToFullHistoryDropsOldest(history: seq<Product>, product: Product)
    requires |history| == MaxHistoryItems
    requires forall i :: 0 <= i < |history| ==> history[i].barcode != product.barcode
    ensures AddToHistory(history, product) == [product] + history[..MaxHistoryItems - 1]
  {
    WithoutAbsentBarcode(history, product.barcode);
  }

  // ---------------------------------------------------------------------------
  // The storage slot
  // ---------------------------------------------------------------------------

  /** What the slot holds: a readable list, or text that does not parse. */
  datatype Stored = Parsed(items: seq<Product>) | Malformed

  /**
   * Platform storage: either unavailable (no `window.localStorage`, or it
   * throws), or available with the history slot empty or filled.
   */
  datatype Storage = Unavailable | Available(slot: Option<Stored>)

  /** `getScanHistory()`: the stored list, or `[]` whenever there is none to read. */
  function GetScanHistory(s: Storage): seq<Product> {
    match s
    case Unavailable => []
    case Available(None) => []
    case Available(Some(Malformed)) => []
    case Available(Some(Parsed(items))) => items
  }

  /** `addToScanHistory(product)`: read, add, write back; a no-op without storage. */
  function AddToScanHistory(s: Storage, product: Product): (s': Storage)
    ensures s.Unavailable? ==> s' == s
    ensures s.Available? ==> s'.Available? && GetScanHistory(s') == AddToHistory(GetScanHistory(s), product)
    ensures s.Available? ==> GetScanHistory(s')[0] == product && |GetScanHistory(s')| <= MaxHistoryItems
  {
    match s
    case Unavailable => s
    case Available(_) => Available(Some(Parsed(AddToHistory(GetScanHistory(s), product))))
  }

  /** `clearScanHistory()`: empties the slot; a no-op without storage. */
  function ClearScanHistory(s: Storage): (s': Storage)
    ensures GetScanHistory(s') == []
    ensures s.Unavailable? <==> s'.Unavailable?
    ensures s.Available? ==> s'.slot.None?
  {
    match s
    case Unavailable => s
    case Available(_) => Available(None)
  }

  /** Reading an empty slot, a malformed one, or no storage at all gives `[]`. */
  lemma ReadWithoutHistoryIsEmpty(s: Storage)
    requires s.Unavailable? || s.slot.None? || s.slot.value.Malformed?
    ensures GetScanHistory(s) == []
  {
  }

  /** After a clear, the history reads as empty. */
  lemma ReadAfterClearIsEmpty(s: Storage)
    ensures GetScanHistory(ClearScanHistory(s)) == []
  {
  }

  /** Storing the same product twice in a row leaves the same storage as storing it once. */
  lemma StoreTwiceSameAsOnce(s: Storage, product: Product)
    ensures AddToScanHistory(AddToScanHistory(s, product), product) == AddToScanHistory(s, product)
  {
    if s.Available? {
      AddIdempotent(GetScanHistory(s), product);
    }
  }

  /** Unique barcodes in the stored history survive an add. */
  lemma StoreKeepsUniqueBarcodes(s: Storage, product: Product)
    requires UniqueBarcodes(GetScanHistory(s))
    ensures UniqueBarcodes(GetScanHistory(AddToScanHistory(s, product)))
  {
    if s.Available? {
      AddPreservesUniqueBarcodes(GetScanHistory(s), product);
    }
  }
}
