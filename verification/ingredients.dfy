/** The ingredient-list parser of services/foodService.ts (`parseIngredients`). */
module Ingredients {
  import opened Text

  /** At most this many ingredients are kept. */
  const MaxIngredients: nat := 20

  /** Trims every piece and drops the ones left empty, keeping the order. */
  function Clean(parts: seq<string>): (r: seq<string>)
    ensures |r| <= |parts|
    ensures forall i :: 0 <= i < |r| ==> r[i] != [] && IsTrimmed(r[i])
    ensures (forall i :: 0 <= i < |parts| ==> HasNoSeparator(parts[i])) ==>
            forall i :: 0 <= i < |r| ==> HasNoSeparator(r[i])
    decreases |parts|
  {
    if parts == [] then []
    else
      var t := Trim(parts[0]);
      TrimKeepsNoSeparator(parts[0]);
      (if t == [] then [] else [t]) + Clean(parts[1..])
  }

  lemma {:induction false} CleanAppend(a: seq<string>, b: seq<string>)
    ensures Clean(a + b) == Clean(a) + Clean(b)
    decreases |a|
  {
    if a == [] {
      assert a + b == b;
    } else {
      assert (a + b)[0] == a[0];
      assert (a + b)[1..] == a[1..] + b;
      CleanAppend(a[1..], b);
    }
  }

  /** The ingredient entries of a text, before the cap: split, trimmed, empty ones dropped. */
  function Pieces(text: string): seq<string> {
    Clean(Split(text))
  }

  /** `parseIngredients(ingredientsText)`. */
  function ParseIngredients(text: string): (r: seq<string>)
    ensures text == "" ==> r == []
    ensures |r| <= MaxIngredients
    ensures forall i :: 0 <= i < |r| ==> r[i] != [] && IsTrimmed(r[i]) && HasNoSeparator(r[i])
  {
    if text == "" then [] else Take(Pieces(text), MaxIngredients)
  }

  /** The first `n` entries of `s`, or all of them when there are fewer: `s.slice(0, n)`. */
  function Take<T>(s: seq<T>, n: nat): seq<T> {
    if |s| <= n then s else s[..n]
  }

  /** Text without separators is one entry: its trimmed form, unless that is empty. */
  lemma PiecesOfPlainText(s: string)
    requires HasNoSeparator(s)
    ensures Pieces(s) == if Trim(s) == [] then [] else [Trim(s)]
  {
    SplitPlain(s);
  }

  /** The entries on either side of a separator follow one another, in source order. */
  lemma PiecesAtSeparator(a: string, c: char, b: string)
    requires IsSeparator(c)
    ensures Pieces(a + [c] + b) == Pieces(a) + Pieces(b)
  {
    SplitAtSeparator(a, c, b);
    CleanAppend(Split(a), Split(b));
  }

  /** Non-empty text yields the first `MaxIngredients` of its entries, in order. */
  lemma ParseIngredientsTakesPrefix(text: string)
    requires text != ""
    ensures ParseIngredients(text) == Take(Pieces(text), MaxIngredients)
    ensures |Pieces(text)| <= MaxIngredients ==> ParseIngredients(text) == Pieces(text)
    ensures |Pieces(text)| > MaxIngredients ==> ParseIngredients(text) == Pieces(text)[..MaxIngredients]
  {
  }

  /** A separator-free text whose trimmed form is the non-empty `t` is exactly the entry `t`. */
  lemma PlainEntry(s: string, t: string)
    requires HasNoSeparator(s) && t != [] && IsTrimOf(t, s)
    ensures Pieces(s) == [t]
  {
    TrimUnique(s, t);
    PiecesOfPlainText(s);
  }

  lemma ExampleText()
    ensures "Sugar, Salt; Water" == "Sugar" + [','] + (" Salt" + [';'] + " Water")
  {
  }

  lemma PiecesAtTwoSeparators(a: string, c: char, b: string, c': char, d: string)
    requires IsSeparator(c) && IsSeparator(c')
    ensures Pieces(a + [c] + (b + [c'] + d)) == Pieces(a) + (Pieces(b) + Pieces(d))
  {
    PiecesAtSeparator(a, c, b + [c'] + d);
    PiecesAtSeparator(b, c', d);
  }

  lemma ExampleSplit()
    ensures Pieces("Sugar, Salt; Water") == Pieces("Sugar") + (Pieces(" Salt") + Pieces(" Water"))
  {
    ExampleText();
    PiecesAtTwoSeparators("Sugar", ',', " Salt", ';', " Water");
  }

  lemma SugarEntry()
    ensures Pieces("Sugar") == ["Sugar"]
  {
    assert TrimsTo("Sugar", 0, 5);
    PlainEntry("Sugar", "Sugar");
  }

  lemma SaltEntry()
    ensures Pieces(" Salt") == ["Salt"]
  {
    assert TrimsTo(" Salt", 1, 5);
    PlainEntry(" Salt", "Salt");
  }

  lemma WaterEntry()
    ensures Pieces(" Water") == ["Water"]
  {
    assert TrimsTo(" Water", 1, 6);
    PlainEntry(" Water", "Water");
  }

  lemma ExamplePieces()
    ensures Pieces("Sugar, Salt; Water") == ["Sugar", "Salt", "Water"]
  {
    ExampleSplit();
    SugarEntry();
    SaltEntry();
    WaterEntry();
  }

  /** `"Sugar, Salt; Water"` gives `["Sugar", "Salt", "Water"]`. */
  lemma ParseIngredientsExample()
    ensures ParseIngredients("Sugar, Salt; Water") == ["Sugar", "Salt", "Water"]
  {
    ExamplePieces();
  }
}
