/**
 * The allergen classifier of services/foodService.ts (`parseAllergens`).
 *
 * The classifier runs three passes over a map that starts with every key
 * `Unknown`: declared allergen tags mark keys `Present`, trace tags mark keys
 * that are still `Unknown` as `MayContain`, and finally every key still
 * `Unknown` is decided from the lower-cased ingredients text. Matching is
 * substring search for any of a key's keywords; tags are searched as given,
 * the ingredients text after lower-casing.
 */
module Allergens {
  import opened Text
  import opened Products

  /** The keywords that reveal each allergen. */
  function Keywords(k: AllergenKey): seq<string> {
    match k
    case Milk => ["milk", "dairy", "lactose", "cream", "butter", "cheese"]
    case Eggs => ["eggs", "egg"]
    case Peanuts => ["peanuts", "peanut"]
    case TreeNuts => ["nuts", "almonds", "walnuts", "cashews", "hazelnuts"]
    case Soy => ["soy", "soya"]
    case Wheat => ["wheat", "gluten"]
    case Fish => ["fish"]
    case Shellfish => ["shellfish", "crustaceans", "molluscs"]
  }

  /** Every keyword has at least three letters, all of them lower case. */
  lemma KeywordsAreLowerCase(k: AllergenKey, i: int)
    requires 0 <= i < |Keywords(k)|
    ensures |Keywords(k)[i]| >= 3
    ensures forall j :: 0 <= j < |Keywords(k)[i]| ==> 'a' <= Keywords(k)[i][j] <= 'z'
  {
  }

  /** Some keyword of `k` is a substring of `text`. */
  predicate Mentions(text: string, k: AllergenKey) {
    exists i :: 0 <= i < |Keywords(k)| && Contains(text, Keywords(k)[i])
  }

  /** Some text of `texts` mentions `k`. */
  predicate AnyMentions(texts: seq<string>, k: AllergenKey) {
    exists i :: 0 <= i < |texts| && Mentions(texts[i], k)
  }

  /**
   * The status the classifier is meant to give `k`, read off the inputs
   * directly: declared beats trace, trace beats the ingredients text.
   */
  function ExpectedStatus(tags: seq<string>, traces: seq<string>, ingredientsText: string, k: AllergenKey): AllergenStatus {
    if AnyMentions(tags, k) then Present
    else if AnyMentions(traces, k) then MayContain
    else if Mentions(Lower(ingredientsText), k) then Present
    else NotPresent
  }

  // ---------------------------------------------------------------------------
  // The three passes, as the source runs them
  // ---------------------------------------------------------------------------

  /** One declared tag against the keys in `keys`: each mentioned key becomes `Present`. */
  function MarkDeclared(m: AllergenMap, tag: string, keys: seq<AllergenKey>): AllergenMap
    decreases |keys|
  {
    if keys == [] then m
    else
      var m' := if Mentions(tag, keys[0]) then Set(m, keys[0], Present) else m;
      MarkDeclared(m', tag, keys[1..])
  }

  /** First pass: every declared tag in order. */
  function DeclaredPass(m: AllergenMap, tags: seq<string>): AllergenMap
    decreases |tags|
  {
    if tags == [] then m else DeclaredPass(MarkDeclared(m, tags[0], AllKeys), tags[1..])
  }

  /** One trace tag: each mentioned key that is still `Unknown` becomes `MayContain`. */
  function MarkTrace(m: AllergenMap, trace: string, keys: seq<AllergenKey>): AllergenMap
    decreases |keys|
  {
    if keys == [] then m
    else
      var k := keys[0];
      var m' := if Mentions(trace, k) && Get(m, k) == Unknown then Set(m, k, MayContain) else m;
      MarkTrace(m', trace, keys[1..])
  }

  /** Second pass: every trace tag in order. */
  function TracePass(m: AllergenMap, traces: seq<string>): AllergenMap
    decreases |traces|
  {
    if traces == [] then m else TracePass(MarkTrace(m, traces[0], AllKeys), traces[1..])
  }

  /** Third pass: each key still `Unknown` is `Present` if the text mentions it, else `NotPresent`. */
  function IngredientsPass(m: AllergenMap, lowered: string, keys: seq<AllergenKey>): AllergenMap
    decreases |keys|
  {
    if keys == [] then m
    else
      var k := keys[0];
      var m' := if Get(m, k) != Unknown then m
                else if Mentions(lowered, k) then Set(m, k, Present)
                else Set(m, k, NotPresent);
      IngredientsPass(m', lowered, keys[1..])
  }

  // ---------------------------------------------------------------------------
  // What each pass does to one key
  // ---------------------------------------------------------------------------

  lemma {:induction false} MarkDeclaredEffect(m: AllergenMap, tag: string, keys: seq<AllergenKey>, k: AllergenKey)
    ensures Get(MarkDeclared(m, tag, keys), k) == if k in keys && Mentions(tag, k) then Present else Get(m, k)
    decreases |keys|
  {
    if keys != [] {
      var m' := if Mentions(tag, keys[0]) then Set(m, keys[0], Present) else m;
      MarkDeclaredEffect(m', tag, keys[1..], k);
      assert k in keys <==> k == keys[0] || k in keys[1..];
    }
  }

  /** After the first pass a key is `Present` exactly when some tag mentions it; otherwise it is untouched. */
  lemma {:induction false} DeclaredPassEffect(m: AllergenMap, tags: seq<string>, k: AllergenKey)
    ensures Get(DeclaredPass(m, tags), k) == if AnyMentions(tags, k) then Present else Get(m, k)
    decreases |tags|
  {
    if tags != [] {
      var m' := MarkDeclared(m, tags[0], AllKeys);
      MarkDeclaredEffect(m, tags[0], AllKeys, k);
      AllKeysEnumerates();
      DeclaredPassEffect(m', tags[1..], k);
      AnyMentionsCons(tags, k);
    }
  }

  lemma {:induction false} MarkTraceEffect(m: AllergenMap, trace: string, keys: seq<AllergenKey>, k: AllergenKey)
    ensures Get(MarkTrace(m, trace, keys), k) ==
            if k in keys && Mentions(trace, k) && Get(m, k) == Unknown then MayContain else Get(m, k)
    decreases |keys|
  {
    if keys != [] {
      var k0 := keys[0];
      var m' := if Mentions(trace, k0) && Get(m, k0) == Unknown then Set(m, k0, MayContain) else m;
      MarkTraceEffect(m', trace, keys[1..], k);
      assert k in keys <==> k == k0 || k in keys[1..];
    }
  }

  /** The second pass only turns `Unknown` into `MayContain`, and does so exactly when a trace mentions the key. */
  lemma {:induction false} TracePassEffect(m: AllergenMap, traces: seq<string>, k: AllergenKey)
    ensures Get(TracePass(m, traces), k) ==
            if AnyMentions(traces, k) && Get(m, k) == Unknown then MayContain else Get(m, k)
    decreases |traces|
  {
    if traces != [] {
      var m' := MarkTrace(m, traces[0], AllKeys);
      MarkTraceEffect(m, traces[0], AllKeys, k);
      AllKeysEnumerates();
      TracePassEffect(m', traces[1..], k);
      AnyMentionsCons(traces, k);
    }
  }

  /** The third pass decides every `Unknown` key in `keys` from the text and leaves the rest alone. */
  lemma {:induction false} IngredientsPassEffect(m: AllergenMap, lowered: string, keys: seq<AllergenKey>, k: AllergenKey)
    ensures Get(IngredientsPass(m, lowered, keys), k) ==
            if k in keys && Get(m, k) == Unknown then (if Mentions(lowered, k) then Present else NotPresent)
            else Get(m, k)
    decreases |keys|
  {
    if keys != [] {
      var k0 := keys[0];
      var m' := if Get(m, k0) != Unknown then m
                else if Mentions(lowered, k0) then Set(m, k0, Present)
                else Set(m, k0, NotPresent);
      IngredientsPassEffect(m', lowered, keys[1..], k);
      assert k in keys <==> k == k0 || k in keys[1..];
    }
  }

  lemma AnyMentionsCons(texts: seq<string>, k: AllergenKey)
    requires texts != []
    ensures AnyMentions(texts, k) <==> Mentions(texts[0], k) || AnyMentions(texts[1..], k)
  {
    if AnyMentions(texts, k) {
      var i :| 0 <= i < |texts| && Mentions(texts[i], k);
      if i > 0 {
        assert texts[1..][i - 1] == texts[i];
      }
    }
    if AnyMentions(texts[1..], k) {
      var i :| 0 <= i < |texts[1..]| && Mentions(texts[1..][i], k);
      assert texts[i + 1] == texts[1..][i];
    }
  }

  // ---------------------------------------------------------------------------
  // The classifier
  // ---------------------------------------------------------------------------

  /**
   * `parseAllergens(allergensArray, tracesArray, ingredientsText)`: the
   * three passes in sequence agree, key by key, with `ExpectedStatus`.
   */
  function ParseAllergens(tags: seq<string>, traces: seq<string>, ingredientsText: string): (r: AllergenMap)
    ensures forall k :: Get(r, k) == ExpectedStatus(tags, traces, ingredientsText, k)
  {
    var declared := DeclaredPass(Uniform(Unknown), tags);
    var traced := TracePass(declared, traces);
    var lowered := Lower(ingredientsText);
    assert forall k :: Get(IngredientsPass(traced, lowered, AllKeys), k) == ExpectedStatus(tags, traces, ingredientsText, k) by {
      forall k ensures Get(IngredientsPass(traced, lowered, AllKeys), k) == ExpectedStatus(tags, traces, ingredientsText, k) {
        DeclaredPassEffect(Uniform(Unknown), tags, k);
        TracePassEffect(declared, traces, k);
        AllKeysEnumerates();
        IngredientsPassEffect(traced, lowered, AllKeys, k);
      }
    }
    IngredientsPass(traced, lowered, AllKeys)
  }

  // ---------------------------------------------------------------------------
  // Consequences
  // ---------------------------------------------------------------------------

  /** The result is total and decided: no key is left `Unknown`, and the object has exactly eight keys. */
  lemma ParseAllergensDecidesEveryKey(tags: seq<string>, traces: seq<string>, ingredientsText: string)
    ensures IsClassified(ParseAllergens(tags, traces, ingredientsText))
    ensures |Entries(ParseAllergens(tags, traces, ingredientsText))| == 8
  {
  }

  /** `Present` exactly when a declared tag mentions the key, or nothing but the ingredients text does. */
  lemma PresentIff(tags: seq<string>, traces: seq<string>, ingredientsText: string, k: AllergenKey)
    ensures Get(ParseAllergens(tags, traces, ingredientsText), k) == Present <==>
            AnyMentions(tags, k) || (!AnyMentions(traces, k) && Mentions(Lower(ingredientsText), k))
  {
  }

  /** `MayContain` exactly when a trace tag mentions the key and no declared tag does. */
  lemma MayContainIff(tags: seq<string>, traces: seq<string>, ingredientsText: string, k: AllergenKey)
    ensures Get(ParseAllergens(tags, traces, ingredientsText), k) == MayContain <==>
            AnyMentions(traces, k) && !AnyMentions(tags, k)
  {
  }

  /** `NotPresent` exactly when no tag, no trace and not the lower-cased text mentions the key. */
  lemma NotPresentIff(tags: seq<string>, traces: seq<string>, ingredientsText: string, k: AllergenKey)
    ensures Get(ParseAllergens(tags, traces, ingredientsText), k) == NotPresent <==>
            !AnyMentions(tags, k) && !AnyMentions(traces, k) && !Mentions(Lower(ingredientsText), k)
  {
  }

  /** The ingredients text is matched case-insensitively: lower-casing it first changes nothing. */
  lemma IngredientsCaseInsensitive(tags: seq<string>, traces: seq<string>, ingredientsText: string)
    ensures ParseAllergens(tags, traces, Lower(ingredientsText)) == ParseAllergens(tags, traces, ingredientsText)
  {
    LowerIdempotent(ingredientsText);
    Extensionality(ParseAllergens(tags, traces, Lower(ingredientsText)), ParseAllergens(tags, traces, ingredientsText));
  }

  /** Upper-case "MILK" in the ingredients text makes milk `Present`. */
  lemma UpperCaseIngredientsDetected()
    ensures Get(ParseAllergens([], [], "MILK"), Milk) == Present
  {
    assert Lower("MILK") == "milk";
    assert Contains("milk", Keywords(Milk)[0]);
  }

  /** A text without lower-case letters mentions no allergen: every keyword is lower case. */
  lemma NoLowerCaseNoMention(text: string, k: AllergenKey)
    requires forall i :: 0 <= i < |text| ==> !('a' <= text[i] <= 'z')
    ensures !Mentions(text, k)
  {
    forall i | 0 <= i < |Keywords(k)| ensures !Contains(text, Keywords(k)[i]) {
      KeywordsAreLowerCase(k, i);
      MissingFirstChar(text, Keywords(k)[i]);
    }
  }

  predicate IsLowerLetter(c: char) {
    'a' <= c <= 'z'
  }

  /** No three consecutive characters of `text` are all lower-case letters. */
  predicate ShortLowerRuns(text: string) {
    forall i :: 0 <= i && i + 2 < |text| ==>
      !(IsLowerLetter(text[i]) && IsLowerLetter(text[i + 1]) && IsLowerLetter(text[i + 2]))
  }

  /** A word of three or more lower-case letters is not found in a text with only short lower-case runs. */
  lemma ShortRunsMissWord(text: string, w: string)
    requires ShortLowerRuns(text)
    requires |w| >= 3 && forall j :: 0 <= j < |w| ==> IsLowerLetter(w[j])
    ensures !Contains(text, w)
  {
    forall i ensures !OccursAt(text, w, i) {
      if 0 <= i && i + |w| <= |text| {
        var window := text[i..i + |w|];
        if !IsLowerLetter(text[i]) {
          assert window[0] != w[0];
        } else if !IsLowerLetter(text[i + 1]) {
          assert window[1] != w[1];
        } else {
          assert window[2] != w[2];
        }
      }
    }
    ContainsIff(text, w);
  }

  /** A text whose lower-case runs are all shorter than three letters mentions no allergen. */
  lemma ShortLowerRunsNoMention(text: string, k: AllergenKey)
    requires ShortLowerRuns(text)
    ensures !Mentions(text, k)
  {
    forall i | 0 <= i < |Keywords(k)| ensures !Contains(text, Keywords(k)[i]) {
      KeywordsAreLowerCase(k, i);
      ShortRunsMissWord(text, Keywords(k)[i]);
    }
  }

  /**
   * Tags are not lower-cased: a tag whose lower-case runs are shorter than
   * every keyword, such as "en:MILK", alone leaves every key `NotPresent`.
   */
  lemma UpperCaseTagIgnored(tag: string, k: AllergenKey)
    requires ShortLowerRuns(tag)
    ensures Get(ParseAllergens([tag], [], ""), k) == NotPresent
  {
    ShortLowerRunsNoMention(tag, k);
    NoLowerCaseNoMention(Lower(""), k);
    assert forall i :: 0 <= i < |[tag]| ==> [tag][i] == tag;
  }

  /** A language-prefixed tag "en:" + `u` with `u` free of lower-case letters is ignored. */
  lemma LanguagePrefixedTagIgnored(u: string, k: AllergenKey)
    requires forall i :: 0 <= i < |u| ==> !IsLowerLetter(u[i])
    ensures Get(ParseAllergens(["en:" + u], [], ""), k) == NotPresent
  {
    var tag := "en:" + u;
    forall j | 2 <= j < |tag| ensures !IsLowerLetter(tag[j]) {
      if j > 2 {
        assert tag[j] == u[j - 3];
      }
    }
    assert ShortLowerRuns(tag);
    UpperCaseTagIgnored(tag, k);
  }

  /** The tag "en:MILK" does not make milk `Present`: only lower-case tags match. */
  lemma EnMilkTagIgnored()
    ensures Get(ParseAllergens(["en:MILK"], [], ""), Milk) == NotPresent
  {
    assert "en:" + "MILK" == "en:MILK";
    LanguagePrefixedTagIgnored("MILK", Milk);
  }

  /** `text` containing `word` mentions every key that has a keyword inside `word`. */
  lemma MentionsThroughWord(text: string, word: string, k: AllergenKey, i: nat)
    requires Contains(text, word)
    requires i < |Keywords(k)| && Contains(word, Keywords(k)[i])
    ensures Mentions(text, k)
  {
    ContainsTransitive(text, word, Keywords(k)[i]);
  }

  /** A declared tag containing "peanuts" also declares tree nuts, since it contains "nuts". */
  lemma PeanutsTagCascades(tags: seq<string>, traces: seq<string>, ingredientsText: string, j: nat)
    requires j < |tags| && Contains(tags[j], "peanuts")
    ensures Get(ParseAllergens(tags, traces, ingredientsText), Peanuts) == Present
    ensures Get(ParseAllergens(tags, traces, ingredientsText), TreeNuts) == Present
  {
    assert StartsWith("peanuts", "peanuts");
    MentionsThroughWord(tags[j], "peanuts", Peanuts, 0);
    assert Contains("peanuts", "nuts") by {
      ContainsIff("peanuts", "nuts");
      assert OccursAt("peanuts", "nuts", 3);
    }
    MentionsThroughWord(tags[j], "peanuts", TreeNuts, 0);
  }

  /** A declared tag containing "shellfish" also declares fish, since it contains "fish". */
  lemma ShellfishTagCascades(tags: seq<string>, traces: seq<string>, ingredientsText: string, j: nat)
    requires j < |tags| && Contains(tags[j], "shellfish")
    ensures Get(ParseAllergens(tags, traces, ingredientsText), Shellfish) == Present
    ensures Get(ParseAllergens(tags, traces, ingredientsText), Fish) == Present
  {
    assert StartsWith("shellfish", "shellfish");
    MentionsThroughWord(tags[j], "shellfish", Shellfish, 0);
    assert Contains("shellfish", "fish") by {
      ContainsIff("shellfish", "fish");
      assert OccursAt("shellfish", "fish", 5);
    }
    MentionsThroughWord(tags[j], "shellfish", Fish, 0);
  }

  lemma AnyMentionsDependsOnMembers(texts: seq<string>, texts': seq<string>, k: AllergenKey)
    requires forall t :: t in texts <==> t in texts'
    ensures AnyMentions(texts, k) <==> AnyMentions(texts', k)
  {
    if AnyMentions(texts, k) {
      var i :| 0 <= i < |texts| && Mentions(texts[i], k);
      assert texts[i] in texts';
    }
    if AnyMentions(texts', k) {
      var i :| 0 <= i < |texts'| && Mentions(texts'[i], k);
      assert texts'[i] in texts;
    }
  }

  /**
   * Only which tags and traces occur matters: their order, and how often each
   * is repeated, do not affect the outcome.
   */
  lemma TagOrderIrrelevant(tags: seq<string>, tags': seq<string>, traces: seq<string>, traces': seq<string>, ingredientsText: string)
    requires forall t :: t in tags <==> t in tags'
    requires forall t :: t in traces <==> t in traces'
    ensures ParseAllergens(tags, traces, ingredientsText) == ParseAllergens(tags', traces', ingredientsText)
  {
    forall k ensures Get(ParseAllergens(tags, traces, ingredientsText), k) == Get(ParseAllergens(tags', traces', ingredientsText), k) {
      AnyMentionsDependsOnMembers(tags, tags', k);
      AnyMentionsDependsOnMembers(traces, traces', k);
    }
    Extensionality(ParseAllergens(tags, traces, ingredientsText), ParseAllergens(tags', traces', ingredientsText));
  }
}
