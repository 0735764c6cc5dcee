/**
 * A recipe record as the cocktail database returns it, and what the
 * explorer derives from one: the ordered ingredient list scanned out of the
 * fifteen numbered slots, the short instructions of a recipe card, the full
 * instructions of the detail view and the YouTube search link.
 */
module Recipe {
  import opened Wrappers
  import opened Seqs

  /** A JSON object of the API: each field holds a string or `null`. */
  type Record = map<string, Option<string>>

  /** `record.get(key)`: a missing field reads as `None`. */
  function Field(r: Record, key: string): Option<string>
  {
    if key in r then r[key] else None
  }

  /** Python truthiness of a field value: present and not the empty string. */
  predicate Truthy(v: Option<string>)
  {
    v.Some? && v.value != ""
  }

  /** `v or fallback` for a field value and a string fallback. */
  function OrElse(v: Option<string>, fallback: string): string
  {
    if Truthy(v) then v.value else fallback
  }

  /** `a or b` for two field values. */
  function Either(a: Option<string>, b: Option<string>): Option<string>
  {
    if Truthy(a) then a else b
  }

  /** The number of numbered ingredient and measure slots of a record. */
  const MaxSlots: nat := 15

  function DigitChar(d: nat): char
    requires d < 10
  {
    ('0' as int + d) as char
  }

  /** `str(n)` for a natural number. */
  function Numeral(n: nat): (s: string)
    ensures |s| >= 1
    ensures forall k :: 0 <= k < |s| ==> '0' <= s[k] <= '9'
  {
    if n < 10 then [DigitChar(n)] else Numeral(n / 10) + [DigitChar(n % 10)]
  }

  function IngredientKey(i: nat): string
  {
    "strIngredient" + Numeral(i)
  }

  function MeasureKey(i: nat): string
  {
    "strMeasure" + Numeral(i)
  }

  /** The slot numbers 1, 2, ..., n. */
  function Slots(n: nat): (s: seq<nat>)
    ensures |s| == n && forall k :: 0 <= k < n ==> s[k] == k + 1
  {
    if n == 0 then [] else Slots(n - 1) + [n]
  }

  datatype Ingredient = Ingredient(name: string, measure: string)

  /**
   * What slot `i` contributes: an entry when its ingredient field is truthy
   * (even if it is only whitespace), with the measure defaulting to `""`.
   */
  function SlotEntry(r: Record): nat -> Option<Ingredient>
  {
    (i: nat) =>
      var ing := Field(r, IngredientKey(i));
      if Truthy(ing) then Some(Ingredient(ing.value, OrElse(Field(r, MeasureKey(i)), ""))) else None
  }

  /** The ingredient list of a recipe, in slot order. */
  function Ingredients(r: Record): seq<Ingredient>
  {
    FilterMap(SlotEntry(r), Slots(MaxSlots))
  }

  /** The slot numbers, in increasing order, whose ingredient is present. */
  function PresentSlots(r: Record): (slots: seq<nat>)
  {
    var ix := Hits(SlotEntry(r), Slots(MaxSlots));
    seq(|ix|, k requires 0 <= k < |ix| => ix[k] + 1)
  }

  /**
   * The scan of the numbered slots on a recipe card and in the detail view:
   * for i in 1..15 read the ingredient and the measure (or `""`), and keep
   * the pair when the ingredient is truthy.
   */
  method ExtractIngredients(r: Record) returns (items: seq<Ingredient>)
    ensures items == Ingredients(r)
  {
    items := [];
    for i: nat := 1 to MaxSlots + 1
      invariant items == FilterMap(SlotEntry(r), Slots(i - 1))
    {
      var ing := Field(r, IngredientKey(i));
      var amt := OrElse(Field(r, MeasureKey(i)), "");
      FilterMapSnoc(SlotEntry(r), Slots(i - 1), i);
      if Truthy(ing) {
        items := items + [Ingredient(ing.value, amt)];
      }
    }
  }

  /**
   * One entry per present slot, in increasing slot order, each carrying
   * that slot's ingredient and its measure or `""`; a slot is present
   * exactly when its ingredient field is truthy.
   */
  lemma IngredientsFollowSlots(r: Record)
    ensures |Ingredients(r)| == |PresentSlots(r)| <= MaxSlots
    ensures forall k :: 0 <= k < |PresentSlots(r)| ==>
      var i := PresentSlots(r)[k];
      && 1 <= i <= MaxSlots
      && Truthy(Field(r, IngredientKey(i)))
      && Ingredients(r)[k] == Ingredient(Field(r, IngredientKey(i)).value, OrElse(Field(r, MeasureKey(i)), ""))
    ensures forall k, l :: 0 <= k < l < |PresentSlots(r)| ==> PresentSlots(r)[k] < PresentSlots(r)[l]
    ensures forall i :: 1 <= i <= MaxSlots ==> (Truthy(Field(r, IngredientKey(i))) <==> i in PresentSlots(r))
  {
    var f, slots := SlotEntry(r), Slots(MaxSlots);
    var ix := Hits(f, slots);
    FilterMapSelects(f, slots);
    forall i | 1 <= i <= MaxSlots
      ensures Truthy(Field(r, IngredientKey(i))) <==> i in PresentSlots(r)
    {
      assert slots[i - 1] == i;
      if i - 1 in ix {
        var k :| 0 <= k < |ix| && ix[k] == i - 1;
        assert PresentSlots(r)[k] == i;
      }
      if i in PresentSlots(r) {
        var k :| 0 <= k < |ix| && PresentSlots(r)[k] == i;
        assert ix[k] == i - 1;
      }
    }
  }

  // ----- Instructions -----

  const InstructionsKey := "strInstructions"
  const NoInstructions := "No instructions"
  const SummaryLimit: nat := 500
  const Ellipsis := "..."

  /**
   * The short form shown on a recipe card: a string shorter than the limit
   * is kept whole; any other, even one of exactly the limit, is cut to its
   * first 500 characters followed by "...".
   */
  function Truncate(s: string): (t: string)
    ensures |s| < SummaryLimit ==> t == s
    ensures |s| >= SummaryLimit ==> |t| == SummaryLimit + |Ellipsis|
    ensures |s| >= SummaryLimit ==> t[..SummaryLimit] == s[..SummaryLimit] && t[SummaryLimit..] == Ellipsis
  {
    if |s| < SummaryLimit then s else s[..SummaryLimit] + Ellipsis
  }

  /** The card's instruction summary: missing or empty instructions read "No instructions". */
  function Summary(r: Record): (t: string)
    ensures !Truthy(Field(r, InstructionsKey)) ==> t == NoInstructions
    ensures Truthy(Field(r, InstructionsKey)) ==> t == Truncate(Field(r, InstructionsKey).value)
  {
    Truncate(OrElse(Field(r, InstructionsKey), NoInstructions))
  }

  /** Truncation is a prefix of the original followed at most by the marker, and is idempotent. */
  lemma TruncateIdempotent(s: string)
    ensures |Truncate(s)| <= SummaryLimit + |Ellipsis|
    ensures Truncate(Truncate(s)) == Truncate(s)
  {
    if |s| >= SummaryLimit {
      var t := Truncate(s);
      assert t[..SummaryLimit] == s[..SummaryLimit];
      assert Truncate(t) == t[..SummaryLimit] + Ellipsis;
    }
  }

  /** Instructions of 600 characters give 500 of them plus the marker, 503 in all. */
  lemma SummaryOfLongInstructions(r: Record, text: string)
    requires Field(r, InstructionsKey) == Some(text) && |text| == 600
    ensures Summary(r) == text[..500] + "..." && |Summary(r)| == 503
  {
  }

  /** The detail view shows the instructions in full, falling back to "instructions", then to a fixed text. */
  function FullInstructions(r: Record): (t: string)
    ensures Truthy(Field(r, InstructionsKey)) ==> t == Field(r, InstructionsKey).value
    ensures !Truthy(Field(r, InstructionsKey)) && Truthy(Field(r, "instructions")) ==> t == Field(r, "instructions").value
    ensures !Truthy(Field(r, InstructionsKey)) && !Truthy(Field(r, "instructions")) ==> t == "No instructions available."
  {
    OrElse(Either(Field(r, InstructionsKey), Field(r, "instructions")), "No instructions available.")
  }

  // ----- YouTube link -----

  const YoutubeResultsPrefix := "https://www.youtube.com/results?search_query="

  /** `f"{v}"` for a field value: a missing one prints as "None". */
  function Format(v: Option<string>): string
  {
    match v
    case Some(s) => s
    case None => "None"
  }

  /**
   * The YouTube search link for a title: the fixed results-page prefix
   * followed by the form-encoding of "<title> recipe". The encoder
   * (`quote_plus`) is a library routine and is a parameter here.
   */
  function YoutubeSearchLink(title: Option<string>, quotePlus: string -> string): (url: string)
    ensures |url| >= |YoutubeResultsPrefix| && url[..|YoutubeResultsPrefix|] == YoutubeResultsPrefix
    ensures url[|YoutubeResultsPrefix|..] == quotePlus(Format(title) + " recipe")
  {
    YoutubeResultsPrefix + quotePlus(Format(title) + " recipe")
  }
}
