/**
 * The shopping-list helper of the detail view: the recipe's ingredient
 * names are compared with a comma-separated list of what the user has,
 * ignoring letter case and surrounding whitespace, and the names not on
 * hand are listed in recipe order.
 */
module ShoppingList {
  import opened Wrappers
  import opened Seqs
  import opened Text
  import opened Recipe

  /** The normalised forms of the non-blank pieces, collected left to right. */
  function NormalSet(pieces: seq<string>): set<string>
  {
    if pieces == [] then {}
    else
      var last := pieces[|pieces| - 1];
      NormalSet(pieces[..|pieces| - 1]) + (if Strip(last) != [] then {Normalize(last)} else {})
  }

  /** The normalised, non-blank entries of the comma-separated "have" text. */
  function HaveSet(have: string): set<string>
  {
    NormalSet(Split(have, ','))
  }

  /** Whether a needed name is not on hand. */
  function Lacking(hs: set<string>): string -> bool
  {
    n => Normalize(n) !in hs
  }

  /** The needed names, in order, whose normalised form is not in the have-set. */
  function Missing(have: string, needed: seq<string>): seq<string>
  {
    Filter(Lacking(HaveSet(have)), needed)
  }

  /** The positions in `needed` of the names that `Missing` reports. */
  function MissingPositions(have: string, needed: seq<string>): seq<nat>
  {
    Hits(Keep(Lacking(HaveSet(have))), needed)
  }

  /** What slot `i` contributes to the list of needed names. */
  function NeededEntry(sel: Record): nat -> Option<string>
  {
    (i: nat) => var ing := Field(sel, IngredientKey(i)); if Truthy(ing) then Some(ing.value) else None
  }

  /** The recipe's needed ingredient names, in slot order. */
  function Needed(sel: Record): seq<string>
  {
    FilterMap(NeededEntry(sel), Slots(MaxSlots))
  }

  /**
   * The helper as the detail view runs it: collect the truthy ingredient
   * names of slots 1..15, then keep those not on hand.
   */
  method MissingIngredients(sel: Record, have: string) returns (missing: seq<string>)
    ensures missing == Missing(have, Needed(sel))
  {
    var needed: seq<string> := [];
    for i: nat := 1 to MaxSlots + 1
      invariant needed == FilterMap(NeededEntry(sel), Slots(i - 1))
    {
      var ing := Field(sel, IngredientKey(i));
      FilterMapSnoc(NeededEntry(sel), Slots(i - 1), i);
      if Truthy(ing) {
        needed := needed + [ing.value];
      }
    }
    missing := Missing(have, needed);
  }

  // ----- Properties -----

  lemma NormalSetSnoc(init: seq<string>, last: string)
    ensures NormalSet(init + [last]) == NormalSet(init) + (if Strip(last) != [] then {Normalize(last)} else {})
  {
    assert (init + [last])[..|init|] == init;
  }

  /** Every non-blank piece contributes its normal form. */
  lemma {:induction false} NormalSetHas(pieces: seq<string>, k: nat)
    requires k < |pieces| && Strip(pieces[k]) != []
    ensures Normalize(pieces[k]) in NormalSet(pieces)
  {
    var n := |pieces| - 1;
    if k < n {
      NormalSetHas(pieces[..n], k);
    }
  }

  /** Nothing but the normal form of a non-blank piece is collected. */
  lemma {:induction false} NormalSetFrom(pieces: seq<string>, x: string)
    requires x in NormalSet(pieces)
    ensures exists k :: 0 <= k < |pieces| && Strip(pieces[k]) != [] && x == Normalize(pieces[k])
  {
    var n := |pieces| - 1;
    if x !in NormalSet(pieces[..n]) {
      assert Strip(pieces[n]) != [] && x == Normalize(pieces[n]);
    } else {
      NormalSetFrom(pieces[..n], x);
      var k :| 0 <= k < n && Strip(pieces[..n][k]) != [] && x == Normalize(pieces[..n][k]);
      assert pieces[..n][k] == pieces[k];
    }
  }

  /** The collected set is exactly the set comprehension over the non-blank pieces. */
  lemma {:induction false} NormalSetComprehension(pieces: seq<string>)
    ensures NormalSet(pieces) == set t | t in pieces && Strip(t) != [] :: Normalize(t)
  {
    var rhs := set t | t in pieces && Strip(t) != [] :: Normalize(t);
    forall x | x in rhs
      ensures x in NormalSet(pieces)
    {
      var t :| t in pieces && Strip(t) != [] && x == Normalize(t);
      var k :| 0 <= k < |pieces| && pieces[k] == t;
      NormalSetHas(pieces, k);
    }
    forall x | x in NormalSet(pieces)
      ensures x in rhs
    {
      NormalSetFrom(pieces, x);
    }
  }

  /** Every member of the have-set is non-empty and already in normal form. */
  lemma HaveSetIsNormal(have: string)
    ensures forall x :: x in HaveSet(have) ==> x != [] && Normalize(x) == x
  {
    var ts := Split(have, ',');
    NormalSetComprehension(ts);
    forall x | x in HaveSet(have)
      ensures x != [] && Normalize(x) == x
    {
      var t :| t in ts && Strip(t) != [] && x == Normalize(t);
      NormalizeIdempotent(t);
    }
  }

  /**
   * The missing list is the subsequence of `needed` made of exactly the
   * names whose normalised form is not in the have-set: nothing is added,
   * nothing is reordered.
   */
  lemma MissingSelects(have: string, needed: seq<string>)
    ensures |Missing(have, needed)| == |MissingPositions(have, needed)| <= |needed|
    ensures forall k :: 0 <= k < |MissingPositions(have, needed)| ==>
      MissingPositions(have, needed)[k] < |needed| && Missing(have, needed)[k] == needed[MissingPositions(have, needed)[k]]
    ensures forall k, l :: 0 <= k < l < |MissingPositions(have, needed)| ==>
      MissingPositions(have, needed)[k] < MissingPositions(have, needed)[l]
    ensures forall i :: 0 <= i < |needed| ==>
      (Normalize(needed[i]) !in HaveSet(have) <==> i in MissingPositions(have, needed))
  {
    FilterSelects(Lacking(HaveSet(have)), needed);
  }

  /** With no non-blank entry in the have text, the have-set is empty and everything is missing. */
  lemma NothingOnHand(have: string, needed: seq<string>)
    requires forall t :: t in Split(have, ',') ==> AllSpace(t)
    ensures HaveSet(have) == {}
    ensures Missing(have, needed) == needed
  {
    var ts := Split(have, ',');
    NormalSetComprehension(ts);
    forall t | t in ts
      ensures Strip(t) == []
    {
      StripEmpty(t);
    }
    FilterAll(Lacking(HaveSet(have)), needed);
  }

  lemma SplitBlanks()
    ensures Split(" , ,", ',') == [" ", " ", ""]
  {
    SplitNoSeparator("", ',');
    SplitFirst(" ", ',', "");
    assert " " + [','] + "" == " ,";
    SplitFirst(" ", ',', " ,");
    assert " " + [','] + " ," == " , ,";
  }

  /** With an empty have-set every needed name is missing. */
  lemma EmptyHaveSet(have: string, needed: seq<string>)
    requires HaveSet(have) == {}
    ensures Missing(have, needed) == needed
  {
    var p := Lacking(HaveSet(have));
    forall x | x in needed
      ensures p(x)
    {
    }
    FilterAll(p, needed);
  }

  /** A blank have text without commas holds nothing. */
  lemma HaveNone(w: string)
    requires ',' !in w && Strip(w) == []
    ensures HaveSet(w) == {}
  {
    SplitNoSeparator(w, ',');
    NormalSetSnoc([], w);
    assert [] + [w] == [w];
  }

  lemma BlankHaveEmpty()
    ensures HaveSet("") == {}
  {
    HaveNone("");
  }

  lemma BlankHaveCommas()
    ensures HaveSet(" , ,") == {}
  {
    SplitBlanks();
    assert AllSpace(" ");
    StripEmpty(" ");
    NormalSetSnoc([], " ");
    assert [] + [" "] == [" "];
    NormalSetSnoc([" "], " ");
    assert [" "] + [" "] == [" ", " "];
    NormalSetSnoc([" ", " "], "");
    assert [" ", " "] + [""] == [" ", " ", ""];
  }

  /** The have text "" and the have text " , ," both leave every ingredient missing. */
  lemma BlankHaveTexts(needed: seq<string>)
    ensures Missing("", needed) == needed
    ensures Missing(" , ,", needed) == needed
  {
    BlankHaveEmpty();
    EmptyHaveSet("", needed);
    BlankHaveCommas();
    EmptyHaveSet(" , ,", needed);
  }

  /** Lower-casing every piece leaves the collected set unchanged. */
  lemma {:induction false} NormalSetLower(ts: seq<string>, us: seq<string>)
    requires |us| == |ts|
    requires forall k :: 0 <= k < |ts| ==> us[k] == Lower(ts[k])
    ensures NormalSet(us) == NormalSet(ts)
  {
    if ts != [] {
      var n := |ts| - 1;
      NormalSetLower(ts[..n], us[..n]);
      NormalizeLower(ts[n]);
    }
  }

  /** Writing the have text in other letter case changes nothing. */
  lemma HaveSetIgnoresCase(have: string)
    ensures HaveSet(Lower(have)) == HaveSet(have)
  {
    SplitLower(have);
    NormalSetLower(Split(have, ','), Split(Lower(have), ','));
  }

  /**
   * A needed name is judged as its normal form: two names that differ only
   * in letter case and surrounding whitespace are both missing or both on
   * hand.
   */
  lemma MatchIgnoresCaseAndPadding(have: string, a: string, b: string, pre: string, post: string)
    requires AllSpace(pre) && AllSpace(post)
    requires Lower(a) == Lower(b)
    ensures Lacking(HaveSet(have))(pre + a + post) == Lacking(HaveSet(have))(b)
  {
    NormalizeForgetsCaseAndPadding(a, b, pre, post);
  }

  /** A word without whitespace at its ends normalises to its letter-by-letter lower case. */
  lemma NormalWord(w: string, l: string)
    requires w != [] && !IsSpace(w[0]) && !IsSpace(w[|w| - 1])
    requires |l| == |w| && forall k :: 0 <= k < |w| ==> l[k] == LowerChar(w[k])
    ensures Normalize(w) == l
  {
    StripStripped(w);
  }

  lemma NormalVodka()
    ensures Normalize("Vodka") == "vodka"
  {
    NormalWord("Vodka", "vodka");
  }

  lemma NormalLimeBare()
    ensures Normalize("Lime") == "lime"
  {
    NormalWord("Lime", "lime");
  }

  lemma NormalLime()
    ensures Normalize(" Lime") == "lime" && Normalize("Lime") == "lime"
  {
    NormalLimeBare();
    assert AllSpace(" ") && AllSpace("");
    NormalizeForgetsCaseAndPadding("Lime", "Lime", " ", "");
    assert " " + "Lime" + "" == " Lime";
  }

  lemma NormalSoda()
    ensures Normalize("Soda") == "soda"
  {
    NormalWord("Soda", "soda");
  }

  lemma NormalGinUpper()
    ensures Normalize("GIN") == "gin"
  {
    NormalWord("GIN", "gin");
  }

  lemma NormalGin()
    ensures Normalize("GIN") == "gin" && Normalize("gin") == "gin"
  {
    NormalGinUpper();
    NormalizeIdempotent("GIN");
  }

  lemma SplitVodkaLime()
    ensures Split("Vodka, Lime", ',') == ["Vodka", " Lime"]
  {
    SplitNoSeparator(" Lime", ',');
    SplitFirst("Vodka", ',', " Lime");
    assert "Vodka" + [','] + " Lime" == "Vodka, Lime";
  }

  lemma HaveVodkaLime()
    ensures HaveSet("Vodka, Lime") == {"vodka", "lime"}
  {
    SplitVodkaLime();
    NormalVodka();
    NormalLime();
    NormalSetSnoc([], "Vodka");
    assert [] + ["Vodka"] == ["Vodka"];
    NormalSetSnoc(["Vodka"], " Lime");
    assert ["Vodka"] + [" Lime"] == ["Vodka", " Lime"];
    assert |Lower(Strip("Vodka"))| == 5 && |Lower(Strip(" Lime"))| == 4;
  }

  lemma SodaNotOnHand()
    ensures Lacking({"vodka", "lime"})("Soda")
  {
    NormalSoda();
    assert "soda" != "vodka" by { assert "soda"[0] != "vodka"[0]; }
    assert "soda" != "lime" by { assert "soda"[0] != "lime"[0]; }
  }

  lemma VodkaLimeOnHand()
    ensures !Lacking({"vodka", "lime"})("Vodka") && !Lacking({"vodka", "lime"})("Lime")
  {
    NormalVodka();
    NormalLime();
  }

  lemma KeepOnlySoda(p: string -> bool)
    requires !p("Vodka") && !p("Lime") && p("Soda")
    ensures Filter(p, ["Vodka", "Lime", "Soda"]) == ["Soda"]
  {
    FilterSnoc(p, [], "Vodka");
    assert [] + ["Vodka"] == ["Vodka"];
    FilterSnoc(p, ["Vodka"], "Lime");
    assert ["Vodka"] + ["Lime"] == ["Vodka", "Lime"];
    FilterSnoc(p, ["Vodka", "Lime"], "Soda");
    assert ["Vodka", "Lime"] + ["Soda"] == ["Vodka", "Lime", "Soda"];
  }

  /** An example of app.py:218-219: "Vodka, Lime" against Vodka, Lime, Soda leaves Soda. */
  lemma MissingVodkaLimeSoda()
    ensures Missing("Vodka, Lime", ["Vodka", "Lime", "Soda"]) == ["Soda"]
  {
    HaveVodkaLime();
    SodaNotOnHand();
    VodkaLimeOnHand();
    KeepOnlySoda(Lacking({"vodka", "lime"}));
  }

  /** A have text without commas holds just its own normal form, when it is not blank. */
  lemma HaveSingle(w: string)
    requires ',' !in w && Strip(w) != []
    ensures HaveSet(w) == {Normalize(w)}
  {
    SplitNoSeparator(w, ',');
    NormalSetSnoc([], w);
    assert [] + [w] == [w];
  }

  lemma HaveGin()
    ensures HaveSet("GIN") == {"gin"}
  {
    NormalGinUpper();
    StripStripped("GIN");
    HaveSingle("GIN");
  }

  /** Two more examples of app.py:218-219: nothing on hand, and a match that differs only in case. */
  lemma MissingGinExamples()
    ensures Missing("", ["Gin"]) == ["Gin"]
    ensures Missing("GIN", ["gin"]) == []
  {
    BlankHaveTexts(["Gin"]);
    HaveGin();
    NormalGin();
    FilterSnoc(Lacking({"gin"}), [], "gin");
  }

  /** The names of a list of ingredients, in order. */
  function Names(items: seq<Ingredient>): (r: seq<string>)
    ensures |r| == |items|
  {
    seq(|items|, k requires 0 <= k < |items| => items[k].name)
  }

  /** The helper lists the same names, in the same order, as the ingredient list shows. */
  lemma {:induction false} NeededAreIngredientNames(sel: Record, n: nat)
    ensures FilterMap(NeededEntry(sel), Slots(n)) == Names(FilterMap(SlotEntry(sel), Slots(n)))
  {
    if n > 0 {
      NeededAreIngredientNames(sel, n - 1);
      assert Slots(n) == Slots(n - 1) + [n];
      NeededStep(sel, Slots(n - 1), n);
    }
  }

  /** Scanning one more slot keeps the helper's names equal to the ingredient list's names. */
  lemma NeededStep(sel: Record, slots: seq<nat>, i: nat)
    requires FilterMap(NeededEntry(sel), slots) == Names(FilterMap(SlotEntry(sel), slots))
    ensures FilterMap(NeededEntry(sel), slots + [i]) == Names(FilterMap(SlotEntry(sel), slots + [i]))
  {
    FilterMapSnoc(NeededEntry(sel), slots, i);
    FilterMapSnoc(SlotEntry(sel), slots, i);
    var a, b := FilterMap(NeededEntry(sel), slots), FilterMap(SlotEntry(sel), slots);
    var ing := Field(sel, IngredientKey(i));
    if Truthy(ing) {
      var e := Ingredient(ing.value, OrElse(Field(sel, MeasureKey(i)), ""));
      assert NeededEntry(sel)(i) == Some(ing.value);
      assert SlotEntry(sel)(i) == Some(e);
      NamesSnoc(b, e);
    } else {
      assert NeededEntry(sel)(i) == None && SlotEntry(sel)(i) == None;
      assert a + [] == a && b + [] == b;
    }
  }

  lemma NamesSnoc(items: seq<Ingredient>, e: Ingredient)
    ensures Names(items + [e]) == Names(items) + [e.name]
  {
  }

  /** The names the helper compares are exactly those of the recipe's ingredient list. */
  lemma NeededMatchesIngredients(sel: Record)
    ensures Needed(sel) == Names(Ingredients(sel))
  {
    NeededAreIngredientNames(sel, MaxSlots);
  }
}
