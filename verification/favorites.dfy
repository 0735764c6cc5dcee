/**
 * The favorites list: `{id, title}` entries kept in the order they were
 * saved. A recipe card can save its recipe if no entry has its id yet; the
 * detail view toggles between saving and removing. Neither ever creates a
 * second entry for an id.
 */
module Favorites {
  import opened Wrappers
  import opened Seqs
  import opened Recipe

  /** One saved entry. Both fields come from `dict.get` and may be `None`. */
  datatype Favorite = Favorite(id: Option<string>, title: Option<string>)

  /** `any(f.get("id") == id for f in favs)` */
  function HasId(favs: seq<Favorite>, id: Option<string>): (b: bool)
    ensures b <==> exists k :: 0 <= k < |favs| && favs[k].id == id
  {
    if favs == [] then false
    else
      var n := |favs| - 1;
      assert forall k :: 0 <= k < n ==> favs[..n][k] == favs[k];
      HasId(favs[..n], id) || favs[n].id == id
  }

  /** The invariant the operations keep: at most one entry per id. */
  predicate UniqueIds(favs: seq<Favorite>)
  {
    forall i, j :: 0 <= i < j < |favs| ==> favs[i].id != favs[j].id
  }

  /** The list after saving `e` unless an entry with its id is already there. */
  function WithAdded(favs: seq<Favorite>, e: Favorite): seq<Favorite>
  {
    if HasId(favs, e.id) then favs else favs + [e]
  }

  function OtherId(id: Option<string>): Favorite -> bool
  {
    (f: Favorite) => f.id != id
  }

  /** `[f for f in favs if f.get("id") != id]` */
  function WithoutId(favs: seq<Favorite>, id: Option<string>): seq<Favorite>
  {
    Filter(OtherId(id), favs)
  }

  /** The detail view's button: save `e` if its id is absent, otherwise remove that id. */
  function Toggled(favs: seq<Favorite>, e: Favorite): seq<Favorite>
  {
    if HasId(favs, e.id) then WithoutId(favs, e.id) else favs + [e]
  }

  /** The entry a recipe card saves: its `idDrink` and `strDrink`. */
  function CardEntry(details: Record): Favorite
  {
    Favorite(Field(details, "idDrink"), Field(details, "strDrink"))
  }

  /**
   * The entry the detail view toggles: `idDrink or id` and `strDrink or title`,
   * so a record saved from the favorites list itself is recognised too.
   */
  function SelectedEntry(sel: Record): (e: Favorite)
    ensures Truthy(Field(sel, "idDrink")) ==> e.id == Field(sel, "idDrink")
    ensures !Truthy(Field(sel, "idDrink")) ==> e.id == Field(sel, "id")
    ensures Truthy(Field(sel, "strDrink")) ==> e.title == Field(sel, "strDrink")
    ensures !Truthy(Field(sel, "strDrink")) ==> e.title == Field(sel, "title")
  {
    Favorite(Either(Field(sel, "idDrink"), Field(sel, "id")), Either(Field(sel, "strDrink"), Field(sel, "title")))
  }

  // ----- Properties -----

  /**
   * Saving leaves the existing entries as they were, adds at most the one
   * entry `e` at the end, and afterwards the id is present.
   */
  lemma AddIfAbsentEffect(favs: seq<Favorite>, e: Favorite)
    ensures HasId(WithAdded(favs, e), e.id)
    ensures |WithAdded(favs, e)| == if HasId(favs, e.id) then |favs| else |favs| + 1
    ensures WithAdded(favs, e)[..|favs|] == favs
    ensures !HasId(favs, e.id) ==> WithAdded(favs, e)[|favs|] == e
  {
    if !HasId(favs, e.id) {
      assert (favs + [e])[|favs|] == e;
    }
  }

  /** Saving the same id twice is saving it once. */
  lemma AddIfAbsentIdempotent(favs: seq<Favorite>, e: Favorite, e': Favorite)
    requires e'.id == e.id
    ensures WithAdded(WithAdded(favs, e), e') == WithAdded(favs, e)
  {
    AddIfAbsentEffect(favs, e);
  }

  /** Saving keeps at most one entry per id. */
  lemma AddIfAbsentKeepsUnique(favs: seq<Favorite>, e: Favorite)
    requires UniqueIds(favs)
    ensures UniqueIds(WithAdded(favs, e))
  {
    if !HasId(favs, e.id) {
      var r := favs + [e];
      forall i, j | 0 <= i < j < |r|
        ensures r[i].id != r[j].id
      {
        if j == |favs| {
          assert r[i] == favs[i];
        }
      }
    }
  }

  /**
   * Removal keeps, in their original order, exactly the entries whose id
   * differs: the result is `favs` read at increasing positions, and a
   * position is kept exactly when its entry has another id.
   */
  lemma RemoveByIdSelects(favs: seq<Favorite>, id: Option<string>)
    ensures |WithoutId(favs, id)| == |Hits(Keep(OtherId(id)), favs)|
    ensures forall k :: 0 <= k < |Hits(Keep(OtherId(id)), favs)| ==>
      Hits(Keep(OtherId(id)), favs)[k] < |favs| && WithoutId(favs, id)[k] == favs[Hits(Keep(OtherId(id)), favs)[k]]
    ensures forall k, l :: 0 <= k < l < |Hits(Keep(OtherId(id)), favs)| ==>
      Hits(Keep(OtherId(id)), favs)[k] < Hits(Keep(OtherId(id)), favs)[l]
    ensures forall i :: 0 <= i < |favs| ==> (favs[i].id != id <==> i in Hits(Keep(OtherId(id)), favs))
  {
    FilterSelects(OtherId(id), favs);
  }

  /** After removal no entry has the id; removing an absent id changes nothing. */
  lemma RemoveByIdEffect(favs: seq<Favorite>, id: Option<string>)
    ensures !HasId(WithoutId(favs, id), id)
    ensures forall f :: f in WithoutId(favs, id) ==> f in favs && f.id != id
    ensures forall f :: f in favs && f.id != id ==> f in WithoutId(favs, id)
    ensures !HasId(favs, id) ==> WithoutId(favs, id) == favs
    ensures WithoutId(WithoutId(favs, id), id) == WithoutId(favs, id)
  {
    var r := WithoutId(favs, id);
    FilterMembers(OtherId(id), favs);
    forall k | 0 <= k < |r|
      ensures r[k].id != id
    {
      assert r[k] in r;
    }
    if !HasId(favs, id) {
      forall f | f in favs
        ensures OtherId(id)(f)
      {
        var k :| 0 <= k < |favs| && favs[k] == f;
      }
      FilterAll(OtherId(id), favs);
    }
    FilterIdempotent(OtherId(id), favs);
  }

  /** Removal keeps at most one entry per id. */
  lemma RemoveByIdKeepsUnique(favs: seq<Favorite>, id: Option<string>)
    requires UniqueIds(favs)
    ensures UniqueIds(WithoutId(favs, id))
  {
    RemoveByIdSelects(favs, id);
  }

  /** The toggle flips whether the id is saved, and keeps at most one entry per id. */
  lemma ToggleEffect(favs: seq<Favorite>, e: Favorite)
    ensures HasId(Toggled(favs, e), e.id) == !HasId(favs, e.id)
    ensures UniqueIds(favs) ==> UniqueIds(Toggled(favs, e))
  {
    if HasId(favs, e.id) {
      RemoveByIdEffect(favs, e.id);
      if UniqueIds(favs) {
        RemoveByIdKeepsUnique(favs, e.id);
      }
    } else {
      AddIfAbsentEffect(favs, e);
      if UniqueIds(favs) {
        AddIfAbsentKeepsUnique(favs, e);
      }
    }
  }

  /**
   * A recipe saved from its card is recognised by the detail view: both
   * take the id from `idDrink` when it is truthy, so after the card's save
   * the detail view finds that id and offers removal.
   */
  lemma CardSaveSeenByDetailView(favs: seq<Favorite>, details: Record)
    requires Truthy(Field(details, "idDrink"))
    ensures SelectedEntry(details).id == CardEntry(details).id
    ensures HasId(WithAdded(favs, CardEntry(details)), SelectedEntry(details).id)
    ensures Toggled(WithAdded(favs, CardEntry(details)), SelectedEntry(details))
      == WithoutId(WithAdded(favs, CardEntry(details)), CardEntry(details).id)
  {
    AddIfAbsentEffect(favs, CardEntry(details));
  }

  /** Toggling a recipe that was not saved, and toggling it again, restores the list. */
  lemma ToggleTwiceRestores(favs: seq<Favorite>, e: Favorite)
    requires !HasId(favs, e.id)
    ensures Toggled(Toggled(favs, e), e) == favs
  {
    AddIfAbsentEffect(favs, e);
    FilterSnoc(OtherId(e.id), favs, e);
    RemoveByIdEffect(favs, e.id);
  }

  /**
   * The favorites list of one interaction: loaded, then changed in place by
   * the card's save button or by the detail view's toggle.
   */
  class FavoriteList {
    var items: seq<Favorite>

    /** The list as loaded from the favorites file. */
    constructor (loaded: seq<Favorite>)
      ensures items == loaded
    {
      items := loaded;
    }

    /** The card's save button: append `e` unless its id is already saved. */
    method AddIfAbsent(e: Favorite) returns (added: bool)
      modifies this
      ensures added == !HasId(old(items), e.id)
      ensures items == WithAdded(old(items), e)
      ensures UniqueIds(old(items)) ==> UniqueIds(items)
    {
      added := !HasId(items, e.id);
      if UniqueIds(items) {
        AddIfAbsentKeepsUnique(items, e);
      }
      if added {
        items := items + [e];
      }
    }

    /** A recipe card's save button: save the card's `idDrink` and `strDrink` unless that id is saved. */
    method SaveFromCard(details: Record) returns (added: bool)
      modifies this
      ensures added == !HasId(old(items), Field(details, "idDrink"))
      ensures items == WithAdded(old(items), CardEntry(details))
      ensures items == old(items) + (if added then [Favorite(Field(details, "idDrink"), Field(details, "strDrink"))] else [])
      ensures UniqueIds(old(items)) ==> UniqueIds(items)
    {
      added := AddIfAbsent(CardEntry(details));
    }

    /** The detail view's button: save `e`, or remove its id when it is already saved. */
    method Toggle(e: Favorite) returns (saved: bool)
      modifies this
      ensures saved == !HasId(old(items), e.id)
      ensures items == Toggled(old(items), e)
      ensures HasId(items, e.id) == saved
      ensures UniqueIds(old(items)) ==> UniqueIds(items)
    {
      ToggleEffect(items, e);
      saved := !HasId(items, e.id);
      if saved {
        items := items + [e];
      } else {
        items := WithoutId(items, e.id);
      }
    }
  }
}
