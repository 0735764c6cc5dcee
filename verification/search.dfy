/**
 * Shaping the cocktail database's answers: the search by name, the
 * ingredient filter truncated to the requested number of candidates, the
 * lookup of one recipe by id, and the batch that resolves each candidate
 * stub to its full recipe, skipping the ones that fail.
 */
module Search {
  import opened Wrappers
  import opened Seqs
  import opened Recipe

  /**
   * What a cached fetch yields: the error marker `{"__error__": msg}` that
   * stands for any transport, status or decoding failure, or the decoded
   * body, whose `drinks` field is a list of records, `null` or absent.
   */
  datatype Response = Error(msg: string) | Ok(drinks: Option<seq<Record>>)

  const ErrorKey := "__error__"
  const IdKey := "idDrink"

  /** `data.get("drinks") or []` for a body without the error marker. */
  function Drinks(resp: Response): seq<Record>
  {
    if resp.Ok? && resp.drinks.Some? then resp.drinks.value else []
  }

  /** The search by name: the records of the answer, none on an error or a `null` list. */
  function SearchByNameFull(resp: Response): (found: seq<Record>)
    ensures resp.Error? ==> found == []
    ensures resp.Ok? && resp.drinks.None? ==> found == []
    ensures resp.Ok? && resp.drinks.Some? ==> found == resp.drinks.value
  {
    if resp.Error? then [] else Drinks(resp)
  }

  /** Python's `items[:number]`: a negative bound counts from the end. */
  function PrefixSlice<T>(items: seq<T>, number: int): seq<T>
  {
    if number >= 0 then items[..if number < |items| then number else |items|]
    else items[..if |items| + number > 0 then |items| + number else 0]
  }

  /**
   * The ingredient filter: on an error no candidates; otherwise the first
   * candidates of the answer, as many as `number` allows, in the answer's
   * order.
   */
  function SearchByIngredientIds(resp: Response, number: int): (ids: seq<Record>)
    ensures resp.Error? ==> ids == []
    ensures |ids| <= |Drinks(resp)| && ids == Drinks(resp)[..|ids|]
    ensures resp.Ok? && number >= 0 ==>
      |ids| == if number < |Drinks(resp)| then number else |Drinks(resp)|
    ensures resp.Ok? && number < 0 ==>
      |ids| == if |Drinks(resp)| + number > 0 then |Drinks(resp)| + number else 0
  {
    if resp.Error? then [] else PrefixSlice(Drinks(resp), number)
  }

  /**
   * The lookup by id: an error becomes the error marker record, a non-empty
   * answer gives its first record, and an empty or `null` one gives `None`.
   */
  function LookupFullById(resp: Response): (d: Option<Record>)
    ensures resp.Error? ==> d == Some(map[ErrorKey := Some(resp.msg)])
    ensures resp.Ok? && |Drinks(resp)| > 0 ==> d == Some(Drinks(resp)[0])
    ensures resp.Ok? && |Drinks(resp)| == 0 ==> d == None
  {
    match resp
    case Error(msg) => Some(map[ErrorKey := Some(msg)])
    case Ok(_) => if |Drinks(resp)| > 0 then Some(Drinks(resp)[0]) else None
  }

  /**
   * The batch's test of a lookup result as the source writes it: a
   * non-empty record whose `__error__` field is not truthy.
   */
  predicate AcceptedAsWritten(d: Option<Record>)
  {
    d.Some? && d.value != map[] && !Truthy(Field(d.value, ErrorKey))
  }

  /** The intended test: a non-empty record that is not an error marker. */
  predicate Accepted(d: Option<Record>)
  {
    d.Some? && d.value != map[] && ErrorKey !in d.value
  }

  /** One step of the batch: skip a stub without a truthy id, look the others up. */
  function ResolveStub(fetch: string -> Response): Record -> Option<Record>
  {
    (stub: Record) =>
      var id := Field(stub, IdKey);
      if !Truthy(id) then None
      else
        var d := LookupFullById(fetch(id.value));
        if Accepted(d) then Some(d.value) else None
  }

  function ResolveStubAsWritten(fetch: string -> Response): Record -> Option<Record>
  {
    (stub: Record) =>
      var id := Field(stub, IdKey);
      if !Truthy(id) then None
      else
        var d := LookupFullById(fetch(id.value));
        if AcceptedAsWritten(d) then Some(d.value) else None
  }

  /** The full recipes the batch collects, with the intended test. */
  function FullRecipes(stubs: seq<Record>, fetch: string -> Response): seq<Record>
  {
    FilterMap(ResolveStub(fetch), stubs)
  }

  /** The full recipes the batch collects with the test as written. */
  function FullRecipesAsWritten(stubs: seq<Record>, fetch: string -> Response): seq<Record>
  {
    FilterMap(ResolveStubAsWritten(fetch), stubs)
  }

  /** Whether a collected record is free of the error marker. */
  function Unmarked(): Record -> bool
  {
    (d: Record) => ErrorKey !in d
  }

  /**
   * The batch of the ingredient search: for each candidate in order, skip
   * it when it has no id, look it up (`fetch` is the cached lookup call),
   * and append the result when it passes the test as written. Dropping
   * the error markers it lets through leaves the intended batch.
   */
  method LoadFullRecipes(stubs: seq<Record>, fetch: string -> Response) returns (fulls: seq<Record>)
    ensures fulls == FullRecipesAsWritten(stubs, fetch)
    ensures Filter(Unmarked(), fulls) == FullRecipes(stubs, fetch)
  {
    fulls := [];
    for i := 0 to |stubs|
      invariant fulls == FilterMap(ResolveStubAsWritten(fetch), stubs[..i])
    {
      var it := stubs[i];
      assert stubs[..i + 1] == stubs[..i] + [it];
      FilterMapSnoc(ResolveStubAsWritten(fetch), stubs[..i], it);
      var dId := Field(it, IdKey);
      if !Truthy(dId) {
        continue;
      }
      var details := LookupFullById(fetch(dId.value));
      if AcceptedAsWritten(details) {
        fulls := fulls + [details.value];
      }
    }
    assert stubs[..|stubs|] == stubs;
    FullRecipesDropMarkers(stubs, fetch);
  }

  // ----- Properties -----

  /**
   * Whether a candidate resolves, stated directly on the answer: it has a
   * truthy id, and the answer for that id is a non-empty list whose first
   * record is non-empty and is no error marker.
   */
  predicate Succeeds(stub: Record, fetch: string -> Response)
  {
    var id := Field(stub, IdKey);
    && Truthy(id)
    && fetch(id.value).Ok?
    && |Drinks(fetch(id.value))| > 0
    && Drinks(fetch(id.value))[0] != map[]
    && ErrorKey !in Drinks(fetch(id.value))[0]
  }

  /**
   * The batch result follows the candidate order and holds exactly the
   * successful lookups, each the first record of its answer; so it is never
   * longer than the candidate list.
   */
  lemma FullRecipesSelect(stubs: seq<Record>, fetch: string -> Response)
    ensures |FullRecipes(stubs, fetch)| == |Hits(ResolveStub(fetch), stubs)| <= |stubs|
    ensures forall k :: 0 <= k < |Hits(ResolveStub(fetch), stubs)| ==>
      var i := Hits(ResolveStub(fetch), stubs)[k];
      && i < |stubs|
      && Succeeds(stubs[i], fetch)
      && FullRecipes(stubs, fetch)[k] == Drinks(fetch(Field(stubs[i], IdKey).value))[0]
    ensures forall k, l :: 0 <= k < l < |Hits(ResolveStub(fetch), stubs)| ==>
      Hits(ResolveStub(fetch), stubs)[k] < Hits(ResolveStub(fetch), stubs)[l]
    ensures forall i :: 0 <= i < |stubs| ==> (Succeeds(stubs[i], fetch) <==> i in Hits(ResolveStub(fetch), stubs))
  {
    FilterMapSelects(ResolveStub(fetch), stubs);
  }

  /**
   * Whether a candidate is collected by the test as written, stated directly
   * on the answer: it has a truthy id, and the answer is either an error
   * with an empty message or a non-empty list whose first record is
   * non-empty and has no truthy `__error__` field.
   */
  predicate SucceedsAsWritten(stub: Record, fetch: string -> Response)
  {
    var id := Field(stub, IdKey);
    && Truthy(id)
    && match fetch(id.value)
       case Error(msg) => msg == ""
       case Ok(_) =>
         && |Drinks(fetch(id.value))| > 0
         && Drinks(fetch(id.value))[0] != map[]
         && !Truthy(Field(Drinks(fetch(id.value))[0], ErrorKey))
  }

  /**
   * The batch as written follows the candidate order and holds exactly the
   * candidates it accepts: each the first record of its answer, or the
   * error marker of an error with an empty message.
   */
  lemma FullRecipesAsWrittenSelect(stubs: seq<Record>, fetch: string -> Response)
    ensures |FullRecipesAsWritten(stubs, fetch)| == |Hits(ResolveStubAsWritten(fetch), stubs)| <= |stubs|
    ensures forall k :: 0 <= k < |Hits(ResolveStubAsWritten(fetch), stubs)| ==>
      var i := Hits(ResolveStubAsWritten(fetch), stubs)[k];
      && i < |stubs|
      && SucceedsAsWritten(stubs[i], fetch)
      && var resp := fetch(Field(stubs[i], IdKey).value);
         FullRecipesAsWritten(stubs, fetch)[k] == if resp.Error? then map[ErrorKey := Some("")] else Drinks(resp)[0]
    ensures forall k, l :: 0 <= k < l < |Hits(ResolveStubAsWritten(fetch), stubs)| ==>
      Hits(ResolveStubAsWritten(fetch), stubs)[k] < Hits(ResolveStubAsWritten(fetch), stubs)[l]
    ensures forall i :: 0 <= i < |stubs| ==>
      (SucceedsAsWritten(stubs[i], fetch) <==> i in Hits(ResolveStubAsWritten(fetch), stubs))
  {
    var f, ix, r := ResolveStubAsWritten(fetch), Hits(ResolveStubAsWritten(fetch), stubs), FullRecipesAsWritten(stubs, fetch);
    FilterMapSelects(f, stubs);
    forall x
      ensures f(x).Some? <==> SucceedsAsWritten(x, fetch)
      ensures f(x).Some? ==>
        var resp := fetch(Field(x, IdKey).value);
        f(x).value == if resp.Error? then map[ErrorKey := Some("")] else Drinks(resp)[0]
    {
      var id := Field(x, IdKey);
      if Truthy(id) {
        var resp := fetch(id.value);
        if resp.Error? {
          var marker: Record := map[ErrorKey := Some(resp.msg)];
          assert marker != map[] by { assert ErrorKey in marker; }
          assert Field(marker, ErrorKey) == Some(resp.msg);
        }
      }
    }
    forall k | 0 <= k < |ix|
      ensures f(stubs[ix[k]]) == Some(r[k])
    {
    }
  }

  /**
   * The intended batch is the batch as written with the error markers
   * dropped; the two agree whenever no marker gets through.
   */
  lemma FullRecipesDropMarkers(stubs: seq<Record>, fetch: string -> Response)
    ensures FullRecipes(stubs, fetch) == Filter(Unmarked(), FullRecipesAsWritten(stubs, fetch))
    ensures (forall d :: d in FullRecipesAsWritten(stubs, fetch) ==> ErrorKey !in d) ==>
      FullRecipes(stubs, fetch) == FullRecipesAsWritten(stubs, fetch)
  {
    var f, g := ResolveStubAsWritten(fetch), ResolveStub(fetch);
    forall x
      ensures g(x) == (if f(x).Some? && Unmarked()(f(x).value) then f(x) else None)
    {
      var id := Field(x, IdKey);
      if Truthy(id) {
        var d := LookupFullById(fetch(id.value));
        if d.Some? && ErrorKey !in d.value {
          assert Field(d.value, ErrorKey) == None;
        }
        assert Accepted(d) <==> AcceptedAsWritten(d) && ErrorKey !in d.value;
      }
    }
    FilterMapNarrowed(f, g, Unmarked(), stubs);
    if forall d :: d in FullRecipesAsWritten(stubs, fetch) ==> ErrorKey !in d {
      FilterAll(Unmarked(), FullRecipesAsWritten(stubs, fetch));
    }
  }

  /** No error marker ever reaches the intended batch result. */
  lemma FullRecipesHaveNoErrorMarkers(stubs: seq<Record>, fetch: string -> Response)
    ensures forall d :: d in FullRecipes(stubs, fetch) ==> ErrorKey !in d && d != map[]
  {
    var r, ix := FullRecipes(stubs, fetch), Hits(ResolveStub(fetch), stubs);
    FullRecipesSelect(stubs, fetch);
    forall d | d in r
      ensures ErrorKey !in d && d != map[]
    {
      var k :| 0 <= k < |r| && r[k] == d;
      assert Succeeds(stubs[ix[k]], fetch);
    }
  }

  /**
   * The ingredient search never yields more candidates than asked for, and
   * never more full recipes than candidates.
   */
  lemma IngredientSearchBounds(resp: Response, number: int, fetch: string -> Response)
    requires number >= 0
    ensures |SearchByIngredientIds(resp, number)| <= number
    ensures |FullRecipesAsWritten(SearchByIngredientIds(resp, number), fetch)| <= |SearchByIngredientIds(resp, number)|
    ensures |FullRecipes(SearchByIngredientIds(resp, number), fetch)| <= |SearchByIngredientIds(resp, number)|
  {
  }

  /**
   * As written, an error whose message is empty passes the batch's test:
   * the marker `{"__error__": ""}` is a non-empty record and its field is
   * not truthy, so the marker is collected as if it were a recipe. The
   * intended test drops it.
   */
  lemma EmptyErrorMessageSlipsThrough()
    ensures var stub: Record := map[IdKey := Some("11007")];
      var fetch := (id: string) => Error("");
      && FullRecipesAsWritten([stub], fetch) == [map[ErrorKey := Some("")]]
      && FullRecipes([stub], fetch) == []
  {
    var stub: Record := map[IdKey := Some("11007")];
    var fetch := (id: string) => Error("");
    var marker: Record := map[ErrorKey := Some("")];
    assert Field(stub, IdKey) == Some("11007");
    assert LookupFullById(fetch("11007")) == Some(marker);
    assert marker != map[] by { assert ErrorKey in marker; }
    assert AcceptedAsWritten(Some(marker));
    FilterMapSnoc(ResolveStubAsWritten(fetch), [], stub);
    FilterMapSnoc(ResolveStub(fetch), [], stub);
    assert [] + [stub] == [stub];
  }
}
