# Cocktail Explorer, modelled in Dafny

Cocktail Explorer is a small Streamlit app over TheCocktailDB web API. It
searches cocktails by name or by ingredient, shows recipe cards, keeps a
favorites file and offers a shopping-list helper for the selected recipe.
This project models the app's logic, found in `app.py`, and proves what it
promises:

- **Ingredient list** (`recipe.dfy`). Slots 1..15 of a recipe record are scanned in order. A slot appears exactly when its ingredient field is truthy, and it carries its measure or `""`.
- **Short instructions** (`recipe.dfy`). A recipe card cuts the instructions to 500 characters plus `"..."`. The detail view shows them in full. The YouTube search link is also here.
- **Shopping-list helper** (`shopping.dfy`). The text "what you have" is split at commas. Each non-blank piece is stripped and lower-cased. The recipe's ingredient names whose normal form is not in that set are reported in recipe order.
- **Favorites** (`favorites.dfy`). A recipe card saves an entry only if its id is absent. The detail view toggles between saving and removing by id. Neither operation creates a second entry for an id.
- **Search shaping** (`search.dfy`):
  - name search;
  - ingredient search cut to the requested number of candidates, with Python slice semantics;
  - lookup by id;
  - the batch that resolves each candidate to its full recipe and skips the failures.

Supporting modules:

- `seqs.dfy`: the "append when it passes" list comprehension, `FilterMap`/`Filter`, and the positions it keeps.
- `text.dfy`: Python's `str.strip`, `str.lower` and `str.split` on ASCII text.
- `wrappers.dfy`: `Option`.

The cocktail API is reached only through `fetch_json`, which is cached for
an hour. The single-request operations `Search.SearchByNameFull`,
`Search.SearchByIngredientIds` and `Search.LookupFullById` take the answer
`resp: Response` as a parameter. The batch, which makes one lookup per
candidate, takes the lookup as a parameter `fetch: string -> Response`. Being a
function, `fetch` gives the same answer for the same id, as the cache does
within its lifetime. A response is either the error marker `{"__error__": msg}` or
a body whose `drinks` field is a list of records or `null`.

Two behaviours of the code worth stating outright:

- **Truncation threshold.** `app.py:88` truncates whenever the length is not below 500. A text of exactly 500 characters therefore also gets `"..."` appended (`Recipe.Truncate`).
- **Batch test.** The batch loop keeps a lookup result when it is a non-empty dict whose `__error__` field is falsy (`app.py:159`). This also lets through an error marker whose message is empty. `Search.LoadFullRecipes` models the test as written. The intended batch, which drops every error marker, is the function `Search.FullRecipes`; `Search.FullRecipesDropMarkers` proves it is the loop's result with the markers filtered out. See Findings.

## Model

| member | source | states |
|---|---|---|
| Recipe.ExtractIngredients | app.py:81-85 | the card's loop over slots 1..15 yields exactly the ingredient list `Ingredients(r)` |
| Recipe.IngredientsFollowSlots | app.py:229-233 | one entry per present slot (at most 15), in strictly increasing slot order; each entry is that slot's ingredient with its measure or ""; a slot is present exactly when its ingredient field is truthy |
| Recipe.Truncate | app.py:88 | text shorter than 500 is unchanged; otherwise the result is its first 500 characters followed by "...", 503 in all |
| Recipe.Summary | app.py:87-88 | missing or empty instructions read "No instructions"; present ones are truncated |
| Recipe.TruncateIdempotent | app.py:88 | a summary is never longer than 503 characters, and truncating it again changes nothing |
| Recipe.SummaryOfLongInstructions | app.py:87-88 | instructions of 600 characters give their first 500 plus "...", 503 characters |
| Recipe.FullInstructions | app.py:235 | the detail view falls back from `strInstructions` to `instructions` to "No instructions available." |
| Recipe.YoutubeSearchLink | app.py:15-16 | the link is the results-page prefix followed by the encoding of "<title> recipe" (a missing title prints as "None") |
| Text.Strip | app.py:218 | the stripped text is no longer than the input, and neither of its ends is whitespace |
| Text.StripIsTrimmedSlice | app.py:218 | the stripped text is the slice of the input between an all-whitespace head and an all-whitespace tail, so only whitespace at the two ends is removed |
| Text.StripEmpty | app.py:218 | a piece strips to "" exactly when it is all whitespace, so blank pieces are the ones skipped |
| Text.StripPadded | app.py:218-219 | whitespace added on either side of a text does not change its stripped form |
| Text.Split | app.py:218 | splitting always gives at least one piece, and no piece contains the separator |
| Text.JoinSplit | app.py:218 | joining the pieces with the separator gives back the original text, so nothing is lost or reordered |
| Text.SplitFirst | app.py:218 | text before the first separator is the first piece, and the rest splits on its own |
| Text.SplitLower | app.py:218 | lower-casing the text and then splitting at "," gives the lower-cased pieces of the original split |
| Text.NormalizeIdempotent | app.py:218-219 | the strip-then-lower normal form is a fixed point of itself |
| Text.NormalizeForgetsCaseAndPadding | app.py:218-219 | two names that differ only in letter case and surrounding whitespace have the same normal form |
| ShoppingList.MissingIngredients | app.py:213-219 | the helper's loops report exactly `Missing(have, Needed(sel))` |
| ShoppingList.NormalSetComprehension | app.py:218 | the have-set built piece by piece equals the set comprehension over the non-blank pieces |
| ShoppingList.HaveSetIsNormal | app.py:218 | every member of the have-set is non-empty and already in normal form |
| ShoppingList.MissingSelects | app.py:219 | the missing list is the needed list read at increasing positions, and a position is kept exactly when its normalised name is not in the have-set |
| ShoppingList.NothingOnHand | app.py:218-219 | when every piece of the have text is blank, the have-set is empty and every needed name is missing |
| ShoppingList.BlankHaveTexts | app.py:218-219 | the have texts "" and " , ," leave every ingredient missing |
| ShoppingList.HaveSetIgnoresCase | app.py:218 | the letter case of the have text does not change the have-set |
| ShoppingList.MatchIgnoresCaseAndPadding | app.py:219 | a needed name padded with whitespace and written in another case is judged the same as the bare name |
| ShoppingList.MissingVodkaLimeSoda | app.py:213-219 | having "Vodka, Lime" against Vodka, Lime, Soda leaves exactly Soda missing |
| ShoppingList.MissingGinExamples | app.py:213-219 | an empty have text leaves Gin missing; having "GIN" leaves nothing missing for gin |
| ShoppingList.NeededAreIngredientNames | app.py:214-217 | for every n, the truthy names the helper collects from slots 1..n are the names of the ingredient-list entries that slots 1..n produce, in the same order |
| ShoppingList.NeededMatchesIngredients | app.py:229-233 | the names the helper compares are exactly those of the ingredient list shown beside it |
| Favorites.HasId | app.py:96 | the `any` test holds exactly when some entry has the id |
| Favorites.SelectedEntry | app.py:204 | the detail view saves `idDrink or id` and `strDrink or title` |
| Favorites.AddIfAbsentEffect | app.py:95-99 | saving keeps the old entries as they were, appends `e` exactly when its id was absent, and the id is present afterwards |
| Favorites.AddIfAbsentIdempotent | app.py:96-98 | saving the same id twice is the same as saving it once |
| Favorites.AddIfAbsentKeepsUnique | app.py:96-98 | saving keeps at most one entry per id |
| Favorites.RemoveByIdSelects | app.py:208 | removal keeps, in their original order, exactly the entries whose id differs |
| Favorites.RemoveByIdEffect | app.py:208 | after removal no entry has the id; every entry with another id survives, and nothing else does; removing an absent id changes nothing; removing twice is removing once |
| Favorites.RemoveByIdKeepsUnique | app.py:208 | removal keeps at most one entry per id |
| Favorites.ToggleEffect | app.py:201-210 | the toggle flips whether the id is saved, and keeps at most one entry per id |
| Favorites.ToggleTwiceRestores | app.py:201-210 | toggling an unsaved recipe twice restores the list |
| Favorites.FavoriteList.constructor | app.py:200 | the list starts as the loaded favorites |
| Favorites.FavoriteList.AddIfAbsent | app.py:95-99 | the list becomes `WithAdded(old, e)`; reports whether it appended; keeps ids unique |
| Favorites.FavoriteList.SaveFromCard | app.py:95-99 | the card appends `{id: idDrink, title: strDrink}` exactly when no entry has that id, otherwise leaves the list unchanged; reports whether it appended; keeps ids unique |
| Favorites.CardSaveSeenByDetailView | app.py:98 | when `idDrink` is truthy, the card saves the id the detail view looks for (app.py:201), so after saving, the detail view finds it and its toggle removes it |
| Favorites.FavoriteList.Toggle | app.py:201-210 | the list becomes `Toggled(old, e)`; reports whether it saved; the id is present exactly when it saved; keeps ids unique |
| Search.SearchByNameFull | app.py:41-47 | an error or a `null` list gives no results, otherwise the answer's records |
| Search.SearchByIngredientIds | app.py:49-56 | an error gives no candidates; otherwise a prefix of the answer of length min(number, available), or the Python slice length for a negative number |
| Search.LookupFullById | app.py:58-65 | an error becomes the marker record `{"__error__": msg}`; a non-empty answer gives its first record; an empty or `null` one gives None |
| Search.LoadFullRecipes | app.py:151-161 | the batch loop, with the test as written, collects exactly `FullRecipesAsWritten(stubs, fetch)`; dropping the error markers from its result gives the intended batch `FullRecipes(stubs, fetch)` |
| Search.FullRecipesSelect | app.py:151-161 | the intended batch follows the candidate order and holds exactly the successful lookups, each the first record of its answer |
| Search.FullRecipesAsWrittenSelect | app.py:151-161 | the batch as written follows the candidate order and holds exactly the candidates with a truthy id whose lookup passes the test of app.py:159: a first record that is non-empty and has no truthy `__error__`, or an error with an empty message, which is collected as its marker |
| Search.FullRecipesDropMarkers | app.py:159-160 | the intended batch is the batch as written with the error markers dropped; the two are equal whenever no marker gets through |
| Search.FullRecipesHaveNoErrorMarkers | app.py:158-160 | no error marker and no empty record reaches the intended batch |
| Search.IngredientSearchBounds | app.py:144-161 | with limit L there are at most L candidates, and neither the batch as written nor the intended batch has more full recipes than candidates |
| Search.EmptyErrorMessageSlipsThrough | app.py:159 | an error with an empty message is collected by the batch as written, but not by the corrected test |

## Left out

- File I/O for `favorites.json` (`load_favs`, `save_favs`, app.py:20-29) is not modelled. The list is a constructor parameter, and saving is the new value of `FavoriteList.items`.
- The HTTP request, its 12-second timeout, the one-hour result cache and the JSON decoding are not modelled. Together they are the `fetch` parameter, which maps a request to a `Response`.
- The random-cocktail button (app.py:170-177) is not modelled; it is not part of the modelled logic.
- Streamlit rendering is not modelled: widgets, messages, the progress bar and `st.session_state`. The model's values are what the UI would display.
- `quote_plus` is a library routine and is a parameter of `Recipe.YoutubeSearchLink`.
- JSON values other than strings and `null` in record fields are not modelled. The same goes for a `drinks` value that is not a list and a `null` element inside the list. The `Record` type admits only strings and `null`.
- Saved favorites keep only the `id` and `title` fields. Other keys of hand-edited entries are not modelled.
- Unicode is not modelled: whitespace outside ASCII and case folding outside A–Z. `Text.IsSpace` and `Text.LowerChar` follow Python only on ASCII.
- Text.Lower: its contract states only that the length is kept. The letter-by-letter content is its definition, and the lemmas use that definition.
- Search.IngredientSearchBounds: it requires `number >= 0`, which matches the UI slider's range of 1..12. `Search.SearchByIngredientIds` states the negative case separately.

## Findings

| source | as written | input that shows it | evidently intended | confidence | as-written member | corrected member |
|---|---|---|---|---|---|---|
| app.py:159 | the batch accepts a lookup result that is a non-empty dict whose `__error__` field is falsy | a lookup that fails with an exception whose message is empty: `lookup_full_by_id` returns `{"__error__": ""}`, which is non-empty, and `.get("__error__")` is `""`, so the marker is collected as a recipe | drop any result that carries the error marker, as `search_by_name_full` does with `"__error__" in data` | not executed | Search.EmptyErrorMessageSlipsThrough | Search.FullRecipesHaveNoErrorMarkers |
