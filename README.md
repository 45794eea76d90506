# cushion: registry, coerced models and view paging

A model of the two parts of the cushion CouchDB browser that compute
something, rather than pass data between Django and the document store:

- `models.py`: the `Registry` of model classes (a name -> value table that
  rejects duplicate registration and missing removal), the `CoercedModel`
  dictionary whose declared keys are converted by `unicode`/`float` on
  construction, raising `BadValueError` (a `ValueError`) when a conversion
  fails, the two concrete models `Specimen` and `SimilarSpecies`, and their
  registration when the module is loaded (module `Models`, `models.dfy`).
- `views.py`: the paging values of the `view` page (`page`, `num_pages`,
  `last_page`, `previous_page`, `next_page`) computed from the query's `skip`
  and `limit` and the view's `total_rows`, and the design-document name cut
  out of an id such as `_design/<name>` (module `Views`, `views.dfy`).

`wrappers.dfy` holds `Option` and `Result`; a raised exception is a
`Failure` carrying a datatype that names it.

The registry is a class with a `map` field that `Register` and `Unregister`
update in place; their contracts tie the new table to the pure functions
`WithRegistered` and `WithoutRegistered`, about which the lemmas are proved.
`CoercedModel.Coerce` is the loop of `coerce` over the dictionary's keys, each
key picked in an unspecified order (dictionary order); it is proved against
`Convertible`/`Coerced` (success and result) and `PossibleErrors` (which
exception can surface). The converters `unicode` and `float` are abstract:
every coercion takes a function `convert` that interprets them and may fail
with a `ValueError` or with another exception. Paging is a pure function of
Python 2 integer arithmetic: `/` on integers is floor division (`FloorDiv`,
which differs from Dafny's Euclidean `/` for a negative divisor), and
`int(math.ceil(total / float(limit)))` is the exact ceiling (`CeilDiv`).

## Model

| member | source | states |
|---|---|---|
| `Models.WithRegistered` | models.py:17-21 | registering fails with `AlreadyRegistered(name)` exactly when the name is taken; otherwise the table gains exactly `name -> value` and keeps every other entry |
| `Models.WithoutRegistered` | models.py:23-27 | unregistering fails with `NotRegistered(name)` exactly when the name is absent; otherwise it returns the value registered under it and removes only that key |
| `Models.Registry.constructor` | models.py:14-15 | a new registry is empty |
| `Models.Registry.Register` | models.py:17-21 | the table afterwards is the one `WithRegistered` gives; on `AlreadyRegistered` it is unchanged |
| `Models.Registry.Unregister` | models.py:23-27 | returns the removed value and leaves the table `WithoutRegistered` gives; on `NotRegistered` the table is unchanged |
| `Models.Registry.Items` | models.py:29-30 | exactly the registered (name, value) pairs, one per name |
| `Models.Registry.Get` | models.py:32-33 | the registered value, or the default (`None` when none is given) for an absent key; a function, so it changes nothing |
| `Models.Lookup` | models.py:32-33 | `dict.get`: the value stored under a present key, the default for an absent one |
| `Models.LookupAfterRegister` | models.py:17-33 | after registering a fresh name, `get` returns its value and answers every other key as before |
| `Models.LookupAfterUnregister` | models.py:23-33 | after unregistering a name, `get` returns the default for it and answers every other key as before |
| `Models.RegisterThenUnregister` | models.py:17-27 | unregistering a freshly registered name returns its value and restores the table |
| `Models.UnregisterThenRegister` | models.py:17-27 | registering the returned value again under the same name restores the table |
| `Models.RegistrySizes` | models.py:17-27 | a successful register adds one entry and a successful unregister removes one |
| `Models.Reported` | models.py:52-56 | a converter's `ValueError` becomes `BadValueError(key, value, message)`; any other exception passes through unchanged; the result is a `ValueError` exactly when the converter's was |
| `Models.Coerced` | models.py:46-58 | a successful coercion keeps the key set, converts each declared key's value and leaves every undeclared key's value untouched |
| `Models.CoercedModel.constructor` | models.py:42-43 | a model starts as an empty dictionary of its class's `_types` |
| `Models.CoercedModel.Coerce` | models.py:46-58 | the loop succeeds exactly when every declared key converts, then returning `Coerced`; otherwise it raises one of `PossibleErrors`, whichever key dictionary order meets first |
| `Models.Instantiate` | models.py:42-44 | constructing a model succeeds exactly when coercion does, giving a fresh model whose contents are the coerced arguments; otherwise it raises the coercion's exception |
| `Models.CoercionFailsIffSomeError` | models.py:50-56 | coercion fails exactly when some declared key's conversion fails, i.e. some exception is possible |
| `Models.FailuresAreBadValues` | models.py:37-56 | when converters raise only `ValueError`, every failure is a `BadValueError` (hence a `ValueError`) naming a declared key and its original value |
| `Models.UntypedPassThrough` | models.py:50-51 | keys without a converter pass through: with none declared the dictionary is returned unchanged |
| `Models.CoerceIdempotent` | models.py:50-58 | with converters that return converted values unchanged, coercing a coerced dictionary succeeds and changes nothing |
| `Models.LoadRegistry` | models.py:34-80 | loading the module leaves the registry holding exactly `Specimen` and `SimilarSpecies` with their `_types` tables; neither registration clashes |
| `Models.SpecimenCoercesLatitude` | tests.py:9-13 | a specimen built with latitude `"45.0"` holds the number 45.0 and keeps the other values |
| `Models.SpecimenRejectsBadLatitude` | tests.py:14-20 | a specimen built with latitude `"abc"` cannot be constructed, and the only exception raised is a `BadValueError` for `latitude` |
| `Views.FloorDiv` | views.py:102 | Python 2 integer `/`: the floor of the quotient, for either sign of the divisor |
| `Views.CeilDiv` | views.py:122 | the ceiling of the exact quotient, for either sign of the divisor |
| `Views.Param` | views.py:100-101 | `get_data.pop(key, default)`: the query's value when given, the default otherwise |
| `Views.PagerFor` | views.py:102-133 | a previous link exactly when `page > 1`, at `skip - limit`; a next link exactly when `page < num_pages`, at `skip + limit`; the arithmetic meaning of `page`, `num_pages` and `last_page` is proved in the lemmas below |
| `Views.Paginate` | views.py:99-133 | missing `skip`/`limit` default to 0 and 10; a zero limit raises `ZeroDivisionError`; otherwise the paging values for the resolved parameters |
| `Views.DefaultsGiveFirstPage` | views.py:100-133 | without query parameters the page is 1, there is no previous page, and a next page exactly when more than ten rows exist |
| `Views.PageHoldsSkip` | views.py:102 | with `skip >= 0` and `limit > 0`, `page >= 1` and row `skip` lies on the `page`-th block of `limit` rows |
| `Views.NumPagesIsCeiling` | views.py:122 | `num_pages` is the least `n >= 0` with `n * limit >= total_rows` |
| `Views.PagesIndependentOfSkip` | views.py:122-123 | `num_pages` and `last_page` do not depend on `skip` |
| `Views.LastPageHoldsLastRow` | views.py:123 | for a non-empty view the last page's offset lies within the rows and its window reaches the last row; for an empty view it is `-limit` |
| `Views.PreviousPageExists` | views.py:125-128 | a previous page exists exactly when `skip >= limit` (i.e. `page > 1`), at offset `skip - limit >= 0` |
| `Views.NextPageExists` | views.py:130-133 | a next page exists exactly when rows lie beyond the page holding row `skip`, at offset `skip + limit` |
| `Views.AlignedNextPage` | views.py:130-133 | for `skip = k * limit` the page is `k + 1` and a next page exists exactly when `skip + limit < total_rows` |
| `Views.NextThenPrevious` | views.py:125-133 | following the next link lands one page further on, whose previous link is the original `skip` |
| `Views.PreviousThenNext` | views.py:125-133 | for a window starting at an existing row, the previous window's next link is the original `skip` |
| `Views.LastPageHasNoNext` | views.py:123-133 | for every view, empty or not, the window at `last_page` is page `num_pages` and has no next link |
| `Views.Split` | views.py:79 | `str.split`: at least one piece, exactly one when the separator is absent, and no piece contains it |
| `Views.JoinSplit` | views.py:79 | joining the pieces with the separator gives back the string |
| `Views.SplitAfterFirst` | views.py:79 | the split of `head + sep + rest` (no separator in `head`) is `head` followed by the split of `rest` |
| `Views.FirstPiece` | views.py:79 | the first piece of a split is the prefix of the string up to its first separator, or the whole string when there is none |
| `Views.DesignDocName` | views.py:78-79 | an id without `/` raises `IndexError`, and otherwise the result contains no `/`; which piece it is, is stated by `DesignDocNameIsSecondPiece` |
| `Views.DesignDocNameIsSecondPiece` | views.py:78-79 | for every id `<head>/<tail>` with no `/` in `<head>`, the name is the prefix of `<tail>` up to its first `/` (all of `<tail>` when it has none), i.e. `split("/")[1]` |
| `Views.DesignDocNameOfId` | views.py:78-79 | for `_design/<name>`, with or without a further `/...`, the name is `<name>` |

## Left out

- Everything else in views.py: request, session and message handling, templates, redirects, `urlencode`, and every CouchDB call (`Server`, `get_or_create_db`, `delete_db`, `compact`, `all_docs`, `view`, `get`, `save_doc`, attachments). They are I/O against Django and an external store; `total_rows` and the document id enter the model as parameters.
- The `edit` view, `urls.py` and `forms.py`: routing, form declarations and a view that calls helpers the repository does not define.
- `int()` parsing of the `skip` and `limit` query strings: the model takes the parsed integers (or their absence); a non-numeric string raising `ValueError` is not modelled.
- `Views.CeilDiv`: computes the exact ceiling; the source divides by a `float`, which differs once `total_rows` exceeds 2^53.
- What `unicode()` and `float()` do to a value: the converters are an abstract `convert` parameter, so string and float parsing are not modelled.
- `Models.CoercedModel.Coerce`: returns the coerced dictionary as a new value; the source converts the caller's dictionary in place, so a caller of `coerce` itself sees the keys converted before a failure. `__init__` passes it a fresh keyword dictionary, so construction is unaffected.
- The text of the `BadValueError` and registry messages: the errors carry the key, value, name and converter message they are formatted from.
- `Models.Registry.Items`: gives a set of pairs; Python 2 returns a list in dictionary order, which is unspecified.
- The rest of `CoercedModel`'s dictionary behaviour (item access, later mutation): the model keeps the contents set at construction.
- The import pipeline (delimited-file parsing, identity hashing, reconciliation with stored documents, schema inference): its code is not part of this model.
