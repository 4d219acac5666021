# Product filter and memory store of a product-search agent framework

This project models, in Dafny, the two pieces of deterministic logic in a
multi-agent product-search service:

- the product filter of the `fetch_api_data` tool (`fetch_from_api` in
  `tools.py`). A generic request ("all products", "show me all products",
  "give all products", in any letter case) returns the whole catalogue.
  Any other query keeps, in catalogue order, the products whose title or
  brand contains the query, ignoring case. A missing title or brand counts
  as the empty string.
- `CustomStorage` (`custom_storage.py`), the agents' in-process memory. It
  is a list of `{value, metadata, agent}` records. Records are appended by
  `save`, found by `search` (case-insensitive substring of the stored
  value) and dropped all at once by `reset`.

Everything else in the service is not code that can be modelled. Query
routing, numeric filtering and the removal of already-shown titles are
instructions to a language model. The rest is a web endpoint, a chat UI and
vector-index setup.

Files:

- `wrappers.dfy`: `Option`, for a dictionary key that may be missing.
- `text.dfy`: `Lower` (ASCII lower-casing) and `Contains` (Python's
  `needle in haystack` on strings), with a proof that `Contains` means
  "occurs at some offset".
- `seqs.dfy`: `Filter`, the list comprehension `[x for x in s if keep(x)]`.
  It comes with a subsequence relation and lemmas: completeness with
  multiplicities, idempotence, append, congruence, and uniqueness (the
  contract determines the result).
- `tools.dfy`: `Product` and `FilterProducts`, the tool applied to an
  already downloaded catalogue, with its properties.
- `custom_storage.dfy`: `Memory`, the class `CustomStorage` and lemmas
  about searching the stored sequence.

Two details of the code matter for what the model promises:

- The generic test is exact equality after lower-casing, with no trimming,
  so `" all products"` is not generic (`Tools.PaddedQueryIsNotGeneric`).
- The filter reads only title and brand (`Tools.FilterIgnoresOtherFields`).

## Model

| member | source | states |
|---|---|---|
| `Text.Lower` | tools.py:25 | `str.lower` on ASCII: same length; every 'A'..'Z' becomes its lower-case letter and every other character is kept; no upper-case ASCII letter remains |
| `Text.LowerIdempotent` | tools.py:31-32 | lower-casing an already lower-cased string changes nothing |
| `Text.ContainsIffOccurs` | tools.py:31-32 | the recursive substring test holds exactly when the needle occurs at some offset of the haystack |
| `Text.ContainsEmpty` | tools.py:31-32 | `"" in s` is true for every string |
| `Text.ContainsSelf` | custom_storage.py:16 | every string contains itself |
| `Text.ContainedInEmpty` | tools.py:31-32 | only the empty string is contained in the empty string |
| `Seqs.Filter` | tools.py:29-33 | the comprehension returns only elements of the input that pass the test, and is never longer than the input |
| `Seqs.FilterComplete` | tools.py:29-33 | every passing element is returned, as often as the input holds it, in input order (a subsequence) |
| `Seqs.FilterUnique` | tools.py:29-34 | any order-preserving selection that holds only passing elements and every passing one as often as the input is the comprehension's result |
| `Seqs.FilterAllKept` | tools.py:29-33 | when every element passes, the input comes back unchanged |
| `Seqs.FilterIdempotent` | tools.py:29-34 | filtering a filtered list with the same test changes nothing |
| `Seqs.FilterAppend` | custom_storage.py:7-16 | filtering `s + [x]` gives the filtered `s`, followed by `x` exactly when `x` passes |
| `Seqs.FilterCongruent` | tools.py:29-33 | two tests that agree on every element of the input select the same list |
| `Tools.FilterProducts` | tools.py:25-34 | a generic query returns the catalogue unchanged. Any other query returns exactly the products whose lower-cased title or brand (missing = "") contains the lower-cased query, each as often as in the catalogue and in catalogue order. The result is never longer than the catalogue |
| `Tools.FilterProductsUnique` | tools.py:29-34 | for a non-generic query, that contract determines the result completely |
| `Tools.GenericQueryIgnoresCase` | tools.py:25 | a query is generic exactly when its lower-cased form is |
| `Tools.CapitalisedGenericQuery` | tools.py:25 | "All Products" is a generic query |
| `Tools.PaddedQueryIsNotGeneric` | tools.py:25 | the test is exact: " all products" (leading space) is not generic and goes to the substring filter |
| `Tools.VariantQueryIsNotGeneric` | tools.py:25 | "show all products" is not one of the generic phrases |
| `Tools.FilterIgnoresQueryCase` | tools.py:25-33 | two queries with the same lower-cased form give the same result |
| `Tools.EmptyQueryKeepsAll` | tools.py:29-34 | the empty query is not generic, yet it returns the whole catalogue |
| `Tools.NoTitleNoBrand` | tools.py:31-32 | a product with neither title nor brand matches exactly the empty query |
| `Tools.FilterProductsIdempotent` | tools.py:25-34 | running the tool on its own result with the same query returns that result |
| `Tools.FilterIgnoresOtherFields` | tools.py:31-32 | catalogues that agree position by position on title and brand give results of equal length that agree position by position on title and brand, whatever the other fields hold |
| `Storage.CustomStorage.constructor` | custom_storage.py:4-5 | a new store holds no memories |
| `Storage.CustomStorage.Save` | custom_storage.py:7-12 | the new record `{value, metadata, agent}` is appended and the earlier records are unchanged. A search for the saved value then finds the record, for every `limit` and `scoreThreshold` |
| `Storage.CustomStorage.Search` | custom_storage.py:14-16 | returns only stored records whose lower-cased value contains the lower-cased query. Every such record comes back, as often as stored and in insertion order. Reads the store and changes nothing |
| `Storage.CustomStorage.Reset` | custom_storage.py:18-19 | the store is empty and every search afterwards returns the empty list |
| `Storage.SearchIgnoresLimit` | custom_storage.py:14-16 | `limit` and `score_threshold` do not change what a search returns |
| `Storage.SearchMayExceedLimit` | custom_storage.py:14-16 | the result is not cut at `limit`: when the store holds more records than `limit`, `Search("", limit, scoreThreshold)` returns more than `limit` records |
| `Storage.EmptyQueryReturnsAll` | custom_storage.py:16 | the empty query returns every stored record, in order |
| `Storage.SearchAfterSave` | custom_storage.py:7-16 | after a save, a search returns the old search result followed by the new record exactly when the record matches |
| `Storage.SavedValueIsFound` | custom_storage.py:7-16 | right after saving a record, searching for its value returns a list whose last element is that record |
| `Storage.SearchIgnoresQueryCase` | custom_storage.py:16 | queries with the same lower-cased form find the same records |

## Left out

- The download of the catalogue (`requests.get` and `.get("products", [])`) is network I/O. The catalogue is a parameter of `FilterProducts`.
- `search_pinecone` (embedding model and vector-index query) is a foreign call with floating-point similarity scores.
- The commented-out earlier version of `fetch_from_api` is dead code.
- Index setup, agents and tasks, the web endpoint, the chat UI and the pydantic product schema hold no logic of their own. They are library configuration, prompt text or presentation. Routing, numeric filters and "remove already shown titles" exist only as instructions to a language model.
- `Text.Lower`: lower-cases ASCII letters only. Python's `str.lower` also folds non-ASCII letters, and can change a string's length.
- Products whose `title` or `brand` is present but not a string (for example JSON `null`) make the code raise. The model types both fields as optional strings, so that error path does not arise.
- `Storage.Memory`: the value is kept in its printed form `str(value)`, which is all that `search` reads. The metadata is a string-to-string map and the agent is its role name.
- `Storage.CustomStorage.Search`: the Python defaults `limit=10` and `score_threshold=0.5` are not modelled. Callers pass both, and both are ignored, as in the code.
- The store is not shared across threads in the model. Concurrent access is not modelled.
