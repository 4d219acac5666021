/**
 * The product filter of the `fetch_api_data` tool (`fetch_from_api`).
 * The tool downloads the catalogue and then either returns all of it, for a
 * generic "all products" request, or keeps the products whose title or brand
 * contains the query, ignoring case. The download is not modelled: the
 * catalogue is a parameter.
 */
module Tools {
  import opened Wrappers
  import opened Text
  import opened Seqs

  /**
   * One catalogue entry. `title` and `brand` are None when the record has no
   * such key; the other fields never take part in the filter.
   */
  datatype Product = Product(
    id: int,
    title: Option<string>,
    brand: Option<string>,
    category: string,
    description: string,
    price: real,
    rating: real,
    stock: int,
    thumbnail: string)

  /** The lower-cased phrases that ask for the whole catalogue. */
  const GenericQueries: seq<string> := ["all products", "show me all products", "give all products"]

  /** `query.lower()` is one of the generic phrases: exact equality, no trimming. */
  predicate IsGenericQuery(query: string) {
    Lower(query) in GenericQueries
  }

  /** `p.get(key, "")`: the field's text, or the empty string when the key is missing. */
  function FieldText(field: Option<string>): (text: string) {
    field.GetOr("")
  }

  /** The lower-cased query occurs in the lower-cased title or in the lower-cased brand. */
  predicate MatchesQuery(p: Product, query: string) {
    || Contains(Lower(FieldText(p.title)), Lower(query))
    || Contains(Lower(FieldText(p.brand)), Lower(query))
  }

  /** The keep-test of the comprehension, as one function value per query. */
  function KeepsProduct(query: string): (keep: Product -> bool) {
    p => MatchesQuery(p, query)
  }

  /** `fetch_from_api(query)` applied to an already downloaded catalogue `products`. */
  function FilterProducts(products: seq<Product>, query: string): (r: seq<Product>)
    ensures IsGenericQuery(query) ==> r == products
    ensures !IsGenericQuery(query) ==> forall p :: p in r ==> MatchesQuery(p, query)
    ensures !IsGenericQuery(query) ==> forall p :: p in products && MatchesQuery(p, query) ==> p in r
    ensures !IsGenericQuery(query) ==>
      forall p :: p in products && MatchesQuery(p, query) ==> multiset(r)[p] == multiset(products)[p]
    ensures IsSubsequence(r, products)
    ensures |r| <= |products|
  {
    if IsGenericQuery(query) then
      SubsequenceRefl(products);
      products
    else
      FilterComplete(products, KeepsProduct(query));
      Filter(products, KeepsProduct(query))
  }

  /**
   * For a non-generic query the contract above pins the result down: any
   * order-preserving selection of the matching products, each kept as often
   * as it occurs, is the tool's result.
   */
  lemma FilterProductsUnique(products: seq<Product>, query: string, r: seq<Product>)
    requires !IsGenericQuery(query)
    requires IsSubsequence(r, products)
    requires forall p :: p in r ==> MatchesQuery(p, query)
    requires forall p :: p in products && MatchesQuery(p, query) ==> multiset(r)[p] == multiset(products)[p]
    ensures r == FilterProducts(products, query)
  {
    FilterUnique(products, KeepsProduct(query), r);
  }

  /** A query is generic exactly when its lower-cased form is. */
  lemma GenericQueryIgnoresCase(query: string)
    ensures IsGenericQuery(query) <==> IsGenericQuery(Lower(query))
  {
    LowerIdempotent(query);
  }

  /** For instance, "All Products" is recognised as a generic phrase. */
  lemma CapitalisedGenericQuery(query: string)
    requires query == "All Products"
    ensures IsGenericQuery(query)
  {
    var g := "all products";
    var l := Lower(query);
    forall i | 0 <= i < |g| ensures l[i] == g[i] {
      assert l[i] == LowerChar(query[i]);
    }
    assert l == g;
  }

  /** The generic test is exact equality: a leading space makes a query non-generic. */
  lemma PaddedQueryIsNotGeneric()
    ensures !IsGenericQuery(" all products")
  {
  }

  /** Nor is a phrase that differs from the generic ones by one word. */
  lemma VariantQueryIsNotGeneric()
    ensures !IsGenericQuery("show all products")
  {
  }

  /** The tool only depends on the lower-cased form of the query. */
  lemma FilterIgnoresQueryCase(products: seq<Product>, q1: string, q2: string)
    requires Lower(q1) == Lower(q2)
    ensures FilterProducts(products, q1) == FilterProducts(products, q2)
  {
    if !IsGenericQuery(q1) {
      FilterCongruent(products, KeepsProduct(q1), KeepsProduct(q2));
    }
  }

  /** The empty query is not generic, and every product contains it: the whole catalogue comes back. */
  lemma EmptyQueryKeepsAll(products: seq<Product>)
    ensures FilterProducts(products, "") == products
  {
    assert !IsGenericQuery("");
    forall p | p in products ensures KeepsProduct("")(p) {
      ContainsEmpty(Lower(FieldText(p.title)));
    }
    FilterAllKept(products, KeepsProduct(""));
  }

  /** A product with neither a title nor a brand matches only the empty query. */
  lemma NoTitleNoBrand(p: Product, query: string)
    requires p.title.None? && p.brand.None?
    ensures MatchesQuery(p, query) <==> query == ""
  {
  }

  /** Running the tool on its own result with the same query changes nothing. */
  lemma FilterProductsIdempotent(products: seq<Product>, query: string)
    ensures FilterProducts(FilterProducts(products, query), query) == FilterProducts(products, query)
  {
    if !IsGenericQuery(query) {
      FilterIdempotent(products, KeepsProduct(query));
    }
  }

  /** Two products with the same title and brand are kept or dropped together. */
  predicate SameTitleAndBrand(p: Product, q: Product) {
    p.title == q.title && p.brand == q.brand
  }

  /**
   * Description, category, price, rating, stock, thumbnail and id never affect
   * the result: catalogues that agree position by position on title and brand
   * yield results of the same length that agree position by position on title
   * and brand.
   */
  lemma {:induction false} FilterIgnoresOtherFields(ps: seq<Product>, qs: seq<Product>, query: string)
    requires |ps| == |qs|
    requires forall i :: 0 <= i < |ps| ==> SameTitleAndBrand(ps[i], qs[i])
    ensures |FilterProducts(ps, query)| == |FilterProducts(qs, query)|
    ensures forall j :: 0 <= j < |FilterProducts(ps, query)| ==>
      SameTitleAndBrand(FilterProducts(ps, query)[j], FilterProducts(qs, query)[j])
  {
    if !IsGenericQuery(query) {
      FilterAgrees(ps, qs, query);
    }
  }

  lemma {:induction false} FilterAgrees(ps: seq<Product>, qs: seq<Product>, query: string)
    requires |ps| == |qs|
    requires forall i :: 0 <= i < |ps| ==> SameTitleAndBrand(ps[i], qs[i])
    ensures |Filter(ps, KeepsProduct(query))| == |Filter(qs, KeepsProduct(query))|
    ensures forall j :: 0 <= j < |Filter(ps, KeepsProduct(query))| ==>
      SameTitleAndBrand(Filter(ps, KeepsProduct(query))[j], Filter(qs, KeepsProduct(query))[j])
    decreases |ps|
  {
    if ps != [] {
      var keep := KeepsProduct(query);
      FilterAgrees(ps[1..], qs[1..], query);
      var rp, rq := Filter(ps[1..], keep), Filter(qs[1..], keep);
      assert SameTitleAndBrand(ps[0], qs[0]);
      assert keep(ps[0]) == keep(qs[0]);
      if keep(ps[0]) {
        assert Filter(ps, keep) == [ps[0]] + rp;
        assert Filter(qs, keep) == [qs[0]] + rq;
      } else {
        assert Filter(ps, keep) == rp;
        assert Filter(qs, keep) == rq;
      }
    }
  }
}
