/**
 * The header search box (components/Header.tsx): the results for a query
 * are the first eight catalog products whose lower-cased name or
 * description contains the trimmed, lower-cased query, and the result list
 * is open while there are results.
 */
module Header {
  import opened Strings
  import opened Domain

  const MaxResults := 8

  /** The query as it is compared: `query.trim().toLowerCase()`. */
  function Needle(query: string): string {
    ToLower(Trim(query))
  }

  /** A product matches when its lower-cased name or description contains `q`. */
  predicate Matches(p: Product, q: string) {
    Contains(ToLower(p.name), q) || Contains(ToLower(p.description), q)
  }

  /** `catalog.filter((p) => Matches(p, q))`, in catalog order. */
  function Matching(catalog: seq<Product>, q: string): (r: seq<Product>)
    ensures |r| <= |catalog|
    decreases |catalog|
  {
    if |catalog| == 0 then []
    else (if Matches(catalog[0], q) then [catalog[0]] else []) + Matching(catalog[1..], q)
  }

  /** The filter keeps only matching catalog products. */
  lemma {:induction false} MatchingOnlyMatches(catalog: seq<Product>, q: string)
    ensures forall k :: 0 <= k < |Matching(catalog, q)| ==>
      Matches(Matching(catalog, q)[k], q) && Matching(catalog, q)[k] in catalog
    decreases |catalog|
  {
    if |catalog| > 0 {
      MatchingOnlyMatches(catalog[1..], q);
      var head := if Matches(catalog[0], q) then [catalog[0]] else [];
      var r := Matching(catalog, q);
      assert r == head + Matching(catalog[1..], q);
      forall k | 0 <= k < |r| ensures Matches(r[k], q) && r[k] in catalog {
        if k >= |head| {
          assert r[k] == Matching(catalog[1..], q)[k - |head|];
          assert r[k] in catalog[1..];
        }
      }
    }
  }

  /** Every matching catalog product is kept by the filter. */
  lemma {:induction false} MatchingKeepsAll(catalog: seq<Product>, q: string, p: Product)
    requires p in catalog && Matches(p, q)
    ensures p in Matching(catalog, q)
    decreases |catalog|
  {
    if catalog[0] != p {
      assert p in catalog[1..];
      MatchingKeepsAll(catalog[1..], q, p);
    }
  }

  /** The filter works piece by piece, so it keeps the catalog order. */
  lemma {:induction false} MatchingAppend(a: seq<Product>, b: seq<Product>, q: string)
    ensures Matching(a + b, q) == Matching(a, q) + Matching(b, q)
    decreases |a|
  {
    if |a| == 0 {
      assert a + b == b;
    } else {
      assert (a + b)[0] == a[0] && (a + b)[1..] == a[1..] + b;
      MatchingAppend(a[1..], b, q);
      var head := if Matches(a[0], q) then [a[0]] else [];
      assert Matching(a + b, q) == head + Matching(a[1..] + b, q);
      assert Matching(a, q) == head + Matching(a[1..], q);
    }
  }

  /** The `results` memo: nothing for a blank query, else the first eight matches. */
  function Results(query: string, catalog: seq<Product>): (r: seq<Product>)
    ensures |r| <= MaxResults
    ensures Needle(query) == "" ==> r == []
    ensures Needle(query) != "" ==>
      var all := Matching(catalog, Needle(query));
      r == all[..if |all| < MaxResults then |all| else MaxResults]
    ensures forall k :: 0 <= k < |r| ==> Matches(r[k], Needle(query)) && r[k] in catalog
  {
    var q := Needle(query);
    if q == "" then []
    else
      var all := Matching(catalog, q);
      MatchingOnlyMatches(catalog, q);
      if |all| <= MaxResults then all else all[..MaxResults]
  }

  /**
   * A query that is blank after trimming gives no results, whatever the
   * catalog.
   */
  lemma BlankQueryNoResults(query: string, catalog: seq<Product>)
    requires AllSpace(query)
    ensures Results(query, catalog) == []
  {
    TrimEmptyIffAllSpace(query);
  }

  /** The effect's condition for showing the list. */
  function OpenFor(query: string, results: seq<Product>): bool {
    |results| > 0 && |query| > 0
  }

  /** The list is open exactly when there is a result: results need a non-blank query. */
  lemma OpenIffResults(query: string, catalog: seq<Product>)
    ensures OpenFor(query, Results(query, catalog)) <==> |Results(query, catalog)| > 0
  {
    if |query| == 0 {
      assert AllSpace(query);
      BlankQueryNoResults(query, catalog);
    }
  }

  /** The search box state: the typed query and whether the list is open. */
  class SearchBox {
    var query: string
    var open: bool

    constructor ()
      ensures query == "" && !open
    {
      query := "";
      open := false;
    }

    /** Typing: the query changes, then the effect recomputes `open` over the bundled catalog. */
    method Type(text: string)
      modifies this
      ensures query == text
      ensures open <==> |Results(text, Catalog)| > 0
    {
      query := text;
      OpenIffResults(text, Catalog);
      open := OpenFor(query, Results(query, Catalog));
    }

    /** Following a result link closes the list. */
    method ChooseResult()
      modifies this`open
      ensures !open
    {
      open := false;
    }

    /** The Close button closes the list. */
    method Close()
      modifies this`open
      ensures !open
    {
      open := false;
    }
  }
}
