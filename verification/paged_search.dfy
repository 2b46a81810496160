/**
 Affinity's paged searches: the page of 50 that may settle an identity search,
 and the walk of every page.
 */
module PagedSearch {
  import opened Options

  const SEARCH_PAGE_SIZE := 50
  const AFFINITY_PAGE_SIZE := 500

  /** A token goes with one page size: the one it was handed out for. */
  datatype Token = Token(size: nat, offset: nat)
  datatype SearchPage<T> = SearchPage(records: seq<T>, next: Option<Token>)

  predicate Minted<T>(held: seq<T>, size: nat, token: Option<Token>) {
    size > 0 && (token.Some? ==> token.value.size == size && token.value.offset <= |held|)
  }

  /** A page of the records a term holds, in the vendor's order, with a token unless
      it is the last. */
  function PageAt<T>(held: seq<T>, size: nat, token: Option<Token>): SearchPage<T>
    requires Minted(held, size, token)
  {
    var from := if token.Some? then token.value.offset else 0;
    var to := if from + size < |held| then from + size else |held|;
    SearchPage(held[from..to], if to < |held| then Some(Token(size, to)) else None)
  }

  function Find<T>(records: seq<T>, rule: T -> bool): (found: Option<T>)
    ensures found.Some? ==> found.value in records && rule(found.value)
    ensures found.None? <==> forall r :: r in records ==> !rule(r)
  {
    if records == [] then None
    else if rule(records[0]) then Some(records[0])
    else Find(records[1..], rule)
  }

  /** The first 500 of a term: what every identity search answered before the shortcut. */
  function FirstFiveHundred<T>(held: seq<T>): seq<T> {
    PageAt(held, AFFINITY_PAGE_SIZE, None).records
  }

  /** What the shortcut reads: the small page where it settles the matter, being the
      last or holding a pick of the first rule; the large page otherwise. */
  function FirstPageOrAll<T>(held: seq<T>, enough: Option<T -> bool>): seq<T> {
    var first := PageAt(held, SEARCH_PAGE_SIZE, None);
    if first.next.None? || (enough.Some? && Find(first.records, enough.value).Some?)
    then first.records
    else PageAt(held, AFFINITY_PAGE_SIZE, None).records
  }

  lemma {:induction false} FindInPrefix<T>(records: seq<T>, n: nat, rule: T -> bool)
    requires n <= |records| && Find(records[..n], rule).Some?
    ensures Find(records, rule) == Find(records[..n], rule)
  {
    if !rule(records[0]) {
      assert records[..n][1..] == records[1..][..n - 1];
      FindInPrefix(records[1..], n - 1, rule);
    }
  }

  /** The shortcut is invisible: the first rule picks the record it picks among
      the first 500, and where it picks none the caller holds exactly those 500. */
  lemma ShortcutIsInvisible<T>(held: seq<T>, enough: T -> bool)
    ensures Find(FirstPageOrAll(held, Some(enough)), enough) == Find(FirstFiveHundred(held), enough)
    ensures Find(FirstFiveHundred(held), enough).None? ==> FirstPageOrAll(held, Some(enough)) == FirstFiveHundred(held)
  {
    var got, whole := FirstPageOrAll(held, Some(enough)), FirstFiveHundred(held);
    if |held| > SEARCH_PAGE_SIZE {
      assert held[..SEARCH_PAGE_SIZE] == whole[..SEARCH_PAGE_SIZE];
      if Find(held[..SEARCH_PAGE_SIZE], enough).Some? {
        FindInPrefix(whole, SEARCH_PAGE_SIZE, enough);
      }
    }
  }

  /** The walk from token to token, to the end. */
  method EveryPage<T>(held: seq<T>, size: nat) returns (all: seq<T>)
    requires size > 0
    ensures all == held
  {
    all := [];
    var token: Option<Token> := None;
    while true
      invariant Minted(held, size, token)
      invariant all == held[..if token.Some? then token.value.offset else 0]
      invariant token.Some? ==> 0 < token.value.offset < |held|
      decreases |held| - |all|, if token.None? then 1 else 0
    {
      var page := PageAt(held, size, token);
      all := all + page.records;
      if page.next.None? {
        return;
      }
      token := page.next;
    }
  }

  /** The whole of a term's records: the small page alone if it is the last, and
      otherwise the walk in large pages, as for an empty term. */
  method EveryMatch<T>(term: string, held: seq<T>) returns (all: seq<T>)
    ensures all == held
  {
    if term != "" {
      var first := PageAt(held, SEARCH_PAGE_SIZE, None);
      if first.next.None? {
        return first.records;
      }
    }
    all := EveryPage(held, AFFINITY_PAGE_SIZE);
  }
}
