/**
 The name a file is uploaded to Attio under, where a record's file names are
 unique: the lowest free numbered name, and one more after each race lost.
 */
module UploadNames {
  import opened Options
  import opened Sequences
  import Decimals

  /** The place of the last dot, or -1. */
  function LastDot(name: string): (k: int)
    ensures -1 <= k < |name| && (k >= 0 ==> name[k] == '.')
    ensures forall i :: k < i < |name| ==> name[i] != '.'
  {
    if name == "" then -1
    else if name[|name| - 1] == '.' then |name| - 1
    else LastDot(name[..|name| - 1])
  }

  function Suffix(n: nat): string {
    " (" + Decimals.Spell(n) + ")"
  }

  function SuffixFileName(name: string, n: nat): string {
    var dot := LastDot(name);
    if dot <= 0 then name + Suffix(n) else name[..dot] + (Suffix(n) + name[dot..])
  }

  lemma SuffixTells(m: nat, n: nat)
    requires Suffix(m) == Suffix(n)
    ensures m == n
  {
    var s, t := Suffix(m), Suffix(n);
    assert s[2..|s| - 1] == Decimals.Spell(m) && t[2..|t| - 1] == Decimals.Spell(n);
    Decimals.SpellsApart(m, n);
  }

  lemma MiddleTells(head: string, s: string, t: string, tail: string)
    requires head + (s + tail) == head + (t + tail)
    ensures s == t
  {
    var a, b := head + (s + tail), head + (t + tail);
    assert |s| == |t|;
    assert s == a[|head|..|head| + |s|] && t == b[|head|..|head| + |t|];
  }

  /** Different numbers give a name different suffixed names, and none is the name. */
  lemma SuffixedNamesDiffer(name: string, m: nat, n: nat)
    ensures SuffixFileName(name, m) == SuffixFileName(name, n) <==> m == n
    ensures SuffixFileName(name, n) != name
  {
    var dot := LastDot(name);
    if SuffixFileName(name, m) == SuffixFileName(name, n) {
      if dot <= 0 {
        assert name + Suffix(m) == name + (Suffix(m) + "") && name + Suffix(n) == name + (Suffix(n) + "");
        MiddleTells(name, Suffix(m), Suffix(n), "");
      } else {
        MiddleTells(name[..dot], Suffix(m), Suffix(n), name[dot..]);
      }
      SuffixTells(m, n);
    }
    assert |SuffixFileName(name, n)| > |name|;
  }

  /** A suffixed name keeps the extension: what stands from the last dot on. */
  lemma SuffixKeepsExtension(name: string, n: nat)
    requires LastDot(name) > 0
    ensures LastDot(SuffixFileName(name, n)) == LastDot(name) + |Suffix(n)|
    ensures SuffixFileName(name, n)[LastDot(SuffixFileName(name, n))..] == name[LastDot(name)..]
  {
    var dot, s := LastDot(name), SuffixFileName(name, n);
    var at := dot + |Suffix(n)|;
    assert s[at..] == name[dot..];
    assert s[at] == name[dot];
    forall i | at < i < |s|
      ensures s[i] != '.'
    {
      assert s[i] == name[i - |Suffix(n)|];
    }
  }

  // ── The record's files ─────────────────────────────────────────────────

  /** A page of a record's files by name, and whether another follows. */
  datatype Page = Page(files: seq<string>, more: bool)

  function NamesOn(files: seq<string>): set<string> {
    set f | f in files && f != ""
  }

  /** The names on the pages up to the first that says no other follows. */
  function NamesListed(pages: seq<Page>): set<string> {
    if pages == [] then {}
    else NamesOn(pages[0].files) + if pages[0].more then NamesListed(pages[1..]) else {}
  }

  /** A name is listed when it is not empty and on a page that every page before
      it says follows. */
  lemma {:induction false} ListedIff(pages: seq<Page>, name: string)
    ensures name in NamesListed(pages)
      <==> name != "" && exists p :: 0 <= p < |pages| && name in pages[p].files && forall q :: 0 <= q < p ==> pages[q].more
  {
    if pages != [] {
      ListedIff(pages[1..], name);
      if p :| 0 <= p < |pages| && name in pages[p].files && forall q :: 0 <= q < p ==> pages[q].more {
        if p > 0 {
          assert pages[1..][p - 1] == pages[p] && pages[0].more;
          assert forall q :: 0 <= q < p - 1 ==> pages[1..][q] == pages[q + 1];
        }
      }
      if p :| 0 <= p < |pages[1..]| && name in pages[1..][p].files && forall q :: 0 <= q < p ==> pages[1..][q].more {
        assert pages[p + 1] == pages[1..][p];
        assert forall q :: 0 < q < p + 1 ==> pages[q] == pages[1..][q - 1];
      }
    }
  }

  method ListAllFileNames(pages: seq<Page>) returns (names: set<string>)
    ensures names == NamesListed(pages)
  {
    names := {};
    var p := 0;
    while p < |pages|
      invariant 0 <= p <= |pages|
      invariant names + NamesListed(pages[p..]) == NamesListed(pages)
    {
      names := names + NamesOn(pages[p].files);
      assert pages[p..][1..] == pages[p + 1..];
      if !pages[p].more {
        return;
      }
      p := p + 1;
    }
  }

  // ── The lowest free name ───────────────────────────────────────────────

  predicate IsLowestFree(name: string, listed: set<string>, n: nat) {
    n >= 1 && SuffixFileName(name, n) !in listed && forall j :: 1 <= j < n ==> SuffixFileName(name, j) in listed
  }

  /** The suffixed names numbered below `n`. */
  ghost function Below(name: string, n: nat): set<string> {
    if n <= 1 then {} else Below(name, n - 1) + {SuffixFileName(name, n - 1)}
  }

  lemma {:induction false} BelowHasEach(name: string, n: nat, j: nat)
    ensures 1 <= j < n <==> SuffixFileName(name, j) in Below(name, n) && j >= 1
  {
    if n > 1 {
      BelowHasEach(name, n - 1, j);
      SuffixedNamesDiffer(name, j, n - 1);
    }
  }

  lemma {:induction false} BelowCounts(name: string, n: nat)
    requires n >= 1
    ensures |Below(name, n)| == n - 1
  {
    if n > 1 {
      BelowCounts(name, n - 1);
      BelowHasEach(name, n - 1, n - 1);
    }
  }

  lemma LowestIsOne(name: string, listed: set<string>, m: nat, n: nat)
    requires IsLowestFree(name, listed, m) && IsLowestFree(name, listed, n)
    ensures m == n
  {
  }

  lemma {:induction false} FreeFrom(name: string, listed: set<string>, n: nat) returns (free: nat)
    requires 1 <= n && Below(name, n) <= listed
    ensures IsLowestFree(name, listed, free) && free <= |listed| + 1
    decreases |listed| + 1 - n
  {
    BelowCounts(name, n);
    SubsetIsSmaller(Below(name, n), listed);
    if SuffixFileName(name, n) in listed {
      BelowCounts(name, n + 1);
      SubsetIsSmaller(Below(name, n + 1), listed);
      free := FreeFrom(name, listed, n + 1);
    } else {
      free := n;
      forall j | 1 <= j < n
        ensures SuffixFileName(name, j) in listed
      {
        BelowHasEach(name, n, j);
      }
    }
  }

  lemma SomeIsLowest(name: string, listed: set<string>)
    ensures exists n :: IsLowestFree(name, listed, n)
  {
    var free := FreeFrom(name, listed, 1);
  }

  /** The lowest number free of the names listed. */
  ghost function LowestFree(name: string, listed: set<string>): (n: nat)
    ensures IsLowestFree(name, listed, n)
  {
    SomeIsLowest(name, listed);
    var n :| IsLowestFree(name, listed, n);
    n
  }

  /** The search ends: within one more number than there are names listed. */
  method FirstFree(name: string, listed: set<string>) returns (n: nat)
    ensures IsLowestFree(name, listed, n) && n <= |listed| + 1
  {
    n := 1;
    while SuffixFileName(name, n) in listed
      invariant 1 <= n <= |listed| + 1 && Below(name, n) <= listed
      decreases |listed| + 1 - n
    {
      n := n + 1;
      BelowCounts(name, n);
      SubsetIsSmaller(Below(name, n), listed);
    }
    forall j | 1 <= j < n
      ensures SuffixFileName(name, j) in listed
    {
      BelowHasEach(name, n, j);
    }
  }

  lemma {:induction false} SubsetIsSmaller(a: set<string>, b: set<string>)
    requires a <= b
    ensures |a| <= |b|
    decreases |a|
  {
    if x :| x in a {
      SubsetIsSmaller(a - {x}, b - {x});
    }
  }

  // ── Uploading ──────────────────────────────────────────────────────────

  /** How Attio answers an upload: stored, the name taken, or another failure. */
  datatype Reply = Stored | Taken | Failed(error: string)

  datatype Outcome = Uploaded(name: string) | NameTaken | Thrown(error: string)

  /** What listing the record's files gives: their names, or a failure. */
  datatype Listing = Listing(names: set<string>) | NoListing(error: string)

  const MAX_UPLOAD_ATTEMPTS := 5

  /** The names tried: the file's own, then numbered ones from a number on. */
  predicate TriedFrom(tried: seq<string>, name: string, first: nat) {
    && tried != [] && tried[0] == name
    && forall i :: 1 <= i < |tried| ==> tried[i] == SuffixFileName(name, first + (i - 1))
  }

  lemma NumbersTell(name: string, m: nat, n: nat)
    requires m != n
    ensures SuffixFileName(name, m) != SuffixFileName(name, n) && SuffixFileName(name, n) != name
  {
    SuffixedNamesDiffer(name, m, n);
  }

  lemma TwoTriedDiffer(tried: seq<string>, name: string, first: nat, i: nat, j: nat)
    requires TriedFrom(tried, name, first) && i < j < |tried|
    ensures tried[i] != tried[j]
  {
    NumbersTell(name, if i == 0 then first + j else first + (i - 1), first + (j - 1));
  }

  lemma TriedAreDistinct(tried: seq<string>, name: string, first: nat)
    requires TriedFrom(tried, name, first)
    ensures NoRepeats(tried)
  {
    forall i, j | 0 <= i < j < |tried|
      ensures tried[i] != tried[j]
    {
      TwoTriedDiffer(tried, name, first, i, j);
    }
  }

  lemma OneMoreTried(tried: seq<string>, name: string, first: nat, candidate: string)
    requires TriedFrom(tried, name, first) && candidate == SuffixFileName(name, first + (|tried| - 1))
    ensures TriedFrom(tried + [candidate], name, first)
  {
  }

  /** What came of the last name tried: the upload ends with a name stored, with a
      failure that is no conflict, or with the conflict of the last attempt. */
  function Concluded(last: string, attempts: nat, reply: Reply, listing: Listing): Option<Outcome> {
    match reply
    case Stored => Some(Uploaded(last))
    case Failed(e) => Some(Thrown(e))
    case Taken =>
      if attempts == MAX_UPLOAD_ATTEMPTS then Some(NameTaken)
      else if attempts == 1 && listing.NoListing? then Some(Thrown(listing.error))
      else None
  }

  /** How many names are tried, from attempt `a` on. */
  function Attempts(attio: nat -> Reply, listing: Listing, a: nat): (n: nat)
    requires 1 <= a <= MAX_UPLOAD_ATTEMPTS
    ensures a <= n <= MAX_UPLOAD_ATTEMPTS
    decreases MAX_UPLOAD_ATTEMPTS - a, listing
  {
    if Concluded("", a, attio(a), listing).Some? then a else Attempts(attio, listing, a + 1)
  }

  /** The names an upload tries: the file's own, the lowest number free of the
      names listed, and the numbers right after it. */
  ghost function Tried(name: string, attio: nat -> Reply, listing: Listing): (tried: seq<string>)
    ensures |tried| == Attempts(attio, listing, 1)
  {
    var first := if listing.Listing? then LowestFree(name, listing.names) else 0;
    var retries := Attempts(attio, listing, 1) - 1;
    [name] + seq(retries, i requires 0 <= i < retries => SuffixFileName(name, first + i))
  }

  lemma {:induction false} AttemptsAre(attio: nat -> Reply, listing: Listing, a: nat, n: nat)
    requires 1 <= a <= n <= MAX_UPLOAD_ATTEMPTS
    requires forall k :: a <= k < n ==> Concluded("", k, attio(k), listing).None?
    requires Concluded("", n, attio(n), listing).Some?
    ensures Attempts(attio, listing, a) == n
    decreases n - a
  {
    if a < n {
      AttemptsAre(attio, listing, a + 1, n);
    }
  }

  lemma TriedIs(tried: seq<string>, name: string, attio: nat -> Reply, listing: Listing, first: nat)
    requires 1 <= |tried| <= MAX_UPLOAD_ATTEMPTS && TriedFrom(tried, name, first)
    requires |tried| > 1 ==> listing.Listing? && IsLowestFree(name, listing.names, first)
    requires forall k :: 1 <= k < |tried| ==> Concluded("", k, attio(k), listing).None?
    requires Concluded("", |tried|, attio(|tried|), listing).Some?
    ensures tried == Tried(name, attio, listing)
  {
    AttemptsAre(attio, listing, 1, |tried|);
    if |tried| > 1 {
      LowestIsOne(name, listing.names, first, LowestFree(name, listing.names));
    }
  }

  /** An upload tries at most five names, no two alike: the file's own, the lowest
      number free of the names listed, and the numbers right after it; it goes on
      only past a conflict, and its outcome is the last reply's. */
  method UploadFile(name: string, attio: nat -> Reply, listing: Listing) returns (outcome: Outcome, tried: seq<string>, first: nat)
    ensures 1 <= |tried| <= MAX_UPLOAD_ATTEMPTS && TriedFrom(tried, name, first) && NoRepeats(tried)
    ensures |tried| > 1 ==> listing.Listing? && IsLowestFree(name, listing.names, first) && first <= |listing.names| + 1
    ensures forall a :: 1 <= a < |tried| ==> attio(a).Taken?
    ensures Concluded(tried[|tried| - 1], |tried|, attio(|tried|), listing) == Some(outcome)
    ensures tried == Tried(name, attio, listing)
    ensures attio(|tried|).Stored? ==> outcome == Uploaded(tried[|tried| - 1])
    ensures attio(|tried|).Failed? ==> outcome == Thrown(attio(|tried|).error)
    ensures attio(|tried|).Taken? ==>
      (|tried| == 5 && outcome == NameTaken) || (|tried| == 1 && listing.NoListing? && outcome == Thrown(listing.error))
  {
    var candidate, attempt, nextN := name, 1, 1;
    var existing: Option<set<string>> := None;
    tried, first := [], 1;
    while true
      invariant 1 <= attempt <= MAX_UPLOAD_ATTEMPTS && |tried| == attempt - 1
      invariant TriedFrom(tried + [candidate], name, first)
      invariant existing.Some? <==> attempt > 1
      invariant attempt > 1 ==> listing.Listing? && IsLowestFree(name, listing.names, first) && first <= |listing.names| + 1
      invariant attempt > 1 ==> nextN == first + (attempt - 2)
      invariant attempt == 1 ==> nextN == 1
      invariant forall a :: 1 <= a < attempt ==> attio(a).Taken? && Concluded("", a, attio(a), listing).None?
      decreases MAX_UPLOAD_ATTEMPTS - attempt
    {
      tried := tried + [candidate];
      assert TriedFrom(tried, name, first);
      assert NoRepeats(tried) by {
        TriedAreDistinct(tried, name, first);
      }
      if Concluded("", attempt, attio(attempt), listing).Some? {
        TriedIs(tried, name, attio, listing, first);
      }
      match attio(attempt) {
        case Stored => return Uploaded(candidate), tried, first;
        case Failed(e) => return Thrown(e), tried, first;
        case Taken =>
      }
      if attempt >= MAX_UPLOAD_ATTEMPTS {
        return NameTaken, tried, first;
      }
      if existing.Some? {
        nextN := nextN + 1;
      } else if listing.NoListing? {
        return Thrown(listing.error), tried, first;
      } else {
        existing := Some(listing.names);
        nextN := FirstFree(name, listing.names);
        first := nextN;
        assert TriedFrom(tried, name, first);
      }
      candidate := SuffixFileName(name, nextN);
      OneMoreTried(tried, name, first, candidate);
      attempt := attempt + 1;
    }
  }

  predicate IsFree(name: string, listed: set<string>, n: nat) {
    SuffixFileName(name, n) !in listed
  }

  /** The first retry's name is always free of the names listed. The retries after
      a race are not looked up again: they all are if and only if the numbers
      right after the lowest free one are. */
  lemma RetriesAreFreeIff(name: string, attio: nat -> Reply, listing: Listing)
    requires listing.Listing?
    ensures var tried, lowest := Tried(name, attio, listing), LowestFree(name, listing.names);
      && (|tried| > 1 ==> tried[1] !in listing.names)
      && ((forall i :: 1 <= i < |tried| ==> tried[i] !in listing.names)
          <==> forall n :: lowest < n < lowest + |tried| - 1 ==> IsFree(name, listing.names, n))
  {
    var tried, lowest := Tried(name, attio, listing), LowestFree(name, listing.names);
    forall i | 1 <= i < |tried|
      ensures tried[i] !in listing.names <==> IsFree(name, listing.names, lowest + (i - 1))
    {
      assert tried[i] == SuffixFileName(name, lowest + (i - 1));
    }
    if forall i :: 1 <= i < |tried| ==> tried[i] !in listing.names {
      forall n | lowest < n < lowest + |tried| - 1
        ensures IsFree(name, listing.names, n)
      {
        assert tried[n - lowest + 1] !in listing.names;
      }
    }
  }

  /** And each of them may be listed: an upload that loses every race, to a record
      that holds the file's name and the one numbered `k`, tries that one again. */
  lemma ARetryMayBeListed(name: string, k: nat)
    requires 2 <= k < MAX_UPLOAD_ATTEMPTS
    ensures var listing, attio := Listing({name, SuffixFileName(name, k)}), (a: nat) => Taken;
      var tried := Tried(name, attio, listing);
      |tried| == MAX_UPLOAD_ATTEMPTS && tried[k] in listing.names
  {
    var listing, attio := Listing({name, SuffixFileName(name, k)}), (a: nat) => Taken;
    SuffixedNamesDiffer(name, 1, k);
    SuffixedNamesDiffer(name, 1, 1);
    LowestIsOne(name, listing.names, 1, LowestFree(name, listing.names));
    AttemptsAre(attio, listing, 1, MAX_UPLOAD_ATTEMPTS);
  }
}
