/** The candidate resolver inside `scrape_product`: the first candidate product whose
    `urlKey` fits the requested or the final URL, with the `if not product` check after it. */
module Resolve {
  import opened Wrappers
  import opened Errors
  import opened Text
  import opened Json

  /** What the generator's filter does with one candidate: keeps it, skips it, or raises
      (Python's TypeError, which the generator does not catch). */
  datatype Verdict = Accept | Reject | Raise

  /** The key the candidates are matched on. */
  function UrlKeyName(): string
  {
    "urlKey"
  }

  /** Python `'urlKey' in p`: a key test on a dict, an element test on a list, a substring
      test on a string; None where Python raises TypeError (null, booleans and numbers). */
  function HasUrlKey(p: Value): (r: Option<bool>)
    ensures r.None? <==> (p.Null? || p.Bool? || p.Number?)
    ensures p.Object? ==> r == Some(HasKey(p.members, UrlKeyName()))
  {
    match p
    case Object(members) => Some(HasKey(members, UrlKeyName()))
    case Array(items) => Some(Str(UrlKeyName()) in items)
    case Str(s) => Some(Contains(s, UrlKeyName()))
    case _ => None
  }

  /** The string stored under `urlKey` in an object candidate. */
  ghost predicate UrlKeyIs(p: Value, key: string)
  {
    p.Object? && Get(p.members, UrlKeyName()) == Some(Str(key))
  }

  /** The filter of lines 87-92 for one candidate. After `'urlKey' in p` holds, `p['urlKey']`
      raises on a list or a string, and `in str(response.url)` raises unless the value is a
      string. Only when that first test is False does `or` evaluate the second test, on the
      same string: the last '/'-segment of the requested URL must occur in it. */
  function Test(p: Value, url: string, finalUrl: string): (v: Verdict)
    ensures v == Accept ==> p.Object? && HasKey(p.members, UrlKeyName())
    ensures v == Accept <==> exists key :: UrlKeyIs(p, key) && (IsInfix(key, finalUrl) || IsInfix(LastSegment(url), key))
    ensures v == Raise <==>
              || p.Null? || p.Bool? || p.Number?
              || (p.Array? && Str(UrlKeyName()) in p.items)
              || (p.Str? && IsInfix(UrlKeyName(), p.s))
              || (p.Object? && HasKey(p.members, UrlKeyName()) && !Get(p.members, UrlKeyName()).value.Str?)
  {
    assert p.Str? ==> (Contains(p.s, UrlKeyName()) <==> IsInfix(UrlKeyName(), p.s)) by {
      if p.Str? { ContainsIsInfix(p.s, UrlKeyName()); }
    }
    match HasUrlKey(p)
    case None => Raise
    case Some(false) => Reject
    case Some(true) =>
      if !p.Object? then Raise
      else
        var value := Get(p.members, UrlKeyName()).value;
        if !value.Str? then Raise
        else
          var key := value.s;
          assert UrlKeyIs(p, key);
          ContainsIsInfix(finalUrl, key);
          ContainsIsInfix(key, LastSegment(url));
          if Contains(finalUrl, key) || Contains(key, LastSegment(url)) then Accept else Reject
  }

  /** Candidate `i` is the first one, from `from` on, that the filter does not skip. */
  ghost predicate FirstDecided(candidates: seq<Value>, url: string, finalUrl: string, from: nat, i: int)
  {
    && from <= i < |candidates|
    && Test(candidates[i], url, finalUrl) != Reject
    && forall k :: from <= k < i ==> Test(candidates[k], url, finalUrl) == Reject
  }

  /** `next((p for p in candidates if ...), None)` from candidate `from` on: the first
      accepted candidate, None when every candidate is skipped, or the TypeError of the first
      candidate that raises before any is accepted. */
  function NextMatch(candidates: seq<Value>, url: string, finalUrl: string, from: nat): (r: Result<Option<Value>, Error>)
    requires from <= |candidates|
    ensures r == Success(None) <==> forall k :: from <= k < |candidates| ==> Test(candidates[k], url, finalUrl) == Reject
    ensures r.Success? && r.value.Some? ==>
              exists i :: FirstDecided(candidates, url, finalUrl, from, i)
                          && Test(candidates[i], url, finalUrl) == Accept && candidates[i] == r.value.value
    ensures r.Failure? ==>
              r.error == CandidateTypeError
              && exists i :: FirstDecided(candidates, url, finalUrl, from, i) && Test(candidates[i], url, finalUrl) == Raise
    decreases |candidates| - from
  {
    if from == |candidates| then Success(None)
    else match Test(candidates[from], url, finalUrl)
      case Accept =>
        assert FirstDecided(candidates, url, finalUrl, from, from);
        Success(Some(candidates[from]))
      case Raise =>
        assert FirstDecided(candidates, url, finalUrl, from, from);
        Failure(CandidateTypeError)
      case Reject =>
        var r := NextMatch(candidates, url, finalUrl, from + 1);
        FirstDecidedAfterReject(candidates, url, finalUrl, from);
        r
  }

  /** A skipped candidate at `from` moves the search for the first decided one on by one. */
  lemma FirstDecidedAfterReject(candidates: seq<Value>, url: string, finalUrl: string, from: nat)
    requires from < |candidates|
    requires Test(candidates[from], url, finalUrl) == Reject
    ensures forall j :: FirstDecided(candidates, url, finalUrl, from + 1, j) ==> FirstDecided(candidates, url, finalUrl, from, j)
  {
  }

  /** Python truthiness of a document: `null`, `false`, 0 and empty strings, arrays and
      objects are false. */
  predicate Truthy(v: Value)
  {
    match v
    case Null => false
    case Bool(b) => b
    case Number(n) => n != 0
    case Str(s) => |s| > 0
    case Array(items) => |items| > 0
    case Object(members) => |members| > 0
  }

  /** Lines 87-96: the matched candidate, or `ProductExtractionFailed` when the generator
      is exhausted or yields a false value. */
  function ResolveProduct(candidates: seq<Value>, url: string, finalUrl: string): (r: Result<Value, Error>)
    ensures r.Failure? ==> r.error == ProductExtractionFailed || r.error == CandidateTypeError
  {
    match NextMatch(candidates, url, finalUrl, 0)
    case Failure(e) => Failure(e)
    case Success(None) => Failure(ProductExtractionFailed)
    case Success(Some(p)) => if !Truthy(p) then Failure(ProductExtractionFailed) else Success(p)
  }

  // ---------------------------------------------------------------------------
  // Properties

  /** Every accepted candidate is a non-empty object, so the `if not product` check
      fires only when no candidate was accepted. */
  lemma AcceptedIsTruthy(p: Value, url: string, finalUrl: string)
    requires Test(p, url, finalUrl) == Accept
    ensures Truthy(p)
  {
  }

  /** At most one candidate is the first decided one. */
  lemma FirstDecidedUnique(candidates: seq<Value>, url: string, finalUrl: string, from: nat, i: int, j: int)
    requires FirstDecided(candidates, url, finalUrl, from, i) && FirstDecided(candidates, url, finalUrl, from, j)
    ensures i == j
  {
  }

  /** The first candidate the filter does not skip decides the outcome: its own value when
      it is accepted, a TypeError when testing it raises. Candidates after it are never
      looked at. */
  lemma ResolveFirstDecided(candidates: seq<Value>, url: string, finalUrl: string, i: nat)
    requires FirstDecided(candidates, url, finalUrl, 0, i)
    ensures Test(candidates[i], url, finalUrl) == Accept ==> ResolveProduct(candidates, url, finalUrl) == Success(candidates[i])
    ensures Test(candidates[i], url, finalUrl) == Raise ==> ResolveProduct(candidates, url, finalUrl) == Failure(CandidateTypeError)
  {
    var r := NextMatch(candidates, url, finalUrl, 0);
    assert r != Success(None);
    if r.Success? {
      var j :| FirstDecided(candidates, url, finalUrl, 0, j) && Test(candidates[j], url, finalUrl) == Accept && candidates[j] == r.value.value;
      FirstDecidedUnique(candidates, url, finalUrl, 0, i, j);
      AcceptedIsTruthy(candidates[i], url, finalUrl);
    } else {
      var j :| FirstDecided(candidates, url, finalUrl, 0, j) && Test(candidates[j], url, finalUrl) == Raise;
      FirstDecidedUnique(candidates, url, finalUrl, 0, i, j);
    }
  }

  /** Resolution fails with `ProductExtractionFailed` exactly when the filter skips every
      candidate, in particular when there are none. */
  lemma ResolveFailsIffAllSkipped(candidates: seq<Value>, url: string, finalUrl: string)
    ensures ResolveProduct(candidates, url, finalUrl) == Failure(ProductExtractionFailed)
            <==> forall k :: 0 <= k < |candidates| ==> Test(candidates[k], url, finalUrl) == Reject
  {
    var r := NextMatch(candidates, url, finalUrl, 0);
    if r.Success? && r.value.Some? {
      var i :| FirstDecided(candidates, url, finalUrl, 0, i) && Test(candidates[i], url, finalUrl) == Accept && candidates[i] == r.value.value;
      AcceptedIsTruthy(candidates[i], url, finalUrl);
    }
  }

  /** When every candidate is an object whose `urlKey`, if it has one, is a string, no test
      raises, and "Product data extraction failed" is raised exactly when no candidate is
      accepted. */
  lemma ResolveFailsIffNoneAccepted(candidates: seq<Value>, url: string, finalUrl: string)
    requires forall k :: 0 <= k < |candidates| ==>
               candidates[k].Object?
               && (HasKey(candidates[k].members, UrlKeyName()) ==> Get(candidates[k].members, UrlKeyName()).value.Str?)
    ensures ResolveProduct(candidates, url, finalUrl) == Failure(ProductExtractionFailed)
            <==> forall k :: 0 <= k < |candidates| ==> Test(candidates[k], url, finalUrl) != Accept
  {
    assert forall k :: 0 <= k < |candidates| ==> Test(candidates[k], url, finalUrl) != Raise;
    ResolveFailsIffAllSkipped(candidates, url, finalUrl);
  }

  /** A returned product is one of the candidates, accepted by the filter: an object whose
      `urlKey` is a string that occurs in the final URL or contains the requested URL's
      last segment. */
  lemma ResolvedIsAcceptedCandidate(candidates: seq<Value>, url: string, finalUrl: string)
    requires ResolveProduct(candidates, url, finalUrl).Success?
    ensures var p := ResolveProduct(candidates, url, finalUrl).value;
            && p in candidates
            && exists key :: UrlKeyIs(p, key) && (IsInfix(key, finalUrl) || IsInfix(LastSegment(url), key))
  {
    var r := NextMatch(candidates, url, finalUrl, 0);
    var i :| FirstDecided(candidates, url, finalUrl, 0, i) && Test(candidates[i], url, finalUrl) == Accept && candidates[i] == r.value.value;
  }

  /** Candidates without a `urlKey` member are skipped: a matching candidate after any
      number of them is still found. */
  lemma LaterMatchIsFound(skipped: seq<Value>, p: Value, rest: seq<Value>, url: string, finalUrl: string)
    requires forall k :: 0 <= k < |skipped| ==> skipped[k].Object? && !HasKey(skipped[k].members, UrlKeyName())
    requires Test(p, url, finalUrl) == Accept
    ensures ResolveProduct(skipped + [p] + rest, url, finalUrl) == Success(p)
  {
    var candidates := skipped + [p] + rest;
    assert forall k :: 0 <= k < |skipped| ==> candidates[k] == skipped[k];
    assert candidates[|skipped|] == p;
    assert FirstDecided(candidates, url, finalUrl, 0, |skipped|);
    ResolveFirstDecided(candidates, url, finalUrl, |skipped|);
  }

  /** An object whose `urlKey` is empty is accepted: the empty string is in every URL. */
  lemma EmptyUrlKeyMatches(members: seq<Member>, url: string, finalUrl: string)
    requires Get(members, UrlKeyName()) == Some(Str([]))
    ensures Test(Object(members), url, finalUrl) == Accept
  {
    assert OccursAt([], finalUrl, 0);
    assert UrlKeyIs(Object(members), []);
  }

  /** When the requested URL ends in '/', its last segment is empty, so every object with a
      string `urlKey` is accepted. */
  lemma TrailingSlashMatchesAnyStringKey(members: seq<Member>, key: string, url: string, finalUrl: string)
    requires Get(members, UrlKeyName()) == Some(Str(key))
    requires |url| > 0 && url[|url| - 1] == '/'
    ensures Test(Object(members), url, finalUrl) == Accept
  {
    TrailingSlashGivesEmptySegment(url);
    assert OccursAt(LastSegment(url), key, 0);
    assert UrlKeyIs(Object(members), key);
  }

  /** For a candidate with distinct keys, as every parsed dictionary has, its `urlKey` is the
      string of whichever member carries that key. */
  lemma UrlKeyIsStoredMember(members: seq<Member>, key: string)
    requires DistinctKeys(members)
    ensures UrlKeyIs(Object(members), key) <==> exists i :: 0 <= i < |members| && members[i] == Member(UrlKeyName(), Str(key))
  {
    if exists i :: 0 <= i < |members| && members[i] == Member(UrlKeyName(), Str(key)) {
      var i :| 0 <= i < |members| && members[i] == Member(UrlKeyName(), Str(key));
      GetDistinct(members, i);
    }
  }

  /** A `urlKey` that is not a string aborts resolution with a TypeError when its candidate is
      reached: Python cannot test a non-string for being in a string. */
  lemma NonStringUrlKeyRaises(members: seq<Member>, url: string, finalUrl: string)
    requires Get(members, UrlKeyName()).Some? && !Get(members, UrlKeyName()).value.Str?
    ensures Test(Object(members), url, finalUrl) == Raise
  {
  }
}
