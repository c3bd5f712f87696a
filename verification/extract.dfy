/** The data-island extractor (`extract_next_data`): three regex strategies tried in a fixed
    order, a cleanup of the captured text, and a JSON parse; the first strategy that both
    matches and parses wins. The regex searches and the JSON parser are parameters. */
module Extract {
  import opened Wrappers
  import opened Errors
  import opened Text
  import opened Json
  import opened CaptureCleanup

  // ---------------------------------------------------------------------------
  // Strategies

  /** What `re.search` returns on a hit, reduced to its capture groups:
      `groups[k]` is the text of group k + 1. */
  datatype Match = Match(groups: seq<string>)

  /** `m.group(n)` for n >= 1; None where Python raises IndexError ("no such group"). */
  function Group(m: Match, n: nat): (r: Option<string>)
    requires n >= 1
    ensures r.Some? <==> n <= |m.groups|
  {
    if n <= |m.groups| then Some(m.groups[n - 1]) else None
  }

  /** One strategy: a search over the page, returning the match object or nothing. */
  type Strategy = string -> Option<Match>

  /** A search with a pattern that has one capture group; `find` gives that group's text. */
  function CapturingSearch(find: string -> Option<string>): Strategy
  {
    h => match find(h)
      case None => None
      case Some(text) => Some(Match([text]))
  }

  /** A search with a pattern that has no capture group; `find` gives the matched text,
      which the match object carries only as group 0. */
  function PlainSearch(find: string -> Option<string>): Strategy
  {
    h => match find(h)
      case None => None
      case Some(_) => Some(Match([]))
  }

  /** The three strategies in their fixed order (lines 45-54): the `__NEXT_DATA__` script
      element, the `data-name="query"` script element, and a loose object with a
      "product" member, whose pattern has no capture group. */
  function NextDataStrategies(
    byId: string -> Option<string>,
    byDataName: string -> Option<string>,
    productLike: string -> Option<string>): seq<Strategy>
  {
    [CapturingSearch(byId), CapturingSearch(byDataName), PlainSearch(productLike)]
  }

  /** One pass of the loop body (lines 57-67): search, take group 1, clean, parse. A missing
      group and a failed parse both raise inside the `try` and are caught, so they give None
      just like a missed search. */
  function Attempt(strategy: Strategy, html: string, parse: string -> Option<Value>): Option<Value>
  {
    match strategy(html)
    case None => None
    case Some(m) =>
      match Group(m, 1)
      case None => None
      case Some(text) => parse(Cleanup(text))
  }

  /** Strategy `i` is the first one, from `from` on, that matches and parses. */
  ghost predicate FirstHit(strategies: seq<Strategy>, html: string, parse: string -> Option<Value>, from: nat, i: int)
  {
    && from <= i < |strategies|
    && Attempt(strategies[i], html, parse).Some?
    && forall k :: from <= k < i ==> Attempt(strategies[k], html, parse).None?
  }

  /** Some strategy, from `from` on, matches and parses. */
  ghost predicate AnyHit(strategies: seq<Strategy>, html: string, parse: string -> Option<Value>, from: nat)
  {
    exists i :: from <= i < |strategies| && Attempt(strategies[i], html, parse).Some?
  }

  /** The strategy loop (lines 56-69) from strategy `from` on: the parse of the first strategy
      that matches and parses; `NoNextDataFound` when none does. */
  function ExtractFrom(strategies: seq<Strategy>, from: nat, html: string, parse: string -> Option<Value>): (r: Result<Value, Error>)
    requires from <= |strategies|
    ensures r.Success? <==> AnyHit(strategies, html, parse, from)
    ensures r.Success? ==> exists i :: FirstHit(strategies, html, parse, from, i)
                                      && Attempt(strategies[i], html, parse) == Some(r.value)
    ensures r.Failure? ==> r.error == NoNextDataFound
    decreases |strategies| - from
  {
    if from == |strategies| then Failure(NoNextDataFound)
    else match Attempt(strategies[from], html, parse)
      case Some(doc) =>
        assert FirstHit(strategies, html, parse, from, from);
        assert AnyHit(strategies, html, parse, from);
        Success(doc)
      case None =>
        var r := ExtractFrom(strategies, from + 1, html, parse);
        FirstHitAfterMiss(strategies, html, parse, from);
        r
  }

  /** A miss at `from` moves the search for a hit, and for the first hit, on by one. */
  lemma FirstHitAfterMiss(strategies: seq<Strategy>, html: string, parse: string -> Option<Value>, from: nat)
    requires from < |strategies|
    requires Attempt(strategies[from], html, parse).None?
    ensures AnyHit(strategies, html, parse, from) <==> AnyHit(strategies, html, parse, from + 1)
    ensures forall j :: FirstHit(strategies, html, parse, from + 1, j) ==> FirstHit(strategies, html, parse, from, j)
  {
  }

  /** `extract_next_data(html)`. */
  function ExtractNextData(
    html: string,
    byId: string -> Option<string>,
    byDataName: string -> Option<string>,
    productLike: string -> Option<string>,
    parse: string -> Option<Value>): Result<Value, Error>
  {
    ExtractFrom(NextDataStrategies(byId, byDataName, productLike), 0, html, parse)
  }

  // ---------------------------------------------------------------------------
  // Properties

  /** What a strategy with a capture group produces, stated directly: the parse of the
      cleaned capture, when the search hits. */
  function ParsedCapture(find: string -> Option<string>, html: string, parse: string -> Option<Value>): Option<Value>
  {
    match find(html)
    case None => None
    case Some(text) => parse(Cleanup(text))
  }

  /** A capturing strategy yields exactly the parse of its cleaned capture. */
  lemma CapturingAttempt(find: string -> Option<string>, html: string, parse: string -> Option<Value>)
    ensures Attempt(CapturingSearch(find), html, parse) == ParsedCapture(find, html, parse)
  {
  }

  /** The group-less third strategy never yields a document, whatever it matches and whatever
      the parser would make of it: `match.group(1)` raises and the handler swallows it. */
  lemma PlainSearchNeverYields(find: string -> Option<string>, html: string, parse: string -> Option<Value>)
    ensures Attempt(PlainSearch(find), html, parse) == None
  {
  }

  /** At most one strategy is the first hit. */
  lemma FirstHitUnique(strategies: seq<Strategy>, html: string, parse: string -> Option<Value>, from: nat, i: int, j: int)
    requires FirstHit(strategies, html, parse, from, i) && FirstHit(strategies, html, parse, from, j)
    ensures i == j
  {
  }

  /** The first hit decides the result: whichever strategy comes first among those that match
      and parse, its document is returned. */
  lemma ExtractFromFirstHit(strategies: seq<Strategy>, from: nat, html: string, parse: string -> Option<Value>, i: nat)
    requires FirstHit(strategies, html, parse, from, i)
    ensures ExtractFrom(strategies, from, html, parse) == Success(Attempt(strategies[i], html, parse).value)
  {
    var r := ExtractFrom(strategies, from, html, parse);
    assert r.Success?;
    var j :| FirstHit(strategies, html, parse, from, j) && Attempt(strategies[j], html, parse) == Some(r.value);
    FirstHitUnique(strategies, html, parse, from, i, j);
  }

  /** The whole outcome of `extract_next_data`: the first capturing strategy's document if it
      matches and parses, else the second's, else `NoNextDataFound`. The third strategy's
      search plays no part. */
  lemma ExtractNextDataOutcome(
    html: string,
    byId: string -> Option<string>,
    byDataName: string -> Option<string>,
    productLike: string -> Option<string>,
    parse: string -> Option<Value>)
    ensures var first, second := ParsedCapture(byId, html, parse), ParsedCapture(byDataName, html, parse);
            ExtractNextData(html, byId, byDataName, productLike, parse)
              == if first.Some? then Success(first.value)
                 else if second.Some? then Success(second.value)
                 else Failure(NoNextDataFound)
  {
    var strategies := NextDataStrategies(byId, byDataName, productLike);
    var first, second := ParsedCapture(byId, html, parse), ParsedCapture(byDataName, html, parse);
    CapturingAttempt(byId, html, parse);
    CapturingAttempt(byDataName, html, parse);
    PlainSearchNeverYields(productLike, html, parse);
    assert Attempt(strategies[0], html, parse) == first;
    assert Attempt(strategies[1], html, parse) == second;
    assert Attempt(strategies[2], html, parse) == None;
    if first.Some? {
      assert FirstHit(strategies, html, parse, 0, 0);
      ExtractFromFirstHit(strategies, 0, html, parse, 0);
    } else if second.Some? {
      assert FirstHit(strategies, html, parse, 0, 1);
      ExtractFromFirstHit(strategies, 0, html, parse, 1);
    } else {
      assert forall i :: 0 <= i < |strategies| ==> Attempt(strategies[i], html, parse).None?;
    }
  }

  /** A page whose `__NEXT_DATA__` element holds `window.__NEXT_DATA__ = <json>;` gives the
      parse of `<json>`, whatever the other strategies would find. */
  lemma ExtractsAssignedNextData(
    html: string,
    byId: string -> Option<string>,
    byDataName: string -> Option<string>,
    productLike: string -> Option<string>,
    parse: string -> Option<Value>,
    w1: string, w2: string, w3: string, json: string, semicolons: string, w4: string, doc: Value)
    requires AllSpace(w1) && AllSpace(w2) && AllSpace(w3) && AllSpace(w4)
    requires |json| > 0 && !IsSpace(json[0]) && !IsSpace(json[|json| - 1]) && json[|json| - 1] != ';'
    requires forall i :: 0 <= i < |semicolons| ==> semicolons[i] == ';'
    requires byId(html) == Some(w1 + NextDataName() + w2 + "=" + w3 + json + semicolons + w4)
    requires parse(json) == Some(doc)
    ensures ExtractNextData(html, byId, byDataName, productLike, parse) == Success(doc)
  {
    CleanupDropsNextDataAssignment(w1, w2, w3, json, semicolons, w4);
    ExtractNextDataOutcome(html, byId, byDataName, productLike, parse);
  }

  /** When neither capturing strategy yields a document the call fails with `NoNextDataFound`,
      even if the third pattern matches text that would parse. */
  lemma ExtractFailsWithoutCapture(
    html: string,
    byId: string -> Option<string>,
    byDataName: string -> Option<string>,
    productLike: string -> Option<string>,
    parse: string -> Option<Value>)
    requires ParsedCapture(byId, html, parse).None? && ParsedCapture(byDataName, html, parse).None?
    ensures ExtractNextData(html, byId, byDataName, productLike, parse) == Failure(NoNextDataFound)
  {
    ExtractNextDataOutcome(html, byId, byDataName, productLike, parse);
  }
}
