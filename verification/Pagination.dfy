/**
 Listing a paginated collection of the fixture: follow `nextCursor` until it is
 null, refusing a cursor that is no string or has been followed before.
 */
module Pagination {
  import opened Outcomes

  /** The `nextCursor` of a page. */
  datatype Next = Null | Cursor(text: string) | NotAString

  /** What one request for a page comes back with. */
  datatype Response<Item> = RpcFailed | NoItems | Page(items: seq<Item>, next: Next)

  datatype ListError = RequestFailed | MissingField | BadCursor

  /** The response to the n-th request, given the cursor it asks for. */
  type Fixture<Item> = (nat, Option<string>) -> Response<Item>

  /** Every cursor the fixture can hand out. */
  ghost predicate HandsOut<Item(!new)>(fixture: Fixture<Item>, cursors: set<string>) {
    forall n, c :: fixture(n, c).Page? && fixture(n, c).next.Cursor? ==> fixture(n, c).next.text in cursors
  }

  /** The response to request `i` names the cursor of request `i + 1`. */
  ghost predicate Leads<Item>(fixture: Fixture<Item>, requests: seq<Option<string>>, i: nat) {
    && i + 1 < |requests|
    && var page := fixture(i, requests[i]);
       page.Page? && page.next.Cursor? && requests[i + 1] == Some(page.next.text)
  }

  /** Requests that follow one page chain: each asks for the cursor of the page before. */
  ghost predicate Follows<Item>(fixture: Fixture<Item>, requests: seq<Option<string>>) {
    && requests != [] && requests[0] == None
    && forall i :: 0 <= i < |requests| - 1 ==> Leads(fixture, requests, i)
  }

  predicate Distinct(requests: seq<Option<string>>) {
    forall i, j :: 0 <= i < j < |requests| ==> requests[i] != requests[j]
  }

  /** The items of all pages, in the order they were requested. */
  ghost function ItemsOf<Item>(fixture: Fixture<Item>, requests: seq<Option<string>>): seq<Item> {
    if requests == [] then []
    else
      var page := fixture(|requests| - 1, requests[|requests| - 1]);
      ItemsOf(fixture, requests[..|requests| - 1]) + if page.Page? then page.items else []
  }

  /** The outcome the last response decides. */
  ghost predicate Ends<Item>(
    fixture: Fixture<Item>, requests: seq<Option<string>>, r: Result<seq<Item>, ListError>)
    requires requests != []
  {
    var last := fixture(|requests| - 1, requests[|requests| - 1]);
    match r
    case Ok(items) => last.Page? && last.next == Null && items == ItemsOf(fixture, requests)
    case Err(RequestFailed) => last == RpcFailed
    case Err(MissingField) => last == NoItems
    case Err(BadCursor) =>
      last.Page? && last.next != Null && (last.next.Cursor? ==> Some(last.next.text) in requests)
  }

  lemma {:induction false} SubsetIsNoBigger<T>(a: set<T>, b: set<T>)
    requires a <= b
    ensures |a| <= |b|
    decreases |a|
  {
    if a != {} {
      var x :| x in a;
      SubsetIsNoBigger(a - {x}, b - {x});
    }
  }

  /** A walk that goes on to a new cursor. */
  lemma WalkAppend<Item>(fixture: Fixture<Item>, requests: seq<Option<string>>, text: string)
    requires Follows(fixture, requests) && Distinct(requests) && Some(text) !in requests
    requires var last := fixture(|requests| - 1, requests[|requests| - 1]);
             last.Page? && last.next == Cursor(text)
    ensures Follows(fixture, requests + [Some(text)]) && Distinct(requests + [Some(text)])
  {
    var longer, n := requests + [Some(text)], |requests|;
    assert forall i :: 0 <= i < n ==> longer[i] == requests[i];
    forall i | 0 <= i < n ensures Leads(fixture, longer, i) {
      if i < n - 1 { assert Leads(fixture, requests, i); }
    }
  }

  lemma ItemsAppend<Item>(fixture: Fixture<Item>, requests: seq<Option<string>>, cursor: Option<string>)
    ensures ItemsOf(fixture, requests + [cursor]) ==
            ItemsOf(fixture, requests) +
            if fixture(|requests|, cursor).Page? then fixture(|requests|, cursor).items else []
  {
    assert (requests + [cursor])[..|requests|] == requests;
  }

  lemma FirstWalk<Item>(fixture: Fixture<Item>)
    ensures Follows(fixture, [None]) && Distinct([None]) && ItemsOf(fixture, []) == []
  {
  }

  /** Follows the page chain; at most one request more than there are cursors, none twice. */
  method List<Item(!new)>(fixture: Fixture<Item>, ghost cursors: set<string>)
    returns (r: Result<seq<Item>, ListError>, requests: seq<Option<string>>)
    requires HandsOut(fixture, cursors)
    ensures Follows(fixture, requests) && Distinct(requests) && Ends(fixture, requests, r)
    ensures |requests| <= |cursors| + 1
  {
    FirstWalk(fixture);
    hide Follows, Distinct, ItemsOf;
    var items: seq<Item> := [];
    var seen: set<string> := {};
    var cursor: Option<string> := None;
    requests := [];
    ghost var asked: seq<Option<string>> := [None];
    while true
      invariant asked == requests + [cursor] && Follows(fixture, asked) && Distinct(asked)
      invariant items == ItemsOf(fixture, requests)
      invariant forall text :: text in seen <==> Some(text) in asked
      invariant seen <= cursors && |seen| == |requests|
      decreases |cursors| - |seen|
    {
      SubsetIsNoBigger(seen, cursors);
      ItemsAppend(fixture, requests, cursor);
      var page := fixture(|requests|, cursor);
      requests := requests + [cursor];
      match page {
        case RpcFailed => return Err(RequestFailed), requests;
        case NoItems => return Err(MissingField), requests;
        case Page(more, next) =>
          items := items + more;
          match next {
            case Null => return Ok(items), requests;
            case NotAString => return Err(BadCursor), requests;
            case Cursor(text) =>
              if text in seen { return Err(BadCursor), requests; }
              SubsetIsNoBigger(seen + {text}, cursors);
              WalkAppend(fixture, requests, text);
              seen := seen + {text};
              cursor := Some(text);
              asked := requests + [cursor];
          }
      }
    }
  }

  // -------------------------------------------------- fixtures without memory

  ghost predicate Stateless<Item(!new)>(fixture: Fixture<Item>) {
    forall m, n, c :: fixture(m, c) == fixture(n, c)
  }

  /** The pages from the first to one without a next cursor. */
  ghost predicate IsChain<Item>(fixture: Fixture<Item>, requests: seq<Option<string>>) {
    && Follows(fixture, requests)
    && var last := fixture(|requests| - 1, requests[|requests| - 1]); last.Page? && last.next == Null
  }

  /** Where two walks ask for the same cursor, they go on alike as long as both go on. */
  lemma {:induction false} WalksAgree<Item(!new)>(
    fixture: Fixture<Item>, a: seq<Option<string>>, i: nat, b: seq<Option<string>>, j: nat, k: nat)
    requires Stateless(fixture) && Follows(fixture, a) && Follows(fixture, b)
    requires i + k < |a| && j + k < |b| && a[i] == b[j]
    ensures a[i + k] == b[j + k]
    decreases k
  {
    if k > 0 {
      WalksAgree(fixture, a, i, b, j, k - 1);
      assert Leads(fixture, a, i + k - 1) && Leads(fixture, b, j + k - 1);
      assert fixture(i + k - 1, a[i + k - 1]) == fixture(j + k - 1, b[j + k - 1]);
    }
  }

  /** A walk that asks for a cursor twice never comes to an end. */
  lemma RepeatGoesOn<Item(!new)>(fixture: Fixture<Item>, walk: seq<Option<string>>, i: nat, j: nat)
    requires Stateless(fixture) && Follows(fixture, walk)
    requires i < j < |walk| && walk[i] == walk[j]
    ensures var last := fixture(|walk| - 1, walk[|walk| - 1]); last.Page? && last.next.Cursor?
  {
    var k := |walk| - 1 - j;
    WalksAgree(fixture, walk, i, walk, j, k);
    assert Leads(fixture, walk, i + k);
    assert fixture(i + k, walk[i + k]) == fixture(j + k, walk[j + k]);
  }

  /** A chain never asks for a cursor twice. */
  lemma ChainIsDistinct<Item(!new)>(fixture: Fixture<Item>, chain: seq<Option<string>>)
    requires Stateless(fixture) && IsChain(fixture, chain)
    ensures Distinct(chain)
  {
    forall i, j | 0 <= i < j < |chain| ensures chain[i] != chain[j] {
      if chain[i] == chain[j] { RepeatGoesOn(fixture, chain, i, j); }
    }
  }

  /** A walk that goes on after `requests` does so with a cursor that is new. */
  lemma LongerWalkGoesOn<Item(!new)>(
    fixture: Fixture<Item>, requests: seq<Option<string>>, walk: seq<Option<string>>)
    requires Follows(fixture, walk) && Distinct(walk) && 0 < |requests| < |walk|
    requires forall k :: 0 <= k < |requests| ==> walk[k] == requests[k]
    ensures var last := fixture(|requests| - 1, requests[|requests| - 1]);
            last.Page? && last.next.Cursor? && Some(last.next.text) !in requests
  {
    assert Leads(fixture, walk, |requests| - 1);
  }

  /**
   Against a fixture without memory, listing succeeds exactly when the page chain
   ends; the chain is then the one that was requested, and there is no other.
   */
  lemma ListsExactlyTheChain<Item(!new)>(
    fixture: Fixture<Item>, requests: seq<Option<string>>, r: Result<seq<Item>, ListError>,
    chain: seq<Option<string>>)
    requires Stateless(fixture) && Follows(fixture, requests) && Distinct(requests) && Ends(fixture, requests, r)
    ensures r.Ok? ==> IsChain(fixture, requests)
    ensures IsChain(fixture, chain) ==> chain == requests && r.Ok? && r.value == ItemsOf(fixture, chain)
  {
    if IsChain(fixture, chain) {
      ChainIsDistinct(fixture, chain);
      forall k | 0 <= k < |chain| && k < |requests| ensures chain[k] == requests[k] {
        WalksAgree(fixture, chain, 0, requests, 0, k);
      }
      if |requests| < |chain| { LongerWalkGoesOn(fixture, requests, chain); }
      if |chain| < |requests| { LongerWalkGoesOn(fixture, chain, requests); }
      assert chain == requests;
    }
  }
}
