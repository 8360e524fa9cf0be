/** The `paginated` generator: a cursor-paginated listing read page by page. */
module Pagination {
  import opened Wrappers

  /** A failure raised by the remote service (a `SpotifyException`). */
  datatype ApiError = ApiError(status: int, message: string)

  /** One page of a listing: its items and the URL of the following page. */
  datatype Page<T> = Page(items: seq<T>, next: Option<string>)

  /** What one call to the first-page producer or to the continuation gave back:
      a page, nothing (Python `None`, or an empty and therefore falsy page), or
      an exception. */
  datatype Response<T> = Got(page: Page<T>) | Nothing | Raised(error: ApiError)

  /** What a consumer of the generator observes: the pages yielded, in order,
      then either normal exhaustion or the exception re-raised. */
  datatype Pages<T> = Pages(yielded: seq<Page<T>>, raised: Option<ApiError>)

  /** Whether a page's continuation cursor is truthy in Python: present and not the empty string. */
  predicate HasNext<T>(p: Page<T>)
  {
    p.next.Some? && p.next.value != ""
  }

  /** The remote side. `remote[0]` is what the producer returns and `remote[i + 1]`
      is what the continuation returns for the page in `remote[i]`; past the end
      of the sequence the service has nothing more to give. */
  function At<T>(remote: seq<Response<T>>, i: nat): (r: Response<T>)
  {
    if i < |remote| then remote[i] else Nothing
  }

  /** The exception carried by a response that ends the loop, if any. */
  function ErrorOf<T>(response: Response<T>): (r: Option<ApiError>)
  {
    if response.Raised? then Some(response.error) else None
  }

  /** The generator's observable behaviour, stated independently of how it is
      computed, for the listing read from position `i` on: it yields the pages
      it received, in order, each one asked for because its predecessor had a
      truthy `next`; it stops quietly after a page whose `next` is falsy; and
      otherwise it stops at the first response that is not a page, re-raising
      it if it was an exception. */
  ghost predicate YieldsFrom<T>(remote: seq<Response<T>>, i: nat, o: Pages<T>)
  {
    var n := |o.yielded|;
    && i + n <= |remote|
    && (forall k :: 0 <= k < n ==> remote[i + k] == Got(o.yielded[k]))
    && (forall k :: 0 <= k < n - 1 ==> HasNext(o.yielded[k]))
    && (if n == 0 || HasNext(o.yielded[n - 1])
        then !At(remote, i + n).Got? && o.raised == ErrorOf(At(remote, i + n))
        else o.raised == None)
  }

  /** The behaviour of a whole listing. */
  ghost predicate Yields<T>(remote: seq<Response<T>>, o: Pages<T>)
  {
    YieldsFrom(remote, 0, o)
  }

  /** The generator resumed at position `i` of the listing. */
  function From<T>(remote: seq<Response<T>>, i: nat): (o: Pages<T>)
    requires i <= |remote|
    ensures YieldsFrom(remote, i, o)
    decreases |remote| - i
  {
    if i == |remote| then Pages([], None)
    else
      match remote[i]
      case Nothing => Pages([], None)
      case Raised(e) => Pages([], Some(e))
      case Got(p) =>
        if HasNext(p) then
          var rest := From(remote, i + 1);
          Pages([p] + rest.yielded, rest.raised)
        else Pages([p], None)
  }

  /** `paginated(func, next_page)`: the pages the generator yields and whether it
      ends by re-raising an exception. */
  function Paginate<T>(remote: seq<Response<T>>): (o: Pages<T>)
    ensures Yields(remote, o)
    ensures |o.yielded| <= |remote|
    ensures At(remote, 0).Nothing? ==> o == Pages([], None)
  {
    From(remote, 0)
  }

  /** The description `Yields` pins the behaviour down: two outcomes that both satisfy
      it are the same outcome. */
  lemma YieldsUnique<T>(remote: seq<Response<T>>, a: Pages<T>, b: Pages<T>)
    requires Yields(remote, a) && Yields(remote, b)
    ensures a == b
  {
    SamePrefix(remote, a, b);
    SamePrefix(remote, b, a);
    assert |a.yielded| == |b.yielded|;
    assert a.yielded == b.yielded;
  }

  /** Neither outcome can yield more pages than the other. */
  lemma SamePrefix<T>(remote: seq<Response<T>>, a: Pages<T>, b: Pages<T>)
    requires Yields(remote, a) && Yields(remote, b)
    ensures |a.yielded| <= |b.yielded|
  {
    var na, nb := |a.yielded|, |b.yielded|;
    if nb < na {
      LaterPageWasRequested(remote, a, nb);
      assert false;
    }
  }

  /** Every page after the first that an outcome yields was asked for by the
      page before it, and came back as a page. */
  lemma LaterPageWasRequested<T>(remote: seq<Response<T>>, a: Pages<T>, n: nat)
    requires Yields(remote, a) && n < |a.yielded|
    ensures At(remote, n) == Got(a.yielded[n])
    ensures n > 0 ==> HasNext(a.yielded[n - 1])
  {
  }

  /** Any outcome meeting the description `Yields` is exactly what `Paginate` returns. */
  lemma YieldsIsPaginate<T>(remote: seq<Response<T>>, o: Pages<T>)
    requires Yields(remote, o)
    ensures o == Paginate(remote)
  {
    YieldsUnique(remote, o, Paginate(remote));
  }

  /** Pages p0..pn where every page but the last has a truthy `next` are yielded
      exactly, in order, and the generator then stops without error, whatever the
      service would have answered afterwards. */
  lemma PaginateStopsAfterLastPage<T>(pages: seq<Page<T>>, after: seq<Response<T>>)
    requires |pages| > 0
    requires forall k :: 0 <= k < |pages| - 1 ==> HasNext(pages[k])
    requires !HasNext(pages[|pages| - 1])
    ensures Paginate(Responses(pages) + after) == Pages(pages, None)
  {
    var remote := Responses(pages) + after;
    assert Yields(remote, Pages(pages, None));
    YieldsIsPaginate(remote, Pages(pages, None));
  }

  /** If the producer or a continuation raises after pages p0..p(n-1), each of
      which asked for its successor, the generator yields exactly those pages and
      then re-raises that exception. */
  lemma PaginateRaisesAfterPrefix<T>(pages: seq<Page<T>>, e: ApiError, after: seq<Response<T>>)
    requires forall k :: 0 <= k < |pages| ==> HasNext(pages[k])
    ensures Paginate(Responses(pages) + [Raised(e)] + after) == Pages(pages, Some(e))
  {
    var remote := Responses(pages) + [Raised(e)] + after;
    assert At(remote, |pages|) == Raised(e);
    assert Yields(remote, Pages(pages, Some(e)));
    YieldsIsPaginate(remote, Pages(pages, Some(e)));
  }

  /** Each page delivered as a successful response. */
  function Responses<T>(pages: seq<Page<T>>): (r: seq<Response<T>>)
    ensures |r| == |pages|
    ensures forall k :: 0 <= k < |pages| ==> r[k] == Got(pages[k])
  {
    seq(|pages|, k requires 0 <= k < |pages| => Got(pages[k]))
  }

  /** The generator's `while page:` loop, written as a loop. */
  method Drain<T>(remote: seq<Response<T>>) returns (o: Pages<T>)
    ensures Yields(remote, o)
    ensures o == Paginate(remote)
  {
    var yielded: seq<Page<T>> := [];
    var response := At(remote, 0);
    while response.Got?
      invariant |yielded| <= |remote|
      invariant forall k :: 0 <= k < |yielded| ==> remote[k] == Got(yielded[k])
      invariant forall k :: 0 <= k < |yielded| - 1 ==> HasNext(yielded[k])
      invariant |yielded| == 0 || HasNext(yielded[|yielded| - 1]) ==> response == At(remote, |yielded|)
      invariant |yielded| > 0 && !HasNext(yielded[|yielded| - 1]) ==> response == Nothing
      decreases |remote| - |yielded|
    {
      var page := response.page;
      yielded := yielded + [page];
      response := if HasNext(page) then At(remote, |yielded|) else Nothing;
    }
    o := Pages(yielded, ErrorOf(response));
    YieldsIsPaginate(remote, o);
  }
}
