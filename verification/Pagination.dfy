/** common/pagination_range.h: a paged List RPC seen as one stream of items. */
module Pagination {
  import opened Basics

  datatype Page<+T> = Page(items: seq<T>, next: string)

  /** The List RPC: from the number of earlier calls and the page token to a page, or an error. */
  type Loader<!T> = (nat, string) -> Option<Page<T>>

  /** What one step of the iteration produces. */
  datatype Element<+T> = Value(value: T) | Error | End

  // ---------------------------------------------------------------------------------------
  // The server's side of the conversation
  // ---------------------------------------------------------------------------------------

  /** The token that call `k` must carry: that of the previous response. */
  ghost function TokenFor<T>(load: Loader<T>, k: nat): string {
    if k == 0 then ""
    else
      match load(k - 1, TokenFor(load, k - 1))
      case None => ""
      case Some(page) => page.next
  }

  ghost function Response<T>(load: Loader<T>, k: nat): Option<Page<T>> {
    load(k, TokenFor(load, k))
  }

  ghost function Tokens<T>(load: Loader<T>, n: nat): seq<string> {
    if n == 0 then [] else Tokens(load, n - 1) + [TokenFor(load, n - 1)]
  }

  /** Response `k` announces another page and is not empty. */
  ghost predicate Continues<T>(load: Loader<T>, k: nat) {
    && Response(load, k).Some?
    && Response(load, k).value.next != "" && Response(load, k).value.items != []
  }

  /** Response `last` is the first that is an error, the final page, or an empty page. */
  ghost predicate StopsAt<T>(load: Loader<T>, last: nat) {
    (forall k :: 0 <= k < last ==> Continues(load, k)) && !Continues(load, last)
  }

  /** The items of the first `n` pages. */
  ghost function PageItems<T>(load: Loader<T>, n: nat): seq<T> {
    if n == 0 then [] else PageItems(load, n - 1) + ItemsOf(Response(load, n - 1))
  }

  ghost function ItemsOf<T>(response: Option<Page<T>>): seq<T> {
    match response
    case None => []
    case Some(page) => page.items
  }

  lemma StopIsUnique<T>(load: Loader<T>, last: nat, k: nat)
    requires StopsAt(load, last) && k <= last
    ensures k == last <==> !Continues(load, k)
  {
  }

  /** An empty page that announces another one: the iteration stops there and misses an item. */
  lemma EmptyPageStops<T>(x: T)
    ensures var load: Loader<T> := (k, token) => if token == "" then Some(Page([], "more")) else Some(Page([x], ""));
            StopsAt(load, 0) && PageItems(load, 1) == [] && PageItems(load, 2) == [x]
  {
    var load: Loader<T> := (k, token) => if token == "" then Some(Page([], "more")) else Some(Page([x], ""));
    assert TokenFor(load, 0) == "" && TokenFor(load, 1) == "more";
    assert PageItems(load, 1) == PageItems(load, 0) + [];
    assert PageItems(load, 2) == PageItems(load, 1) + [x];
  }

  lemma AppendOne<T>(before: seq<T>, page: seq<T>, current: nat)
    requires 0 < current <= |page|
    ensures before + page[..current - 1] + [page[current - 1]] == before + page[..current]
    ensures current == |page| ==> before + page[..current] == before + page
  {
  }

  class PaginationRange<T> {
    const load: Loader<T>
    var page: seq<T>
    var current: nat
    var nextToken: string
    var onLastPage: bool
    var calls: nat              // how often the loader has been called
    ghost var log: seq<string>  // and with which page tokens

    constructor (load: Loader<T>)
      ensures Valid() && log == [] && this.load == load
    {
      this.load := load;
      page, current, nextToken, onLastPage := [], 0, "", false;
      calls, log := 0, [];
    }

    ghost predicate Valid()
      reads this
    {
      && current <= |page| && calls == |log|
      && log == Tokens(load, |log|)
      && nextToken == TokenFor(load, |log|)
      && (log == [] ==> page == [] && !onLastPage)
      && (log != [] ==>
            && (onLastPage <==> nextToken == "")
            && page == ItemsOf(Response(load, |log| - 1)))
    }

    method GetNext() returns (element: Element<T>)
      requires Valid()
      modifies this
      ensures Valid()
      ensures old(current < |page|) ==>
                && element == Value(old(page[current])) && log == old(log)
                && current == old(current) + 1 && page == old(page)
      ensures old(current == |page| && onLastPage) ==>
                element == End && log == old(log) && page == old(page) && current == old(current) && onLastPage
      ensures old(current == |page| && !onLastPage) ==>
                && log == old(log) + [TokenFor(load, |old(log)|)]
                && match Response(load, |old(log)|)
                   case None => element == Error && onLastPage && page == [] && current == 0
                   case Some(p) =>
                     && page == p.items
                     && if p.items == [] then element == End && current == 0
                        else element == Value(p.items[0]) && current == 1
    {
      if current == |page| {
        if onLastPage {
          return End;
        }
        var ok := LoadPage();
        if !ok {
          return Error;
        }
        if current == |page| {
          return End;
        }
      }
      element := Value(page[current]);
      current := current + 1;
    }

    /** The part of GetNext that calls the loader. */
    method LoadPage() returns (ok: bool)
      requires Valid() && !onLastPage
      modifies this
      ensures Valid() && log == old(log) + [TokenFor(load, |old(log)|)]
      ensures current == 0 && page == ItemsOf(Response(load, |old(log)|))
      ensures ok <==> Response(load, |old(log)|).Some?
      ensures !ok ==> onLastPage
    {
      var response := load(calls, nextToken);
      calls, log, current := calls + 1, log + [nextToken], 0;
      ok := response.Some?;
      if !ok {
        nextToken, page, onLastPage := "", [], true;
        return;
      }
      nextToken, page := response.value.next, response.value.items;
      if nextToken == "" {
        onLastPage := true;
      }
    }

    /** The range-for loop over a fresh range. The loader is called once per page, each time with
        the previous response's token. The loop delivers the concatenation of the pages up to
        and including response `last`, and an error exactly when that response is one; so it
        loses items exactly when response `last` is an empty page that announces another one. */
    method Collect(ghost last: nat) returns (result: Stream<T>)
      requires Valid() && log == [] && StopsAt(load, last)
      modifies this
      ensures Valid() && log == Tokens(load, last + 1)
      ensures result == Stream(PageItems(load, last + 1), Response(load, last).None?)
      ensures current == |page|
      ensures onLastPage <==> Response(load, last).None? || Response(load, last).value.next == ""
    {
      var items: seq<T> := [];
      StopIsUnique(load, last, 0);
      var element := GetNext();
      while !element.End?
        invariant Collecting(element, items, last)
        decreases last + 1 - |log|, |page| - current, if element.End? then 0 else 1
      {
        if element.Error? {
          return Stream(items, true);
        }
        items, element := Take(items, element.value, last);
      }
      result := Stream(items, false);
    }

    /** After the final page or an error every further call returns the end and asks for nothing. */
    method AfterLast(n: nat) returns (elements: seq<Element<T>>)
      requires Valid() && onLastPage && current == |page|
      modifies this
      ensures Valid() && onLastPage && current == |page| && log == old(log)
      ensures |elements| == n && forall i :: 0 <= i < n ==> elements[i] == End
    {
      elements := [];
      for i := 0 to n
        invariant Valid() && onLastPage && current == |page| && log == old(log)
        invariant |elements| == i && forall k :: 0 <= k < i ==> elements[k] == End
      {
        var element := GetNext();
        elements := elements + [element];
      }
    }

    /** The state of the loop: `element` is at hand, `items` came before it. */
    ghost predicate Collecting(element: Element<T>, items: seq<T>, last: nat)
      reads this
    {
      && Valid() && 0 < |log| <= last + 1
      && if element.Value? then
           && 0 < current && element.value == page[current - 1]
           && items == PageItems(load, |log| - 1) + page[..current - 1]
         else
           && |log| == last + 1 && current == |page|
           && items == PageItems(load, |log|)
           && (element.Error? <==> Response(load, last).None?)
    }

    /** The loop body: use the element at hand, then advance. */
    method Take(items0: seq<T>, value: T, ghost last: nat) returns (items: seq<T>, element: Element<T>)
      requires Collecting(Value(value), items0, last) && StopsAt(load, last)
      modifies this
      ensures Collecting(element, items, last)
      ensures || |log| > |old(log)|
              || (log == old(log) && |page| - current < old(|page| - current))
              || (log == old(log) && page == old(page) && current == old(current) && element.End?)
    {
      items := items0 + [value];
      AppendOne(PageItems(load, |log| - 1), page, current);
      if current == |page| {
        assert items == PageItems(load, |log|);
        StopIsUnique(load, last, |log| - 1);
        if |log| <= last {
          StopIsUnique(load, last, |log|);
        }
      }
      element := GetNext();
    }
  }
}
