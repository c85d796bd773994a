/** `get_page_obj`: every listing is shown in pages of `POSTS_PER_PAGE` items, page 1 first, and
    the request's `page` argument picks one of them the way `Paginator.get_page` does. */
module Paging {
  import opened QuerySet

  /** `POSTS_PER_PAGE`. */
  const PostsPerPage: nat := 10

  /** How many pages a listing of `n` items has; an empty listing still has one, empty, page. */
  function NumPages(n: nat): (r: nat)
    ensures 1 <= r
    ensures n <= r * PostsPerPage
    ensures r == 1 || (r - 1) * PostsPerPage < n
  {
    if n == 0 then 1 else (n + PostsPerPage - 1) / PostsPerPage
  }

  /** Page `k` of `items`: positions `PostsPerPage * (k - 1)` up to `min(PostsPerPage * k, |items|) - 1`. */
  function GetPage<T>(items: seq<T>, k: nat): (r: seq<T>)
    requires 1 <= k <= NumPages(|items|)
    ensures |r| <= PostsPerPage
    ensures |r| == if |items| < k * PostsPerPage then |items| - (k - 1) * PostsPerPage else PostsPerPage
    ensures forall i :: 0 <= i < |r| ==> r[i] == items[(k - 1) * PostsPerPage + i]
    ensures k < NumPages(|items|) ==> |r| == PostsPerPage
    ensures |items| > 0 ==> |r| > 0
  {
    var lo := (k - 1) * PostsPerPage;
    var hi := if |items| < k * PostsPerPage then |items| else k * PostsPerPage;
    items[lo..hi]
  }

  /** The whole listing cut into its pages, in page order. */
  function Pages<T>(items: seq<T>): (r: seq<seq<T>>)
    ensures |r| == NumPages(|items|)
    decreases |items|
  {
    if |items| <= PostsPerPage then [items]
    else [items[..PostsPerPage]] + Pages(items[PostsPerPage..])
  }

  /** The pages one after another. */
  function Join<T>(pages: seq<seq<T>>): seq<T> {
    if pages == [] then [] else pages[0] + Join(pages[1..])
  }

  /** The sum of the page sizes. */
  function TotalSize<T>(pages: seq<seq<T>>): nat {
    if pages == [] then 0 else |pages[0]| + TotalSize(pages[1..])
  }

  /** The `k`-th of the pages is exactly what `get_page(k)` returns. */
  lemma {:induction false} PagesAreGetPage<T>(items: seq<T>, k: nat)
    requires 1 <= k <= NumPages(|items|)
    ensures Pages(items)[k - 1] == GetPage(items, k)
  {
    if |items| > PostsPerPage && k > 1 {
      var rest := items[PostsPerPage..];
      PagesAreGetPage(rest, k - 1);
      assert Pages(items)[k - 1] == Pages(rest)[k - 2];
      var a, b := GetPage(rest, k - 1), GetPage(items, k);
      assert |a| == |b|;
      forall i | 0 <= i < |a| ensures a[i] == b[i] {
        assert a[i] == rest[(k - 2) * PostsPerPage + i];
      }
    }
  }

  /** No page holds more than `PostsPerPage` items. */
  lemma {:induction false} PagesBounded<T>(items: seq<T>)
    ensures forall p :: p in Pages(items) ==> |p| <= PostsPerPage
  {
    forall p | p in Pages(items) ensures |p| <= PostsPerPage {
      var k :| 0 <= k < |Pages(items)| && Pages(items)[k] == p;
      PagesAreGetPage(items, k + 1);
    }
  }

  /** Reading all pages in page order gives back the whole listing. */
  lemma {:induction false} JoinPages<T>(items: seq<T>)
    ensures Join(Pages(items)) == items
    decreases |items|
  {
    if |items| > PostsPerPage {
      var rest := items[PostsPerPage..];
      JoinPages(rest);
      assert Pages(items)[1..] == Pages(rest);
      assert items == items[..PostsPerPage] + rest;
    } else {
      assert Pages(items)[1..] == [];
    }
  }

  lemma {:induction false} JoinSize<T>(pages: seq<seq<T>>)
    ensures |Join(pages)| == TotalSize(pages)
  {
    if pages != [] {
      JoinSize(pages[1..]);
    }
  }

  /** The page sizes add up to the length of the listing. */
  lemma PageSizesSum<T>(items: seq<T>)
    ensures TotalSize(Pages(items)) == |items|
  {
  }

  /** Thirteen items: a full first page that starts with the first item, and a second page with
      the remaining three. */
  lemma ThirteenItems<T>(items: seq<T>)
    requires |items| == 13
    ensures NumPages(|items|) == 2
    ensures |GetPage(items, 1)| == PostsPerPage && GetPage(items, 1)[0] == items[0]
    ensures |GetPage(items, 2)| == |items| - PostsPerPage
  {
  }

  /** The page `Paginator.get_page` shows for the request's `page` argument. `None` stands for an
      argument that is absent or is not an integer, which gives page 1; a number before the first
      or past the last page gives the last page. */
  function PageNumber(arg: Option<int>, n: nat): (k: nat)
    ensures 1 <= k <= NumPages(n)
    ensures arg.Some? && 1 <= arg.value <= NumPages(n) ==> k == arg.value
    ensures arg.None? ==> k == 1
    ensures arg.Some? && !(1 <= arg.value <= NumPages(n)) ==> k == NumPages(n)
  {
    match arg
    case None => 1
    case Some(m) => if 1 <= m <= NumPages(n) then m else NumPages(n)
  }

  /** `get_page_obj(request, items)`: always one of the pages of `items`, the one the argument
      names when it names one, and the first one when there is no argument. */
  function PageObj<T>(items: seq<T>, arg: Option<int>): (r: seq<T>)
    ensures |r| <= PostsPerPage
    ensures r == Pages(items)[PageNumber(arg, |items|) - 1]
    ensures forall x :: x in r ==> x in items
    ensures arg.None? ==> r == items[..if |items| < PostsPerPage then |items| else PostsPerPage]
  {
    var k := PageNumber(arg, |items|);
    PagesAreGetPage(items, k);
    var r := GetPage(items, k);
    forall x | x in r ensures x in items {
      var i :| 0 <= i < |r| && r[i] == x;
      assert items[(k - 1) * PostsPerPage + i] == x;
    }
    r
  }

  /** A page keeps the relative order of its items, so any relation between earlier and later
      items of the listing (newest first, say) holds on the page. */
  lemma PageObjPairwise<T>(items: seq<T>, arg: Option<int>, rel: (T, T) -> bool)
    ensures Pairwise(items, rel) ==> Pairwise(PageObj(items, arg), rel)
  {
  }

}
