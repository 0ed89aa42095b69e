/** The page list of the `Pagination` control: page numbers around the
    current page, with the first and last page and an ellipsis wherever pages
    are skipped, and the previous/next buttons with their disabled states. */
module Pagination {
  import opened Text

  /** One entry of the page list: a page button or an ellipsis. */
  datatype PageItem = Page(n: int) | Ellipsis

  /** The integers from `a` to `b`, in order (none when `b < a`). */
  function Ints(a: int, b: int): seq<int>
    decreases b - a
  {
    if b < a then [] else [a] + Ints(a + 1, b)
  }

  /** Page buttons for the pages from `a` to `b`, in order. */
  function PageRange(a: int, b: int): (r: seq<PageItem>)
    ensures |r| == if b < a then 0 else b - a + 1
    ensures forall i :: 0 <= i < |r| ==> r[i] == Page(a + i)
    decreases b - a
  {
    if b < a then [] else [Page(a)] + PageRange(a + 1, b)
  }

  /** Growing the range by its next page. */
  lemma {:induction false} PageRangeSnoc(a: int, b: int)
    requires a <= b + 1
    ensures PageRange(a, b + 1) == PageRange(a, b) + [Page(b + 1)]
    decreases b - a
  {
    if a <= b {
      PageRangeSnoc(a + 1, b);
    }
  }

  function Max(a: int, b: int): int { if a >= b then a else b }

  function Min(a: int, b: int): int { if a <= b then a else b }

  /** The window of pages around the current one: `half` on each side,
      clamped to the range and stretched to `maxPageButtons` pages at either
      edge. */
  function StartPage(currentPage: int, totalPages: int, maxPageButtons: int): (r: int)
    ensures maxPageButtons < totalPages ==> 1 <= r
    ensures 1 <= currentPage <= totalPages && 1 <= maxPageButtons ==> r <= currentPage
  {
    var half := maxPageButtons / 2;
    if currentPage + half >= totalPages then totalPages - maxPageButtons + 1 else Max(1, currentPage - half)
  }

  function EndPage(currentPage: int, totalPages: int, maxPageButtons: int): (r: int)
    ensures maxPageButtons < totalPages ==> r <= totalPages
    ensures 1 <= currentPage <= totalPages && 1 <= maxPageButtons ==> currentPage <= r
  {
    var half := maxPageButtons / 2;
    if currentPage - half <= 1 then maxPageButtons else Min(totalPages, currentPage + half)
  }

  /** The first page and, when the window starts past page 2, an ellipsis. */
  function Lead(startPage: int): seq<PageItem> {
    if startPage > 1 then [Page(1)] + (if startPage > 2 then [Ellipsis] else []) else []
  }

  /** The last page and, when the window ends before the page before it, an
      ellipsis. */
  function Trail(endPage: int, totalPages: int): seq<PageItem> {
    if endPage < totalPages then (if endPage < totalPages - 1 then [Ellipsis] else []) + [Page(totalPages)] else []
  }

  /** The list `getPageNumbers` computes: whatever the arguments, every page
      button it holds is a page from 1 to `totalPages`. */
  function PageList(currentPage: int, totalPages: int, maxPageButtons: int): (r: seq<PageItem>)
    ensures 1 <= totalPages ==> forall i :: 0 <= i < |r| && r[i].Page? ==> 1 <= r[i].n <= totalPages
  {
    if totalPages <= maxPageButtons then PageRange(1, totalPages)
    else
      var s := StartPage(currentPage, totalPages, maxPageButtons);
      var e := EndPage(currentPage, totalPages, maxPageButtons);
      ButtonsInRange(s, e, totalPages);
      Lead(s) + PageRange(s, e) + Trail(e, totalPages)
  }

  /** A window within the pages, with its lead and trail, shows only pages
      that exist. */
  lemma ButtonsInRange(s: int, e: int, t: int)
    requires 1 <= t ==> 1 <= s && e <= t
    ensures 1 <= t ==> var r := Lead(s) + PageRange(s, e) + Trail(e, t);
      forall i :: 0 <= i < |r| && r[i].Page? ==> 1 <= r[i].n <= t
  {
    if 1 <= t {
      var r := Lead(s) + PageRange(s, e) + Trail(e, t);
      var a, b := |Lead(s)|, |Lead(s) + PageRange(s, e)|;
      forall i | 0 <= i < |r| && r[i].Page?
        ensures 1 <= r[i].n <= t
      {
        if i < a {
          assert r[i] == Lead(s)[i];
        } else if i < b {
          assert r[i] == PageRange(s, e)[i - a];
        } else {
          assert r[i] == Trail(e, t)[i - b];
        }
      }
    }
  }

  /** `getPageNumbers`. */
  method GetPageNumbers(currentPage: int, totalPages: int, maxPageButtons: int) returns (pages: seq<PageItem>)
    ensures pages == PageList(currentPage, totalPages, maxPageButtons)
  {
    pages := [];
    if totalPages <= maxPageButtons {
      var i := 1;
      while i <= totalPages
        invariant 1 <= i && (i <= totalPages + 1 || i == 1)
        invariant pages == PageRange(1, i - 1)
      {
        PageRangeSnoc(1, i - 1);
        pages := pages + [Page(i)];
        i := i + 1;
      }
    } else {
      pages := WindowedPages(currentPage, totalPages, maxPageButtons);
    }
  }

  /** The part of `getPageNumbers` for more pages than buttons: the window,
      with the first and last page and the ellipses around it. */
  method WindowedPages(currentPage: int, totalPages: int, maxPageButtons: int) returns (pages: seq<PageItem>)
    requires totalPages > maxPageButtons
    ensures pages == PageList(currentPage, totalPages, maxPageButtons)
  {
    pages := [];

    var half := maxPageButtons / 2;
    var startPage := Max(1, currentPage - half);
    var endPage := Min(totalPages, currentPage + half);
    if currentPage - half <= 1 {
      endPage := maxPageButtons;
    }
    if currentPage + half >= totalPages {
      startPage := totalPages - maxPageButtons + 1;
    }
    assert startPage == StartPage(currentPage, totalPages, maxPageButtons);
    assert endPage == EndPage(currentPage, totalPages, maxPageButtons);

    if startPage > 1 {
      pages := pages + [Page(1)];
      if startPage > 2 {
        pages := pages + [Ellipsis];
      }
    }
    ghost var lead := pages;
    assert lead == Lead(startPage);

    pages := PushRange(pages, startPage, endPage);
    ghost var body := pages;

    if endPage < totalPages {
      if endPage < totalPages - 1 {
        pages := pages + [Ellipsis];
      }
      pages := pages + [Page(totalPages)];
    }
    assert pages == body + Trail(endPage, totalPages);
  }

  /** The loop pushing the window's page buttons. */
  method PushRange(pages0: seq<PageItem>, startPage: int, endPage: int) returns (pages: seq<PageItem>)
    ensures pages == pages0 + PageRange(startPage, endPage)
  {
    pages := pages0;
    var i := startPage;
    while i <= endPage
      invariant startPage <= i && (i <= endPage + 1 || i == startPage)
      invariant pages == pages0 + PageRange(startPage, i - 1)
    {
      PageRangeSnoc(startPage, i - 1);
      AppendAssoc(pages0, PageRange(startPage, i - 1), [Page(i)]);
      pages := pages + [Page(i)];
      i := i + 1;
    }
    assert PageRange(startPage, i - 1) == PageRange(startPage, endPage);
  }

  // ------------------------------------------------ the shape of the list

  function Gap(a: int, b: int): seq<PageItem> {
    if b > a + 1 then [Ellipsis] else []
  }

  /** The buttons for numbers following `prev`: each one preceded by an
      ellipsis exactly when pages lie between it and the number before. */
  function RenderAfter(prev: int, ns: seq<int>): seq<PageItem>
    decreases |ns|
  {
    if ns == [] then [] else Gap(prev, ns[0]) + [Page(ns[0])] + RenderAfter(ns[0], ns[1..])
  }

  /** Page lists as they should look: the numbers in order, neighbours
      separated by an ellipsis exactly when pages lie between them. */
  function Render(ns: seq<int>): seq<PageItem> {
    if ns == [] then [] else [Page(ns[0])] + RenderAfter(ns[0], ns[1..])
  }

  /** The page numbers of a list, in order. */
  function Numbers(ps: seq<PageItem>): seq<int> {
    if ps == [] then []
    else (match ps[0] case Page(n) => [n] case Ellipsis => []) + Numbers(ps[1..])
  }

  predicate Increasing(ns: seq<int>) {
    forall i, j :: 0 <= i < j < |ns| ==> ns[i] < ns[j]
  }

  /** How the list reads: it starts and ends with a page; two neighbouring
      pages are consecutive numbers; an ellipsis sits between two pages and
      only where at least one page is skipped. */
  predicate WellSpaced(ps: seq<PageItem>) {
    && (ps != [] ==> ps[0].Page? && ps[|ps| - 1].Page?)
    && (forall i :: 0 <= i < |ps| - 1 && ps[i].Page? && ps[i + 1].Page? ==> ps[i + 1].n == ps[i].n + 1)
    && (forall i :: 0 < i < |ps| - 1 && ps[i].Ellipsis? ==>
          ps[i - 1].Page? && ps[i + 1].Page? && ps[i + 1].n > ps[i - 1].n + 1)
  }

  /** What follows a page `prev` in a well-spaced list. */
  predicate SpacedAfter(prev: int, ps: seq<PageItem>) {
    WellSpaced([Page(prev)] + ps)
  }

  /** Rendering numbers after `prev` keeps the list well spaced, gives back
      the numbers, and ends with the last of them. */
  lemma {:induction false} RenderAfterShape(prev: int, ns: seq<int>)
    requires Increasing([prev] + ns)
    ensures SpacedAfter(prev, RenderAfter(prev, ns))
    ensures Numbers(RenderAfter(prev, ns)) == ns
    ensures ns != [] ==> RenderAfter(prev, ns) != [] && RenderAfter(prev, ns)[|RenderAfter(prev, ns)| - 1] == Page(ns[|ns| - 1])
    decreases |ns|
  {
    if ns != [] {
      var x := ns[0];
      assert ([prev] + ns)[0] == prev && ([prev] + ns)[1] == x;
      assert [x] + ns[1..] == ([prev] + ns)[1..];
      RenderAfterShape(x, ns[1..]);
      var rest := RenderAfter(x, ns[1..]);
      SpacedPrepend(prev, x, rest);
      NumbersFront(Gap(prev, x), x, rest);
      if ns[1..] == [] {
        assert rest == [];
      }
    }
  }

  /** The numbers of a gap, a page and a rest. */
  lemma NumbersFront(g: seq<PageItem>, x: int, rest: seq<PageItem>)
    requires g == [] || g == [Ellipsis]
    ensures Numbers(g + [Page(x)] + rest) == [x] + Numbers(rest)
  {
    var l := g + [Page(x)] + rest;
    if g == [] {
      assert l == [Page(x)] + rest;
      assert l[1..] == rest;
    } else {
      assert l[1..] == [Page(x)] + rest;
      assert l[1..][1..] == rest;
    }
  }

  /** Putting a page and its gap in front of a well-spaced continuation. */
  lemma SpacedPrepend(prev: int, x: int, rest: seq<PageItem>)
    requires prev < x && SpacedAfter(x, rest)
    ensures SpacedAfter(prev, Gap(prev, x) + [Page(x)] + rest)
  {
    var tail := [Page(x)] + rest;
    assert Gap(prev, x) + [Page(x)] + rest == Gap(prev, x) + tail;
    if x > prev + 1 {
      SpacedConsGap(prev, tail);
      assert [Page(prev)] + ([Ellipsis] + tail) == [Page(prev), Ellipsis] + tail;
    } else {
      SpacedCons(prev, tail);
      assert [] + tail == tail;
    }
  }

  /** A page directly before a well-spaced list that starts with the next page. */
  lemma SpacedCons(x: int, tail: seq<PageItem>)
    requires WellSpaced(tail) && tail != [] && tail[0] == Page(x + 1)
    ensures WellSpaced([Page(x)] + tail)
  {
    var r := [Page(x)] + tail;
    forall i | 1 <= i < |r| - 1 && r[i].Page? && r[i + 1].Page?
      ensures r[i + 1].n == r[i].n + 1
    {
      assert r[i] == tail[i - 1] && r[i + 1] == tail[i];
    }
    forall i | 1 < i < |r| - 1 && r[i].Ellipsis?
      ensures r[i - 1].Page? && r[i + 1].Page? && r[i + 1].n > r[i - 1].n + 1
    {
      assert r[i - 1] == tail[i - 2] && r[i] == tail[i - 1] && r[i + 1] == tail[i];
    }
    assert r[|r| - 1] == tail[|tail| - 1];
  }

  /** A page and an ellipsis before a well-spaced list that starts with a
      later page. */
  lemma SpacedConsGap(x: int, tail: seq<PageItem>)
    requires WellSpaced(tail) && tail != [] && tail[0].Page? && tail[0].n > x + 1
    ensures WellSpaced([Page(x), Ellipsis] + tail)
  {
    var r := [Page(x), Ellipsis] + tail;
    forall i | 2 <= i < |r| - 1 && r[i].Page? && r[i + 1].Page?
      ensures r[i + 1].n == r[i].n + 1
    {
      assert r[i] == tail[i - 2] && r[i + 1] == tail[i - 1];
    }
    forall i | 2 < i < |r| - 1 && r[i].Ellipsis?
      ensures r[i - 1].Page? && r[i + 1].Page? && r[i + 1].n > r[i - 1].n + 1
    {
      assert r[i - 1] == tail[i - 3] && r[i] == tail[i - 2] && r[i + 1] == tail[i - 1];
    }
    assert r[|r| - 1] == tail[|tail| - 1];
  }

  /** For increasing numbers, the rendered list reads as it should, gives
      back exactly its numbers, and starts and ends with their pages. */
  lemma RenderShape(ns: seq<int>)
    requires Increasing(ns)
    ensures WellSpaced(Render(ns))
    ensures Numbers(Render(ns)) == ns
    ensures ns != [] ==> Render(ns)[0] == Page(ns[0]) && Render(ns)[|Render(ns)| - 1] == Page(ns[|ns| - 1])
  {
    if ns != [] {
      assert [ns[0]] + ns[1..] == ns;
      RenderAfterShape(ns[0], ns[1..]);
      assert Render(ns)[1..] == RenderAfter(ns[0], ns[1..]);
    }
  }

  /** Consecutive numbers render as plain page buttons. */
  lemma {:induction false} RenderAfterInts(a: int, b: int)
    ensures RenderAfter(a - 1, Ints(a, b)) == PageRange(a, b)
    decreases b - a
  {
    if a <= b {
      RenderAfterInts(a + 1, b);
      assert Ints(a, b)[1..] == Ints(a + 1, b);
    }
  }

  /** Rendering a concatenation continues from the last number of the front. */
  lemma {:induction false} RenderAfterAppend(prev: int, a: seq<int>, b: seq<int>)
    requires a != []
    ensures RenderAfter(prev, a + b) == RenderAfter(prev, a) + RenderAfter(a[|a| - 1], b)
    decreases |a|
  {
    assert (a + b)[0] == a[0];
    assert (a + b)[1..] == a[1..] + b;
    if |a| > 1 {
      RenderAfterAppend(a[0], a[1..], b);
    } else {
      assert a[1..] + b == b;
    }
  }

  /** The bounds of the window when the current page is in range and at
      least one button is allowed: it lies within the pages, holds the
      current page, and is non-empty. */
  lemma WindowBounds(c: int, t: int, m: int)
    requires 1 <= c <= t && 1 <= m < t
    ensures 1 <= StartPage(c, t, m) <= c <= EndPage(c, t, m) <= t
  {
  }

  /** The numbers the list shows: page 1 before the window when the window
      starts later, and the last page after it when it ends earlier. */
  function Shown(c: int, t: int, m: int): seq<int> {
    Strand(StartPage(c, t, m), EndPage(c, t, m), t)
  }

  /** Page 1 unless the window `s..e` starts there, the window, and the
      last page `t` unless the window ends there. */
  function Strand(s: int, e: int, t: int): seq<int> {
    (if s > 1 then [1] else []) + Ints(s, e) + TrailNumbers(e, t)
  }

  lemma {:induction false} IntsShape(a: int, b: int)
    requires a <= b
    ensures Ints(a, b) != [] && Ints(a, b)[0] == a && Ints(a, b)[|Ints(a, b)| - 1] == b
    ensures Increasing(Ints(a, b))
    decreases b - a
  {
    if a < b {
      IntsShape(a + 1, b);
      IncreasingCons(a, Ints(a + 1, b));
    }
  }

  lemma IncreasingCons(x: int, ns: seq<int>)
    requires Increasing(ns) && (ns == [] || x < ns[0])
    ensures Increasing([x] + ns)
  {
    var r := [x] + ns;
    forall i, j | 0 <= i < j < |r|
      ensures r[i] < r[j]
    {
      if i > 0 {
        assert r[i] == ns[i - 1] && r[j] == ns[j - 1];
      } else if j > 1 {
        assert r[j] == ns[j - 1] && ns[0] < ns[j - 1];
      }
    }
  }

  lemma IncreasingAppend(a: seq<int>, b: seq<int>)
    requires Increasing(a) && Increasing(b)
    requires a != [] && b != [] && a[|a| - 1] < b[0]
    ensures Increasing(a + b)
  {
    var r := a + b;
    forall i, j | 0 <= i < j < |r|
      ensures r[i] < r[j]
    {
      if j < |a| {
        assert r[i] == a[i] && r[j] == a[j];
      } else if i >= |a| {
        assert r[i] == b[i - |a|] && r[j] == b[j - |a|];
      } else {
        assert r[i] == a[i] && r[j] == b[j - |a|];
        assert a[i] <= a[|a| - 1] by {
          if i < |a| - 1 {
            assert a[i] < a[|a| - 1];
          }
        }
        assert b[0] <= b[j - |a|] by {
          if j - |a| > 0 {
            assert b[0] < b[j - |a|];
          }
        }
      }
    }
  }

  lemma {:induction false} IntsHas(a: int, b: int, x: int)
    requires a <= x <= b
    ensures x in Ints(a, b)
    decreases b - a
  {
    if a < x {
      IntsHas(a + 1, b, x);
    }
  }

  /** The window with its own rendering: it starts with page `s` after the
      gap from what precedes. */
  lemma RenderWindow(prev: int, s: int, e: int)
    requires prev < s <= e
    ensures RenderAfter(prev, Ints(s, e)) == Gap(prev, s) + PageRange(s, e)
  {
    RenderAfterInts(s + 1, e);
    assert Ints(s, e)[1..] == Ints(s + 1, e);
  }

  function TrailNumbers(e: int, t: int): seq<int> {
    if e < t then [t] else []
  }

  lemma TrailRendered(e: int, t: int)
    ensures RenderAfter(e, TrailNumbers(e, t)) == Trail(e, t)
  {
    if e < t {
      var trail := TrailNumbers(e, t);
      assert trail[0] == t && trail[1..] == [];
    }
  }

  /** A window past page 1 follows page 1 and its gap. */
  lemma RenderedAwayFromStart(s: int, e: int, t: int)
    requires 1 < s <= e <= t
    ensures Render([1] + Ints(s, e) + TrailNumbers(e, t)) == Lead(s) + PageRange(s, e) + Trail(e, t)
  {
    var w := Ints(s, e);
    var trail := TrailNumbers(e, t);
    IntsShape(s, e);
    var ns := [1] + w + trail;
    assert ns[0] == 1 && ns[1..] == w + trail;
    RenderAfterAppend(1, w, trail);
    RenderWindow(1, s, e);
    TrailRendered(e, t);
  }

  /** A window from page 1 is plain page buttons. */
  lemma RenderedAtStart(e: int, t: int)
    requires 1 <= e <= t
    ensures Render(Ints(1, e) + TrailNumbers(e, t)) == PageRange(1, e) + Trail(e, t)
  {
    var trail := TrailNumbers(e, t);
    var ns := Ints(1, e) + trail;
    assert Ints(1, e)[1..] == Ints(2, e);
    assert ns[0] == 1 && ns[1..] == Ints(2, e) + trail;
    TrailRendered(e, t);
    RenderAfterInts(2, e);
    if e > 1 {
      RenderAfterAppend(1, Ints(2, e), trail);
      IntsShape(2, e);
    } else {
      assert ns[1..] == trail;
    }
  }

  /** The list is the well-spaced rendering of `Shown`. */
  lemma PageListIsRendered(c: int, t: int, m: int)
    requires 1 <= c <= t && 1 <= m < t
    ensures PageList(c, t, m) == Render(Shown(c, t, m))
  {
    var s, e := StartPage(c, t, m), EndPage(c, t, m);
    WindowBounds(c, t, m);
    if s > 1 {
      RenderedAwayFromStart(s, e, t);
    } else {
      RenderedAtStart(e, t);
      assert [] + Ints(s, e) == Ints(s, e);
    }
  }

  lemma ShownIncreasing(c: int, t: int, m: int)
    requires 1 <= c <= t && 1 <= m < t
    ensures Shown(c, t, m) != [] && Increasing(Shown(c, t, m))
    ensures Shown(c, t, m)[0] == 1 && Shown(c, t, m)[|Shown(c, t, m)| - 1] == t
    ensures c in Shown(c, t, m)
  {
    WindowBounds(c, t, m);
    StrandShape(StartPage(c, t, m), EndPage(c, t, m), t, c);
  }

  lemma StrandShape(s: int, e: int, t: int, c: int)
    requires 1 <= s <= c <= e <= t
    ensures Strand(s, e, t) != [] && Increasing(Strand(s, e, t))
    ensures Strand(s, e, t)[0] == 1 && Strand(s, e, t)[|Strand(s, e, t)| - 1] == t
    ensures c in Strand(s, e, t)
  {
    var front := (if s > 1 then [1] else []) + Ints(s, e);
    FrontShape(s, e, c);
    var trail := TrailNumbers(e, t);
    if e < t {
      IncreasingAppend(front, trail);
    } else {
      assert front + trail == front;
    }
  }

  /** Page 1, when the window does not start there, then the window. */
  lemma FrontShape(s: int, e: int, c: int)
    requires 1 <= s <= c <= e
    ensures var front := (if s > 1 then [1] else []) + Ints(s, e);
            && front != [] && Increasing(front) && front[0] == 1 && front[|front| - 1] == e
            && c in front
  {
    var w := Ints(s, e);
    IntsShape(s, e);
    IntsHas(s, e, c);
    if s > 1 {
      IncreasingCons(1, w);
    } else {
      assert [] + w == w;
    }
  }

  /** The shape of the page list, for a current page in range and at least
      one button: it starts with page 1 and ends with the last page, shows
      the current page, its numbers increase, neighbouring pages are
      consecutive and an ellipsis stands exactly where pages are skipped.
      With no more pages than buttons, it is every page from 1 on. */
  lemma PageListShape(c: int, t: int, m: int)
    requires 1 <= c <= t && 1 <= m
    ensures var ps := PageList(c, t, m);
            && ps != [] && ps[0] == Page(1) && ps[|ps| - 1] == Page(t)
            && Page(c) in ps
            && Increasing(Numbers(ps))
            && WellSpaced(ps)
            && ps == Render(Numbers(ps))
    ensures t <= m ==> Numbers(PageList(c, t, m)) == Ints(1, t)
  {
    var ns := if t <= m then Ints(1, t) else Shown(c, t, m);
    if t <= m {
      FewPages(t);
      IntsHas(1, t, c);
    } else {
      PageListIsRendered(c, t, m);
      ShownIncreasing(c, t, m);
    }
    assert PageList(c, t, m) == Render(ns);
    assert ns != [] && Increasing(ns) && ns[0] == 1 && ns[|ns| - 1] == t && c in ns;
    RenderedShape(ns, c);
  }

  /** With no more pages than buttons, every page is shown. */
  lemma FewPages(t: int)
    requires 1 <= t
    ensures Render(Ints(1, t)) == PageRange(1, t)
    ensures Ints(1, t) != [] && Increasing(Ints(1, t)) && Ints(1, t)[0] == 1 && Ints(1, t)[|Ints(1, t)| - 1] == t
  {
    RenderAfterInts(2, t);
    IntsShape(1, t);
    assert Ints(1, t)[1..] == Ints(2, t);
  }

  /** What the rendering of increasing numbers holding `c` looks like. */
  lemma RenderedShape(ns: seq<int>, c: int)
    requires Increasing(ns) && c in ns
    ensures var ps := Render(ns);
            && ps != [] && ps[0] == Page(ns[0]) && ps[|ps| - 1] == Page(ns[|ns| - 1])
            && Page(c) in ps
            && Increasing(Numbers(ps)) && WellSpaced(ps)
            && ps == Render(Numbers(ps)) && Numbers(ps) == ns
  {
    RenderShape(ns);
    RenderHas(ns, c);
  }

  /** Every number of a list has its page button. */
  lemma {:induction false} RenderHas(ns: seq<int>, x: int)
    requires x in ns
    ensures Page(x) in Render(ns)
  {
    if ns[0] != x {
      RenderAfterHas(ns[0], ns[1..], x);
    }
  }

  lemma {:induction false} RenderAfterHas(prev: int, ns: seq<int>, x: int)
    requires x in ns
    ensures Page(x) in RenderAfter(prev, ns)
    decreases |ns|
  {
    var r := RenderAfter(prev, ns);
    var g := Gap(prev, ns[0]) + [Page(ns[0])];
    assert r == g + RenderAfter(ns[0], ns[1..]);
    if ns[0] == x {
      assert g[|g| - 1] == Page(x);
    } else {
      RenderAfterHas(ns[0], ns[1..], x);
    }
  }

  /** Away from both edges the window is the current page with `half` pages
      on each side. */
  lemma WindowCentred(c: int, t: int, m: int)
    requires m < t && c - m / 2 > 1 && c + m / 2 < t
    ensures StartPage(c, t, m) == c - m / 2 && EndPage(c, t, m) == c + m / 2
  {
  }

  /** At least two pages from either edge the list is the first page, an
      ellipsis, the centred window, an ellipsis and the last page. */
  lemma CentredWindow(c: int, t: int, m: int)
    requires m < t && c - m / 2 > 2 && c + m / 2 < t - 1
    ensures PageList(c, t, m) == [Page(1), Ellipsis] + PageRange(c - m / 2, c + m / 2) + [Ellipsis, Page(t)]
  {
  }

  // ------------------------------------------------ previous and next

  /** The control renders only when there is more than one page. */
  predicate Visible(totalPages: int) { totalPages > 1 }

  /** `handlePrevClick` requests the page before the current one. */
  function PrevTarget(currentPage: int): int { currentPage - 1 }

  predicate PrevDisabled(currentPage: int) { currentPage == 1 }

  /** `handleNextClick` requests the page after the current one. */
  function NextTarget(currentPage: int): int { currentPage + 1 }

  predicate NextDisabled(currentPage: int, totalPages: int) { currentPage == totalPages }

  /** For a current page in range, a button is disabled exactly when the page
      it would request lies outside the range, so an enabled button always
      requests a page that exists. */
  lemma NavigationStaysInRange(currentPage: int, totalPages: int)
    requires 1 <= currentPage <= totalPages
    ensures PrevDisabled(currentPage) <==> PrevTarget(currentPage) < 1
    ensures NextDisabled(currentPage, totalPages) <==> NextTarget(currentPage) > totalPages
    ensures !PrevDisabled(currentPage) ==> 1 <= PrevTarget(currentPage) <= totalPages
    ensures !NextDisabled(currentPage, totalPages) ==> 1 <= NextTarget(currentPage) <= totalPages
  {
  }
}
