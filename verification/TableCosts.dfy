/**
 How many tables, and so how many frames, mapping a list of pages costs: each page needs the tables on its
 way that neither were there before nor were made for a page earlier in the list.
 */
module TableCosts {
  import opened Prelude
  import opened PageWords
  import opened PageTables
  import opened SpaceState
  import opened PageRanges

  // How many of the three tables on the way to v are on the way to one of the pages.
  function Shared(pages: seq<VPage>, v: VPage): (n: nat)
    ensures n <= 3
  {
    if pages == [] then 0 else Max(Shared(pages[..|pages| - 1], v), pages[|pages| - 1].Common(v))
  }

  // How many tables are missing on the ways to the pages.
  function Cost(tab: Tables, root: nat, pages: seq<VPage>): nat {
    if pages == [] then 0
    else
      var rest, u := pages[..|pages| - 1], pages[|pages| - 1];
      Cost(tab, root, rest) + 3 - Max(Depth(tab, root, u), Shared(rest, u))
  }

  // The frames that the pages and their missing tables take.
  function Bill(tab: Tables, root: nat, pages: seq<VPage>): nat {
    |pages| + Cost(tab, root, pages)
  }

  // The same where no table is there yet.
  function Fresh(pages: seq<VPage>): nat {
    if pages == [] then 0
    else
      var rest, u := pages[..|pages| - 1], pages[|pages| - 1];
      Fresh(rest) + 3 - Shared(rest, u)
  }

  lemma {:induction false} CostInEmpty(tab: Tables, root: nat, pages: seq<VPage>)
    requires forall i :: 0 <= i < |pages| ==> Depth(tab, root, pages[i]) == 0
    ensures Cost(tab, root, pages) == Fresh(pages)
  {
    if pages != [] {
      CostInEmpty(tab, root, pages[..|pages| - 1]);
    }
  }

  lemma {:induction false} SharedAppend(a: seq<VPage>, b: seq<VPage>, v: VPage)
    ensures Shared(a + b, v) == Max(Shared(a, v), Shared(b, v))
  {
    if b == [] {
      assert a + b == a;
    } else {
      SharedAppend(a, b[..|b| - 1], v);
      assert (a + b)[..|a + b| - 1] == a + b[..|b| - 1];
    }
  }

  // Mapping more pages does not cost less, nor more than three tables a page.
  lemma {:induction false} CostGrows(tab: Tables, root: nat, a: seq<VPage>, b: seq<VPage>)
    ensures Cost(tab, root, a) <= Cost(tab, root, a + b) <= Cost(tab, root, a) + 3 * |b|
  {
    if b == [] {
      assert a + b == a;
    } else {
      CostGrows(tab, root, a, b[..|b| - 1]);
      assert (a + b)[..|a + b| - 1] == a + b[..|b| - 1];
    }
  }

  lemma {:induction false} FreshGrows(a: seq<VPage>, b: seq<VPage>)
    ensures Fresh(a) <= Fresh(a + b)
  {
    if b == [] {
      assert a + b == a;
    } else {
      FreshGrows(a, b[..|b| - 1]);
      assert (a + b)[..|a + b| - 1] == a + b[..|b| - 1];
    }
  }

  // ---- Paying page by page ----

  // Between s and s' the space has got exactly the tables on the ways to the pages.
  ghost predicate Opened(s: Snap, s': Snap, root: nat, pages: seq<VPage>) {
    forall v :: Depth(s'.t.tab, root, v) == Max(Depth(s.t.tab, root, v), Shared(pages, v))
  }

  lemma OpenedNothing(s: Snap, root: nat)
    ensures Opened(s, s, root, []) && Cost(s.t.tab, root, []) == 0
  {
  }

  lemma OpenedOneMore(a: Snap, b: Snap, c: Snap, root: nat, pages: seq<VPage>, u: VPage)
    requires Opened(a, b, root, pages) && IsRoot(b.t, root) && Deepened(b, c, root, u) && Depth(c.t.tab, root, u) == 3
    ensures Opened(a, c, root, pages + [u])
  {
    assert (pages + [u])[..|pages|] == pages;
  }

  lemma CostOneMore(a: Snap, b: Snap, root: nat, pages: seq<VPage>, u: VPage)
    requires Opened(a, b, root, pages)
    ensures Cost(a.t.tab, root, pages + [u]) == Cost(a.t.tab, root, pages) + 3 - Depth(b.t.tab, root, u)
  {
    assert (pages + [u])[..|pages|] == pages;
  }

  lemma OpenedAppend(a: Snap, b: Snap, c: Snap, root: nat, p: seq<VPage>, q: seq<VPage>)
    requires Opened(a, b, root, p) && Opened(b, c, root, q)
    ensures Opened(a, c, root, p + q)
  {
    forall v
      ensures Depth(c.t.tab, root, v) == Max(Depth(a.t.tab, root, v), Shared(p + q, v))
    {
      SharedAppend(p, q, v);
    }
  }

  lemma {:induction false} CostAppend(a: Snap, b: Snap, root: nat, p: seq<VPage>, q: seq<VPage>)
    requires Opened(a, b, root, p)
    ensures Cost(a.t.tab, root, p + q) == Cost(a.t.tab, root, p) + Cost(b.t.tab, root, q)
  {
    if q == [] {
      assert p + q == p;
    } else {
      var rest, u := q[..|q| - 1], q[|q| - 1];
      CostAppend(a, b, root, p, rest);
      SharedAppend(p, rest, u);
      assert (p + q)[..|p + q| - 1] == p + rest;
    }
  }

  // A step that moves no table changes no price.
  lemma SameDepthCosts(a: Snap, b: Snap, root: nat, pages: seq<VPage>)
    requires IsRoot(a.t, root) && DepthsKept(a, b)
    ensures Opened(a, b, root, []) && Cost(b.t.tab, root, pages) == Cost(a.t.tab, root, pages)
  {
    CostAppend(a, b, root, [], pages);
    assert [] + pages == pages;
  }

  // ---- Runs of pages ----

  function PagesFrom(virt: nat, n: nat): (pages: seq<VPage>)
    ensures |pages| == n
  {
    if n == 0 then [] else PagesFrom(virt, n - 1) + [PageAt(virt, n - 1)]
  }

  lemma {:induction false} PagesFromAt(virt: nat, n: nat, i: nat)
    requires i < n
    ensures PagesFrom(virt, n)[i] == PageAt(virt, i)
  {
    if i < n - 1 {
      PagesFromAt(virt, n - 1, i);
    }
  }

  lemma Regroup(a: seq<VPage>, b: seq<VPage>, c: seq<VPage>)
    ensures a + b + c == a + (b + c)
  {
  }

  // A list that begins with `pages` and a run of n pages begins with `pages` and any shorter run.
  lemma ShorterRun(pages: seq<VPage>, virt: nat, m: nat, n: nat, rest: seq<VPage>, all: seq<VPage>)
    requires m <= n && all == pages + PagesFrom(virt, n) + rest
    ensures pages + PagesFrom(virt, m) <= all && |pages| + n <= |all|
  {
    var run := PagesFrom(virt, n);
    PagesPrefix(virt, m, n);
    assert pages + run[..m] == (pages + run)[..|pages| + m];
  }

  lemma {:induction false} PagesPrefix(virt: nat, m: nat, n: nat)
    requires m <= n
    ensures PagesFrom(virt, n)[..m] == PagesFrom(virt, m)
  {
    if m < n {
      PagesPrefix(virt, m, n - 1);
      assert PagesFrom(virt, n)[..m] == PagesFrom(virt, n - 1)[..m];
    }
  }
}
