/** Three loops that follow cursors, in the Python SDK, the CI gate and the SIEM forwarder. */
module Pagination {
  datatype Item = Item(content: nat)

  /** The empty cursor stands for none. */
  datatype Page = Page(items: seq<Item>, next: string) | Failure

  /** Any server: its answer may depend on how many requests came before. */
  type Server = (nat, string) -> Page

  datatype End = Complete | Repeated | Truncated | Failed

  datatype Walked = Walked(items: seq<Item>, asked: seq<string>, end: End)

  /** The chain of cursors, followed to its end, to a repeat, to a failure, or as far as the budget goes. */
  function Walk(server: Server, n: nat, cursor: string, seen: set<string>, budget: nat): Walked
    decreases budget
  {
    if budget == 0 then Walked([], [], Truncated)
    else
      match server(n, cursor)
      case Failure => Walked([], [cursor], Failed)
      case Page(items, next) =>
        if next == "" then Walked(items, [cursor], Complete)
        else if next in seen then Walked(items, [cursor], Repeated)
        else
          var rest := Walk(server, n + 1, next, seen + {next}, budget - 1);
          Walked(items + rest.items, [cursor] + rest.asked, rest.end)
  }

  function After(items: seq<Item>, asked: seq<string>, w: Walked): Walked {
    Walked(items + w.items, asked + w.asked, w.end)
  }

  lemma WalkStep(server: Server, cursor: string, seen: set<string>, budget: nat, items: seq<Item>, asked: seq<string>)
    requires budget > 0
    ensures After(items, asked, Walk(server, |asked|, cursor, seen, budget)) ==
              match server(|asked|, cursor)
              case Failure => Walked(items, asked + [cursor], Failed)
              case Page(more, next) =>
                if next == "" then Walked(items + more, asked + [cursor], Complete)
                else if next in seen then Walked(items + more, asked + [cursor], Repeated)
                else After(items + more, asked + [cursor], Walk(server, |asked| + 1, next, seen + {next}, budget - 1))
  {
    match server(|asked|, cursor)
    case Failure =>
    case Page(more, next) =>
      var rest := Walk(server, |asked| + 1, next, seen + {next}, budget - 1);
      assert items + (more + rest.items) == items + more + rest.items;
      assert asked + ([cursor] + rest.asked) == asked + [cursor] + rest.asked;
  }

  // ------------------------------------------------------------------ the loops

  /** The SDK counts pages after it fetched them: a budget below one still fetches one. */
  method PaginateSdk(server: Server, maxPages: int) returns (items: seq<Item>, asked: seq<string>, end: End)
    ensures Walked(items, asked, end) == Walk(server, 0, "", {}, if maxPages < 1 then 1 else maxPages)
  {
    var budget: nat := if maxPages < 1 then 1 else maxPages;
    items, asked := [], [];
    var cursor, seen := "", {};
    while true
      invariant |asked| < budget
      invariant Walk(server, 0, "", {}, budget)
                == After(items, asked, Walk(server, |asked|, cursor, seen, budget - |asked|))
      decreases budget - |asked|
    {
      WalkStep(server, cursor, seen, budget - |asked|, items, asked);
      var page := server(|asked|, cursor);
      asked := asked + [cursor];
      if page.Failure? { return items, asked, Failed; }
      items := items + page.items;
      cursor := page.next;
      if cursor == "" { return items, asked, Complete; }
      if cursor in seen { return items, asked, Repeated; }
      if |asked| >= maxPages { return items, asked, Truncated; }
      seen := seen + {cursor};
    }
  }

  /** The gate counts pages before: a budget below one fetches nothing. A failure loses the list. */
  method ListFindings(server: Server, maxPages: int) returns (items: seq<Item>, asked: seq<string>, end: End)
    ensures var w := Walk(server, 0, "", {}, if maxPages < 0 then 0 else maxPages);
            asked == w.asked && end == w.end && items == if w.end == Failed then [] else w.items
  {
    items, asked, end := ForwardPages(server, if maxPages < 0 then 0 else maxPages);
  }

  /** The forwarder asks for at least one page. */
  method PaginateForward(server: Server, maxPages: int) returns (items: seq<Item>, asked: seq<string>, end: End)
    ensures var w := Walk(server, 0, "", {}, if maxPages < 1 then 1 else maxPages);
            asked == w.asked && end == w.end && items == if w.end == Failed then [] else w.items
  {
    items, asked, end := ForwardPages(server, if maxPages < 1 then 1 else maxPages);
  }

  /** The loop the gate and the forwarder have in common. */
  method ForwardPages(server: Server, budget: nat) returns (items: seq<Item>, asked: seq<string>, end: End)
    ensures var w := Walk(server, 0, "", {}, budget);
            asked == w.asked && end == w.end && items == if w.end == Failed then [] else w.items
  {
    items, asked := [], [];
    var cursor, seen := "", {};
    for page := 0 to budget
      invariant |asked| == page
      invariant Walk(server, 0, "", {}, budget) == After(items, asked, Walk(server, page, cursor, seen, budget - page))
    {
      WalkStep(server, cursor, seen, budget - page, items, asked);
      var answer := server(page, cursor);
      asked := asked + [cursor];
      if answer.Failure? { return [], asked, Failed; }
      items := items + answer.items;
      if answer.next == "" { return items, asked, Complete; }
      if answer.next in seen { return items, asked, Repeated; }
      seen := seen + {answer.next};
      cursor := answer.next;
    }
    end := Truncated;
  }

  // ------------------------------------------------------------- what they promise

  /** At most `budget` requests; no cursor is asked for twice; only the first request has none. */
  lemma {:induction false} NeverAskedTwice(server: Server, n: nat, cursor: string, seen: set<string>, budget: nat)
    requires cursor in seen || cursor == ""
    ensures var asked := Walk(server, n, cursor, seen, budget).asked;
            && |asked| <= budget
            && (forall i :: 0 < i < |asked| ==> asked[i] != "" && asked[i] !in seen)
            && (forall i, j :: 0 <= i < j < |asked| ==> asked[i] != asked[j])
            && (budget > 0 ==> asked != [] && asked[0] == cursor)
    decreases budget
  {
    if budget > 0 && server(n, cursor).Page? && server(n, cursor).next != "" && server(n, cursor).next !in seen {
      var next := server(n, cursor).next;
      NeverAskedTwice(server, n + 1, next, seen + {next}, budget - 1);
    }
  }

  function CursorAt(cursors: seq<string>, i: nat): string {
    if i < |cursors| then cursors[i] else ""
  }

  /** An honest listing: pages chained by distinct cursors. */
  ghost predicate Chained(server: Server, cursors: seq<string>, pages: seq<seq<Item>>) {
    && |cursors| == |pages| > 0
    && cursors[0] == ""
    && (forall i, j :: 0 <= i < j < |cursors| ==> cursors[i] != cursors[j])
    && (forall i {:trigger pages[i]} :: 0 <= i < |pages| ==>
          server(i, cursors[i]) == Page(pages[i], CursorAt(cursors, i + 1)))
  }

  function Flatten(pages: seq<seq<Item>>): seq<Item> {
    if pages == [] then [] else pages[0] + Flatten(pages[1..])
  }

  lemma {:induction false} FlattenPrefix(pages: seq<seq<Item>>, n: nat, m: nat)
    requires n <= m <= |pages|
    ensures Flatten(pages[..n]) <= Flatten(pages[..m])
    decreases n
  {
    if n > 0 {
      assert pages[..n][1..] == pages[1..][..n - 1] && pages[..m][1..] == pages[1..][..m - 1];
      FlattenPrefix(pages[1..], n - 1, m - 1);
    }
  }

  lemma {:induction false} WalkChain(server: Server, cursors: seq<string>, pages: seq<seq<Item>>, i: nat,
                                     seen: set<string>, budget: nat)
    requires Chained(server, cursors, pages) && i < |pages|
    requires forall j :: i < j < |cursors| ==> cursors[j] !in seen
    ensures var w, left := Walk(server, i, cursors[i], seen, budget), |pages| - i;
            && w.items == Flatten(pages[i..if budget < left then i + budget else |pages|])
            && (w.end == Complete <==> budget >= left)
            && (w.end == Truncated <==> budget < left)
    decreases budget
  {
    var stop := if budget < |pages| - i then i + budget else |pages|;
    if budget > 0 {
      assert pages[i..stop][0] == pages[i] && pages[i..stop][1..] == pages[i + 1..stop];
      if i + 1 < |pages| {
        assert cursors[0] != cursors[i + 1];
        WalkChain(server, cursors, pages, i + 1, seen + {cursors[i + 1]}, budget - 1);
      } else {
        assert Flatten(pages[i + 1..stop]) == [];
        assert Flatten(pages[i..stop]) == pages[i];
      }
    }
  }

  /** From an honest server the loops return every page, or the first `budget` pages and say so. */
  lemma HonestListingComplete(server: Server, cursors: seq<string>, pages: seq<seq<Item>>, budget: nat)
    requires Chained(server, cursors, pages)
    ensures var w := Walk(server, 0, "", {}, budget);
            && w.items == Flatten(pages[..if budget < |pages| then budget else |pages|])
            && (w.end == Complete <==> budget >= |pages|)
            && (w.end == Truncated <==> budget < |pages|)
  {
    WalkChain(server, cursors, pages, 0, {}, budget);
    var stop := if budget < |pages| then budget else |pages|;
    assert pages[0..stop] == pages[..stop];
  }
}
