/** The dashboard's compact page window. */
module Pagination {
  datatype Item = Page(number: int) | Ellipsis

  const EDGE_BLOCK := 6
  const EDGE_SIBLINGS := 2

  function Max(a: int, b: int): int {
    if a < b then b else a
  }

  function Min(a: int, b: int): int {
    if a < b then a else b
  }

  function Clamp(page: int, total: int): int
    requires total >= 1
  {
    Min(Max(page, 1), total)
  }

  function Pages(from: int, to: int): (items: seq<Item>)
    ensures |items| == Max(0, to - from + 1)
    ensures forall i | 0 <= i < |items| :: items[i] == Page(from + i)
  {
    seq(Max(0, to - from + 1), i => Page(from + i))
  }

  /** The growing list the source pushes onto. */
  class Items {
    var items: seq<Item>

    constructor ()
      ensures items == []
    {
      items := [];
    }

    method Push(item: Item)
      modifies this
      ensures items == old(items) + [item]
    {
      items := items + [item];
    }

    method PushPageRange(from: int, to: int)
      modifies this
      ensures items == old(items) + Pages(from, to)
    {
      var current := from;
      while current <= to
        invariant from <= current <= Max(from, to + 1)
        invariant items == old(items) + Pages(from, current - 1)
      {
        Push(Page(current));
        current := current + 1;
      }
    }
  }

  // ---------------------------------------------------------------------------------------
  // What a window is
  // ---------------------------------------------------------------------------------------

  /** Neighbouring items: consecutive pages, or an ellipsis between pages it hides some of. */
  predicate Adjoins(w: seq<Item>, i: int)
    requires 0 <= i < |w| - 1
  {
    match w[i]
    case Page(p) =>
      if w[i + 1].Page? then w[i + 1].number == p + 1
      else i + 2 < |w| && w[i + 2].Page? && p + 2 <= w[i + 2].number
    case Ellipsis =>
      i > 0 && w[i - 1].Page? && w[i + 1].Page? && w[i - 1].number + 2 <= w[i + 1].number
  }

  predicate WellFormed(w: seq<Item>, page: int, total: int)
    requires total >= 1
  {
    && 1 <= |w| <= 9
    && w[0] == Page(1) && w[|w| - 1] == Page(total)
    && Page(Clamp(page, total)) in w
    && forall i | 0 <= i < |w| - 1 :: Adjoins(w, i)
  }

  /** The two pages on each side of the current one are shown. */
  predicate ShowsSiblings(w: seq<Item>, page: int, total: int)
    requires total >= 1
  {
    var current := Clamp(page, total);
    forall p | Max(1, current - EDGE_SIBLINGS) <= p <= Min(total, current + EDGE_SIBLINGS) :: Page(p) in w
  }

  /**
   The end block starts at the current page itself, not two pages before it, so on its first
   two pages the left siblings fall behind the ellipsis.
   */
  predicate CutsSiblings(page: int, total: int)
    requires total >= 1
  {
    var current := Clamp(page, total);
    total > EDGE_BLOCK + 1 && current > 4 && total - 5 <= current <= total - 4
  }

  method BuildPaginationWindow(page: int, totalPages: int) returns (window: seq<Item>)
    ensures WellFormed(window, page, Max(totalPages, 1))
    ensures ShowsSiblings(window, page, Max(totalPages, 1)) <==> !CutsSiblings(page, Max(totalPages, 1))
    ensures totalPages <= EDGE_BLOCK + 1 ==> Ellipsis !in window
    ensures totalPages > EDGE_BLOCK + 1 ==> Ellipsis in window
    ensures |window| == if totalPages <= 7 then Max(totalPages, 1)
                        else if Clamp(page, totalPages) <= 4 || Clamp(page, totalPages) >= totalPages - 5 then 8
                        else 9
  {
    var total := Max(totalPages, 1);
    var safePage := Min(Max(page, 1), total);
    if total <= EDGE_BLOCK + 1 {
      window := Pages(1, total);
      ContainsPages(window, 0, 1, total);
      return;
    }

    var items := new Items();
    var startBlockEnd := Min(EDGE_BLOCK, total - 1);
    var endBlockStart := total - EDGE_BLOCK + 1;
    var startZoneEnd := startBlockEnd - EDGE_SIBLINGS;

    if safePage <= startZoneEnd {
      items.PushPageRange(1, startBlockEnd);
      if startBlockEnd < total - 1 {
        items.Push(Ellipsis);
      }
      items.Push(Page(total));
      StartWindow(items.items, page, total);
      return items.items;
    }

    if safePage >= endBlockStart {
      items.Push(Page(1));
      if endBlockStart > 2 {
        items.Push(Ellipsis);
      }
      items.PushPageRange(endBlockStart, total);
      EndWindow(items.items, page, total);
      return items.items;
    }

    var left := Max(2, safePage - EDGE_SIBLINGS);
    var right := Min(total - 1, safePage + EDGE_SIBLINGS);
    items.Push(Page(1));
    if left > 2 {
      items.Push(Ellipsis);
    }
    items.PushPageRange(left, right);
    if right < total - 1 {
      items.Push(Ellipsis);
    }
    items.Push(Page(total));
    MiddleWindow(items.items, page, total);
    return items.items;
  }

  lemma ContainsPages(w: seq<Item>, at: nat, from: int, to: int)
    requires from <= to && at + (to - from + 1) <= |w|
    requires w[at..at + (to - from + 1)] == Pages(from, to)
    ensures forall p | from <= p <= to :: Page(p) in w
  {
    forall p | from <= p <= to ensures Page(p) in w {
      assert w[at + p - from] == w[at..at + (to - from + 1)][p - from];
    }
  }

  lemma StartWindow(w: seq<Item>, page: int, total: int)
    requires total > 7 && Clamp(page, total) <= 4
    requires w == Pages(1, 6) + [Ellipsis] + [Page(total)]
    ensures WellFormed(w, page, total) && ShowsSiblings(w, page, total) && Ellipsis in w
  {
    assert w[6] == Ellipsis;
    ContainsPages(w, 0, 1, 6);
  }

  lemma EndWindow(w: seq<Item>, page: int, total: int)
    requires total > 7 && Clamp(page, total) >= total - 5 && Clamp(page, total) > 4
    requires w == [Page(1)] + [Ellipsis] + Pages(total - 5, total)
    ensures WellFormed(w, page, total) && Ellipsis in w
    ensures ShowsSiblings(w, page, total) <==> !CutsSiblings(page, total)
  {
    assert w[1] == Ellipsis;
    var sibling := Clamp(page, total) - EDGE_SIBLINGS;
    assert sibling < total - 5 ==> Page(sibling) !in w;
    ContainsPages(w, 2, total - 5, total);
  }

  lemma MiddleWindow(w: seq<Item>, page: int, total: int)
    requires total > 7 && 4 < Clamp(page, total) < total - 5
    requires var p := Clamp(page, total);
             w == [Page(1)] + [Ellipsis] + Pages(p - 2, p + 2) + [Ellipsis] + [Page(total)]
    ensures WellFormed(w, page, total) && ShowsSiblings(w, page, total) && Ellipsis in w
  {
    assert w[1] == Ellipsis;
    ContainsPages(w, 2, Clamp(page, total) - 2, Clamp(page, total) + 2);
  }

  // ---------------------------------------------------------------------------------------
  // What follows for every window
  // ---------------------------------------------------------------------------------------

  /** Page numbers strictly increase along the window, so none is shown twice. */
  lemma {:induction false} NumbersIncrease(w: seq<Item>, page: int, total: int, i: nat, j: nat)
    requires total >= 1 && WellFormed(w, page, total)
    requires i < j < |w| && w[i].Page? && w[j].Page?
    ensures w[i].number < w[j].number
    decreases j
  {
    if w[j - 1].Page? {
      assert Adjoins(w, j - 1);
      if i < j - 1 {
        NumbersIncrease(w, page, total, i, j - 1);
      }
    } else {
      assert Adjoins(w, j - 1);
      if i < j - 2 {
        NumbersIncrease(w, page, total, i, j - 2);
      }
    }
  }

  /** A page of the range is shown, or exactly one ellipsis stands where it would be. */
  lemma {:induction false} EveryPageIsPlaced(w: seq<Item>, page: int, total: int, p: int, n: nat)
    requires total >= 1 && WellFormed(w, page, total)
    requires n < |w| && w[n].Page? && 1 <= p <= w[n].number
    ensures Page(p) in w
            || exists i | 0 < i < |w| - 1 ::
                 w[i].Ellipsis? && w[i - 1].Page? && w[i + 1].Page? && w[i - 1].number < p < w[i + 1].number
    decreases n
  {
    if p != w[n].number && n > 0 {
      assert Adjoins(w, n - 1);
      if w[n - 1].Page? {
        EveryPageIsPlaced(w, page, total, p, n - 1);
      } else if p <= w[n - 2].number {
        EveryPageIsPlaced(w, page, total, p, n - 2);
      }
    }
  }
}
