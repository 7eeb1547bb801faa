/** Reading a macro out, six items at a time, and writing it back: GET_MACRO and APPEND_TO_MACRO. */
module MacroPaging {
  import opened Bytes
  import opened Sequences
  import opened ConfigCodec

  const MACRO_ITEMS_IN_PACKET: nat := 6

  // ---- reading -----------------------------------------------------------------------------------

  function Closed(e: Entry): seq<Uint32> {
    e + [0]
  }

  /** All entries, each closed by a zero. */
  function Flat(m: Macro): seq<Uint32> {
    FlatMap(Closed, m)
  }

  /** What the host is to see: the same without the last zero. */
  function Listing(m: Macro): seq<Uint32> {
    if m == [] then [] else Flat(m[..|m| - 1]) + m[|m| - 1]
  }

  lemma FlatIsListing(m: Macro)
    requires m != []
    ensures Flat(m) == Listing(m) + [0]
  {
    var n := |m| - 1;
    assert Flat(m[..n]) + (m[n] + [0]) == (Flat(m[..n]) + m[n]) + [0];
  }

  /** At most a packet of items from here on. */
  function Page(items: seq<Uint32>, from: nat): (page: seq<Uint32>)
    ensures |page| <= MACRO_ITEMS_IN_PACKET
  {
    if from >= |items| then []
    else if |items| - from <= MACRO_ITEMS_IN_PACKET then items[from..]
    else items[from..from + MACRO_ITEMS_IN_PACKET]
  }

  predicate NonzeroUsages(m: Macro) {
    forall e :: e in m ==> 0 !in e
  }

  /** The items seen so far, of those that the request asks for. */
  function Seen(items: seq<Uint32>, from: nat, pos: nat): seq<Uint32>
    requires pos <= |items|
  {
    if pos <= from then [] else items[from..pos]
  }

  /** Where entry j begins and what it looks like there. */
  lemma {:induction false} EntryInFlat(m: Macro, j: nat)
    requires j < |m|
    ensures var start := |Flat(m[..j])|;
            && start + |m[j]| + 1 <= |Flat(m)|
            && Flat(m)[start..start + |m[j]|] == m[j] && Flat(m)[start + |m[j]|] == 0
            && |Flat(m[..j + 1])| == start + |m[j]| + 1
    decreases |m|
  {
    FlatMapPrefix(Closed, m, j);
    var n := |m| - 1;
    if j < n {
      EntryInFlat(m[..n], j);
      assert m[..n][..j] == m[..j];
      var start := |Flat(m[..j])|;
      assert Flat(m)[start..start + |m[j]|] == Flat(m[..n])[start..start + |m[j]|];
    } else {
      assert m[..j + 1] == m;
    }
  }

  /** The sixteen-bit number of an item does not wrap before the page is full. */
  predicate Counted(m: Macro, from: nat) {
    from + MACRO_ITEMS_IN_PACKET <= 0x1_0000 || |Flat(m)| < 0x1_0000
  }

  /** One entry's turn: items are taken as long as there is room for them. */
  method PageEntry(m: Macro, j: nat, from: nat, page: seq<Uint32>, at: nat) returns (more: seq<Uint32>, i: nat)
    requires Counted(m, from)
    requires j < |m| && |page| < MACRO_ITEMS_IN_PACKET && at == |Flat(m[..j])| <= |Flat(m)|
             && page == Seen(Flat(m), from, at)
    ensures |more| <= MACRO_ITEMS_IN_PACKET && |Flat(m[..j + 1])| <= |Flat(m)|
    ensures |more| < MACRO_ITEMS_IN_PACKET ==> i == |Flat(m[..j + 1])| && more == Seen(Flat(m), from, i)
    ensures |more| == MACRO_ITEMS_IN_PACKET ==>
              from + MACRO_ITEMS_IN_PACKET <= |Flat(m[..j + 1])| && more == Flat(m)[from..from + MACRO_ITEMS_IN_PACKET]
  {
    hide Flat;
    EntryInFlat(m, j);
    ghost var flat := Flat(m);
    more, i := page, at;
    for k := 0 to |m[j]|
      invariant i == at + k && |more| < MACRO_ITEMS_IN_PACKET && more == Seen(flat, from, i)
    {
      assert flat[at + k] == flat[at..at + |m[j]|][k] == m[j][k];
      if i >= from {
        more := more + [m[j][k]];
        assert more == flat[from..i + 1];
        if |more| >= MACRO_ITEMS_IN_PACKET {
          return;
        }
      }
      i := (i + 1) % 0x1_0000;
    }
    if i >= from {
      more := more + [0];
      assert more == flat[from..i + 1];
    }
    i := (i + 1) % 0x1_0000;
  }

  /** The page reaches into the last entry, so that a zero at its end counts as the macro's last one. */
  predicate Exhausted(m: Macro, from: nat) {
    m != [] && |Flat(m[..|m| - 1])| < from + MACRO_ITEMS_IN_PACKET
  }

  function Answer(m: Macro, from: nat): seq<Uint32> {
    var page := Page(Flat(m), from);
    if Exhausted(m, from) && page != [] && page[|page| - 1] == 0 then page[..|page| - 1] else page
  }

  /** GET_MACRO, on any macro that is not both longer than sixteen bits count and asked for its very end. */
  method GetMacro(m: Macro, from: nat) returns (page: seq<Uint32>)
    requires Counted(m, from)
    ensures page == Answer(m, from)
  {
    page := [];
    var i: nat, exhausted := 0, true;
    for j := 0 to |m|
      invariant exhausted && |page| <= MACRO_ITEMS_IN_PACKET && |Flat(m[..j])| <= |Flat(m)|
      invariant |page| < MACRO_ITEMS_IN_PACKET ==> i == |Flat(m[..j])| && page == Seen(Flat(m), from, i)
      invariant |page| == MACRO_ITEMS_IN_PACKET ==>
        && j > 0 && |Flat(m[..j - 1])| < from + MACRO_ITEMS_IN_PACKET <= |Flat(m[..j])|
        && page == Flat(m)[from..from + MACRO_ITEMS_IN_PACKET]
    {
      if |page| >= MACRO_ITEMS_IN_PACKET {
        exhausted := false;
        FlatGrows(m, j, |m| - 1);
        break;
      }
      page, i := PageEntry(m, j, from, page, i);
    }
    assert m[..|m|] == m;
    assert page == Page(Flat(m), from) && (page != [] ==> exhausted == Exhausted(m, from));
    if exhausted && page != [] && page[|page| - 1] == 0 {
      page := page[..|page| - 1];
    }
  }

  lemma {:induction false} FlatGrows(m: Macro, j: nat, k: nat)
    requires j <= k <= |m|
    ensures |Flat(m[..j])| <= |Flat(m[..k])| <= |Flat(m)|
    decreases |m| - j
  {
    if k < |m| {
      EntryInFlat(m, k);
    } else {
      assert m[..k] == m;
    }
    if j < k {
      FlatMapPrefix(Closed, m, j);
      FlatGrows(m, j + 1, k);
    }
  }

  lemma NoZeroInside(m: Macro, from: nat)
    requires m != [] && NonzeroUsages(m) && from + MACRO_ITEMS_IN_PACKET <= |Flat(m)| && Exhausted(m, from)
    ensures Flat(m)[from + MACRO_ITEMS_IN_PACKET - 1] == 0 <==> from + MACRO_ITEMS_IN_PACKET == |Flat(m)|
  {
    var n, last := |m| - 1, from + MACRO_ITEMS_IN_PACKET - 1;
    EntryInFlat(m, n);
    assert m[..n + 1] == m;
    var start := |Flat(m[..n])|;
    if last < |Flat(m)| - 1 {
      assert Flat(m)[last] == Flat(m)[start..start + |m[n]|][last - start] == m[n][last - start];
      assert m[n] in m;
    }
  }

  /** The last zero shows on the last page only. */
  lemma PageWithoutLast(items: seq<Uint32>, from: nat)
    ensures var p := Page(items + [0], from);
            if from + MACRO_ITEMS_IN_PACKET <= |items| then
              p == Page(items, from) && p != [] && p[|p| - 1] == items[from + MACRO_ITEMS_IN_PACKET - 1]
            else if from > |items| then p == [] == Page(items, from)
            else p != [] && p[|p| - 1] == 0 && p[..|p| - 1] == Page(items, from)
  {
  }

  /** Every answer is a page of the listing, when no usage is zero. */
  lemma AnswerIsPage(m: Macro, from: nat)
    requires NonzeroUsages(m)
    ensures Answer(m, from) == Page(Listing(m), from)
  {
    if m != [] {
      hide Flat, Page;
      FlatIsListing(m);
      PageWithoutLast(Listing(m), from);
      EntryInFlat(m, |m| - 1);
      assert m[..|m|] == m;
      if from + MACRO_ITEMS_IN_PACKET <= |Flat(m)| && Exhausted(m, from) {
        NoZeroInside(m, from);
      }
    }
  }

  /** That is: six items from there on, or as many as are left. */
  lemma AnswerIsSixItems(m: Macro, from: nat)
    requires NonzeroUsages(m)
    ensures var items, page := Listing(m), Answer(m, from);
            if from >= |items| then page == []
            else if from + 6 <= |items| then page == items[from..from + 6]
            else page == items[from..]
  {
    hide Answer, Listing;
    AnswerIsPage(m, from);
  }

  // ---- writing -------------------------------------------------------------------------------------------

  /** An item ends an entry or belongs to the last one. */
  function Feed(m: Macro, items: seq<Uint32>): (r: Macro)
    requires m != []
    ensures r != []
  {
    if items == [] then m else
      var before, item := Feed(m, items[..|items| - 1]), items[|items| - 1];
      if item == 0 then before + [[]] else before[|before| - 1 := before[|before| - 1] + [item]]
  }

  /** APPEND_TO_MACRO, on any packet. */
  method AppendToMacro(m: Macro, nitems: nat, usages: seq<Uint32>) returns (r: Macro)
    requires |usages| == MACRO_ITEMS_IN_PACKET
    ensures var n := if nitems < MACRO_ITEMS_IN_PACKET then nitems else MACRO_ITEMS_IN_PACKET;
            r == Feed(if m == [] then [[]] else m, usages[..n])
  {
    r := m;
    if r == [] {
      r := [[]];
    }
    ghost var start := r;
    var i: nat := 0;
    while i < MACRO_ITEMS_IN_PACKET && i < nitems
      invariant i <= MACRO_ITEMS_IN_PACKET && i <= nitems && r != [] && r == Feed(start, usages[..i])
    {
      assert usages[..i + 1][..i] == usages[..i];
      if usages[i] == 0 {
        r := r + [[]];
      } else {
        r := r[|r| - 1 := r[|r| - 1] + [usages[i]]];
      }
      i := i + 1;
    }
  }

  lemma {:induction false} FeedAppend(m: Macro, a: seq<Uint32>, b: seq<Uint32>)
    requires m != []
    ensures Feed(m, a + b) == Feed(Feed(m, a), b)
  {
    if b == [] {
      assert a + b == a;
    } else {
      FeedAppend(m, a, b[..|b| - 1]);
      assert (a + b)[..|a + b| - 1] == a + b[..|b| - 1];
    }
  }

  lemma {:induction false} FeedEntry(m: Macro, e: Entry)
    requires 0 !in e
    ensures Feed(m + [[]], e) == m + [e]
  {
    if e != [] {
      FeedEntry(m, e[..|e| - 1]);
      assert e[..|e| - 1] + [e[|e| - 1]] == e;
    }
  }

  lemma FeedZero(m: Macro)
    requires m != []
    ensures Feed(m, [0]) == m + [[]]
  {
    assert Feed(m, [0][..0]) == m;
  }

  /** The whole listing, fed to the first empty entry, is the macro. */
  lemma {:induction false} ListingRebuilds(m: Macro)
    requires m != [] && NonzeroUsages(m)
    ensures Feed([[]], Listing(m)) == m
  {
    var n := |m| - 1;
    assert m[n] in m;
    if n == 0 {
      var none: Macro := [];
      var blank: Macro := [[]];
      assert Flat(m[..0]) + m[0] == m[0] && none + blank == blank && none + [m[0]] == m;
      FeedEntry(none, m[0]);
    } else {
      ListingRebuilds(m[..n]);
      FlatIsListing(m[..n]);
      FeedAppend([[]], Listing(m[..n]) + [0], m[n]);
      FeedAppend([[]], Listing(m[..n]), [0]);
      FeedZero(m[..n]);
      FeedEntry(m[..n], m[n]);
      assert m[..n] + [m[n]] == m;
    }
  }

  /** Page after page, each from where the last one ended, fed to APPEND_TO_MACRO. */
  function Replay(source: Macro, from: nat, m: Macro): Macro
    requires m != []
    decreases |Flat(source)| - from
  {
    var page := Answer(source, from);
    if page == [] then m else Replay(source, from + |page|, Feed(m, page))
  }

  lemma PageSplits(items: seq<Uint32>, from: nat, page: seq<Uint32>)
    requires from <= |items| && page == Page(items, from)
    ensures from + |page| <= |items| && items[from..] == page + items[from + |page|..]
    ensures page == [] ==> items[from..] == []
  {
  }

  lemma ReplayStep(source: Macro, from: nat, m: Macro, page: seq<Uint32>)
    requires m != [] && page == Answer(source, from)
    ensures Replay(source, from, m) == if page == [] then m else Replay(source, from + |page|, Feed(m, page))
  {
  }

  lemma {:induction false} ReplayFeeds(source: Macro, from: nat, m: Macro, items: seq<Uint32>)
    requires m != [] && NonzeroUsages(source) && items == Listing(source) && from <= |items|
    ensures Replay(source, from, m) == Feed(m, items[from..])
    decreases |items| - from
  {
    var page := Answer(source, from);
    AnswerIsPage(source, from);
    PageSplits(items, from, page);
    ReplayStep(source, from, m, page);
    if page != [] {
      FeedAppend(m, page, items[from + |page|..]);
      ReplayFeeds(source, from + |page|, Feed(m, page), items);
    }
  }

  /** A macro read out page by page and appended page by page, to a macro that was cleared, is rebuilt; the empty macro
      becomes one empty entry. */
  lemma PagesRebuild(m: Macro)
    requires NonzeroUsages(m)
    ensures Replay(m, 0, [[]]) == if m == [] then [[]] else m
  {
    ReplayFeeds(m, 0, [[]], Listing(m));
    assert Listing(m)[0..] == Listing(m);
    if m != [] {
      ListingRebuilds(m);
    }
  }

  // ---- and only such macros are ---------------------------------------------------------------------------

  lemma {:induction false} FeedNonzero(m: Macro, items: seq<Uint32>)
    requires m != [] && NonzeroUsages(m)
    ensures NonzeroUsages(Feed(m, items))
  {
    if items != [] {
      FeedNonzero(m, items[..|items| - 1]);
    }
  }

  lemma {:induction false} ReplayNonzero(source: Macro, from: nat, m: Macro)
    requires m != [] && NonzeroUsages(m)
    ensures NonzeroUsages(Replay(source, from, m)) && Replay(source, from, m) != []
    decreases |Flat(source)| - from
  {
    var page := Answer(source, from);
    ReplayStep(source, from, m, page);
    if page != [] {
      FeedNonzero(m, page);
      ReplayNonzero(source, from + |page|, Feed(m, page));
    }
  }

  /** Pages read out and appended rebuild a macro exactly when it has an entry and none of its usages is zero. */
  lemma RebuiltExactly(m: Macro)
    ensures Replay(m, 0, [[]]) == m <==> m != [] && NonzeroUsages(m)
  {
    ReplayNonzero(m, 0, [[]]);
    if NonzeroUsages(m) {
      PagesRebuild(m);
    }
  }

  lemma AnswerOfZero(from: nat)
    ensures Answer([[0]], from) == if from == 0 then [0] else []
  {
    var m: Macro := [[0]];
    EntryInFlat(m, 0);
    assert m[..0] == [] && m[..1] == m;
    assert Flat(m) == [0, 0];
  }

  /** An entry that holds a zero usage, read out and written back, becomes two empty entries. */
  lemma ZeroEndsEntry()
    ensures Replay([[0]], 0, [[]]) == [[], []]
  {
    AnswerOfZero(0);
    AnswerOfZero(1);
    ReplayStep([[0]], 0, [[]], [0]);
    FeedZero([[]]);
    ReplayStep([[0]], 1, [[], []], []);
  }
}
