/**
 Score selection (vault/internal/server/grpc.go, lines 217-248): flatten the
 score matrix, sort it stably by descending score, keep the first k. Scores are
 reals.
 */
module TopK {

  datatype Entry = Entry(shard: int, row: int, score: real)

  /** Go's conversion int32(i). */
  function Int32(i: int): int {
    (i + 0x8000_0000) % 0x1_0000_0000 - 0x8000_0000
  }

  function ShardOf(shardIdx: seq<int>, i: nat): int {
    if i < |shardIdx| then shardIdx[i] else Int32(i)
  }

  function RowEntries(shard: int, row: seq<real>, n: nat): (r: seq<Entry>)
    requires n <= |row|
    ensures |r| == n
  {
    if n == 0 then [] else RowEntries(shard, row, n - 1) + [Entry(shard, Int32(n - 1), row[n - 1])]
  }

  /** The entries of the first n rows, row by row. */
  function Flatten(scores: seq<seq<real>>, shardIdx: seq<int>, n: nat): seq<Entry>
    requires n <= |scores|
  {
    if n == 0 then []
    else Flatten(scores, shardIdx, n - 1) + RowEntries(ShardOf(shardIdx, n - 1), scores[n - 1], |scores[n - 1]|)
  }

  /** Two's complement: the one representative of i modulo 2^32 in the range of int32. */
  lemma Int32Is(i: int, r: int)
    ensures r == Int32(i) <==> -0x8000_0000 <= r < 0x8000_0000 && (i - r) % 0x1_0000_0000 == 0
  {
  }

  // ---- the flattened list --------------------------------------------------------

  /** Number of scores in the first i rows. */
  function Before(scores: seq<seq<real>>, i: nat): nat
    requires i <= |scores|
  {
    if i == 0 then 0 else Before(scores, i - 1) + |scores[i - 1]|
  }

  predicate IsCell(scores: seq<seq<real>>, c: (nat, nat)) {
    c.0 < |scores| && c.1 < |scores[c.0]|
  }

  /** Where the flattened list has the score of row c.0, column c.1. */
  function PositionOf(scores: seq<seq<real>>, c: (nat, nat)): nat
    requires IsCell(scores, c)
  {
    Before(scores, c.0) + c.1
  }

  /** The entry of a cell: its score, its column as row index, and its row's shard index, given or not. */
  predicate EntryFor(scores: seq<seq<real>>, shardIdx: seq<int>, c: (nat, nat), e: Entry)
    requires IsCell(scores, c)
  {
    && e.score == scores[c.0][c.1]
    && e.row == Int32(c.1)
    && (if c.0 < |shardIdx| then e.shard == shardIdx[c.0] else e.shard == Int32(c.0))
  }

  lemma {:induction false} RowEntriesAre(shard: int, row: seq<real>, n: nat, j: nat)
    requires j < n <= |row|
    ensures RowEntries(shard, row, n)[j] == Entry(shard, Int32(j), row[j])
  {
    if j < n - 1 { RowEntriesAre(shard, row, n - 1, j); }
  }

  /** The list has every cell's entry at its place, and nothing else. */
  lemma {:induction false} FlattenIs(scores: seq<seq<real>>, shardIdx: seq<int>, n: nat, c: (nat, nat))
    requires n <= |scores|
    ensures |Flatten(scores, shardIdx, n)| == Before(scores, n)
    ensures IsCell(scores, c) && c.0 < n ==>
              && PositionOf(scores, c) < Before(scores, n)
              && EntryFor(scores, shardIdx, c, Flatten(scores, shardIdx, n)[PositionOf(scores, c)])
  {
    if n > 0 {
      FlattenIs(scores, shardIdx, n - 1, c);
      if c.0 == n - 1 && c.1 < |scores[n - 1]| {
        RowEntriesAre(ShardOf(shardIdx, n - 1), scores[n - 1], |scores[n - 1]|, c.1);
      }
    }
  }

  /** Every position is one cell's. */
  lemma {:induction false} CellAt(scores: seq<seq<real>>, n: nat, p: nat) returns (c: (nat, nat))
    requires n <= |scores| && p < Before(scores, n)
    ensures IsCell(scores, c) && c.0 < n && PositionOf(scores, c) == p
  {
    if p < Before(scores, n - 1) {
      c := CellAt(scores, n - 1, p);
    } else {
      c := (n - 1, p - Before(scores, n - 1));
    }
  }

  /** Positions go row by row, and column by column within a row. */
  lemma {:induction false} BeforeGrows(scores: seq<seq<real>>, i: nat, k: nat)
    requires i < k <= |scores|
    ensures Before(scores, i) + |scores[i]| <= Before(scores, k)
  {
    if i < k - 1 { BeforeGrows(scores, i, k - 1); }
  }

  /** Reading order of the matrix. */
  predicate Earlier(c: (nat, nat), d: (nat, nat)) {
    c.0 < d.0 || (c.0 == d.0 && c.1 < d.1)
  }

  lemma PositionsInOrder(scores: seq<seq<real>>, c: (nat, nat), d: (nat, nat))
    requires IsCell(scores, c) && IsCell(scores, d)
    ensures PositionOf(scores, c) < PositionOf(scores, d) <==> Earlier(c, d)
  {
    if c.0 < d.0 { BeforeGrows(scores, c.0, d.0); }
    if d.0 < c.0 { BeforeGrows(scores, d.0, c.0); }
  }

  // ---- the order -------------------------------------------------------------

  /** Position i comes before position j: higher score, or the same score and earlier in the list. */
  predicate Beats(all: seq<Entry>, i: nat, j: nat)
    requires i < |all| && j < |all|
  {
    all[i].score > all[j].score || (all[i].score == all[j].score && i < j)
  }

  predicate Positions(all: seq<Entry>, p: seq<nat>) {
    forall a :: 0 <= a < |p| ==> p[a] < |all|
  }

  /** Positions listed best first. */
  predicate Ordered(all: seq<Entry>, p: seq<nat>) {
    && Positions(all, p)
    && forall a, b :: 0 <= a < b < |p| ==> Beats(all, p[a], p[b])
  }

  function Elements(p: seq<nat>): set<nat> { set x | x in p }

  function Pick(all: seq<Entry>, p: seq<nat>): (r: seq<Entry>)
    requires Positions(all, p)
    ensures |r| == |p|
    ensures forall a :: 0 <= a < |p| ==> r[a] == all[p[a]]
  {
    seq(|p|, a requires 0 <= a < |p| => all[p[a]])
  }

  /** Insert position n behind everything that does not score lower. */
  function InsertPosition(all: seq<Entry>, p: seq<nat>, n: nat): (r: seq<nat>)
    requires Positions(all, p) && n < |all|
    ensures |r| == |p| + 1
    ensures Positions(all, r)
  {
    if p == [] then [n]
    else
      var m := |p| - 1;
      if all[p[m]].score < all[n].score then InsertPosition(all, p[..m], n) + [p[m]] else p + [n]
  }

  /** The first n positions in the order a stable descending sort puts them. */
  function SortedPositions(all: seq<Entry>, n: nat): (r: seq<nat>)
    requires n <= |all|
    ensures |r| == n
    ensures Positions(all, r)
  {
    if n == 0 then [] else InsertPosition(all, SortedPositions(all, n - 1), n - 1)
  }

  lemma {:induction false} InsertOrdered(all: seq<Entry>, p: seq<nat>, n: nat)
    requires Ordered(all, p) && n < |all|
    requires forall a :: 0 <= a < |p| ==> p[a] < n
    ensures Ordered(all, InsertPosition(all, p, n))
    ensures Elements(InsertPosition(all, p, n)) == Elements(p) + {n}
  {
    if p != [] {
      var m := |p| - 1;
      var front, last := p[..m], p[m];
      assert p == front + [last];
      if all[last].score < all[n].score {
        InsertOrdered(all, front, n);
        var q := InsertPosition(all, front, n);
        forall y | y in Elements(q) ensures y < |all| && Beats(all, y, last) {
          if y != n {
            assert y in Elements(front);
            FrontBeatsLast(all, front, last, y);
          }
        }
        AppendOrdered(all, q, last);
        assert Elements(p) == Elements(front) + {last};
      } else {
        forall y | y in Elements(p) ensures y < |all| && Beats(all, y, n) {
          if y != last {
            FrontBeatsLast(all, front, last, y);
          }
        }
        AppendOrdered(all, p, n);
      }
    }
  }

  lemma InElements(p: seq<nat>, i: int)
    ensures i in p <==> i >= 0 && i in Elements(p)
  {
    assert i in p ==> i >= 0;
  }

  lemma FrontBeatsLast(all: seq<Entry>, front: seq<nat>, last: nat, y: nat)
    requires Ordered(all, front + [last]) && y in front
    ensures y < |all| && last < |all| && Beats(all, y, last)
  {
    var p := front + [last];
    var b :| 0 <= b < |front| && front[b] == y;
    assert Beats(all, p[b], p[|front|]);
  }

  lemma AppendOrdered(all: seq<Entry>, q: seq<nat>, x: nat)
    requires Ordered(all, q) && x < |all|
    requires forall y :: y in Elements(q) ==> y < |all| && Beats(all, y, x)
    ensures Ordered(all, q + [x])
    ensures Elements(q + [x]) == Elements(q) + {x}
  {
    forall a | 0 <= a < |q| ensures Beats(all, q[a], x) { assert q[a] in Elements(q); }
  }

  lemma {:induction false} SortedPositionsOrdered(all: seq<Entry>, n: nat)
    requires n <= |all|
    ensures Ordered(all, SortedPositions(all, n))
    ensures forall i :: i in SortedPositions(all, n) <==> 0 <= i < n
  {
    if n > 0 {
      SortedPositionsOrdered(all, n - 1);
      var p := SortedPositions(all, n - 1);
      forall a | 0 <= a < |p| ensures p[a] < n - 1 { assert p[a] in p; }
      InsertOrdered(all, p, n - 1);
      var r := InsertPosition(all, p, n - 1);
      forall i ensures i in r <==> 0 <= i < n {
        InElements(r, i);
        InElements(p, i);
      }
    }
  }

  /** Two best-first listings of the same positions are the same. */
  lemma {:induction false} OrderedUnique(all: seq<Entry>, p: seq<nat>, q: seq<nat>)
    requires Ordered(all, p) && Ordered(all, q)
    requires Elements(p) == Elements(q)
    ensures p == q
  {
    assert |p| > 0 ==> p[0] in Elements(p);
    assert |q| > 0 ==> q[0] in Elements(q);
    if p != [] && q != [] {
      var i :| 0 <= i < |q| && q[i] == p[0];
      var j :| 0 <= j < |p| && p[j] == q[0];
      assert p[0] == q[0];
      OrderedTail(all, p);
      OrderedTail(all, q);
      OrderedUnique(all, p[1..], q[1..]);
      assert p == [p[0]] + p[1..] && q == [q[0]] + q[1..];
    }
  }

  lemma OrderedTail(all: seq<Entry>, p: seq<nat>)
    requires Ordered(all, p) && p != []
    ensures Ordered(all, p[1..])
    ensures Elements(p[1..]) == Elements(p) - {p[0]}
  {
    assert p == [p[0]] + p[1..];
    forall a | 0 <= a < |p[1..]| ensures p[1..][a] != p[0] {
      assert Beats(all, p[0], p[a + 1]);
    }
  }

  // ---- the specification -------------------------------------------------------

  function Least(k: int, n: nat): int { if k > n then n else k }

  /** These positions are the k best: in order, and every other position loses to each of them. */
  ghost predicate Best(all: seq<Entry>, k: nat, p: seq<nat>) {
    && Ordered(all, p)
    && |p| == Least(k, |all|)
    && forall i, a :: 0 <= i < |all| && i !in p && 0 <= a < |p| ==> Beats(all, p[a], i)
  }

  ghost predicate IsTopK(all: seq<Entry>, k: nat, out: seq<Entry>) {
    exists p :: Best(all, k, p) && out == Pick(all, p)
  }

  function SelectedPositions(all: seq<Entry>, k: nat): (r: seq<nat>)
    ensures |r| == Least(k, |all|) && Positions(all, r)
  {
    SortedPositions(all, |all|)[..Least(k, |all|)]
  }

  /** What the code returns: the first entries of the sorted list. */
  function Selected(all: seq<Entry>, k: nat): seq<Entry> {
    Pick(all, SelectedPositions(all, k))
  }

  lemma SelectedBest(all: seq<Entry>, k: nat)
    ensures Best(all, k, SelectedPositions(all, k))
  {
    var order := SortedPositions(all, |all|);
    SortedPositionsOrdered(all, |all|);
    var p := SelectedPositions(all, k);
    forall i, a | 0 <= i < |all| && i !in p && 0 <= a < |p| ensures Beats(all, p[a], i) {
      assert i in order;
      var b :| 0 <= b < |order| && order[b] == i;
      assert forall c :: 0 <= c < |p| ==> order[c] == p[c] && p[c] in p;
    }
  }

  lemma {:induction false} OrderedSize(all: seq<Entry>, p: seq<nat>)
    requires Ordered(all, p)
    ensures |Elements(p)| == |p|
  {
    if p == [] {
      assert Elements(p) == {};
    } else {
      OrderedTail(all, p);
      OrderedSize(all, p[1..]);
      assert p[0] in Elements(p);
    }
  }

  lemma ChosenBeatsOmitted(all: seq<Entry>, k: nat, p: seq<nat>, i: nat, j: nat)
    requires Best(all, k, p)
    requires i in p && j !in p && j < |all|
    ensures i < |all| && Beats(all, i, j)
  {
    var a :| 0 <= a < |p| && p[a] == i;
  }

  lemma BestUnique(all: seq<Entry>, k: nat, p: seq<nat>, q: seq<nat>)
    requires Best(all, k, p) && Best(all, k, q)
    ensures p == q
  {
    OrderedSize(all, p);
    OrderedSize(all, q);
    if Elements(p) != Elements(q) {
      if Elements(p) <= Elements(q) { SubsetSameSize(Elements(p), Elements(q)); }
      if Elements(q) <= Elements(p) { SubsetSameSize(Elements(q), Elements(p)); }
      var i :| i in Elements(p) && i !in Elements(q);
      var j :| j in Elements(q) && j !in Elements(p);
      assert j < |all| && i < |all|;
      ChosenBeatsOmitted(all, k, p, i, j);
      ChosenBeatsOmitted(all, k, q, j, i);
    }
    OrderedUnique(all, p, q);
  }

  lemma SubsetSameSize(a: set<nat>, b: set<nat>)
    requires |a| == |b| && a <= b
    ensures a == b
  {
    assert |b - a| == |b| - |a|;
  }

  /**
   The specification has exactly one solution, and the code's selection is it:
   the k best in order, ties by position, every omitted entry losing to each
   returned one.
   */
  lemma TopKUnique(all: seq<Entry>, k: nat, out: seq<Entry>)
    ensures IsTopK(all, k, out) <==> out == Selected(all, k)
  {
    SelectedBest(all, k);
    if IsTopK(all, k, out) {
      var p :| Best(all, k, p) && out == Pick(all, p);
      BestUnique(all, k, p, SelectedPositions(all, k));
    }
  }

  /** Asking for one more only appends. */
  lemma TopKPrefix(all: seq<Entry>, k: nat)
    ensures Selected(all, k) <= Selected(all, k + 1)
  {
  }

  /** Asking for everything returns every entry, once for each time it was scored. */
  lemma TopKConserves(all: seq<Entry>, k: nat)
    requires k >= |all|
    ensures multiset(Selected(all, k)) == multiset(all)
  {
    SortedMultiset(all, |all|);
    assert all[..|all|] == all;
    assert SelectedPositions(all, k) == SortedPositions(all, |all|);
  }

  lemma {:induction false} SortedMultiset(all: seq<Entry>, n: nat)
    requires n <= |all|
    ensures multiset(Pick(all, SortedPositions(all, n))) == multiset(all[..n])
  {
    if n == 0 {
      assert Pick(all, SortedPositions(all, 0)) == [] && all[..0] == [];
    } else {
      SortedMultiset(all, n - 1);
      InsertMultiset(all, SortedPositions(all, n - 1), n - 1);
      PrefixMultiset(all, n - 1);
    }
  }

  lemma PrefixMultiset(all: seq<Entry>, n: nat)
    requires n < |all|
    ensures multiset(all[..n + 1]) == multiset(all[..n]) + multiset{all[n]}
  {
    assert all[..n + 1] == all[..n] + [all[n]];
  }

  lemma {:induction false} InsertMultiset(all: seq<Entry>, p: seq<nat>, n: nat)
    requires Positions(all, p) && n < |all|
    ensures multiset(Pick(all, InsertPosition(all, p, n))) == multiset(Pick(all, p)) + multiset{all[n]}
  {
    var r := InsertPosition(all, p, n);
    if p == [] {
      assert Pick(all, r) == [all[n]] && Pick(all, p) == [];
    } else {
      var m := |p| - 1;
      assert Pick(all, p) == Pick(all, p[..m]) + [all[p[m]]];
      if all[p[m]].score < all[n].score {
        InsertMultiset(all, p[..m], n);
        assert Pick(all, r) == Pick(all, InsertPosition(all, p[..m], n)) + [all[p[m]]];
      } else {
        assert Pick(all, r) == Pick(all, p) + [all[n]];
      }
    }
  }

  // ---- the answer, in terms of the score matrix ------------------------------------

  /** A cell is returned before another: higher score, or the same and earlier in reading order. */
  predicate CellBeats(scores: seq<seq<real>>, c: (nat, nat), d: (nat, nat))
    requires IsCell(scores, c) && IsCell(scores, d)
  {
    scores[c.0][c.1] > scores[d.0][d.1] || (scores[c.0][c.1] == scores[d.0][d.1] && Earlier(c, d))
  }

  /** The answer shows these cells: no cell twice, best first, and every other cell loses to each. */
  ghost predicate Shows(scores: seq<seq<real>>, shardIdx: seq<int>, cells: seq<(nat, nat)>, out: seq<Entry>) {
    && |cells| == |out|
    && (forall a :: 0 <= a < |cells| ==> IsCell(scores, cells[a]) && EntryFor(scores, shardIdx, cells[a], out[a]))
    && (forall a, b :: 0 <= a < b < |cells| ==> cells[a] != cells[b] && CellBeats(scores, cells[a], cells[b]))
    && (forall d, a :: IsCell(scores, d) && d !in cells && 0 <= a < |cells| ==> CellBeats(scores, cells[a], d))
  }

  /**
   The selection over the flattened matrix, without the list: min(k, number of
   scores) entries, each of one cell with the shard index given for its row.
   */
  lemma AnswerIs(scores: seq<seq<real>>, shardIdx: seq<int>, k: nat) returns (cells: seq<(nat, nat)>)
    ensures var out := Selected(Flatten(scores, shardIdx, |scores|), k);
            && |out| == (if k < Before(scores, |scores|) then k else Before(scores, |scores|))
            && Shows(scores, shardIdx, cells, out)
  {
    var all := Flatten(scores, shardIdx, |scores|);
    var p := SelectedPositions(all, k);
    SelectedBest(all, k);
    FlattenIs(scores, shardIdx, |scores|, (0, 0));
    cells := CellsAt(scores, p);
    forall a | 0 <= a < |cells| ensures EntryFor(scores, shardIdx, cells[a], Selected(all, k)[a]) {
      FlattenIs(scores, shardIdx, |scores|, cells[a]);
    }
    forall a, b | 0 <= a < b < |cells| ensures cells[a] != cells[b] && CellBeats(scores, cells[a], cells[b]) {
      assert Beats(all, p[a], p[b]);
      CellOrder(scores, shardIdx, cells[a], cells[b]);
    }
    forall d, a | IsCell(scores, d) && d !in cells && 0 <= a < |cells| ensures CellBeats(scores, cells[a], d) {
      OmittedPosition(scores, p, cells, d);
      FlattenIs(scores, shardIdx, |scores|, d);
      assert Beats(all, p[a], PositionOf(scores, d));
      CellOrder(scores, shardIdx, cells[a], d);
    }
  }

  lemma {:induction false} CellsAt(scores: seq<seq<real>>, p: seq<nat>) returns (cells: seq<(nat, nat)>)
    requires forall a :: 0 <= a < |p| ==> p[a] < Before(scores, |scores|)
    ensures |cells| == |p|
    ensures forall a :: 0 <= a < |p| ==> IsCell(scores, cells[a]) && PositionOf(scores, cells[a]) == p[a]
  {
    cells := [];
    for n := 0 to |p|
      invariant |cells| == n
      invariant forall a :: 0 <= a < n ==> IsCell(scores, cells[a]) && PositionOf(scores, cells[a]) == p[a]
    {
      var c := CellAt(scores, |scores|, p[n]);
      cells := cells + [c];
    }
  }

  lemma OmittedPosition(scores: seq<seq<real>>, p: seq<nat>, cells: seq<(nat, nat)>, d: (nat, nat))
    requires |cells| == |p| && IsCell(scores, d) && d !in cells
    requires forall a :: 0 <= a < |p| ==> IsCell(scores, cells[a]) && PositionOf(scores, cells[a]) == p[a]
    ensures PositionOf(scores, d) !in p
  {
    forall a | 0 <= a < |p| ensures p[a] != PositionOf(scores, d) {
      PositionsInOrder(scores, cells[a], d);
      PositionsInOrder(scores, d, cells[a]);
      assert cells[a] != d;
    }
  }

  lemma CellOrder(scores: seq<seq<real>>, shardIdx: seq<int>, c: (nat, nat), d: (nat, nat))
    requires IsCell(scores, c) && IsCell(scores, d)
    requires var all := Flatten(scores, shardIdx, |scores|);
             && PositionOf(scores, c) < |all| && PositionOf(scores, d) < |all|
             && Beats(all, PositionOf(scores, c), PositionOf(scores, d))
    ensures CellBeats(scores, c, d) && c != d
  {
    FlattenIs(scores, shardIdx, |scores|, c);
    FlattenIs(scores, shardIdx, |scores|, d);
    PositionsInOrder(scores, c, d);
  }

  // ---- the code ------------------------------------------------------------------

  method FlattenScores(scores: seq<seq<real>>, shardIdx: seq<int>) returns (all: seq<Entry>)
    ensures all == Flatten(scores, shardIdx, |scores|)
  {
    all := [];
    for i := 0 to |scores|
      invariant all == Flatten(scores, shardIdx, i)
    {
      var shard := if i < |shardIdx| then shardIdx[i] else Int32(i);
      var row := scores[i];
      for j := 0 to |row|
        invariant all == Flatten(scores, shardIdx, i) + RowEntries(shard, row, j)
      {
        all := all + [Entry(shard, Int32(j), row[j])];
      }
    }
  }

  /** sort.SliceStable with the handler's comparison, in place. */
  method SortStable(a: array<Entry>)
    modifies a
    ensures a[..] == Pick(old(a[..]), SortedPositions(old(a[..]), a.Length))
  {
    ghost var all := a[..];
    for i := 0 to a.Length
      invariant a[..i] == Pick(all, SortedPositions(all, i))
      invariant a[i..] == all[i..]
    {
      Sink(a, i, all, SortedPositions(all, i));
    }
    assert a[..] == a[..a.Length];
  }

  /** Move element i left past everything that scores lower. */
  method Sink(a: array<Entry>, i: nat, ghost all: seq<Entry>, ghost p: seq<nat>)
    requires i < a.Length == |all| && |p| == i && Positions(all, p)
    requires a[..i] == Pick(all, p) && a[i..] == all[i..]
    modifies a
    ensures a[..i + 1] == Pick(all, InsertPosition(all, p, i))
    ensures a[i + 1..] == all[i + 1..]
  {
    ghost var v := Pick(all, p);
    var j := Swaps(a, i, v);
    InsertAt(all, p, i, j);
    assert Pick(all, p[..j] + [i] + p[j..]) == v[..j] + [all[i]] + v[j..];
    assert a[i + 1..] == a[i..][1..];
  }

  /** The swaps of one insertion, down to position j. */
  method Swaps(a: array<Entry>, i: nat, ghost v: seq<Entry>) returns (j: nat)
    requires i < a.Length && a[..i] == v
    modifies a
    ensures j <= i
    ensures forall b :: j <= b < i ==> v[b].score < old(a[i]).score
    ensures j > 0 ==> v[j - 1].score >= old(a[i]).score
    ensures a[..i + 1] == v[..j] + [old(a[i])] + v[j..]
    ensures a[i + 1..] == old(a[i + 1..])
  {
    j := i;
    while j > 0 && a[j - 1].score < a[j].score
      invariant 0 <= j <= i
      invariant a[j] == old(a[i])
      invariant forall b :: 0 <= b < j ==> a[b] == v[b]
      invariant forall b :: j < b <= i ==> a[b] == v[b - 1]
      invariant forall b :: j <= b < i ==> v[b].score < old(a[i]).score
      invariant a[i + 1..] == old(a[i + 1..])
    {
      a[j - 1], a[j] := a[j], a[j - 1];
      j := j - 1;
    }
  }

  /** The position is inserted where the swaps stop. */
  lemma {:induction false} InsertAt(all: seq<Entry>, p: seq<nat>, i: nat, j: nat)
    requires Positions(all, p) && i < |all| && j <= |p|
    requires forall b :: j <= b < |p| ==> all[p[b]].score < all[i].score
    requires j > 0 ==> all[p[j - 1]].score >= all[i].score
    ensures InsertPosition(all, p, i) == p[..j] + [i] + p[j..]
  {
    if j < |p| {
      var m := |p| - 1;
      InsertAt(all, p[..m], i, j);
      assert p[..m][..j] == p[..j] && p[j..] == p[..m][j..] + [p[m]];
    } else if p != [] {
      assert p[..j] == p && p[j..] == [];
    }
  }

  method TopKFromShards(scores: seq<seq<real>>, shardIdx: seq<int>, k: nat) returns (out: seq<Entry>)
    ensures out == Selected(Flatten(scores, shardIdx, |scores|), k)
  {
    var items := FlattenScores(scores, shardIdx);
    var all := new Entry[|items|](i requires 0 <= i < |items| => items[i]);
    assert all[..] == items;
    SortStable(all);
    var n := if k > all.Length then all.Length else k;
    out := [];
    for i := 0 to n
      invariant out == all[..i]
      invariant all[..] == Pick(items, SortedPositions(items, |items|))
    {
      out := out + [all[i]];
    }
  }
}
