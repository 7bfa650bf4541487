/**
  The reading order of a page: `blocks.sort(key=lambda b: (b[1], b[0]))`,
  i.e. top edge first, then left edge, with Python's stable sort keeping
  blocks of equal key in their original order.
 */
module ReadingOrder {
  import opened Records

  /** The sort key `(y0, x0)`. */
  function Key(b: Block): (real, real) {
    (b.box.y0, b.box.x0)
  }

  /** Python's tuple comparison `Key(a) <= Key(b)`. */
  predicate KeyLe(a: Block, b: Block) {
    a.box.y0 < b.box.y0 || (a.box.y0 == b.box.y0 && a.box.x0 <= b.box.x0)
  }

  predicate Sorted(bs: seq<Block>) {
    forall i, j :: 0 <= i < j < |bs| ==> KeyLe(bs[i], bs[j])
  }

  /** The blocks of `bs` whose key is `k`, in their order in `bs`. */
  function WithKey(bs: seq<Block>, k: (real, real)): seq<Block> {
    if bs == [] then []
    else (if Key(bs[0]) == k then [bs[0]] else []) + WithKey(bs[1..], k)
  }

  /** Inserts `b` in front of the first block whose key is not below its own. */
  function Insert(b: Block, bs: seq<Block>): (r: seq<Block>)
    ensures multiset(r) == multiset(bs) + multiset{b}
  {
    if bs == [] then [b]
    else if KeyLe(b, bs[0]) then [b] + bs
    else
      assert bs == [bs[0]] + bs[1..];
      [bs[0]] + Insert(b, bs[1..])
  }

  /** Inserting into a sorted sequence keeps it sorted. */
  lemma {:induction false} InsertSorted(b: Block, bs: seq<Block>)
    requires Sorted(bs)
    ensures Sorted(Insert(b, bs))
  {
    if bs != [] && !KeyLe(b, bs[0]) {
      var c := bs[0];
      var rest := Insert(b, bs[1..]);
      InsertSorted(b, bs[1..]);
      assert Insert(b, bs) == [c] + rest;
      forall j | 0 <= j < |rest| ensures KeyLe(c, rest[j]) {
        assert rest[j] in multiset(rest);
        assert rest[j] == b || rest[j] in multiset(bs[1..]);
        if rest[j] != b {
          var m :| 0 <= m < |bs[1..]| && bs[1..][m] == rest[j];
          assert bs[m + 1] == rest[j];
        }
      }
    }
  }

  /** The stable sort of `bs` by `Key`, by insertion from the back. */
  function SortBlocks(bs: seq<Block>): (r: seq<Block>)
    ensures Sorted(r)
    ensures multiset(r) == multiset(bs)
  {
    if bs == [] then []
    else
      assert bs == [bs[0]] + bs[1..];
      InsertSorted(bs[0], SortBlocks(bs[1..]));
      Insert(bs[0], SortBlocks(bs[1..]))
  }

  lemma {:induction false} WithKeyAppend(a: seq<Block>, b: seq<Block>, k: (real, real))
    ensures WithKey(a + b, k) == WithKey(a, k) + WithKey(b, k)
  {
    if a == [] {
      assert a + b == b;
    } else {
      assert (a + b)[0] == a[0];
      assert (a + b)[1..] == a[1..] + b;
      WithKeyAppend(a[1..], b, k);
    }
  }

  /** Two blocks that are out of key order cannot both carry the key `k`. */
  lemma SwapWithKey(b: Block, c: Block, k: (real, real))
    requires !KeyLe(b, c)
    ensures WithKey([b], k) == [] || WithKey([c], k) == []
  {
  }

  /** Inserting `b` puts it in front of every block that shares its key. */
  lemma {:induction false} InsertWithKey(b: Block, bs: seq<Block>, k: (real, real))
    ensures WithKey(Insert(b, bs), k) == WithKey([b], k) + WithKey(bs, k)
  {
    if bs == [] {
      assert WithKey(bs, k) == [];
    } else if KeyLe(b, bs[0]) {
      WithKeyAppend([b], bs, k);
    } else {
      InsertWithKey(b, bs[1..], k);
      InsertPast(b, bs);
      assert [bs[0]] + bs[1..] == bs;
      WithKeyPast(b, bs[0], Insert(b, bs[1..]), bs[1..], k);
    }
  }

  /**
    The step of the previous proof where `b` moves past a block `c` that
    sorts before it: `c` does not share `b`'s key, so which of the two comes
    first makes no difference to the blocks with key `k`.
   */
  lemma WithKeyPast(b: Block, c: Block, rest: seq<Block>, tail: seq<Block>, k: (real, real))
    requires !KeyLe(b, c)
    requires WithKey(rest, k) == WithKey([b], k) + WithKey(tail, k)
    ensures WithKey([c] + rest, k) == WithKey([b], k) + WithKey([c] + tail, k)
  {
    var wb, wc, wt := WithKey([b], k), WithKey([c], k), WithKey(tail, k);
    WithKeyAppend([c], rest, k);
    WithKeyAppend([c], tail, k);
    SwapWithKey(b, c, k);
    if wb == [] {
      assert wb + wt == wt && wb + (wc + wt) == wc + wt;
    } else {
      assert wc + (wb + wt) == wb + wt && wc + wt == wt;
    }
  }

  /** A block that sorts after the first one is inserted into the rest. */
  lemma InsertPast(b: Block, bs: seq<Block>)
    requires bs != [] && !KeyLe(b, bs[0])
    ensures Insert(b, bs) == [bs[0]] + Insert(b, bs[1..])
  {
  }

  /** Stability: for every key, the blocks with that key keep their relative order. */
  lemma {:induction false} SortIsStable(bs: seq<Block>, k: (real, real))
    ensures WithKey(SortBlocks(bs), k) == WithKey(bs, k)
  {
    if bs != [] {
      SortIsStable(bs[1..], k);
      InsertWithKey(bs[0], SortBlocks(bs[1..]), k);
      WithKeyAppend([bs[0]], bs[1..], k);
      assert [bs[0]] + bs[1..] == bs;
    }
  }

  /** Sorting already sorted blocks changes nothing. */
  lemma {:induction false} SortSortedIsIdentity(bs: seq<Block>)
    requires Sorted(bs)
    ensures SortBlocks(bs) == bs
  {
    if bs != [] {
      SortSortedIsIdentity(bs[1..]);
      assert bs[1..] == [] || KeyLe(bs[0], bs[1..][0]);
    }
  }
}
