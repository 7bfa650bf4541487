/**
  The shape of the merge loop's walk, apart from what it does with the
  blocks. `flags[i]` is the loop's merge decision if it stands at index `i`;
  an iteration at `i` consumes block `i` alone, or blocks `i` and `i + 1`
  when `flags[i]` holds and a next block exists, and the walk resumes after
  what it consumed (`i += 1` on a merge, then `i += 1` at the end of the body).
 */
module Walk {

  /** The blocks one iteration consumes: `len` blocks from index `start`. */
  datatype Span = Span(start: nat, len: nat)

  predicate ValidSpan(n: nat, sp: Span) {
    1 <= sp.len <= 2 && sp.start + sp.len <= n
  }

  predicate AllValid(n: nat, sched: seq<Span>) {
    forall k :: 0 <= k < |sched| ==> ValidSpan(n, sched[k])
  }

  /** Total number of blocks a run of iterations consumes. */
  function Consumed(sched: seq<Span>): nat {
    if sched == [] then 0 else sched[0].len + Consumed(sched[1..])
  }

  /** The iteration that starts at index `i`. */
  function SpanAt(flags: seq<bool>, i: nat): (sp: Span)
    requires i < |flags|
    ensures ValidSpan(|flags|, sp) && sp.start == i
  {
    Span(i, if flags[i] && i + 1 < |flags| then 2 else 1)
  }

  /**
    The iterations of the walk from index `i` on: there are none exactly
    when `i` is past the end, the first starts at `i`, each is the one its
    start index dictates, and they come in order without overlapping.
   */
  function Schedule(flags: seq<bool>, i: nat): (sched: seq<Span>)
    requires i <= |flags|
    ensures |sched| == 0 <==> i == |flags|
    ensures |sched| > 0 ==> sched[0].start == i
    ensures AllValid(|flags|, sched)
    ensures forall k :: 0 <= k < |sched| ==> i <= sched[k].start && sched[k] == SpanAt(flags, sched[k].start)
    ensures forall a, b :: 0 <= a < b < |sched| ==> sched[a].start + sched[a].len <= sched[b].start
    decreases |flags| - i
  {
    if i == |flags| then []
    else
      var sp := SpanAt(flags, i);
      var rest := Schedule(flags, i + sp.len);
      assert ([sp] + rest)[1..] == rest;
      [sp] + rest
  }

  /** Each iteration begins where the previous one ended. */
  lemma {:induction false} NextStart(flags: seq<bool>, i: nat, k: nat)
    requires i <= |flags|
    requires k + 1 < |Schedule(flags, i)|
    ensures Schedule(flags, i)[k + 1].start == Schedule(flags, i)[k].start + Schedule(flags, i)[k].len
    decreases k
  {
    var sched := Schedule(flags, i);
    var j := i + sched[0].len;
    var rest := Schedule(flags, j);
    assert sched[1..] == rest;
    if k > 0 {
      NextStart(flags, j, k - 1);
      assert sched[k] == rest[k - 1] && sched[k + 1] == rest[k];
    }
  }

  /** Together the iterations from `i` on consume exactly the blocks from `i` to the end. */
  lemma {:induction false} ScheduleConsumesAll(flags: seq<bool>, i: nat)
    requires i <= |flags|
    ensures Consumed(Schedule(flags, i)) == |flags| - i
    decreases |flags| - i
  {
    if i < |flags| {
      var sp := SpanAt(flags, i);
      assert Schedule(flags, i)[1..] == Schedule(flags, i + sp.len);
      ScheduleConsumesAll(flags, i + sp.len);
    }
  }

  /** There are no more iterations than blocks, and the last one ends at the last block. */
  lemma {:induction false} ScheduleEnds(flags: seq<bool>, i: nat)
    requires i <= |flags|
    ensures |Schedule(flags, i)| <= |flags| - i
    ensures |Schedule(flags, i)| > 0 ==>
      Schedule(flags, i)[|Schedule(flags, i)| - 1].start + Schedule(flags, i)[|Schedule(flags, i)| - 1].len == |flags|
    decreases |flags| - i
  {
    if i < |flags| {
      var sched := Schedule(flags, i);
      var j := i + sched[0].len;
      var rest := Schedule(flags, j);
      assert sched[1..] == rest;
      ScheduleEnds(flags, j);
      if |rest| > 0 {
        assert sched[|sched| - 1] == rest[|rest| - 1];
      }
    }
  }

  /** Every block from `i` on is consumed by some iteration: the `k`-th. */
  lemma {:induction false} EveryBlockConsumed(flags: seq<bool>, i: nat, j: nat) returns (k: nat)
    requires i <= j < |flags|
    ensures k < |Schedule(flags, i)|
    ensures Schedule(flags, i)[k].start <= j < Schedule(flags, i)[k].start + Schedule(flags, i)[k].len
    decreases |flags| - i
  {
    var sp := SpanAt(flags, i);
    assert Schedule(flags, i) == [sp] + Schedule(flags, i + sp.len);
    if i + sp.len <= j {
      var m := EveryBlockConsumed(flags, i + sp.len, j);
      k := m + 1;
    } else {
      k := 0;
    }
  }

  /** ... and by only one. */
  lemma ConsumedOnce(flags: seq<bool>, i: nat, j: nat, k: nat, m: nat)
    requires i <= |flags|
    requires k < |Schedule(flags, i)| && m < |Schedule(flags, i)|
    requires Schedule(flags, i)[k].start <= j < Schedule(flags, i)[k].start + Schedule(flags, i)[k].len
    requires Schedule(flags, i)[m].start <= j < Schedule(flags, i)[m].start + Schedule(flags, i)[m].len
    ensures k == m
  {
  }

  /**
    Merging is not transitive: the block absorbed by a two-block iteration is
    never the start of an iteration, so it cannot absorb a block of its own.
   */
  lemma AbsorbedNeverExamined(flags: seq<bool>, k: nat, m: nat)
    requires k < |Schedule(flags, 0)| && m < |Schedule(flags, 0)|
    requires Schedule(flags, 0)[k].len == 2
    ensures Schedule(flags, 0)[m].start != Schedule(flags, 0)[k].start + 1
  {
  }

  /** An iteration consumes two blocks exactly when its start's flag is set and a next block exists. */
  lemma TwoBlocksIffFlag(flags: seq<bool>, k: nat)
    requires k < |Schedule(flags, 0)|
    ensures var sp := Schedule(flags, 0)[k];
      sp.len == 2 <==> flags[sp.start] && sp.start + 1 < |flags|
  {
  }
}
