/** Fetching logs page by page and resuming the withdrawal list. */
module PagedLogs {
  import opened Common

  const U32_MAX: nat := 0xFFFF_FFFF
  const U64_MAX: nat := 0xffff_ffff_ffff_ffff

  /** One query over the blocks `from` to `end`, given the logs of each block. */
  function LogsIn<L>(logs: nat -> seq<L>, from: nat, end: nat): seq<L>
    decreases end
  {
    if from > end then []
    else if from == end then logs(end)
    else LogsIn(logs, from, end - 1) + logs(end)
  }

  lemma {:induction false} LogsSplit<L>(logs: nat -> seq<L>, from: nat, mid: nat, end: nat)
    requires from <= mid <= end
    ensures LogsIn(logs, from, end) == LogsIn(logs, from, mid) + LogsIn(logs, mid + 1, end)
    decreases end
  {
    if mid < end {
      LogsSplit(logs, from, mid, end - 1);
      if mid + 1 == end {
        assert LogsIn(logs, mid + 1, end - 1) == [];
      }
    }
  }

  /** One block gives its own logs, and a range those of its blocks and no other. */
  lemma {:induction false} LogsAre<L>(logs: nat -> seq<L>, from: nat, end: nat, x: L)
    ensures from == end ==> LogsIn(logs, from, end) == logs(from)
    ensures from > end ==> LogsIn(logs, from, end) == []
    ensures x in LogsIn(logs, from, end) <==> exists h: nat :: from <= h <= end && x in logs(h)
    decreases end
  {
    if from < end {
      LogsAre(logs, from, end - 1, x);
    }
  }

  /** The heights the loop computes stay in 64 bits: the end of the last page and the height after
      it. */
  ghost predicate NoOverflow(from: nat, end: nat) {
    from <= end ==> from + (end - from) / 1000 * 1000 + 999 <= U64_MAX && end < U64_MAX
  }

  lemma {:induction false} NextPage(from: nat, end: nat)
    requires from <= end
    ensures from + 999 > U64_MAX ==> !NoOverflow(from, end)
    ensures from + 1000 <= end ==> (NoOverflow(from, end) <==> NoOverflow(from + 1000, end))
    ensures from + 999 >= end ==> (NoOverflow(from, end) <==> from + 999 <= U64_MAX && end < U64_MAX)
  {
    if from + 1000 <= end {
      assert (end - from) / 1000 == 1 + (end - from - 1000) / 1000;
    }
  }

  /** Said of the pages: none that starts in the range ends past 64 bits, and neither does the
      height after the range. */
  lemma {:induction false} NoOverflowMeans(from: nat, end: nat)
    requires from <= end
    ensures NoOverflow(from, end) <==> end < U64_MAX && forall k: nat :: from + PageStart(k) <= end ==> from + PageStart(k) + 999 <= 0xffff_ffff_ffff_ffff
  {
    var last := (end - from) / 1000;
    assert from + PageStart(last) <= end < from + PageStart(last) + 1000;
    forall k: nat | from + PageStart(k) <= end ensures PageStart(k) <= PageStart(last) {
    }
  }

  function PageStart(k: nat): nat {
    1000 * k
  }

  /** The last 999 heights cannot be asked for, not even one at a time. */
  lemma {:induction false} LastHeightsOverflow(h: nat)
    requires h <= U64_MAX
    ensures NoOverflow(h, h) <==> h + 999 <= U64_MAX
    ensures !NoOverflow(U64_MAX, U64_MAX)
  {
  }

  /** Consecutive pages of at most a thousand blocks that end before `next`. */
  ghost predicate Pages(pages: seq<(nat, nat)>, from: nat, next: nat) {
    && (forall i :: 0 <= i < |pages| ==> pages[i].0 <= pages[i].1 < pages[i].0 + 1000)
    && (forall i :: 0 <= i < |pages| - 1 ==> pages[i].1 == pages[i].0 + 999)
    && (forall i :: 1 <= i < |pages| ==> pages[i].0 == pages[i - 1].1 + 1)
    && (if pages == [] then next == from else pages[0].0 == from && pages[|pages| - 1].1 + 1 == next)
  }

  lemma {:induction false} PagesSnoc(pages: seq<(nat, nat)>, from: nat, next: nat, end: nat)
    requires Pages(pages, from, next) && next <= end < next + 1000
    requires pages != [] ==> pages[|pages| - 1].1 == pages[|pages| - 1].0 + 999
    ensures Pages(pages + [(next, end)], from, end + 1)
  {
  }

  /** The logs collected once all blocks before `next` are done. */
  ghost function LogsBefore<L>(logs: nat -> seq<L>, from: nat, next: nat): seq<L> {
    if next <= from then [] else LogsIn(logs, from, next - 1)
  }

  lemma {:induction false} LogsNext<L>(logs: nat -> seq<L>, from: nat, next: nat, end: nat)
    requires from <= next <= end
    ensures LogsBefore(logs, from, next) + LogsIn(logs, next, end) == LogsBefore(logs, from, end + 1)
  {
    if from < next {
      LogsSplit(logs, from, next - 1, end);
    }
  }

  /** `get_logs`: pages of at most a thousand blocks. `bad` numbers the queries that fail; an
      arithmetic overflow also ends the call. Otherwise the result is that of one query over the
      whole range, which the pages cover in order; without failing queries there is a result
      exactly when no height overflows. */
  method GetLogs<L>(logs: nat -> seq<L>, fromHeight: nat, toHeight: nat, bad: set<nat>)
    returns (r: Option<seq<L>>, ghost pages: seq<(nat, nat)>)
    requires fromHeight <= U64_MAX && toHeight <= U64_MAX
    ensures r.Some? ==> r.value == LogsIn(logs, fromHeight, toHeight)
    ensures r.Some? ==> Pages(pages, fromHeight, if fromHeight <= toHeight then toHeight + 1 else fromHeight)
    ensures bad == {} ==> (r.Some? <==> NoOverflow(fromHeight, toHeight))
  {
    hide NoOverflow; hide LogsIn; hide Pages;
    var all: seq<L> := [];
    var from, call := fromHeight, 0;
    pages := [];
    StartPages(logs, fromHeight, toHeight);
    while from <= toHeight
      invariant fromHeight <= from <= U64_MAX && (from == fromHeight || from <= toHeight + 1)
      invariant Pages(pages, fromHeight, from)
      invariant from <= toHeight && pages != [] ==> pages[|pages| - 1].1 == pages[|pages| - 1].0 + 999
      invariant all == LogsBefore(logs, fromHeight, from)
      invariant NoOverflow(fromHeight, toHeight) <==> NoOverflow(from, toHeight)
      decreases toHeight + 1 - from
    {
      NextPage(from, toHeight);
      if from + 999 > U64_MAX {
        return None, pages;
      }
      var end := if from + 999 < toHeight then from + 999 else toHeight;
      if call in bad {
        return None, pages;
      }
      LogsNext(logs, fromHeight, from, end);
      PagesSnoc(pages, fromHeight, from, end);
      all := all + LogsIn(logs, from, end);
      call := call + 1;
      pages := pages + [(from, end)];
      if end + 1 > U64_MAX {
        return None, pages;
      }
      from := end + 1;
      Done(from, toHeight);
    }
    Done(from, toHeight);
    r := Some(all);
  }

  lemma {:induction false} StartPages<L>(logs: nat -> seq<L>, from: nat, end: nat)
    ensures Pages([], from, from)
    ensures from > end ==> LogsIn(logs, from, end) == []
  {
  }

  lemma {:induction false} Done(from: nat, end: nat)
    ensures from > end ==> NoOverflow(from, end)
  {
  }

  // ---------------------------------------------------------------- withdrawals

  function Numbered<U>(list: seq<U>, start: nat): (r: seq<(nat, U)>)
    ensures |r| == if start < |list| then |list| - start else 0
    ensures forall i :: 0 <= i < |r| ==> r[i] == (start + i, list[start + i])
    decreases |list| - start
  {
    if start >= |list| then [] else [(start, list[start])] + Numbered(list, start + 1)
  }

  function StartOf(last: Option<nat>): nat {
    if last.Some? then last.value + 1 else 0
  }

  predicate CallOk(bad: set<nat>, idx: int) {
    idx !in bad && idx <= U32_MAX
  }

  /** `collect_withdrawal_utxos` at a height where the contract's list is `list`; a call past its
      end reverts, and the calls numbered in `bad` fail in another way. There is a result exactly
      when no call made fails and the 32-bit index does not overflow. */
  method CollectWithdrawalUtxos<U>(list: seq<U>, last: Option<nat>, bad: set<nat>) returns (r: Option<seq<(nat, U)>>)
    ensures r.Some? ==> r.value == Numbered(list, StartOf(last))
    ensures r.Some? <==> forall i :: StartOf(last) <= i && (i == StartOf(last) || i <= |list|) ==> CallOk(bad, i)
  {
    var idx := StartOf(last);
    if idx > U32_MAX {
      assert !CallOk(bad, idx);
      return None;
    }
    var utxos: seq<(nat, U)> := [];
    while idx !in bad && idx < |list|
      invariant StartOf(last) <= idx <= U32_MAX && (idx == StartOf(last) || idx <= |list|)
      invariant |utxos| == idx - StartOf(last)
      invariant forall i :: 0 <= i < |utxos| ==> utxos[i] == (StartOf(last) + i, list[StartOf(last) + i])
      invariant forall i :: StartOf(last) <= i < idx ==> CallOk(bad, i)
      decreases |list| - idx
    {
      utxos := utxos + [(idx, list[idx])];
      idx := idx + 1;
      if idx > U32_MAX {
        assert !CallOk(bad, idx);
        return None;
      }
    }
    assert CallOk(bad, idx) <==> idx !in bad;
    r := if idx in bad then None else Some(utxos);
  }

  /** Resuming after the last index collected, on a list that has only grown, gives together what
      collecting from scratch gives. */
  lemma {:induction false} ResumeEqualsScratch<U>(was: seq<U>, now: seq<U>, last: Option<nat>)
    requires was <= now
    requires last == if was == [] then None else Some(|was| - 1)
    ensures Numbered(was, 0) + Numbered(now, StartOf(last)) == Numbered(now, 0)
  {
    var a, b, c := Numbered(was, 0), Numbered(now, StartOf(last)), Numbered(now, 0);
    assert |a + b| == |c|;
    forall i | 0 <= i < |c| ensures (a + b)[i] == c[i] {
      if i >= |was| {
        assert (a + b)[i] == b[i - |was|];
      }
    }
  }
}
