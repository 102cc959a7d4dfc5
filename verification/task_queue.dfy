/**
 The worker's queue: entries ordered by the time at which they may run.
 A new entry goes behind every entry released no later than it, so entries
 with equal release times keep their submission order (FIFO), and a delayed
 entry is placed by its release time rather than its submission time.
 */
module TaskQueue {

  /** One queued item and the earliest time at which the worker may run it. */
  datatype Entry<T> = Entry(item: T, release: nat)

  /** Release times never decrease along the queue. */
  ghost predicate Sorted<T>(q: seq<Entry<T>>)
  {
    forall i, j :: 0 <= i < j < |q| ==> q[i].release <= q[j].release
  }

  /** The index at which an entry released at `t` joins `q`: the first entry
      released strictly later than `t`, or the end of the queue. */
  function Slot<T>(q: seq<Entry<T>>, t: nat): (k: nat)
    ensures k <= |q|
    ensures forall i :: 0 <= i < k ==> q[i].release <= t
    ensures k < |q| ==> t < q[k].release
    decreases |q|
  {
    if |q| == 0 || t < q[0].release then 0 else 1 + Slot(q[1..], t)
  }

  /** Adds `e` behind every entry released no later than `e`. */
  function Insert<T>(q: seq<Entry<T>>, e: Entry<T>): (r: seq<Entry<T>>)
    ensures |r| == |q| + 1
    ensures multiset(r) == multiset(q) + multiset{e}
    decreases |q|
  {
    if |q| == 0 || e.release < q[0].release then [e] + q
    else
      assert q == [q[0]] + q[1..];
      [q[0]] + Insert(q[1..], e)
  }

  /** Insertion adds `e` and nothing else. */
  lemma InsertMembers<T>(q: seq<Entry<T>>, e: Entry<T>)
    ensures forall x :: x in Insert(q, e) ==> x in q || x == e
  {
    forall x | x in Insert(q, e) ensures x in q || x == e {
      assert x in multiset(Insert(q, e));
    }
  }

  /** Insertion happens exactly at the slot of the entry's release time. */
  lemma {:induction false} InsertAtSlot<T>(q: seq<Entry<T>>, e: Entry<T>)
    ensures Insert(q, e) == q[..Slot(q, e.release)] + [e] + q[Slot(q, e.release)..]
    decreases |q|
  {
    if |q| == 0 || e.release < q[0].release {
      assert Slot(q, e.release) == 0;
      assert q[..0] == [] && q[0..] == q;
    } else {
      var tail := q[1..];
      InsertAtSlot(tail, e);
      assert [q[0]] + tail == q;
      ConsSplit(q[0], tail, Slot(tail, e.release), e);
    }
  }

  /** Splitting a queue after its head plus `k` entries. */
  lemma ConsSplit<T>(x: Entry<T>, tail: seq<Entry<T>>, k: nat, e: Entry<T>)
    requires k <= |tail|
    ensures [x] + (tail[..k] + [e] + tail[k..]) == ([x] + tail)[..k + 1] + [e] + ([x] + tail)[k + 1..]
  {
    assert ([x] + tail)[..k + 1] == [x] + tail[..k];
    assert ([x] + tail)[k + 1..] == tail[k..];
  }

  /** In a sorted queue everything from the slot of `t` onwards is released after `t`. */
  lemma SlotSplitsSorted<T>(q: seq<Entry<T>>, t: nat)
    requires Sorted(q)
    ensures forall i :: Slot(q, t) <= i < |q| ==> t < q[i].release
  {
  }

  /** Inserting into a sorted queue: the entry lands behind everything
      released no later than it and ahead of everything released later. */
  lemma InsertSplits<T>(q: seq<Entry<T>>, e: Entry<T>)
    requires Sorted(q)
    ensures var p := Slot(q, e.release);
      && Insert(q, e) == q[..p] + [e] + q[p..]
      && (forall i :: 0 <= i < p ==> q[i].release <= e.release)
      && (forall i :: p <= i < |q| ==> e.release < q[i].release)
  {
    InsertAtSlot(q, e);
    SlotSplitsSorted(q, e.release);
  }

  /** Inserting entries no earlier than `t` keeps every entry that satisfies
      `p` released no earlier than `t`. */
  lemma InsertAllFrom<T>(q: seq<Entry<T>>, es: seq<Entry<T>>, p: T -> bool, t: nat)
    requires forall x :: x in q && p(x.item) ==> t <= x.release
    requires forall x :: x in es && p(x.item) ==> t <= x.release
    ensures forall x :: x in InsertAll(q, es) && p(x.item) ==> t <= x.release
  {
    InsertAllMembers(q, es);
  }

  /** A lower bound on the release times of a queue and of a new entry is
      one on the queue after insertion. */
  lemma InsertLowerBound<T>(q: seq<Entry<T>>, e: Entry<T>, b: nat)
    requires forall i :: 0 <= i < |q| ==> b <= q[i].release
    requires b <= e.release
    ensures forall i :: 0 <= i < |Insert(q, e)| ==> b <= Insert(q, e)[i].release
  {
    InsertMembers(q, e);
    var r := Insert(q, e);
    forall i | 0 <= i < |r| ensures b <= r[i].release {
      assert r[i] in r;
    }
  }

  /** Insertion keeps a queue in release order. */
  lemma {:induction false} InsertSorted<T>(q: seq<Entry<T>>, e: Entry<T>)
    requires Sorted(q)
    ensures Sorted(Insert(q, e))
    decreases |q|
  {
    if |q| == 0 || e.release < q[0].release {
      assert Insert(q, e) == [e] + q;
    } else {
      var t := q[1..];
      var r := Insert(t, e);
      InsertSorted(t, e);
      InsertLowerBound(t, e, q[0].release);
      assert Insert(q, e) == [q[0]] + r;
    }
  }

  /** The entries of `q` whose item satisfies `keep`, in queue order. */
  function Select<T>(q: seq<Entry<T>>, keep: T -> bool): (r: seq<Entry<T>>)
    ensures |r| <= |q|
    decreases |q|
  {
    if |q| == 0 then []
    else if keep(q[0].item) then [q[0]] + Select(q[1..], keep)
    else Select(q[1..], keep)
  }

  /** How many entries of `q` have an item satisfying `p`. */
  function Count<T>(q: seq<Entry<T>>, p: T -> bool): (n: nat)
    ensures n <= |q|
    decreases |q|
  {
    if |q| == 0 then 0
    else (if p(q[0].item) then 1 else 0) + Count(q[1..], p)
  }

  /** What is selected comes from the queue and passes the filter. */
  lemma {:induction false} SelectMembers<T>(q: seq<Entry<T>>, keep: T -> bool)
    ensures forall x :: x in Select(q, keep) ==> x in q && keep(x.item)
    decreases |q|
  {
    if |q| > 0 {
      SelectMembers(q[1..], keep);
    }
  }

  /** A filter every entry passes selects the whole queue; one no entry
      passes selects nothing and counts zero. */
  lemma {:induction false} SelectAllOrNone<T>(q: seq<Entry<T>>, keep: T -> bool)
    ensures (forall x :: x in q ==> keep(x.item)) ==> Select(q, keep) == q
    ensures (forall x :: x in q ==> !keep(x.item)) ==> Select(q, keep) == [] && Count(q, keep) == 0
    decreases |q|
  {
    if |q| > 0 {
      assert q[0] in q;
      assert forall x :: x in q[1..] ==> x in q;
      SelectAllOrNone(q[1..], keep);
    }
  }

  /** Inserting an entry adds one to the count exactly when the entry satisfies `p`. */
  lemma {:induction false} CountInsert<T>(q: seq<Entry<T>>, e: Entry<T>, p: T -> bool)
    ensures Count(Insert(q, e), p) == Count(q, p) + (if p(e.item) then 1 else 0)
    decreases |q|
  {
    var r := Insert(q, e);
    if |q| == 0 || e.release < q[0].release {
      assert r[1..] == q;
    } else {
      CountInsert(q[1..], e, p);
      assert r[0] == q[0] && r[1..] == Insert(q[1..], e);
    }
  }

  /** Inserting an entry that the filter drops leaves the selection unchanged. */
  lemma {:induction false} SelectInsertDropped<T>(q: seq<Entry<T>>, e: Entry<T>, keep: T -> bool)
    requires !keep(e.item)
    ensures Select(Insert(q, e), keep) == Select(q, keep)
    decreases |q|
  {
    var r := Insert(q, e);
    if |q| == 0 || e.release < q[0].release {
      assert r[1..] == q;
    } else {
      SelectInsertDropped(q[1..], e, keep);
      assert r[0] == q[0] && r[1..] == Insert(q[1..], e);
    }
  }

  /** Selecting from a sorted queue commutes with inserting a kept entry:
      filtering never reorders what is left. */
  lemma {:induction false} SelectInsertKept<T>(q: seq<Entry<T>>, e: Entry<T>, keep: T -> bool)
    requires Sorted(q)
    requires keep(e.item)
    ensures Select(Insert(q, e), keep) == Insert(Select(q, keep), e)
    decreases |q|
  {
    var r := Insert(q, e);
    var sq := Select(q, keep);
    if |q| == 0 {
    } else if e.release < q[0].release {
      assert r[0] == e && r[1..] == q;
      if |sq| > 0 {
        SelectMembers(q, keep);
        assert sq[0] in q;
      }
    } else {
      assert r[0] == q[0] && r[1..] == Insert(q[1..], e);
      SelectInsertKept(q[1..], e, keep);
    }
  }

  /** Inserting behind a leading part `a` that is released no later than `e`
      and in front of a remainder `b` that starts later puts `e` between them. */
  lemma InsertBetween<T>(a: seq<Entry<T>>, b: seq<Entry<T>>, e: Entry<T>)
    requires forall x :: x in a ==> x.release <= e.release
    requires |b| > 0 ==> e.release < b[0].release
    ensures Insert(a + b, e) == a + [e] + b
  {
    InsertAtSlot(a + b, e);
    SlotOfSplit(a, b, e.release);
    assert (a + b)[..|a|] == a;
    assert (a + b)[|a|..] == b;
  }

  lemma {:induction false} SlotOfSplit<T>(a: seq<Entry<T>>, b: seq<Entry<T>>, t: nat)
    requires forall x :: x in a ==> x.release <= t
    requires |b| > 0 ==> t < b[0].release
    ensures Slot(a + b, t) == |a|
    decreases |a|
  {
    if |a| == 0 {
      assert a + b == b;
    } else {
      assert (a + b)[1..] == a[1..] + b;
      assert a[0] in a;
      SlotOfSplit(a[1..], b, t);
    }
  }

  /** Inserts the entries of `es` one after another. */
  function InsertAll<T>(q: seq<Entry<T>>, es: seq<Entry<T>>): (r: seq<Entry<T>>)
    ensures |r| == |q| + |es|
    decreases |es|
  {
    if |es| == 0 then q else InsertAll(Insert(q, es[0]), es[1..])
  }

  /** A single inserted entry. */
  lemma InsertOne<T>(q: seq<Entry<T>>, e: Entry<T>)
    ensures InsertAll(q, [e]) == Insert(q, e)
  {
    assert [e][1..] == [];
  }

  /** Two entries inserted in turn. */
  lemma InsertTwo<T>(q: seq<Entry<T>>, e: Entry<T>, f: Entry<T>)
    ensures InsertAll(q, [e, f]) == Insert(Insert(q, e), f)
  {
    assert [e, f][1..] == [f];
    InsertOne(Insert(q, e), f);
  }

  /** An entry released no earlier than everything queued goes at the end. */
  lemma InsertBehind<T>(q: seq<Entry<T>>, e: Entry<T>)
    requires forall x :: x in q ==> x.release <= e.release
    ensures Insert(q, e) == q + [e]
  {
    InsertBetween(q, [], e);
    assert q + [] == q;
  }

  /** The hypotheses of InsertAllBehind carry over to the remaining entries. */
  lemma BehindTail<T>(q: seq<Entry<T>>, es: seq<Entry<T>>)
    requires |es| > 0 && Sorted(es)
    requires forall x :: x in q ==> x.release <= es[0].release
    ensures Sorted(es[1..])
    ensures |es| > 1 ==> forall x :: x in q + [es[0]] ==> x.release <= es[1..][0].release
  {
  }

  lemma HeadMoves<T>(q: seq<Entry<T>>, es: seq<Entry<T>>)
    requires |es| > 0
    ensures (q + [es[0]]) + es[1..] == q + es
  {
    assert es == [es[0]] + es[1..];
  }

  /** Sorted entries released no earlier than everything queued simply line
      up behind it. */
  lemma {:induction false} InsertAllBehind<T>(q: seq<Entry<T>>, es: seq<Entry<T>>)
    requires Sorted(es)
    requires |es| > 0 ==> forall x :: x in q ==> x.release <= es[0].release
    ensures InsertAll(q, es) == q + es
    decreases |es|
  {
    if |es| > 0 {
      InsertBehind(q, es[0]);
      BehindTail(q, es);
      InsertAllBehind(q + [es[0]], es[1..]);
      HeadMoves(q, es);
    }
  }

  /** Selecting commutes with inserting several kept entries into a sorted queue. */
  lemma {:induction false} SelectInsertAllKept<T>(q: seq<Entry<T>>, es: seq<Entry<T>>, keep: T -> bool)
    requires Sorted(q)
    requires forall i :: 0 <= i < |es| ==> keep(es[i].item)
    ensures Sorted(InsertAll(q, es))
    ensures Select(InsertAll(q, es), keep) == InsertAll(Select(q, keep), es)
    decreases |es|
  {
    if |es| > 0 {
      InsertSorted(q, es[0]);
      SelectInsertKept(q, es[0], keep);
      SelectInsertAllKept(Insert(q, es[0]), es[1..], keep);
    }
  }

  /** Inserting several dropped entries leaves the selection unchanged. */
  lemma {:induction false} SelectInsertAllDropped<T>(q: seq<Entry<T>>, es: seq<Entry<T>>, keep: T -> bool)
    requires forall i :: 0 <= i < |es| ==> !keep(es[i].item)
    ensures Select(InsertAll(q, es), keep) == Select(q, keep)
    decreases |es|
  {
    if |es| > 0 {
      SelectInsertDropped(q, es[0], keep);
      SelectInsertAllDropped(Insert(q, es[0]), es[1..], keep);
    }
  }

  /** Inserting several entries adds exactly those entries. */
  lemma {:induction false} InsertAllMembers<T>(q: seq<Entry<T>>, es: seq<Entry<T>>)
    ensures forall x :: x in InsertAll(q, es) ==> x in q || x in es
    decreases |es|
  {
    if |es| > 0 {
      InsertMembers(q, es[0]);
      InsertAllMembers(Insert(q, es[0]), es[1..]);
      assert forall x :: x in es[1..] ==> x in es;
    }
  }

  /** Inserting entries keeps every entry already queued. */
  lemma {:induction false} InsertAllKeeps<T>(q: seq<Entry<T>>, es: seq<Entry<T>>)
    ensures forall x :: x in q ==> x in InsertAll(q, es)
    decreases |es|
  {
    if |es| > 0 {
      var r := Insert(q, es[0]);
      assert multiset(r) == multiset(q) + multiset{es[0]};
      forall x | x in q ensures x in r {
        assert x in multiset(q);
        assert x in multiset(r);
      }
      InsertAllKeeps(r, es[1..]);
    }
  }

  /** Every inserted entry ends up in the queue. */
  lemma {:induction false} InsertAllHas<T>(q: seq<Entry<T>>, es: seq<Entry<T>>)
    ensures forall x :: x in es ==> x in InsertAll(q, es)
    decreases |es|
  {
    if |es| > 0 {
      var r := Insert(q, es[0]);
      assert es[0] in multiset(r);
      InsertAllKeeps(r, es[1..]);
      InsertAllHas(r, es[1..]);
      assert forall x :: x in es ==> x == es[0] || x in es[1..];
    }
  }

  lemma {:induction false} CountInsertAll<T>(q: seq<Entry<T>>, es: seq<Entry<T>>, p: T -> bool)
    ensures Count(InsertAll(q, es), p) == Count(q, p) + Count(es, p)
    decreases |es|
  {
    if |es| > 0 {
      CountInsert(q, es[0], p);
      CountInsertAll(Insert(q, es[0]), es[1..], p);
    }
  }
}
