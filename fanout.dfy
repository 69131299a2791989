/**
 * The goroutine fan-out of pkg/internal/db/tables/test.go, made sequential:
 * one worker per chunk, run one after another in the order in which the
 * goroutines complete. That completion order is a parameter, `order`, which
 * must list every chunk index exactly once. What the workers leave behind
 * (records appended, errors sent) is then the concatenation of each chunk's
 * contribution in completion order, `Gather`.
 */
module FanOut {
  import Chunking

  /** [0, 1, ..., n - 1]: the chunk indices in submission order. */
  function Indices(n: nat): (r: seq<nat>)
    ensures |r| == n && forall i :: 0 <= i < n ==> r[i] == i
  {
    seq(n, i => i)
  }

  /** `order` is a completion order of `n` workers: each index below `n` exactly once. */
  predicate IsSchedule(order: seq<nat>, n: nat)
  {
    InRange(order, n) && multiset(order) == multiset(Indices(n))
  }

  predicate InRange(order: seq<nat>, n: nat)
  {
    forall t :: 0 <= t < |order| ==> order[t] < n
  }

  lemma ScheduleFacts(order: seq<nat>, n: nat)
    requires IsSchedule(order, n)
    ensures |order| == n && InRange(order, n)
    ensures forall k :: 0 <= k < n ==> k in order
  {
    assert |order| == |multiset(order)| == |multiset(Indices(n))| == n;
    forall t | 0 <= t < |order| ensures order[t] < n {
      assert order[t] in multiset(order);
      assert order[t] in multiset(Indices(n));
    }
    forall k | 0 <= k < n ensures k in order {
      assert Indices(n)[k] == k;
      assert k in multiset(Indices(n));
      assert k in multiset(order);
    }
  }

  /** The contributions `cs[k]` of the workers, concatenated in completion order. */
  function Gather<T>(cs: seq<seq<T>>, order: seq<nat>): seq<T>
    requires InRange(order, |cs|)
  {
    if |order| == 0 then []
    else Gather(cs, order[..|order| - 1]) + cs[order[|order| - 1]]
  }

  lemma {:induction false} GatherAppend<T>(cs: seq<seq<T>>, a: seq<nat>, b: seq<nat>)
    requires InRange(a, |cs|) && InRange(b, |cs|)
    ensures InRange(a + b, |cs|)
    ensures Gather(cs, a + b) == Gather(cs, a) + Gather(cs, b)
  {
    if |b| > 0 {
      var b' := b[..|b| - 1];
      assert (a + b)[..|a + b| - 1] == a + b';
      GatherAppend(cs, a, b');
    } else {
      assert a + b == a;
    }
  }

  /** Gathering around one worker in the middle of an order. */
  lemma GatherMiddle<T>(cs: seq<seq<T>>, q1: seq<nat>, x: nat, q2: seq<nat>)
    requires InRange(q1, |cs|) && x < |cs| && InRange(q2, |cs|)
    ensures InRange(q1 + [x] + q2, |cs|) && InRange(q1 + q2, |cs|)
    ensures Gather(cs, q1 + [x] + q2) == Gather(cs, q1) + cs[x] + Gather(cs, q2)
    ensures Gather(cs, q1 + q2) == Gather(cs, q1) + Gather(cs, q2)
  {
    GatherAppend(cs, q1 + [x], q2);
    GatherAppend(cs, q1, [x]);
    GatherAppend(cs, q1, q2);
    assert Gather(cs, [x]) == cs[x] by {
      assert [x][..0] == [];
    }
  }

  /** Taking worker `x` out of the middle of an order. */
  lemma GatherSplitAt<T>(cs: seq<seq<T>>, q1: seq<nat>, x: nat, q2: seq<nat>)
    requires InRange(q1, |cs|) && x < |cs| && InRange(q2, |cs|)
    ensures InRange(q1 + [x] + q2, |cs|) && InRange(q1 + q2, |cs|)
    ensures multiset(q1 + [x] + q2) == multiset(q1 + q2) + multiset{x}
    ensures multiset(Gather(cs, q1 + [x] + q2)) == multiset(Gather(cs, q1 + q2)) + multiset(cs[x])
  {
    GatherMiddle(cs, q1, x, q2);
    MultisetMiddle(Gather(cs, q1), cs[x], Gather(cs, q2));
    MultisetMiddle(q1, [x], q2);
    assert multiset([x]) == multiset{x};
  }

  /** Taking a middle piece out of a sequence takes its elements out of the multiset. */
  lemma MultisetMiddle<T>(a: seq<T>, b: seq<T>, c: seq<T>)
    ensures multiset(a + b + c) == multiset(a + c) + multiset(b)
  {
    calc {
      multiset(a + b + c);
      multiset(a) + multiset(b) + multiset(c);
      multiset(a + c) + multiset(b);
    }
  }

  /**
   * What the workers leave behind does not depend on the completion order,
   * up to reordering: two orders listing the same workers gather the same multiset.
   */
  lemma {:induction false} GatherPermutation<T>(cs: seq<seq<T>>, p: seq<nat>, q: seq<nat>)
    requires InRange(p, |cs|) && InRange(q, |cs|)
    requires multiset(p) == multiset(q)
    ensures multiset(Gather(cs, p)) == multiset(Gather(cs, q))
    decreases |p|
  {
    if |p| == 0 {
      assert |q| == |multiset(q)| == 0;
    } else {
      var x, p' := p[|p| - 1], p[..|p| - 1];
      var j := MatchLast(p, q);
      var q1, q2 := q[..j], q[j + 1..];
      GatherPermutation(cs, p', q1 + q2);
      assert p == p' + [x] && q == q1 + [x] + q2;
      GatherSplitAt(cs, q1, x, q2);
      assert multiset(Gather(cs, p)) == multiset(Gather(cs, p')) + multiset(cs[x]);
    }
  }

  /** The last worker of `p` sits somewhere in `q`; the rest of both list the same workers. */
  lemma MatchLast(p: seq<nat>, q: seq<nat>) returns (j: nat)
    requires |p| > 0 && multiset(p) == multiset(q)
    ensures j < |q| && q[j] == p[|p| - 1]
    ensures multiset(q[..j] + q[j + 1..]) == multiset(p[..|p| - 1])
  {
    var x, p' := p[|p| - 1], p[..|p| - 1];
    assert p == p' + [x];
    assert x in multiset(q);
    j :| 0 <= j < |q| && q[j] == x;
    var q1, q2 := q[..j], q[j + 1..];
    assert q == q1 + [x] + q2;
    assert multiset(p') == multiset(p) - multiset{x};
    assert multiset(q1 + q2) == multiset(q) - multiset{x};
  }

  /** In submission order the contributions are simply concatenated. */
  lemma {:induction false} GatherIndices<T>(cs: seq<seq<T>>, n: nat)
    requires n <= |cs|
    ensures Gather(cs, Indices(n)) == Chunking.Flatten(cs[..n])
  {
    if n > 0 {
      GatherIndices(cs, n - 1);
      assert Indices(n)[..n - 1] == Indices(n - 1);
      assert cs[..n] == cs[..n - 1] + [cs[n - 1]];
      Chunking.FlattenSnoc(cs[..n - 1], cs[n - 1]);
    }
  }

  /** In any completion order the workers leave behind exactly the multiset of all their contributions. */
  lemma ScheduledGather<T>(cs: seq<seq<T>>, order: seq<nat>)
    requires IsSchedule(order, |cs|)
    ensures InRange(order, |cs|)
    ensures multiset(Gather(cs, order)) == multiset(Chunking.Flatten(cs))
    ensures |Gather(cs, order)| == |Chunking.Flatten(cs)|
  {
    ScheduleFacts(order, |cs|);
    GatherPermutation(cs, order, Indices(|cs|));
    GatherIndices(cs, |cs|);
    assert cs[..|cs|] == cs;
    assert |Gather(cs, order)| == |multiset(Gather(cs, order))|;
  }

  lemma {:induction false} FlattenEmpty<T>(cs: seq<seq<T>>)
    ensures Chunking.Flatten(cs) == [] <==> forall k :: 0 <= k < |cs| ==> cs[k] == []
  {
    if |cs| > 0 {
      FlattenEmpty(cs[1..]);
      if cs[0] == [] {
        forall k | 0 < k < |cs| ensures cs[k] == cs[1..][k - 1] { }
      }
    }
  }

  /** When only worker `f` contributes, the concatenation is its contribution. */
  lemma {:induction false} FlattenOnly<T>(cs: seq<seq<T>>, f: nat)
    requires f < |cs|
    requires forall k :: 0 <= k < |cs| && k != f ==> cs[k] == []
    ensures Chunking.Flatten(cs) == cs[f]
  {
    if f == 0 {
      FlattenEmpty(cs[1..]);
    } else {
      FlattenOnly(cs[1..], f - 1);
    }
  }

  /** Every item of the concatenation comes from some contribution, and vice versa. */
  lemma {:induction false} FlattenMember<T>(cs: seq<seq<T>>, x: T)
    ensures x in Chunking.Flatten(cs) <==> exists k :: 0 <= k < |cs| && x in cs[k]
  {
    if |cs| > 0 {
      FlattenMember(cs[1..], x);
      if x in Chunking.Flatten(cs[1..]) {
        var k :| 0 <= k < |cs[1..]| && x in cs[1..][k];
        assert x in cs[k + 1];
      }
      if exists k :: 0 <= k < |cs| && x in cs[k] {
        var k :| 0 <= k < |cs| && x in cs[k];
        if k > 0 { assert x in cs[1..][k - 1]; }
      }
    }
  }

  /** Nothing is left behind, whatever the order, exactly when no worker contributes anything. */
  lemma GatherEmptyIff<T>(cs: seq<seq<T>>, order: seq<nat>)
    requires IsSchedule(order, |cs|)
    ensures InRange(order, |cs|)
    ensures Gather(cs, order) == [] <==> forall k :: 0 <= k < |cs| ==> cs[k] == []
  {
    ScheduledGather(cs, order);
    FlattenEmpty(cs);
  }

  /** Contributions of at most one item each gather at most one item per worker. */
  lemma {:induction false} GatherAtMostOne<T>(cs: seq<seq<T>>, order: seq<nat>)
    requires InRange(order, |cs|)
    requires forall k :: 0 <= k < |cs| ==> |cs[k]| <= 1
    ensures |Gather(cs, order)| <= |order|
  {
    if |order| > 0 {
      GatherAtMostOne(cs, order[..|order| - 1]);
    }
  }
}
