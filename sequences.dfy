/** Searching sequences, and facts about sequences and their multisets
    that the ledger proofs use. */
module Sequences {
  import opened Wrappers

  /** The index `Array.prototype.find` stops at: the first element meeting
      `p`, or `|s|` when there is none. */
  function FirstIndex<T>(s: seq<T>, p: T -> bool): (k: nat)
    ensures k <= |s|
    ensures k < |s| ==> p(s[k])
    ensures forall j | 0 <= j < k :: !p(s[j])
  {
    if s == [] then 0
    else if p(s[0]) then 0
    else 1 + FirstIndex(s[1..], p)
  }

  /** `Array.prototype.find` itself: the first element meeting `p`, if any. */
  function FirstWhere<T>(s: seq<T>, p: T -> bool): (r: Option<T>)
    ensures r.None? <==> forall j | 0 <= j < |s| :: !p(s[j])
    ensures r.Some? ==> r.value in s && p(r.value)
    ensures r.Some? ==> exists k | 0 <= k < |s| :: s[k] == r.value && forall j | 0 <= j < k :: !p(s[j])
  {
    var k := FirstIndex(s, p);
    if k < |s| then Some(s[k]) else None
  }

  /** Removing an element that does not meet `p` shifts the stopping
      index by one when it lay before the match, and by nothing otherwise. */
  lemma {:induction false} FirstIndexSkips<T>(a: seq<T>, x: T, b: seq<T>, p: T -> bool)
    requires !p(x)
    ensures var k := FirstIndex(a + b, p);
      FirstIndex(a + [x] + b, p) == if k < |a| then k else k + 1
  {
    if a == [] {
      assert a + [x] + b == [x] + b && ([x] + b)[1..] == b;
      assert a + b == b;
    } else {
      assert (a + [x] + b)[0] == a[0] && (a + b)[0] == a[0];
      assert (a + [x] + b)[1..] == a[1..] + [x] + b;
      assert (a + b)[1..] == a[1..] + b;
      FirstIndexSkips(a[1..], x, b, p);
    }
  }

  /** `find` passes over an element that does not meet `p`, wherever it
      stands. */
  lemma FirstWhereSkips<T>(a: seq<T>, x: T, b: seq<T>, p: T -> bool)
    requires !p(x)
    ensures FirstWhere(a + [x] + b, p) == FirstWhere(a + b, p)
  {
    FirstIndexSkips(a, x, b, p);
    var k := FirstIndex(a + b, p);
    if k < |a| {
      assert (a + [x] + b)[k] == (a + b)[k];
    } else if k < |a + b| {
      assert (a + [x] + b)[k + 1] == (a + b)[k];
    }
  }

  lemma AppendAssoc<T>(a: seq<T>, b: seq<T>, c: seq<T>)
    ensures a + b + c == a + (b + c)
  {
  }

  /** Taking one occurrence of `x` out of both sides keeps the multisets equal. */
  lemma MultisetCancel<T>(init: seq<T>, x: T, a: seq<T>, b: seq<T>)
    requires multiset(init + [x]) == multiset(a + [x] + b)
    ensures multiset(init) == multiset(a + b)
  {
    calc {
      multiset(init);
      multiset(init + [x]) - multiset{x};
      multiset(a + [x] + b) - multiset{x};
      (multiset(a) + multiset(b) + multiset{x}) - multiset{x};
      multiset(a) + multiset(b);
      multiset(a + b);
    }
  }

  lemma MultisetInsert<T>(u: seq<T>, a: seq<T>, b: seq<T>, s: seq<T>)
    requires multiset(u) == multiset(a + b)
    ensures multiset(u + s) == multiset(a + s + b)
  {
  }
}
