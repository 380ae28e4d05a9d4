/** All permutations of a list, by inserting its head at every position. */
module Permutations {
  import opened Basics

  function Insert<T>(s: seq<T>, i: nat, x: T): seq<T>
    requires i <= |s|
  {
    s[..i] + [x] + s[i..]
  }

  /** x inserted at the first n positions of s. */
  ghost function Insertions<T>(s: seq<T>, x: T, n: nat): seq<seq<T>>
    requires n <= |s| + 1
  {
    seq(n, i requires 0 <= i < n => Insert(s, i, x))
  }

  ghost function InsertionsAll<T>(ss: seq<seq<T>>, x: T, n: nat): seq<seq<T>>
    requires forall s :: s in ss ==> |s| + 1 == n
  {
    if ss == [] then [] else InsertionsAll(ss[..|ss| - 1], x, n) + Insertions(ss[|ss| - 1], x, n)
  }

  lemma {:induction false} InInsertionsAll<T>(ss: seq<seq<T>>, x: T, n: nat, p: seq<T>)
    requires forall s :: s in ss ==> |s| + 1 == n
    ensures p in InsertionsAll(ss, x, n) <==> exists s, i: nat :: s in ss && i < n && p == Insert(s, i, x)
  {
    if ss != [] {
      var init, last := ss[..|ss| - 1], ss[|ss| - 1];
      InInsertionsAll(init, x, n, p);
      assert ss == init + [last];
      assert p in Insertions(last, x, n) <==> exists i: nat :: i < n && p == Insert(last, i, x) by {
        if i: nat :| i < n && p == Insert(last, i, x) {
          assert Insertions(last, x, n)[i] == p;
        }
      }
    }
  }

  ghost function Perms<T>(s: seq<T>): (r: seq<seq<T>>)
    ensures forall p :: p in r ==> |p| == |s|
  {
    if |s| <= 1 then [s] else
      var sub := Perms(s[1..]);
      var r := InsertionsAll(sub, s[0], |s|);
      assert forall p :: p in r ==> |p| == |s| by {
        forall p | p in r ensures |p| == |s| {
          InInsertionsAll(sub, s[0], |s|, p);
        }
      }
      r
  }

  lemma NoInsertions<T>(x: T, n: nat)
    ensures InsertionsAll([], x, n) == []
  {
  }

  lemma EmptyInsertions<T>(s: seq<T>, x: T)
    ensures Insertions(s, x, 0) == []
  {
  }

  lemma OneInsertion<T>(s: seq<T>, x: T, i: nat)
    requires i <= |s|
    ensures Insertions(s, x, i + 1) == Insertions(s, x, i) + [Insert(s, i, x)]
  {
  }

  lemma InsertionsStep<T>(ss: seq<seq<T>>, k: nat, x: T, n: nat)
    requires k < |ss| && forall s :: s in ss ==> |s| + 1 == n
    ensures |ss[k]| + 1 == n
    ensures InsertionsAll(ss[..k + 1], x, n) == InsertionsAll(ss[..k], x, n) + Insertions(ss[k], x, n)
  {
    assert ss[k] in ss && ss[..k + 1][..k] == ss[..k];
  }

  method Permutations<T>(inputList: seq<T>) returns (outLists: seq<seq<T>>)
    ensures outLists == Perms(inputList)
    decreases |inputList|
  {
    hide InsertionsAll;
    hide Insertions;
    outLists := [];
    if |inputList| > 1 {
      var item := inputList[0];
      var subLists := Permutations(inputList[1..]);
      NoInsertions(item, |inputList|);
      assert subLists[..0] == [];
      for k := 0 to |subLists|
        invariant outLists == InsertionsAll(subLists[..k], item, |inputList|)
      {
        var subList := subLists[k];
        InsertionsStep(subLists, k, item, |inputList|);
        ghost var before := outLists;
        EmptyInsertions(subList, item);
        for i := 0 to |inputList|
          invariant outLists == before + Insertions(subList, item, i)
        {
          var newList := Insert(subList, i, item);
          OneInsertion(subList, item, i);
          outLists := outLists + [newList];
        }
      }
      assert subLists[..|subLists|] == subLists;
    } else {
      outLists := [inputList];
    }
  }

  lemma InsertMultiset<T>(s: seq<T>, i: nat, x: T)
    requires i <= |s|
    ensures multiset(Insert(s, i, x)) == multiset(s) + multiset{x}
  {
    assert s == s[..i] + s[i..];
  }

  lemma ShortRearrangement<T>(s: seq<T>, p: seq<T>)
    requires |s| <= 1
    ensures p == s <==> multiset(p) == multiset(s)
  {
  }

  lemma Cancel<T>(a: multiset<T>, b: multiset<T>, x: T)
    requires a + multiset{x} == b + multiset{x}
    ensures a == b
  {
    assert a == (a + multiset{x}) - multiset{x};
    assert b == (b + multiset{x}) - multiset{x};
  }

  /** A rearrangement of s is a rearrangement of its tail with its head inserted somewhere. */
  lemma TakeOut<T>(s: seq<T>, p: seq<T>) returns (q: seq<T>, i: nat)
    requires s != [] && multiset(p) == multiset(s)
    ensures i < |s| && |q| + 1 == |s| && p == Insert(q, i, s[0]) && multiset(q) == multiset(s[1..])
  {
    var x := s[0];
    assert s == [x] + s[1..];
    assert x in multiset(p) && |p| == |multiset(p)| == |multiset(s)| == |s|;
    i :| 0 <= i < |p| && p[i] == x;
    q := p[..i] + p[i + 1..];
    assert p == Insert(q, i, x);
    InsertMultiset(q, i, x);
    Cancel(multiset(q), multiset(s[1..]), x);
  }

  /** The answer holds exactly the rearrangements of the input. */
  lemma {:induction false} PermsAreRearrangements<T>(s: seq<T>, p: seq<T>)
    ensures p in Perms(s) <==> multiset(p) == multiset(s)
    decreases |s|
  {
    hide InsertionsAll;
    if |s| <= 1 {
      ShortRearrangement(s, p);
    } else {
      var sub, x := Perms(s[1..]), s[0];
      InInsertionsAll(sub, x, |s|, p);
      if p in Perms(s) {
        var q, i: nat :| q in sub && i < |s| && p == Insert(q, i, x);
        PermsAreRearrangements(s[1..], q);
        InsertMultiset(q, i, x);
        assert s == [x] + s[1..];
      }
      if multiset(p) == multiset(s) {
        var q, i := TakeOut(s, p);
        PermsAreRearrangements(s[1..], q);
      }
    }
  }

  function Factorial(n: nat): nat {
    if n == 0 then 1 else n * Factorial(n - 1)
  }

  lemma Times(m: nat, n: nat)
    ensures (m + 1) * n == m * n + n
  {
  }

  lemma {:induction false} InsertionsAllSize<T>(ss: seq<seq<T>>, x: T, n: nat)
    requires forall s :: s in ss ==> |s| + 1 == n
    ensures |InsertionsAll(ss, x, n)| == |ss| * n
  {
    if ss != [] {
      var m := |ss| - 1;
      InsertionsAllSize(ss[..m], x, n);
      assert |InsertionsAll(ss, x, n)| == |InsertionsAll(ss[..m], x, n)| + n;
      Times(m, n);
    }
  }

  lemma {:induction false} PermsSize<T>(s: seq<T>)
    ensures |Perms(s)| == Factorial(|s|)
    decreases |s|
  {
    if |s| > 1 {
      PermsSize(s[1..]);
      InsertionsAllSize(Perms(s[1..]), s[0], |s|);
    } else {
      assert Factorial(1) == 1 * Factorial(0);
    }
  }

  /** The i-th place in the a-th block of n. */
  function Slot(a: nat, n: nat, i: nat): nat {
    a * n + i
  }

  lemma {:induction false} InsertionsAllAt<T>(ss: seq<seq<T>>, x: T, n: nat, a: nat, i: nat)
    requires forall s :: s in ss ==> |s| + 1 == n
    requires a < |ss| && i < n
    ensures var all := InsertionsAll(ss, x, n);
            Slot(a, n, i) < |all| && all[Slot(a, n, i)] == Insert(ss[a], i, x)
  {
    var m := |ss| - 1;
    assert ss[m] in ss;
    InsertionsAllSize(ss[..m], x, n);
    if a < m {
      InsertionsAllAt(ss[..m], x, n, a, i);
    }
  }

  /** p is q with x put at i. */
  ghost predicate HasAt<T>(p: seq<T>, i: nat, x: T, q: seq<T>) {
    i < |p| && p[i] == x && p[..i] + p[i + 1..] == q
  }

  lemma InsertHasAt<T>(s: seq<T>, i: nat, x: T)
    requires i <= |s|
    ensures HasAt(Insert(s, i, x), i, x, s)
  {
  }

  /** The order of the answer: the entries of the tail's answer one after the other, each with the head taken
      through all its positions. */
  lemma PermsInOrder<T>(s: seq<T>, a: nat, i: nat)
    requires |s| > 1 && a < |Perms(s[1..])| && i < |s|
    ensures var sub, all := Perms(s[1..]), Perms(s);
            Slot(a, |s|, i) < |all| && HasAt(all[Slot(a, |s|, i)], i, s[0], sub[a])
  {
    var sub := Perms(s[1..]);
    assert sub[a] in sub;
    assert Perms(s) == InsertionsAll(sub, s[0], |s|);
    InsertionsAllAt(sub, s[0], |s|, a, i);
    InsertHasAt(sub[a], i, s[0]);
  }

  lemma InsertPosition<T>(s: seq<T>, i: nat, x: T)
    requires i <= |s| && x !in s
    ensures forall k :: 0 <= k <= |s| ==> (Insert(s, i, x)[k] == x <==> k == i)
    ensures s == Insert(s, i, x)[..i] + Insert(s, i, x)[i + 1..]
  {
  }

  lemma InsertIsInjective<T>(s: seq<T>, i: nat, t: seq<T>, j: nat, x: T)
    requires i <= |s| && j <= |t| && x !in s && x !in t
    ensures Insert(s, i, x) == Insert(t, j, x) ==> i == j && s == t
  {
    InsertPosition(s, i, x);
    InsertPosition(t, j, x);
    if |s| == |t| {
      assert Insert(s, i, x)[i] == x;
    }
  }

  lemma {:induction false} InsertionsAllNoDup<T>(ss: seq<seq<T>>, x: T, n: nat)
    requires forall s :: s in ss ==> |s| + 1 == n && x !in s
    requires NoDup(ss)
    ensures NoDup(InsertionsAll(ss, x, n))
  {
    if ss != [] {
      var init, last := ss[..|ss| - 1], ss[|ss| - 1];
      InsertionsAllNoDup(init, x, n);
      var early, late := InsertionsAll(init, x, n), Insertions(last, x, n);
      forall i, j | 0 <= i < |early| && 0 <= j < |late| ensures early[i] != late[j] {
        InInsertionsAll(init, x, n, early[i]);
        var s, k: nat :| s in init && k < n && early[i] == Insert(s, k, x);
        InsertIsInjective(s, k, last, j, x);
        var a: nat :| a < |init| && init[a] == s;
        assert ss[a] == s && ss[|ss| - 1] == last;
      }
      forall i, j | 0 <= i < j < |late| ensures late[i] != late[j] {
        InsertIsInjective(last, i, last, j, x);
      }
    }
  }

  /** Distinct items give distinct permutations. */
  lemma {:induction false} PermsAreDistinct<T>(s: seq<T>)
    requires NoDup(s)
    ensures NoDup(Perms(s))
    decreases |s|
  {
    if |s| > 1 {
      PermsAreDistinct(s[1..]);
      forall q | q in Perms(s[1..]) ensures s[0] !in q {
        PermsAreRearrangements(s[1..], q);
        assert s[0] !in multiset(s[1..]);
        assert s[0] !in multiset(q);
      }
      InsertionsAllNoDup(Perms(s[1..]), s[0], |s|);
    }
  }
}
