/**
 * Sequence vocabulary for the list manipulations of the core: removing a set
 * of positions (std::vector::erase in a loop), keeping the elements a mask
 * selects (a push_back loop guarded by a test), and order-preserving
 * subsequences.
 */
module Sequences {

  /** The elements of `s` whose positions are not in `dropped`, in order. */
  function Drop<T>(s: seq<T>, dropped: set<int>): (r: seq<T>)
    ensures |r| <= |s|
    decreases |s|
  {
    if s == [] then []
    else Drop(s[..|s| - 1], dropped) + (if |s| - 1 in dropped then [] else [s[|s| - 1]])
  }

  /** The set of values of an index list. */
  function Positions(idx: seq<int>): set<int>
  {
    set k | 0 <= k < |idx| :: idx[k]
  }

  predicate StrictlyIncreasing(idx: seq<int>)
  {
    forall a, b :: 0 <= a < b < |idx| ==> idx[a] < idx[b]
  }

  predicate AllBelow(idx: seq<int>, n: int)
  {
    forall k :: 0 <= k < |idx| ==> 0 <= idx[k] < n
  }

  /** The elements of `s` whose mask entry is true, in order. */
  function Select<T>(s: seq<T>, keep: seq<bool>): (r: seq<T>)
    requires |keep| == |s|
    ensures |r| <= |s|
    decreases |s|
  {
    if s == [] then []
    else Select(s[..|s| - 1], keep[..|s| - 1]) + (if keep[|s| - 1] then [s[|s| - 1]] else [])
  }

  /** `a` is `b` with some elements left out (greedy matching from the back). */
  predicate IsSubseq<T(==)>(a: seq<T>, b: seq<T>)
    decreases |b|
  {
    if a == [] then true
    else if b == [] then false
    else if a[|a| - 1] == b[|b| - 1] then IsSubseq(a[..|a| - 1], b[..|b| - 1])
    else IsSubseq(a, b[..|b| - 1])
  }

  lemma {:induction false} SubseqDropLast<T>(a: seq<T>, b: seq<T>)
    requires IsSubseq(a, b) && a != []
    ensures IsSubseq(a[..|a| - 1], b)
    decreases |b|
  {
    var a' := a[..|a| - 1];
    var b' := b[..|b| - 1];
    if a' != [] {
      assert a'[..|a'| - 1] == a[..|a| - 2];
      if a[|a| - 1] == b[|b| - 1] {
        if a'[|a'| - 1] == b[|b| - 1] {
          SubseqDropLast(a', b');
        }
      } else {
        SubseqDropLast(a, b');
        if a'[|a'| - 1] == b[|b| - 1] {
          SubseqDropLast(a', b');
        }
      }
    }
  }

  lemma SubseqSnoc<T>(a: seq<T>, b: seq<T>, x: T)
    requires IsSubseq(a, b)
    ensures IsSubseq(a, b + [x])
    ensures IsSubseq(a + [x], b + [x])
  {
    assert (b + [x])[..|b|] == b;
    assert (a + [x])[..|a|] == a;
    if a != [] && a[|a| - 1] == x {
      SubseqDropLast(a, b);
    }
  }

  lemma {:induction false} SubseqMembers<T>(a: seq<T>, b: seq<T>)
    requires IsSubseq(a, b)
    ensures |a| <= |b|
    ensures forall x :: x in a ==> x in b
    decreases |b|
  {
    if a != [] {
      var b' := b[..|b| - 1];
      if a[|a| - 1] == b[|b| - 1] {
        SubseqMembers(a[..|a| - 1], b');
        assert a == a[..|a| - 1] + [a[|a| - 1]];
        assert b == b' + [b[|b| - 1]];
      } else {
        SubseqMembers(a, b');
        assert b == b' + [b[|b| - 1]];
      }
    }
  }

  lemma {:induction false} SelectIsSubseq<T>(s: seq<T>, keep: seq<bool>)
    requires |keep| == |s|
    ensures IsSubseq(Select(s, keep), s)
    decreases |s|
  {
    if s != [] {
      var s' := s[..|s| - 1];
      var x := s[|s| - 1];
      var r' := Select(s', keep[..|s| - 1]);
      SelectIsSubseq(s', keep[..|s| - 1]);
      SubseqSnoc(r', s', x);
      assert s == s' + [x];
      if keep[|s| - 1] {
        assert Select(s, keep) == r' + [x];
        assert IsSubseq(r' + [x], s' + [x]);
      } else {
        assert Select(s, keep) == r';
        assert IsSubseq(r', s' + [x]);
      }
    }
  }

  /** Keeping the first `k` mask entries keeps exactly the selected elements among the first `k`. */
  lemma {:induction false} SelectPrefix<T>(s: seq<T>, keep: seq<bool>, k: nat)
    requires |keep| == |s| && k < |s|
    ensures Select(s[..k + 1], keep[..k + 1])
         == Select(s[..k], keep[..k]) + (if keep[k] then [s[k]] else [])
  {
    assert s[..k + 1][..k] == s[..k];
    assert keep[..k + 1][..k] == keep[..k];
  }

  /** Drop only looks at the positions of `s`. */
  lemma {:induction false} DropAgree<T>(s: seq<T>, d: set<int>, e: set<int>)
    requires forall k :: 0 <= k < |s| ==> (k in d <==> k in e)
    ensures Drop(s, d) == Drop(s, e)
    decreases |s|
  {
    if s != [] {
      DropAgree(s[..|s| - 1], d, e);
    }
  }

  /** Dropping positions that all lie beyond `p` leaves the suffix from `p` untouched. */
  lemma {:induction false} DropSplit<T>(s: seq<T>, d: set<int>, p: nat)
    requires p <= |s|
    requires forall k :: k in d ==> k < p
    ensures Drop(s, d) == Drop(s[..p], d) + s[p..]
    decreases |s|
  {
    if p < |s| {
      var s' := s[..|s| - 1];
      DropSplit(s', d, p);
      assert s'[..p] == s[..p];
      assert s'[p..] + [s[|s| - 1]] == s[p..];
    } else {
      assert s[..p] == s;
    }
  }

  /** Dropping no position of `s` gives back `s`. */
  lemma DropNothing<T>(s: seq<T>, d: set<int>)
    requires forall k :: 0 <= k < |s| ==> k !in d
    ensures Drop(s, d) == s
  {
    DropAgree(s, d, {});
    DropSplit(s, {}, 0);
  }

  /** Dropping the first `k` positions of a strictly increasing index list removes exactly `k` elements. */
  lemma {:induction false} DropCount<T>(s: seq<T>, idx: seq<int>, k: nat)
    requires StrictlyIncreasing(idx) && k <= |idx|
    requires AllBelow(idx[..k], |s|)
    ensures |Drop(s, Positions(idx[..k]))| == |s| - k
    decreases k
  {
    if k == 0 {
      DropNothing(s, Positions(idx[..k]));
    } else {
      var d := Positions(idx[..k]);
      var d' := Positions(idx[..k - 1]);
      var p := idx[k - 1];
      assert idx[..k][k - 1] == p;
      assert p in d;
      assert forall j :: j in d ==> j <= p;
      DropSplit(s, d, p + 1);
      var t := s[..p + 1];
      assert t[..p] == s[..p];
      assert Drop(t, d) == Drop(s[..p], d);
      DropAgree(s[..p], d, d');
      assert idx[..k - 1] == idx[..k][..k - 1];
      DropCount(s[..p], idx, k - 1);
    }
  }

  /**
   * One step of `for (k ...) v.erase(v.begin() + idx[k] - k)`: after the first
   * `k` positions of an increasing index list are gone, the original position
   * `idx[k]` sits at `idx[k] - k`, and erasing it drops one more position.
   */
  lemma EraseStep<T>(s: seq<T>, idx: seq<int>, k: nat)
    requires StrictlyIncreasing(idx) && AllBelow(idx, |s|) && k < |idx|
    ensures 0 <= idx[k] - k < |Drop(s, Positions(idx[..k]))|
    ensures var c := Drop(s, Positions(idx[..k]));
            c[..idx[k] - k] + c[idx[k] - k + 1..] == Drop(s, Positions(idx[..k + 1]))
  {
    var p := idx[k];
    var head := Drop(s[..p], Positions(idx[..k]));
    DropBeforeNext(s, idx, k);
    SkipAfter(head, s[p..]);
    assert s[p..][1..] == s[p + 1..];
    PositionsBeforeNext(idx, k);
    DropThroughPosition(s, Positions(idx[..k]), Positions(idx[..k + 1]), p);
  }

  /** Before erasing `idx[k]`: the elements before it, less `k` of them, then everything from it on. */
  lemma DropBeforeNext<T>(s: seq<T>, idx: seq<int>, k: nat)
    requires StrictlyIncreasing(idx) && AllBelow(idx, |s|) && k < |idx|
    ensures var p := idx[k];
            var head := Drop(s[..p], Positions(idx[..k]));
            |head| == p - k && Drop(s, Positions(idx[..k])) == head + s[p..]
  {
    var p := idx[k];
    var d := Positions(idx[..k]);
    assert forall j :: j in d ==> j < p;
    DropSplit(s, d, p);
    assert AllBelow(idx[..k], |s[..p]|);
    DropCount(s[..p], idx, k);
  }

  /** The positions up to and including `idx[k]` are those before it plus `idx[k]`, which exceeds them all. */
  lemma PositionsBeforeNext(idx: seq<int>, k: nat)
    requires StrictlyIncreasing(idx) && k < |idx|
    ensures forall j :: j in Positions(idx[..k]) ==> j < idx[k]
    ensures Positions(idx[..k + 1]) == Positions(idx[..k]) + {idx[k]}
  {
    var before := idx[..k];
    var upto := idx[..k + 1];
    forall j | j in Positions(before) ensures j < idx[k] && j in Positions(upto) {
      var a :| 0 <= a < |before| && before[a] == j;
      assert idx[a] == j && upto[a] == j;
    }
    forall j | j in Positions(upto) ensures j in Positions(before) + {idx[k]} {
      var a :| 0 <= a < |upto| && upto[a] == j;
      if a < k {
        assert before[a] == j;
      }
    }
    assert upto[k] == idx[k];
  }

  /** Dropping `p` and positions below it: what survives before `p`, then everything after it. */
  lemma DropThroughPosition<T>(s: seq<T>, d: set<int>, d1: set<int>, p: nat)
    requires p < |s| && (forall j :: j in d ==> j < p) && d1 == d + {p}
    ensures Drop(s, d1) == Drop(s[..p], d) + s[p + 1..]
  {
    var t := s[..p];
    var t1 := s[..p + 1];
    DropSplit(s, d1, p + 1);
    assert t1[..p] == t;
    assert Drop(t1, d1) == Drop(t, d1);
    DropAgree(t, d1, d);
  }

  /** Around the head of a nonempty tail `u`, `h + u` splits back into `h` and the rest of `u`. */
  lemma SkipAfter<T>(h: seq<T>, u: seq<T>)
    requires |u| > 0
    ensures (h + u)[..|h|] == h && (h + u)[|h| + 1..] == u[1..]
  {
  }

  /** Concatenation regroups freely. */
  lemma AppendAssociates<T>(a: seq<T>, b: seq<T>, c: seq<T>)
    ensures a + (b + c) == (a + b) + c
  {
  }

  /** Dropping positions at or beyond `p` keeps the first `p` elements in place. */
  lemma {:induction false} DropKeepsPrefix<T>(s: seq<T>, d: set<int>, p: nat)
    requires p <= |s|
    requires forall k :: k in d ==> k < 0 || p <= k
    ensures p <= |Drop(s, d)| && Drop(s, d)[..p] == s[..p]
    decreases |s|
  {
    if |s| == p {
      DropNothing(s, d);
    } else {
      var s' := s[..|s| - 1];
      DropKeepsPrefix(s', d, p);
      assert s'[..p] == s[..p];
    }
  }

  /** Every element left by Drop comes from a dropped-free position at or after its own. */
  lemma {:induction false} DropOrigin<T>(s: seq<T>, d: set<int>, b: nat)
    requires b < |Drop(s, d)|
    ensures exists k :: b <= k < |s| && k !in d && Drop(s, d)[b] == s[k]
    decreases |s|
  {
    var s' := s[..|s| - 1];
    var r' := Drop(s', d);
    if b < |r'| {
      DropOrigin(s', d, b);
      var k :| b <= k < |s'| && k !in d && r'[b] == s'[k];
      assert Drop(s, d)[b] == s[k];
    } else {
      assert Drop(s, d)[b] == s[|s| - 1];
    }
  }

  /** Every element left by Drop is an element of the original. */
  lemma DropMembers<T>(s: seq<T>, d: set<int>)
    ensures forall x :: x in Drop(s, d) ==> x in s
  {
    forall x | x in Drop(s, d) ensures x in s {
      var b :| 0 <= b < |Drop(s, d)| && Drop(s, d)[b] == x;
      DropOrigin(s, d, b);
    }
  }

  /** Positions of a strictly increasing list: the head lies below every later entry. */
  lemma HeadBelowTail(idx: seq<int>)
    requires StrictlyIncreasing(idx) && |idx| > 0
    ensures forall k :: k in Positions(idx[1..]) ==> idx[0] < k
    ensures Positions(idx) == {idx[0]} + Positions(idx[1..])
  {
    forall k | k in Positions(idx[1..]) ensures idx[0] < k {
      var a :| 0 <= a < |idx[1..]| && idx[1..][a] == k;
      assert idx[a + 1] == k;
    }
    forall k | k in Positions(idx) ensures k in {idx[0]} + Positions(idx[1..]) {
      var a :| 0 <= a < |idx| && idx[a] == k;
      if a > 0 {
        assert idx[1..][a - 1] == k;
      }
    }
    forall k | k in Positions(idx[1..]) ensures k in Positions(idx) {
      var a :| 0 <= a < |idx[1..]| && idx[1..][a] == k;
      assert idx[a + 1] == k;
    }
  }

  /**
   * Dropping every position of an increasing list whose head is `h`: the
   * prefix before `h` stays, the length falls by the list's size, and
   * everything from `h` on comes from a later position outside the list.
   */
  lemma DropAllFromHead<T>(s: seq<T>, idx: seq<int>)
    requires StrictlyIncreasing(idx) && AllBelow(idx, |s|) && |idx| > 0
    ensures var r := Drop(s, Positions(idx));
            && |r| == |s| - |idx|
            && idx[0] <= |r| && r[..idx[0]] == s[..idx[0]]
            && forall b :: idx[0] <= b < |r| ==>
                 exists k :: idx[0] < k < |s| && k !in Positions(idx) && r[b] == s[k]
  {
    var d := Positions(idx);
    var r := Drop(s, d);
    assert idx[..|idx|] == idx;
    DropCount(s, idx, |idx|);
    forall k | k in d ensures k < 0 || idx[0] <= k {
      var a :| 0 <= a < |idx| && idx[a] == k;
      assert a == 0 || idx[0] < idx[a];
    }
    DropKeepsPrefix(s, d, idx[0]);
    forall b | idx[0] <= b < |r|
      ensures exists k :: idx[0] < k < |s| && k !in d && r[b] == s[k]
    {
      DropOrigin(s, d, b);
      var k :| b <= k < |s| && k !in d && r[b] == s[k];
      assert idx[0] in d;
    }
  }

  /**
   * Dropping every position but the head of an increasing list: the prefix up
   * to and including the head stays, the length falls by the list's size less
   * one, and everything after the head comes from a later position outside the
   * list.
   */
  lemma DropAllButHead<T>(s: seq<T>, idx: seq<int>)
    requires StrictlyIncreasing(idx) && AllBelow(idx, |s|) && |idx| > 0
    ensures var r := Drop(s, Positions(idx[1..]));
            && |r| == |s| - |idx| + 1
            && idx[0] < |r| && r[..idx[0] + 1] == s[..idx[0] + 1]
            && forall b :: idx[0] < b < |r| ==>
                 exists k :: idx[0] < k < |s| && k !in Positions(idx) && r[b] == s[k]
  {
    var rest := idx[1..];
    var d := Positions(rest);
    var r := Drop(s, d);
    HeadBelowTail(idx);
    assert StrictlyIncreasing(rest) && AllBelow(rest, |s|);
    assert rest[..|rest|] == rest;
    DropCount(s, rest, |rest|);
    DropKeepsPrefix(s, d, idx[0] + 1);
    forall b | idx[0] < b < |r|
      ensures exists k :: idx[0] < k < |s| && k !in Positions(idx) && r[b] == s[k]
    {
      DropOrigin(s, d, b);
      var k :| b <= k < |s| && k !in d && r[b] == s[k];
    }
  }

  lemma PositionsOfPair(idx: seq<int>)
    requires |idx| == 2
    ensures Positions(idx) == {idx[0], idx[1]}
  {
    assert idx[0] in Positions(idx);
    assert idx[1] in Positions(idx);
  }

  lemma DropSnoc<T>(s: seq<T>, x: T, d: set<int>)
    ensures Drop(s + [x], d) == Drop(s, d) + (if |s| in d then [] else [x])
  {
    assert (s + [x])[..|s|] == s;
  }
}
