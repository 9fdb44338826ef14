/** Small shared vocabulary: optional values, results that carry the message of a
    raised exception, and order-preserving selection from a sequence. */
module Common {

  datatype Option<+T> = None | Some(value: T)

  /** The outcome of an operation that may raise: `Err` carries the exception's message. */
  datatype Result<+T> = Ok(value: T) | Err(error: string)

  ghost predicate Distinct<T>(s: seq<T>)
  {
    forall i, j :: 0 <= i < j < |s| ==> s[i] != s[j]
  }

  /** `idx` lists, in increasing order, the positions of `t` at which the elements of `s` stand. */
  ghost predicate Embeds<T>(idx: seq<nat>, s: seq<T>, t: seq<T>)
  {
    && |idx| == |s|
    && (forall i :: 0 <= i < |idx| ==> idx[i] < |t| && s[i] == t[idx[i]])
    && (forall i, j :: 0 <= i < j < |idx| ==> idx[i] < idx[j])
  }

  /** `s` is obtained from `t` by deleting elements, the rest keeping their order. */
  ghost predicate SubsequenceOf<T>(s: seq<T>, t: seq<T>)
  {
    exists idx :: Embeds(idx, s, t)
  }

  lemma SubsequenceOfEmpty<T>(t: seq<T>)
    ensures SubsequenceOf([], t)
  {
    assert Embeds([], [], t);
  }

  /** Extending `t` by one element keeps a subsequence a subsequence, whether or not the
      new element is also appended to it. */
  lemma SubsequenceOfExtend<T>(s: seq<T>, t: seq<T>, x: T, keep: bool)
    requires SubsequenceOf(s, t)
    ensures SubsequenceOf(s + (if keep then [x] else []), t + [x])
  {
    var idx: seq<nat> :| Embeds(idx, s, t);
    if keep {
      var idx': seq<nat> := idx + [|t|];
      assert Embeds(idx', s + [x], t + [x]);
    } else {
      assert s + [] == s;
      assert Embeds(idx, s, t + [x]);
    }
  }

  /** Putting one element in front of `t` keeps a subsequence a subsequence, whether or not
      the new element is also put in front of it. */
  lemma SubsequenceOfPrepend<T>(s: seq<T>, t: seq<T>, x: T, keep: bool)
    requires SubsequenceOf(s, t)
    ensures SubsequenceOf((if keep then [x] else []) + s, [x] + t)
  {
    var idx: seq<nat> :| Embeds(idx, s, t);
    var shifted := Shifted(idx);
    EmbedsShifted(idx, s, t, x);
    if keep {
      EmbedsCons(shifted, s, [x] + t);
    } else {
      assert [] + s == s;
    }
  }

  /** Every position one further on. */
  function Shifted(idx: seq<nat>): (r: seq<nat>)
    ensures |r| == |idx| && forall i :: 0 <= i < |idx| ==> r[i] == idx[i] + 1
  {
    seq(|idx|, i requires 0 <= i < |idx| => idx[i] + 1)
  }

  lemma EmbedsShifted<T>(idx: seq<nat>, s: seq<T>, t: seq<T>, x: T)
    requires Embeds(idx, s, t)
    ensures Embeds(Shifted(idx), s, [x] + t)
  {
    var r, u := Shifted(idx), [x] + t;
    forall i | 0 <= i < |r|
      ensures r[i] < |u| && s[i] == u[r[i]]
    {
      assert u[idx[i] + 1] == t[idx[i]];
    }
  }

  lemma EmbedsCons<T>(idx: seq<nat>, s: seq<T>, t: seq<T>)
    requires t != [] && Embeds(idx, s, t)
    requires forall i :: 0 <= i < |idx| ==> idx[i] > 0
    ensures Embeds([0] + idx, [t[0]] + s, t)
  {
    var r, w := [0] + idx, [t[0]] + s;
    forall i | 0 <= i < |r|
      ensures r[i] < |t| && w[i] == t[r[i]]
    {
      if i > 0 {
        assert r[i] == idx[i - 1] && w[i] == s[i - 1];
      }
    }
    forall i, j | 0 <= i < j < |r|
      ensures r[i] < r[j]
    {
      if i > 0 {
        assert r[i] == idx[i - 1] && r[j] == idx[j - 1];
      }
    }
  }

  /** `s` is the filter of `t` that keeps exactly the positions `k` with `keep[k]`, in order:
      every kept position appears once and no other does, so repeated elements keep their
      multiplicity. Given `t` and `keep`, this fixes `s` (see `KeepsExactlyUnique`). */
  ghost predicate KeepsExactly<T>(s: seq<T>, t: seq<T>, keep: seq<bool>)
  {
    && |keep| == |t|
    && exists idx :: Embeds(idx, s, t) && forall k :: 0 <= k < |t| ==> (k in idx <==> keep[k])
  }

  lemma KeepsExactlyEmpty<T>(s: seq<T>, keep: seq<bool>)
    requires s == [] && keep == []
    ensures KeepsExactly(s, s, keep)
  {
    assert Embeds([], s, s);
  }

  /** Extending `t` by one element, kept or not. */
  lemma KeepsExactlyExtend<T>(s: seq<T>, t: seq<T>, keep: seq<bool>, x: T, b: bool)
    requires KeepsExactly(s, t, keep)
    ensures KeepsExactly(s + (if b then [x] else []), t + [x], keep + [b])
  {
    var idx: seq<nat> :| Embeds(idx, s, t) && forall k :: 0 <= k < |t| ==> (k in idx <==> keep[k]);
    var idx': seq<nat> := if b then idx + [|t|] else idx;
    EmbedsExtend(idx, s, t, x, b);
    MarksExtend(idx, |t|, keep, b);
    assert Embeds(idx', s + (if b then [x] else []), t + [x]);
  }

  lemma EmbedsExtend<T>(idx: seq<nat>, s: seq<T>, t: seq<T>, x: T, b: bool)
    requires Embeds(idx, s, t)
    ensures Embeds(if b then idx + [|t|] else idx, s + (if b then [x] else []), t + [x])
  {
    if !b {
      assert s + [] == s;
    }
  }

  lemma MarksExtend(idx: seq<nat>, n: nat, keep: seq<bool>, b: bool)
    requires |keep| == n && forall i :: 0 <= i < |idx| ==> idx[i] < n
    requires forall k :: 0 <= k < n ==> (k in idx <==> keep[k])
    ensures forall k :: 0 <= k < n + 1 ==> (k in (if b then idx + [n] else idx) <==> (keep + [b])[k])
  {
    assert n !in idx;
  }

  /** Putting one element in front of `t`, kept or not. */
  lemma KeepsExactlyPrepend<T>(s: seq<T>, t: seq<T>, keep: seq<bool>, x: T, b: bool)
    requires KeepsExactly(s, t, keep)
    ensures KeepsExactly((if b then [x] else []) + s, [x] + t, [b] + keep)
  {
    var idx: seq<nat> :| Embeds(idx, s, t) && forall k :: 0 <= k < |t| ==> (k in idx <==> keep[k]);
    var shifted := Shifted(idx);
    var idx': seq<nat> := if b then [0] + shifted else shifted;
    EmbedsShifted(idx, s, t, x);
    if b {
      EmbedsCons(shifted, s, [x] + t);
    } else {
      assert [] + s == s;
    }
    MarksPrepend(idx, |t|, keep, b);
    assert Embeds(idx', (if b then [x] else []) + s, [x] + t);
  }

  lemma MarksPrepend(idx: seq<nat>, n: nat, keep: seq<bool>, b: bool)
    requires |keep| == n
    requires forall k :: 0 <= k < n ==> (k in idx <==> keep[k])
    ensures forall k :: 0 <= k < n + 1 ==> (k in (if b then [0] + Shifted(idx) else Shifted(idx)) <==> ([b] + keep)[k])
  {
    var shifted := Shifted(idx);
    forall k | 0 <= k < n + 1
      ensures k in shifted <==> k > 0 && k - 1 in idx
    {
      if k > 0 && k - 1 in idx {
        var i :| 0 <= i < |idx| && idx[i] == k - 1;
        assert shifted[i] == k;
      }
      if k in shifted {
        var i :| 0 <= i < |shifted| && shifted[i] == k;
      }
    }
  }

  /** Two increasing position lists with the same elements are equal. */
  lemma {:induction false} IncreasingSameElements(a: seq<nat>, b: seq<nat>)
    requires forall i, j :: 0 <= i < j < |a| ==> a[i] < a[j]
    requires forall i, j :: 0 <= i < j < |b| ==> b[i] < b[j]
    requires forall x :: x in a <==> x in b
    ensures a == b
  {
    assert a != [] ==> a[0] in a;
    assert b != [] ==> b[0] in b;
    if a != [] && b != [] {
      var i :| 0 <= i < |b| && b[i] == a[0];
      var j :| 0 <= j < |a| && a[j] == b[0];
      assert a[0] <= a[j] && b[0] <= b[i];
      forall x
        ensures x in a[1..] <==> x in b[1..]
      {
        if x in a[1..] {
          var p :| 1 <= p < |a| && a[p] == x;
          assert x in a && x in b;
          var q :| 0 <= q < |b| && b[q] == x;
          assert q != 0;
        }
        if x in b[1..] {
          var p :| 1 <= p < |b| && b[p] == x;
          assert x in b && x in a;
          var q :| 0 <= q < |a| && a[q] == x;
          assert q != 0;
        }
      }
      IncreasingSameElements(a[1..], b[1..]);
      assert a == [a[0]] + a[1..] && b == [b[0]] + b[1..];
    }
  }

  /** The filter of `t` by `keep` is unique: two results that both keep exactly the marked
      positions are the same sequence. */
  lemma KeepsExactlyUnique<T>(s: seq<T>, s': seq<T>, t: seq<T>, keep: seq<bool>)
    requires KeepsExactly(s, t, keep) && KeepsExactly(s', t, keep)
    ensures s == s'
  {
    var idx: seq<nat> :| Embeds(idx, s, t) && forall k :: 0 <= k < |t| ==> (k in idx <==> keep[k]);
    var idx': seq<nat> :| Embeds(idx', s', t) && forall k :: 0 <= k < |t| ==> (k in idx' <==> keep[k]);
    forall x
      ensures x in idx <==> x in idx'
    {
      if x in idx {
        var i :| 0 <= i < |idx| && idx[i] == x;
      }
      if x in idx' {
        var i :| 0 <= i < |idx'| && idx'[i] == x;
      }
    }
    IncreasingSameElements(idx, idx');
  }

  lemma AppendAssoc<T>(a: seq<T>, b: seq<T>, c: seq<T>)
    ensures a + b + c == a + (b + c)
  {
  }

  lemma SliceOfSlice<T>(s: seq<T>, a: nat, n: nat)
    requires a + n <= |s|
    ensures s[a..][..n] == s[a..a + n]
  {
  }

  /** Cutting `s + u` inside `s`. */
  lemma SplitAppend<T>(s: seq<T>, u: seq<T>, i: nat)
    requires i <= |s|
    ensures (s + u)[..i] == s[..i] && (s + u)[i..] == s[i..] + u
  {
  }

  /** `s` in reverse order. */
  function Reversed<T>(s: seq<T>): (r: seq<T>)
    ensures |r| == |s|
  {
    if s == [] then [] else [s[|s| - 1]] + Reversed(s[..|s| - 1])
  }

  /** Number of occurrences of `x` in `s`. */
  function Occurrences<T(==)>(s: seq<T>, x: T): (n: nat)
    ensures n <= |s|
    ensures n > 0 <==> x in s
  {
    if s == [] then 0 else Occurrences(s[..|s| - 1], x) + (if s[|s| - 1] == x then 1 else 0)
  }

  function SumReals(xs: seq<real>): real
  {
    if xs == [] then 0.0 else SumReals(xs[..|xs| - 1]) + xs[|xs| - 1]
  }

  /** A sum of values that all lie in [lo, hi] lies in [n * lo, n * hi]. */
  lemma {:induction false} SumRealsBounds(xs: seq<real>, lo: real, hi: real)
    requires forall i :: 0 <= i < |xs| ==> lo <= xs[i] <= hi
    ensures (|xs| as real) * lo <= SumReals(xs) <= (|xs| as real) * hi
  {
    if xs != [] {
      SumRealsBounds(xs[..|xs| - 1], lo, hi);
    }
  }

  /** Index of the first occurrence of `x`, as Python's `list.index` finds it. */
  function IndexOf<T(==)>(s: seq<T>, x: T): (r: Option<nat>)
    ensures r.None? <==> x !in s
    ensures r.Some? ==> r.value < |s| && s[r.value] == x && x !in s[..r.value]
  {
    if s == [] then None
    else if s[0] == x then Some(0)
    else match IndexOf(s[1..], x)
      case None => None
      case Some(k) => assert s[1..][..k] == s[1..k + 1]; Some(k + 1)
  }
}
