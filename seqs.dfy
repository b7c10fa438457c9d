/** Sequence operations the engine relies on, written once: filtering, the
    single-pass index removal of `remove_indexes`, subsequences, `Vec::dedup`
    and a stable sort (Rust's `sort` on a `Vec` is stable). */
module Seqs {
  import opened Geometry

  /** The elements of `s` that satisfy `keep`, in their original order. */
  function Filter<T>(s: seq<T>, keep: T -> bool): (r: seq<T>)
    ensures |r| <= |s|
    ensures forall i :: 0 <= i < |r| ==> r[i] in s && keep(r[i])
    ensures forall i :: 0 <= i < |s| && keep(s[i]) ==> s[i] in r
  {
    if s == [] then []
    else Filter(s[..|s| - 1], keep) + (if keep(s[|s| - 1]) then [s[|s| - 1]] else [])
  }

  /** Filtering depends only on the verdicts for the elements present. */
  lemma {:induction false} FilterExt<T>(s: seq<T>, p: T -> bool, q: T -> bool)
    requires forall x :: x in s ==> p(x) == q(x)
    ensures Filter(s, p) == Filter(s, q)
  {
    if s != [] {
      FilterExt(s[..|s| - 1], p, q);
    }
  }

  /** Filtering twice by the same test filters once. */
  lemma {:induction false} FilterTwice<T>(s: seq<T>, keep: T -> bool)
    ensures Filter(Filter(s, keep), keep) == Filter(s, keep)
  {
    if s != [] {
      var s' := s[..|s| - 1];
      FilterTwice(s', keep);
      var f := Filter(s, keep);
      if keep(s[|s| - 1]) {
        assert f[..|f| - 1] == Filter(s', keep);
      } else {
        assert f == Filter(s', keep);
      }
    }
  }

  /** The elements of `v` whose position is not listed in `idx`, in order. */
  function Keep<T>(v: seq<T>, idx: seq<nat>): (r: seq<T>)
    ensures |r| <= |v|
  {
    if v == [] then []
    else Keep(v[..|v| - 1], idx) + (if |v| - 1 in idx then [] else [v[|v| - 1]])
  }

  ghost predicate StrictlyIncreasing(idx: seq<nat>) {
    forall i, j :: 0 <= i < j < |idx| ==> idx[i] < idx[j]
  }

  lemma {:induction false} KeepAgree<T>(v: seq<T>, a: seq<nat>, b: seq<nat>)
    requires forall k :: 0 <= k < |v| ==> (k in a <==> k in b)
    ensures Keep(v, a) == Keep(v, b)
  {
    if v != [] {
      KeepAgree(v[..|v| - 1], a, b);
    }
  }

  /** Positions at or beyond `m` are untouched when every listed position is below `m`. */
  lemma {:induction false} KeepSplit<T>(v: seq<T>, idx: seq<nat>, m: nat)
    requires m <= |v|
    requires forall k :: k in idx ==> k < m
    ensures Keep(v, idx) == Keep(v[..m], idx) + v[m..]
    decreases |v|
  {
    if |v| > m {
      var w := v[..|v| - 1];
      KeepSplit(w, idx, m);
      assert w[..m] == v[..m];
      assert w[m..] + [v[|v| - 1]] == v[m..];
    } else {
      assert v[..m] == v;
    }
  }

  /** Removing `|idx|` distinct positions below `m` from the first `m` elements leaves `m - |idx|`. */
  lemma {:induction false} KeepLength<T>(v: seq<T>, idx: seq<nat>, m: nat)
    requires m <= |v|
    requires StrictlyIncreasing(idx)
    requires forall k :: k in idx ==> k < m
    ensures |Keep(v[..m], idx)| == m - |idx|
    decreases m
  {
    assert idx != [] ==> idx[0] in idx;
    if m == 0 {
      assert idx == [];
    } else {
      var w := v[..m];
      assert w[..m - 1] == v[..m - 1];
      if m - 1 in idx {
        var n := |idx|;
        assert idx[n - 1] in idx;
        assert forall j :: 0 <= j < n - 1 ==> idx[j] < idx[n - 1];
        assert idx[n - 1] == m - 1;
        var shorter := idx[..n - 1];
        forall k | k in shorter ensures k < m - 1 {
          var j :| 0 <= j < n - 1 && shorter[j] == k;
          assert idx[j] < idx[n - 1];
        }
        KeepLength(v, shorter, m - 1);
        KeepAgree(v[..m - 1], idx, shorter);
      } else {
        KeepLength(v, idx, m - 1);
      }
    }
  }

  /** One more removal, at a position beyond all earlier ones, as the source's loop does it. */
  lemma {:induction false} KeepStep<T>(v: seq<T>, idx: seq<nat>, m: nat)
    requires m < |v|
    requires StrictlyIncreasing(idx)
    requires forall k :: k in idx ==> k < m
    ensures |idx| <= m
    ensures |Keep(v, idx)| == |v| - |idx|
    ensures Keep(v, idx + [m]) == Keep(v, idx)[..m - |idx|] + Keep(v, idx)[m - |idx| + 1..]
    ensures Keep(v, idx)[m - |idx|] == v[m]
  {
    KeepSplit(v, idx, m);
    KeepLength(v, idx, m);
    KeepSkip(v, idx, m);
    var a, k := Keep(v[..m], idx), Keep(v, idx);
    assert k == a + v[m..];
    assert k[..m - |idx|] == a;
    assert k[m - |idx| + 1..] == v[m + 1..];
  }

  /** Removing `m` as well, beyond all earlier removals, drops `v[m]` from the kept tail. */
  lemma KeepSkip<T>(v: seq<T>, idx: seq<nat>, m: nat)
    requires m < |v|
    requires forall k :: k in idx ==> k < m
    ensures Keep(v, idx + [m]) == Keep(v[..m], idx) + v[m + 1..]
  {
    var next := idx + [m];
    forall j | j in next ensures j < m + 1 { }
    KeepSplit(v, next, m + 1);
    var w := v[..m + 1];
    assert w[..|w| - 1] == v[..m];
    KeepAgree(v[..m], next, idx);
  }

  /** `remove_indexes`: removes the listed (ascending, in-range) positions in a
      single pass, each index shifted down by the number already removed. */
  method RemoveIndexes<T>(v: seq<T>, indexes: seq<nat>) returns (r: seq<T>)
    requires StrictlyIncreasing(indexes)
    requires forall k :: k in indexes ==> k < |v|
    ensures r == Keep(v, indexes)
    ensures |r| == |v| - |indexes|
  {
    r := v;
    var removed := 0;
    KeepAgree(v, [], []);
    assert Keep(v, []) == v by { KeepIdentity(v); }
    while removed < |indexes|
      invariant 0 <= removed <= |indexes|
      invariant r == Keep(v, indexes[..removed])
      invariant |r| == |v| - removed
    {
      var i := indexes[removed];
      assert i in indexes;
      var done := indexes[..removed];
      forall k | k in done ensures k < i {
        var j :| 0 <= j < removed && done[j] == k;
      }
      assert StrictlyIncreasing(done);
      KeepStep(v, done, i);
      r := r[..i - removed] + r[i - removed + 1..];
      assert indexes[..removed + 1] == done + [i];
      removed := removed + 1;
    }
    assert indexes[..removed] == indexes;
    KeepLength(v, indexes, |v|);
    assert v[..|v|] == v;
  }

  lemma {:induction false} KeepIdentity<T>(v: seq<T>)
    ensures Keep(v, []) == v
  {
    if v != [] {
      KeepIdentity(v[..|v| - 1]);
    }
  }

  /** Removing exactly the positions whose element fails `keep` is filtering by `keep`. */
  lemma {:induction false} KeepIsFilter<T>(v: seq<T>, idx: seq<nat>, keep: T -> bool)
    requires forall k :: 0 <= k < |v| ==> (k in idx <==> !keep(v[k]))
    ensures Keep(v, idx) == Filter(v, keep)
  {
    if v != [] {
      KeepIsFilter(v[..|v| - 1], idx, keep);
    }
  }

  /** `a` is obtained from `b` by deleting elements. */
  ghost predicate IsSubseq<T>(a: seq<T>, b: seq<T>)
    decreases |b|
  {
    if b == [] then a == []
    else (a != [] && a[|a| - 1] == b[|b| - 1] && IsSubseq(a[..|a| - 1], b[..|b| - 1]))
         || IsSubseq(a, b[..|b| - 1])
  }

  lemma {:induction false} SubseqRefl<T>(a: seq<T>)
    ensures IsSubseq(a, a)
  {
    if a != [] {
      SubseqRefl(a[..|a| - 1]);
    }
  }

  lemma {:induction false} SubseqTrans<T>(a: seq<T>, b: seq<T>, c: seq<T>)
    requires IsSubseq(a, b) && IsSubseq(b, c)
    ensures IsSubseq(a, c)
    decreases |c|
  {
    if c == [] {
    } else if IsSubseq(b, c[..|c| - 1]) {
      SubseqTrans(a, b, c[..|c| - 1]);
    } else {
      var b', c' := b[..|b| - 1], c[..|c| - 1];
      if a != [] && a[|a| - 1] == b[|b| - 1] && IsSubseq(a[..|a| - 1], b') {
        SubseqTrans(a[..|a| - 1], b', c');
      } else {
        SubseqTrans(a, b', c');
      }
    }
  }

  lemma {:induction false} FilterIsSubseq<T>(s: seq<T>, keep: T -> bool)
    ensures IsSubseq(Filter(s, keep), s)
  {
    if s != [] {
      var s' := s[..|s| - 1];
      FilterIsSubseq(s', keep);
      var f := Filter(s, keep);
      if keep(s[|s| - 1]) {
        assert f[..|f| - 1] == Filter(s', keep);
        assert f != [] && f[|f| - 1] == s[|s| - 1];
      } else {
        assert f == Filter(s', keep);
      }
    }
  }

  /** Every element of a subsequence comes from the sequence. */
  lemma {:induction false} SubseqMembers<T>(a: seq<T>, b: seq<T>)
    requires IsSubseq(a, b)
    ensures forall x :: x in a ==> x in b
    decreases |b|
  {
    if b != [] {
      var b' := b[..|b| - 1];
      if a != [] && a[|a| - 1] == b[|b| - 1] && IsSubseq(a[..|a| - 1], b') {
        SubseqMembers(a[..|a| - 1], b');
        assert a == a[..|a| - 1] + [a[|a| - 1]];
      } else {
        SubseqMembers(a, b');
      }
    }
  }

  /** `Vec::dedup_by`: drops every element equal (by `eq`) to the last one kept. */
  function DedupBy<T>(s: seq<T>, eq: (T, T) -> bool): (r: seq<T>)
    ensures |r| <= |s|
    ensures s != [] ==> r != [] && r[0] == s[0]
    ensures forall i, j :: 0 <= i < |r| - 1 && j == i + 1 ==> !eq(r[i], r[j])
    ensures forall x :: x in r ==> x in s
  {
    if s == [] then []
    else
      var d := DedupBy(s[..|s| - 1], eq);
      if d != [] && eq(d[|d| - 1], s[|s| - 1]) then d else d + [s[|s| - 1]]
  }

  /** `Vec::dedup`: consecutive duplicates collapse to one copy; nothing else is lost. */
  function Dedup<T(==)>(s: seq<T>): (r: seq<T>)
  {
    DedupBy(s, (a: T, b: T) => a == b)
  }

  lemma DedupMembers<T>(s: seq<T>)
    ensures forall x :: x in Dedup(s) <==> x in s
    ensures forall i, j :: 0 <= i < |Dedup(s)| - 1 && j == i + 1 ==> Dedup(s)[i] != Dedup(s)[j]
    ensures IsSubseq(Dedup(s), s)
  {
    DedupSameMembers(s);
    DedupNoRepeats(s);
    DedupSubseq(s);
  }

  lemma {:induction false} DedupSameMembers<T>(s: seq<T>)
    ensures forall x :: x in Dedup(s) <==> x in s
  {
    if s != [] {
      var s' := s[..|s| - 1];
      DedupSameMembers(s');
      var d := Dedup(s');
      if d != [] && d[|d| - 1] == s[|s| - 1] {
        assert d[|d| - 1] in d;
      }
    }
  }

  lemma {:induction false} DedupNoRepeats<T>(s: seq<T>)
    ensures forall i, j :: 0 <= i < |Dedup(s)| - 1 && j == i + 1 ==> Dedup(s)[i] != Dedup(s)[j]
  {
    if s != [] {
      DedupNoRepeats(s[..|s| - 1]);
    }
  }

  lemma {:induction false} DedupSubseq<T>(s: seq<T>)
    ensures IsSubseq(Dedup(s), s)
  {
    if s != [] {
      var s' := s[..|s| - 1];
      DedupSubseq(s');
      var d := Dedup(s');
      if !(d != [] && d[|d| - 1] == s[|s| - 1]) {
        var r := d + [s[|s| - 1]];
        assert r[..|r| - 1] == d;
      }
    }
  }

  /** `DedupBy` only deletes elements ... */
  lemma {:induction false} DedupBySubseq<T>(s: seq<T>, eq: (T, T) -> bool)
    ensures IsSubseq(DedupBy(s, eq), s)
  {
    if s != [] {
      var s' := s[..|s| - 1];
      DedupBySubseq(s', eq);
      var d := DedupBy(s', eq);
      if !(d != [] && eq(d[|d| - 1], s[|s| - 1])) {
        var r := d + [s[|s| - 1]];
        assert r[..|r| - 1] == d;
      }
    }
  }

  /** ... and each deleted element is `eq` to an element that was kept. */
  lemma {:induction false} DedupByCovers<T>(s: seq<T>, eq: (T, T) -> bool, i: nat)
    requires i < |s|
    ensures exists j :: 0 <= j < |DedupBy(s, eq)| && (DedupBy(s, eq)[j] == s[i] || eq(DedupBy(s, eq)[j], s[i]))
  {
    var s' := s[..|s| - 1];
    var d := DedupBy(s', eq);
    if i < |s| - 1 {
      DedupByCovers(s', eq, i);
      var j :| 0 <= j < |d| && (d[j] == s'[i] || eq(d[j], s'[i]));
      assert DedupBy(s, eq)[j] == d[j];
    } else if d != [] && eq(d[|d| - 1], s[|s| - 1]) {
      assert DedupBy(s, eq)[|d| - 1] == d[|d| - 1];
    } else {
      assert DedupBy(s, eq)[|d|] == s[i];
    }
  }

  /** `le` is total and transitive: the comparison a stable sort needs. */
  ghost predicate TotalPreorder<T(!new)>(le: (T, T) -> bool) {
    (forall a, b :: le(a, b) || le(b, a)) &&
    (forall a, b, c :: le(a, b) && le(b, c) ==> le(a, c))
  }

  ghost predicate SortedBy<T>(s: seq<T>, le: (T, T) -> bool) {
    forall i, j :: 0 <= i < j < |s| ==> le(s[i], s[j])
  }

  /** Inserts `x` before the first element it does not exceed, so that among
      equal keys the earlier element stays first. */
  function Insert<T>(x: T, s: seq<T>, le: (T, T) -> bool): (r: seq<T>)
    ensures multiset(r) == multiset(s) + multiset{x}
    ensures |r| == |s| + 1
  {
    if s == [] || le(x, s[0]) then [x] + s
    else
      assert s == [s[0]] + s[1..];
      [s[0]] + Insert(x, s[1..], le)
  }

  /** Rust's stable `sort`, as a stable insertion sort. */
  function SortBy<T>(s: seq<T>, le: (T, T) -> bool): (r: seq<T>)
    ensures multiset(r) == multiset(s)
    ensures |r| == |s|
  {
    if s == [] then []
    else
      assert s == [s[0]] + s[1..];
      Insert(s[0], SortBy(s[1..], le), le)
  }

  lemma {:induction false} InsertSorted<T(!new)>(x: T, s: seq<T>, le: (T, T) -> bool)
    requires TotalPreorder(le)
    requires SortedBy(s, le)
    ensures SortedBy(Insert(x, s, le), le)
  {
    if s != [] && !le(x, s[0]) {
      InsertSorted(x, s[1..], le);
      var tail := Insert(x, s[1..], le);
      var r := [s[0]] + tail;
      forall i, j | 0 <= i < j < |r| ensures le(r[i], r[j]) {
        if i == 0 {
          assert r[j] in multiset(tail);
          assert r[j] in multiset(s[1..]) + multiset{x};
          if r[j] == x {
            assert le(s[0], x);
          } else {
            assert r[j] in s[1..];
            var k :| 0 <= k < |s[1..]| && s[1..][k] == r[j];
            assert s[k + 1] == r[j];
          }
        }
      }
    }
  }

  lemma {:induction false} SortSorted<T(!new)>(s: seq<T>, le: (T, T) -> bool)
    requires TotalPreorder(le)
    ensures SortedBy(SortBy(s, le), le)
  {
    if s != [] {
      SortSorted(s[1..], le);
      InsertSorted(s[0], SortBy(s[1..], le), le);
    }
  }

  /** Deleting elements keeps a sorted sequence sorted. */
  lemma {:induction false} SubseqSorted<T>(a: seq<T>, b: seq<T>, le: (T, T) -> bool)
    requires IsSubseq(a, b)
    requires SortedBy(b, le)
    ensures SortedBy(a, le)
    decreases |b|
  {
    if b != [] {
      var b' := b[..|b| - 1];
      assert SortedBy(b', le);
      if a != [] && a[|a| - 1] == b[|b| - 1] && IsSubseq(a[..|a| - 1], b') {
        var a' := a[..|a| - 1];
        SubseqSorted(a', b', le);
        SubseqMembers(a', b');
        forall i, j | 0 <= i < j < |a| ensures le(a[i], a[j]) {
          if j == |a| - 1 {
            assert a[i] == a'[i] && a'[i] in b';
            var k :| 0 <= k < |b'| && b'[k] == a[i];
            assert b[k] == a[i];
          } else {
            assert a[i] == a'[i] && a[j] == a'[j];
          }
        }
      } else {
        SubseqSorted(a, b', le);
      }
    }
  }

  /** `s` reversed; `Vec::reverse`. */
  function Reverse<T>(s: seq<T>): (r: seq<T>)
    ensures |r| == |s|
    ensures forall i :: 0 <= i < |s| ==> r[i] == s[|s| - 1 - i]
  {
    seq(|s|, i requires 0 <= i < |s| => s[|s| - 1 - i])
  }

  /** Taking one more element of `s` appends it. */
  lemma TakeNext<T>(s: seq<T>, t: nat)
    requires t < |s|
    ensures s[..t + 1] == s[..t] + [s[t]]
    ensures s[..t + 1][..t] == s[..t]
  {
  }

  lemma ReverseReverse<T>(s: seq<T>)
    ensures Reverse(Reverse(s)) == s
  {
  }

  /** Short sequences are equal to a display once each entry is known;
      concrete examples use these to check a computed grid row by row. */
  lemma Two<T>(s: seq<T>, a: T, b: T)
    requires |s| == 2 && s[0] == a && s[1] == b
    ensures s == [a, b]
  {
  }

  lemma Three<T>(s: seq<T>, a: T, b: T, c: T)
    requires |s| == 3 && s[0] == a && s[1] == b && s[2] == c
    ensures s == [a, b, c]
  {
  }

  lemma Four<T>(s: seq<T>, a: T, b: T, c: T, d: T)
    requires |s| == 4 && s[0] == a && s[1] == b && s[2] == c && s[3] == d
    ensures s == [a, b, c, d]
  {
  }

  /** Sorting a sequence that is already sorted leaves it as it is. */
  lemma {:induction false} SortByIdentity<T>(s: seq<T>, le: (T, T) -> bool)
    requires SortedBy(s, le)
    ensures SortBy(s, le) == s
  {
    if s != [] {
      SortByIdentity(s[1..], le);
      assert s == [s[0]] + s[1..];
    }
  }

  /** Deduplicating a sequence without neighbouring duplicates leaves it as it is. */
  lemma {:induction false} DedupByIdentity<T>(s: seq<T>, eq: (T, T) -> bool)
    requires forall i, j :: 0 <= i < |s| - 1 && j == i + 1 ==> !eq(s[i], s[j])
    ensures DedupBy(s, eq) == s
  {
    if s == [] {
      assert DedupBy(s, eq) == [];
    } else {
      var n := |s| - 1;
      var d := DedupBy(s[..n], eq);
      DedupByIdentity(s[..n], eq);
      assert d == s[..n];
      if n > 0 {
        assert !eq(d[|d| - 1], s[n]);
      }
      DedupByKeeps(s, eq);
      assert s == s[..n] + [s[n]];
    }
  }

  /** The last element is kept when it differs from the end of the
      deduplicated prefix. */
  lemma DedupByKeeps<T>(s: seq<T>, eq: (T, T) -> bool)
    requires s != []
    requires DedupBy(s[..|s| - 1], eq) == [] ||
             !eq(DedupBy(s[..|s| - 1], eq)[|DedupBy(s[..|s| - 1], eq)| - 1], s[|s| - 1])
    ensures DedupBy(s, eq) == DedupBy(s[..|s| - 1], eq) + [s[|s| - 1]]
  {
  }

  lemma {:induction false} DedupIdentity<T>(s: seq<T>)
    requires forall i, j :: 0 <= i < |s| - 1 && j == i + 1 ==> s[i] != s[j]
    ensures Dedup(s) == s
  {
    if s != [] {
      var n := |s| - 1;
      var s' := s[..n];
      DedupIdentity(s');
      var d := Dedup(s');
      assert d == s';
      if d != [] {
        assert d[|d| - 1] == s[n - 1];
      }
      assert s == s' + [s[n]];
    }
  }

  /** The first index whose entry satisfies `keep`. */
  function First<T>(s: seq<T>, keep: T -> bool): (r: Option<nat>)
    ensures r.Some? ==> r.value < |s| && keep(s[r.value]) && forall j :: 0 <= j < r.value ==> !keep(s[j])
    ensures r.None? ==> forall j :: 0 <= j < |s| ==> !keep(s[j])
  {
    if s == [] then None
    else if keep(s[0]) then Some(0)
    else match First(s[1..], keep)
      case None => None
      case Some(k) => Some(k + 1)
  }

  /** The last index whose entry satisfies `keep`. */
  function Last<T>(s: seq<T>, keep: T -> bool): (r: Option<nat>)
    ensures r.Some? ==> r.value < |s| && keep(s[r.value]) && forall j :: r.value < j < |s| ==> !keep(s[j])
    ensures r.None? ==> forall j :: 0 <= j < |s| ==> !keep(s[j])
  {
    if s == [] then None
    else if keep(s[|s| - 1]) then Some(|s| - 1)
    else Last(s[..|s| - 1], keep)
  }

  /** `First` is pinned down by its contract: any index that is the first
      one `keep` accepts, or `None` when `keep` accepts none, is its result. */
  lemma FirstIs<T>(s: seq<T>, keep: T -> bool, k: Option<nat>)
    requires k.Some? ==> k.value < |s| && keep(s[k.value]) && forall j :: 0 <= j < k.value ==> !keep(s[j])
    requires k.None? ==> forall j :: 0 <= j < |s| ==> !keep(s[j])
    ensures First(s, keep) == k
  {
  }
}
