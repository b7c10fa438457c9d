/** The orders Rust derives for the catalog types: `Vec` compares
    lexicographically (the first difference decides, a proper prefix comes
    first), `Rule` compares its direction and then its content, and
    `Pattern` compares its contents only. */
module Orders {
  import Seqs

  /** Lexicographic `<=` on sequences, over an order `le` on the entries. */
  predicate Lex<T(==)>(a: seq<T>, b: seq<T>, le: (T, T) -> bool)
    decreases |a|
  {
    a == [] || (b != [] && (if a[0] == b[0] then Lex(a[1..], b[1..], le) else le(a[0], b[0])))
  }

  /** A total order: a total preorder in which mutual `le` means equality. */
  ghost predicate TotalOrder<T(!new)>(le: (T, T) -> bool) {
    Seqs.TotalPreorder(le) && forall a, b :: le(a, b) && le(b, a) ==> a == b
  }

  lemma {:induction false} LexTotal<T(!new)>(a: seq<T>, b: seq<T>, le: (T, T) -> bool)
    requires TotalOrder(le)
    ensures Lex(a, b, le) || Lex(b, a, le)
    decreases |a|
  {
    if a != [] && b != [] && a[0] == b[0] {
      LexTotal(a[1..], b[1..], le);
    }
  }

  lemma {:induction false} LexAntisymmetric<T(!new)>(a: seq<T>, b: seq<T>, le: (T, T) -> bool)
    requires TotalOrder(le)
    requires Lex(a, b, le) && Lex(b, a, le)
    ensures a == b
    decreases |a|
  {
    if a != [] && b != [] {
      if a[0] == b[0] {
        LexAntisymmetric(a[1..], b[1..], le);
        assert a == [a[0]] + a[1..] && b == [b[0]] + b[1..];
      }
    }
  }

  lemma {:induction false} LexTransitive<T(!new)>(a: seq<T>, b: seq<T>, c: seq<T>, le: (T, T) -> bool)
    requires TotalOrder(le)
    requires Lex(a, b, le) && Lex(b, c, le)
    ensures Lex(a, c, le)
    decreases |a|
  {
    if a != [] && a[0] == b[0] && b[0] == c[0] {
      LexTransitive(a[1..], b[1..], c[1..], le);
    }
  }

  /** Lexicographic order over a total order is a total order. */
  lemma LexTotalOrder<T(!new)>(le: (T, T) -> bool)
    requires TotalOrder(le)
    ensures TotalOrder((a: seq<T>, b: seq<T>) => Lex(a, b, le))
  {
    forall a: seq<T>, b: seq<T> ensures Lex(a, b, le) || Lex(b, a, le) {
      LexTotal(a, b, le);
    }
    forall a: seq<T>, b: seq<T>, c: seq<T> | Lex(a, b, le) && Lex(b, c, le) ensures Lex(a, c, le) {
      LexTransitive(a, b, c, le);
    }
    forall a: seq<T>, b: seq<T> | Lex(a, b, le) && Lex(b, a, le) ensures a == b {
      LexAntisymmetric(a, b, le);
    }
  }

  function NatLe(): (nat, nat) -> bool {
    (a: nat, b: nat) => a <= b
  }

  /** `Vec<usize>` order. */
  function RowLe(): (seq<nat>, seq<nat>) -> bool {
    (a: seq<nat>, b: seq<nat>) => Lex(a, b, NatLe())
  }

  /** `Vec<Vec<usize>>` order. */
  function GridLe(): (seq<seq<nat>>, seq<seq<nat>>) -> bool {
    (a: seq<seq<nat>>, b: seq<seq<nat>>) => Lex(a, b, RowLe())
  }

  lemma GridLeTotalOrder()
    ensures TotalOrder(NatLe())
    ensures TotalOrder(RowLe())
    ensures TotalOrder(GridLe())
  {
    LexTotalOrder(NatLe());
    assert RowLe() == (a: seq<nat>, b: seq<nat>) => Lex(a, b, NatLe());
    LexTotalOrder(RowLe());
    assert GridLe() == (a: seq<seq<nat>>, b: seq<seq<nat>>) => Lex(a, b, RowLe());
  }

  /** Sorted under a total order with no two neighbours equal: no two entries equal. */
  lemma SortedDistinct<T(!new)>(s: seq<T>, le: (T, T) -> bool)
    requires TotalOrder(le) && Seqs.SortedBy(s, le)
    requires forall i, j :: 0 <= i < |s| - 1 && j == i + 1 ==> s[i] != s[j]
    ensures forall i, j :: 0 <= i < j < |s| ==> s[i] != s[j]
  {
    forall i, j | 0 <= i < j < |s| ensures s[i] != s[j] {
      assert le(s[i], s[i + 1]) && le(s[i + 1], s[j]);
    }
  }

  /** Sorted under a total preorder, where `eq` relates exactly pairs of
      entries the order cannot tell apart, and no two neighbours `eq`: then
      no two entries at all are `eq`. */
  lemma SortedApart<T(!new)>(s: seq<T>, le: (T, T) -> bool, eq: (T, T) -> bool)
    requires Seqs.TotalPreorder(le) && Seqs.SortedBy(s, le)
    requires forall i, j :: 0 <= i < |s| - 1 && j == i + 1 ==> !eq(s[i], s[j])
    requires forall i, j :: 0 <= i < |s| && 0 <= j < |s| && le(s[i], s[j]) && le(s[j], s[i]) ==> eq(s[i], s[j])
    requires forall i, j :: 0 <= i < |s| && 0 <= j < |s| && eq(s[i], s[j]) ==> le(s[j], s[i])
    ensures forall i, j :: 0 <= i < j < |s| ==> !eq(s[i], s[j])
  {
    forall i, j | 0 <= i < j < |s| ensures !eq(s[i], s[j]) {
      if j > i + 1 {
        assert le(s[i], s[i + 1]) && le(s[i + 1], s[j]);
      }
    }
  }

  lemma HeadMember<T>(s: seq<T>)
    ensures s != [] ==> s[0] in s
  {
  }

  /** Two sorted sequences without repeats that hold the same entries are equal. */
  lemma {:induction false} SortedUnique<T(!new)>(a: seq<T>, b: seq<T>, le: (T, T) -> bool)
    requires TotalOrder(le) && Seqs.SortedBy(a, le) && Seqs.SortedBy(b, le)
    requires forall i, j :: 0 <= i < j < |a| ==> a[i] != a[j]
    requires forall i, j :: 0 <= i < j < |b| ==> b[i] != b[j]
    requires forall x :: x in a <==> x in b
    ensures a == b
    decreases |a|
  {
    HeadMember(b);
    if a != [] {
      assert a[0] in b;
      var k :| 0 <= k < |b| && b[k] == a[0];
      assert le(b[0], a[0]);
      assert b[0] in a;
      var m :| 0 <= m < |a| && a[m] == b[0];
      assert le(a[0], b[0]);
      assert a[0] == b[0];
      forall x ensures x in a[1..] <==> x in b[1..] {
        assert x in a[1..] <==> x in a && x != a[0];
        assert x in b[1..] <==> x in b && x != b[0];
      }
      SortedUnique(a[1..], b[1..], le);
      assert a == [a[0]] + a[1..] && b == [b[0]] + b[1..];
    }
  }
}
