/** The lexicographic order on strings. */
module StringOrder {
  import Sorting

  predicate StringLess(a: string, b: string) {
    if b == "" then false
    else if a == "" then true
    else if a[0] != b[0] then a[0] < b[0]
    else StringLess(a[1..], b[1..])
  }

  predicate StringLe(a: string, b: string) {
    !StringLess(b, a)
  }

  /** After a common part, a ends, or has the smaller character. */
  predicate DiffersBelowAt(a: string, b: string, n: nat) {
    n <= |a| && n < |b| && a[..n] == b[..n] && (n == |a| || a[n] < b[n])
  }

  /** A string is less than another exactly when it is a proper prefix, or smaller at the first difference. */
  lemma {:induction false} StringLessIff(a: string, b: string)
    ensures StringLess(a, b) <==> exists n: nat :: DiffersBelowAt(a, b, n)
    decreases a
  {
    if a == "" || b == "" || a[0] != b[0] {
      assert StringLess(a, b) ==> DiffersBelowAt(a, b, 0);
      assert forall n: nat :: DiffersBelowAt(a, b, n) && 0 < n ==> a[..n][0] == b[..n][0];
    } else {
      StringLessIff(a[1..], b[1..]);
      forall n: nat
        ensures DiffersBelowAt(a[1..], b[1..], n) <==> DiffersBelowAt(a, b, n + 1)
      {
        DiffersLater(a, b, n);
      }
      assert forall n: nat :: DiffersBelowAt(a, b, n) ==> n > 0 && DiffersBelowAt(a[1..], b[1..], n - 1);
    }
  }

  lemma DiffersLater(a: string, b: string, n: nat)
    requires a != "" && b != "" && a[0] == b[0]
    ensures DiffersBelowAt(a[1..], b[1..], n) <==> DiffersBelowAt(a, b, n + 1)
  {
    if n + 1 <= |a| && n + 1 <= |b| {
      assert a[..n + 1] == [a[0]] + a[1..][..n];
      assert b[..n + 1] == [b[0]] + b[1..][..n];
    }
  }

  lemma {:induction false} StringLessIrreflexive(s: string)
    ensures !StringLess(s, s)
    decreases s
  {
    if s != "" {
      StringLessIrreflexive(s[1..]);
    }
  }

  lemma {:induction false} StringLessTotal(a: string, b: string)
    ensures StringLess(a, b) || StringLess(b, a) || a == b
    ensures !(StringLess(a, b) && StringLess(b, a))
    decreases a
  {
    if a != "" && b != "" && a[0] == b[0] {
      StringLessTotal(a[1..], b[1..]);
      assert a == [a[0]] + a[1..] && b == [b[0]] + b[1..];
    }
  }

  lemma {:induction false} StringLessTransitive(a: string, b: string, c: string)
    requires StringLess(a, b) && StringLess(b, c)
    ensures StringLess(a, c)
    decreases a
  {
    if a != "" && a[0] == b[0] == c[0] {
      StringLessTransitive(a[1..], b[1..], c[1..]);
    }
  }

  lemma StringLeTransitive(a: string, b: string, c: string)
    requires StringLe(a, b) && StringLe(b, c)
    ensures StringLe(a, c)
  {
    StringLessTotal(a, b);
    StringLessTotal(b, c);
    StringLessTotal(a, c);
    if a != b && b != c {
      StringLessTransitive(a, b, c);
    }
  }

  lemma StringLeLinear()
    ensures Sorting.Total(StringLe) && Sorting.Antisymmetric(StringLe)
  {
    forall a, b
      ensures StringLe(a, b) || StringLe(b, a)
      ensures StringLe(a, b) && StringLe(b, a) ==> a == b
    {
      StringLessTotal(a, b);
    }
    forall a, b, c | StringLe(a, b) && StringLe(b, c)
      ensures StringLe(a, c)
    {
      StringLeTransitive(a, b, c);
    }
  }
}
