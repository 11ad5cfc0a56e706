/** Shared record schema of the transaction batches: a nullable value type,
    the row type every stage after cleaning works on, and the generic
    row filter (a boolean-mask selection `df[mask]`) the stages share. */
module Records {

  datatype Option<+T> = None | Some(value: T)

  /** One row of a transaction dataframe. Every column may hold a null, since
      the quality checker must also judge batches that were never cleaned.
      `timestamp` is seconds since 1970-01-01 00:00 (naive local time). */
  datatype Tx = Tx(
    txId: Option<string>,
    merchantId: Option<string>,
    channel: Option<string>,
    country: Option<string>,
    amount: Option<real>,
    status: Option<string>,
    timestamp: Option<int>)

  /** Keeps the elements that satisfy `p`, in their original order. */
  function Where<T>(xs: seq<T>, p: T -> bool): (r: seq<T>)
    ensures |r| <= |xs|
  {
    if xs == [] then []
    else (if p(xs[0]) then [xs[0]] else []) + Where(xs[1..], p)
  }

  /** What the filter keeps: exactly the elements that satisfy `p`, and
      nothing when no element does. */
  lemma {:induction false} WhereMembers<T>(xs: seq<T>, p: T -> bool)
    ensures forall x :: x in Where(xs, p) ==> x in xs && p(x)
    ensures forall x :: x in xs && p(x) ==> x in Where(xs, p)
    ensures Where(xs, p) == [] <==> forall i :: 0 <= i < |xs| ==> !p(xs[i])
  {
    if xs != [] {
      WhereMembers(xs[1..], p);
      assert xs == [xs[0]] + xs[1..];
    }
  }

  /** Filtering distributes over concatenation, so the survivors keep their order. */
  lemma {:induction false} WhereAppend<T>(a: seq<T>, b: seq<T>, p: T -> bool)
    ensures Where(a + b, p) == Where(a, p) + Where(b, p)
  {
    if a == [] {
      assert a + b == b;
    } else {
      var h := if p(a[0]) then [a[0]] else [];
      assert (a + b)[0] == a[0];
      assert (a + b)[1..] == a[1..] + b;
      assert Where(a + b, p) == h + Where(a[1..] + b, p);
      WhereAppend(a[1..], b, p);
      assert Where(a, p) == h + Where(a[1..], p);
    }
  }

  /** A filter that every element passes leaves the sequence unchanged. */
  lemma {:induction false} WhereKeepsAll<T>(xs: seq<T>, p: T -> bool)
    requires forall i :: 0 <= i < |xs| ==> p(xs[i])
    ensures Where(xs, p) == xs
  {
    if xs != [] {
      WhereKeepsAll(xs[1..], p);
    }
  }

  /** Filters by predicates that agree on every element select the same elements. */
  lemma {:induction false} WhereSamePredicate<T>(xs: seq<T>, p: T -> bool, q: T -> bool)
    requires forall i :: 0 <= i < |xs| ==> p(xs[i]) == q(xs[i])
    ensures Where(xs, p) == Where(xs, q)
  {
    if xs != [] {
      WhereSamePredicate(xs[1..], p, q);
    }
  }

  /** Keeps the elements of `xs` that do not occur in `ys`, in their order. */
  function Without<T(==)>(xs: seq<T>, ys: seq<T>): (r: seq<T>)
    ensures |r| <= |xs|
  {
    if xs == [] then []
    else (if xs[0] in ys then [] else [xs[0]]) + Without(xs[1..], ys)
  }

  /** Removing the elements of `ys` is filtering by non-membership in `ys`. */
  lemma {:induction false} WithoutIsWhere<T>(xs: seq<T>, ys: seq<T>)
    ensures Without(xs, ys) == Where(xs, x => x !in ys)
  {
    if xs != [] {
      WithoutIsWhere(xs[1..], ys);
    }
  }

  /** `a` is obtained from `b` by deleting elements (order preserved). */
  predicate Subseq<T(==)>(a: seq<T>, b: seq<T>)
    decreases |b|
  {
    if a == [] then true
    else if b == [] then false
    else if a[0] == b[0] then Subseq(a[1..], b[1..])
    else Subseq(a, b[1..])
  }

  lemma {:induction false} WhereIsSubseq<T>(xs: seq<T>, p: T -> bool)
    ensures Subseq(Where(xs, p), xs)
  {
    if xs != [] {
      WhereIsSubseq(xs[1..], p);
      if p(xs[0]) {
        assert Where(xs, p) == [xs[0]] + Where(xs[1..], p);
        assert Where(xs, p)[1..] == Where(xs[1..], p);
      } else {
        assert Where(xs, p) == Where(xs[1..], p);
        WhereMembers(xs[1..], p);
        assert Where(xs, p) != [] ==> Where(xs, p)[0] in Where(xs, p);
      }
    }
  }

  /** If `a` is a subsequence of `b`, so is `a` without its first element. */
  lemma {:induction false} SubseqDropHead<T>(a: seq<T>, b: seq<T>)
    requires a != [] && Subseq(a, b)
    ensures Subseq(a[1..], b)
    decreases |b|, 0
  {
    if a[1..] != [] {
      if a[0] == b[0] {
        SubseqWeaken(a[1..], b[1..], b[0]);
      } else {
        SubseqDropHead(a, b[1..]);
        SubseqWeaken(a[1..], b[1..], b[0]);
      }
    }
  }

  /** Putting one more element in front of `b` keeps every subsequence of `b`. */
  lemma {:induction false} SubseqWeaken<T>(a: seq<T>, b: seq<T>, x: T)
    requires Subseq(a, b)
    ensures Subseq(a, [x] + b)
    decreases |b|, 1
  {
    assert ([x] + b)[1..] == b;
    if a != [] && a[0] == x {
      SubseqDropHead(a, b);
    }
  }

  lemma {:induction false} SubseqTransitive<T>(a: seq<T>, b: seq<T>, c: seq<T>)
    requires Subseq(a, b) && Subseq(b, c)
    ensures Subseq(a, c)
    decreases |c|
  {
    if a != [] {
      assert b != [] && c != [];
      if b[0] == c[0] {
        if a[0] == b[0] {
          SubseqTransitive(a[1..], b[1..], c[1..]);
        } else {
          SubseqTransitive(a, b[1..], c[1..]);
        }
      } else {
        SubseqTransitive(a, b, c[1..]);
        if a[0] == c[0] {
          SubseqDropHead(a, c[1..]);
        }
      }
    }
  }

  /** No two rows share a `tx_id`; a null id counts as a value, as in pandas'
      duplicate detection, so at most one row may have a null id. */
  predicate DistinctIds(rows: seq<Tx>)
  {
    forall i, j :: 0 <= i < j < |rows| ==> rows[i].txId != rows[j].txId
  }

  /** Dropping the first row keeps the ids distinct. */
  lemma DistinctTail(rows: seq<Tx>)
    requires rows != [] && DistinctIds(rows)
    ensures DistinctIds(rows[1..])
  {
    forall i, j | 0 <= i < j < |rows[1..]| ensures rows[1..][i].txId != rows[1..][j].txId {
      assert rows[1..][i] == rows[i + 1] && rows[1..][j] == rows[j + 1];
    }
  }
}
