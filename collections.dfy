/** Sequence operations the services apply to query results: filtering,
    Prisma's `skip`/`take` paging, and JavaScript's (stable) `sort` with a
    descending numeric comparator such as `(a, b) => b.count - a.count`. */
module Collections {
  import opened Common

  function Filter<T>(s: seq<T>, p: T -> bool): (r: seq<T>)
    ensures |r| <= |s|
    ensures forall i :: 0 <= i < |r| ==> r[i] in s && p(r[i])
    ensures forall i :: 0 <= i < |s| && p(s[i]) ==> s[i] in r
    decreases |s|
  {
    if s == [] then [] else (if p(s[0]) then [s[0]] else []) + Filter(s[1..], p)
  }

  /** Filtering keeps everything when everything passes. */
  lemma {:induction false} FilterAll<T>(s: seq<T>, p: T -> bool)
    requires forall i :: 0 <= i < |s| ==> p(s[i])
    ensures Filter(s, p) == s
    decreases |s|
  {
    if s != [] {
      FilterAll(s[1..], p);
      assert [s[0]] + s[1..] == s;
    }
  }

  /** `s.slice(0, n)` for a non-negative `n`. */
  function Take<T>(s: seq<T>, n: nat): (r: seq<T>)
    ensures |r| == if n < |s| then n else |s|
    ensures r == s[..|r|]
  {
    if n < |s| then s[..n] else s
  }

  /** `s.slice(0, n)` for any integer `n`: a negative end counts from the
      back, so all but the last `-n` elements are kept. */
  function Slice<T>(s: seq<T>, n: int): seq<T> {
    if n >= 0 then Take(s, n) else if |s| + n > 0 then s[..|s| + n] else []
  }

  /** A slice is a prefix: the first `n` elements for a non-negative `n`,
      otherwise what remains once the last `-n` are dropped. */
  lemma SliceFacts<T>(s: seq<T>, n: int)
    ensures var r := Slice(s, n);
      |r| == (if n >= 0 then (if n < |s| then n else |s|) else if |s| + n > 0 then |s| + n else 0) &&
      r == s[..|r|] && Slice(s, n) == Take(s, |r|)
  {
  }

  /** Prisma's `skip` and `take`: the rows after the first `skip`, at most
      `take` of them. */
  function Page<T>(s: seq<T>, skip: nat, take: nat): (r: seq<T>)
    ensures |r| <= take
    ensures skip >= |s| ==> r == []
    ensures skip < |s| ==> skip + |r| <= |s| && r == s[skip..skip + |r|]
    ensures skip < |s| ==> |r| == if skip + take <= |s| then take else |s| - skip
  {
    if skip >= |s| then [] else Take(s[skip..], take)
  }

  /** The row at `i` deleted. */
  function RemoveAt<T>(s: seq<T>, i: nat): seq<T>
    requires i < |s|
  {
    s[..i] + s[i + 1..]
  }

  /** Deleting one row shortens the table by one, takes out exactly that
      row, and keeps every other row in order. */
  lemma RemoveAtFacts<T>(s: seq<T>, i: nat)
    requires i < |s|
    ensures |RemoveAt(s, i)| == |s| - 1
    ensures multiset(RemoveAt(s, i)) + multiset{s[i]} == multiset(s)
    ensures forall j :: 0 <= j < |s| - 1 ==> RemoveAt(s, i)[j] == s[if j < i then j else j + 1]
  {
    assert s == s[..i] + [s[i]] + s[i + 1..];
  }

  /** Is `s` ordered from the largest key down? */
  ghost predicate SortedDesc<T>(s: seq<T>, key: T -> int) {
    forall i, j :: 0 <= i < j < |s| ==> key(s[i]) >= key(s[j])
  }

  /** The elements of `s` with key `k`, in their order in `s`. */
  function WithKey<T>(s: seq<T>, key: T -> int, k: int): seq<T>
    decreases |s|
  {
    if s == [] then [] else (if key(s[0]) == k then [s[0]] else []) + WithKey(s[1..], key, k)
  }

  /** Insert `x` after every element whose key is at least `key(x)`. */
  function InsertDesc<T>(x: T, s: seq<T>, key: T -> int): seq<T>
    decreases |s|
  {
    if s == [] then [x]
    else if key(s[0]) >= key(x) then [s[0]] + InsertDesc(x, s[1..], key)
    else [x] + s
  }

  /** `s.sort((a, b) => key(b) - key(a))`: an insertion sort that takes the
      elements in input order, so elements with equal keys keep it. */
  function SortDesc<T>(s: seq<T>, key: T -> int): seq<T>
    decreases |s|
  {
    if s == [] then [] else InsertDesc(Last(s), SortDesc(s[..|s| - 1], key), key)
  }

  /** The largest key in `InsertDesc(x, s, key)`, for `s` sorted. */
  function InsertBound<T>(x: T, s: seq<T>, key: T -> int): int {
    if s == [] || key(s[0]) < key(x) then key(x) else key(s[0])
  }

  lemma {:induction false} InsertDescSorted<T>(x: T, s: seq<T>, key: T -> int)
    requires SortedDesc(s, key)
    ensures SortedDesc(InsertDesc(x, s, key), key)
    ensures forall i :: 0 <= i < |InsertDesc(x, s, key)| ==> key(InsertDesc(x, s, key)[i]) <= InsertBound(x, s, key)
    decreases |s|
  {
    if s != [] && key(s[0]) >= key(x) {
      InsertDescSorted(x, s[1..], key);
    }
  }

  lemma {:induction false} InsertDescPerm<T>(x: T, s: seq<T>, key: T -> int)
    ensures multiset(InsertDesc(x, s, key)) == multiset(s) + multiset{x}
    decreases |s|
  {
    if s != [] && key(s[0]) >= key(x) {
      InsertDescPerm(x, s[1..], key);
      assert s == [s[0]] + s[1..];
    }
  }

  /** The sorted sequence is ordered by descending key and is a
      permutation of the input. */
  lemma {:induction false} SortDescFacts<T>(s: seq<T>, key: T -> int)
    ensures SortedDesc(SortDesc(s, key), key)
    ensures multiset(SortDesc(s, key)) == multiset(s)
    ensures |SortDesc(s, key)| == |s|
    decreases |s|
  {
    if s != [] {
      SortDescFacts(s[..|s| - 1], key);
      InsertDescSorted(Last(s), SortDesc(s[..|s| - 1], key), key);
      InsertDescPerm(Last(s), SortDesc(s[..|s| - 1], key), key);
      assert s == s[..|s| - 1] + [Last(s)];
      assert |multiset(SortDesc(s, key))| == |multiset(s)|;
    }
  }

  lemma {:induction false} WithKeyAppend<T>(a: seq<T>, b: seq<T>, key: T -> int, k: int)
    ensures WithKey(a + b, key, k) == WithKey(a, key, k) + WithKey(b, key, k)
    decreases |a|
  {
    if a != [] {
      assert (a + b)[0] == a[0] && (a + b)[1..] == a[1..] + b;
      WithKeyAppend(a[1..], b, key, k);
      var h := if key(a[0]) == k then [a[0]] else [];
      calc {
        WithKey(a + b, key, k);
        h + WithKey(a[1..] + b, key, k);
        h + (WithKey(a[1..], key, k) + WithKey(b, key, k));
        (h + WithKey(a[1..], key, k)) + WithKey(b, key, k);
      }
    } else {
      assert a + b == b;
    }
  }

  lemma {:induction false} WithKeyAbsent<T>(s: seq<T>, key: T -> int, k: int)
    requires forall i :: 0 <= i < |s| ==> key(s[i]) < k
    ensures WithKey(s, key, k) == []
    decreases |s|
  {
    if s != [] {
      WithKeyAbsent(s[1..], key, k);
    }
  }

  lemma WithKeyCons<T>(y: T, s: seq<T>, key: T -> int, k: int)
    ensures WithKey([y] + s, key, k) == (if key(y) == k then [y] else []) + WithKey(s, key, k)
  {
    assert ([y] + s)[1..] == s;
  }

  lemma InsertDescWithKeyStep<T>(x: T, s: seq<T>, key: T -> int, k: int, tail: seq<T>)
    requires s != [] && key(s[0]) >= key(x)
    requires WithKey(InsertDesc(x, s[1..], key), key, k) == WithKey(s[1..], key, k) + tail
    ensures WithKey(InsertDesc(x, s, key), key, k) == WithKey(s, key, k) + tail
  {
    var h := if key(s[0]) == k then [s[0]] else [];
    assert InsertDesc(x, s, key) == [s[0]] + InsertDesc(x, s[1..], key);
    WithKeyCons(s[0], InsertDesc(x, s[1..], key), key, k);
    WithKeyCons(s[0], s[1..], key, k);
    assert [s[0]] + s[1..] == s;
    AppendAssoc(h, WithKey(s[1..], key, k), tail);
  }

  lemma {:induction false} InsertDescWithKey<T>(x: T, s: seq<T>, key: T -> int, k: int)
    requires SortedDesc(s, key)
    ensures WithKey(InsertDesc(x, s, key), key, k)
         == WithKey(s, key, k) + (if key(x) == k then [x] else [])
    decreases |s|
  {
    if s == [] {
    } else if key(s[0]) >= key(x) {
      InsertDescWithKey(x, s[1..], key, k);
      InsertDescWithKeyStep(x, s, key, k, if key(x) == k then [x] else []);
    } else {
      WithKeyCons(x, s, key, k);
      if key(x) == k {
        WithKeyAbsent(s, key, k);
      }
    }
  }

  /** The sort is stable: the elements sharing a key come out in the order
      they went in. */
  lemma {:induction false} SortDescStable<T>(s: seq<T>, key: T -> int, k: int)
    ensures WithKey(SortDesc(s, key), key, k) == WithKey(s, key, k)
    decreases |s|
  {
    if s != [] {
      var init, x := s[..|s| - 1], Last(s);
      SortDescStable(init, key, k);
      SortDescFacts(init, key);
      assert SortDesc(s, key) == InsertDesc(x, SortDesc(init, key), key);
      InsertDescWithKey(x, SortDesc(init, key), key, k);
      InitLast(s);
      WithKeyAppend(init, [x], key, k);
      assert WithKey([x], key, k) == (if key(x) == k then [x] else []) + WithKey([], key, k);
    }
  }

  /** Inserting `x` puts it after the leading elements whose key is at
      least its own; in a sorted sequence every element after it has a
      smaller key. */
  lemma {:induction false} InsertDescSplit<T>(x: T, t: seq<T>, key: T -> int) returns (m: nat)
    ensures m <= |t| && InsertDesc(x, t, key) == t[..m] + [x] + t[m..]
    ensures forall i :: 0 <= i < m ==> key(t[i]) >= key(x)
    ensures SortedDesc(t, key) ==> forall i :: m <= i < |t| ==> key(t[i]) < key(x)
    decreases |t|
  {
    if t == [] || key(t[0]) < key(x) {
      m := 0;
    } else {
      var k := InsertDescSplit(x, t[1..], key);
      m := k + 1;
      assert t[1..][..k] == t[1..m] && t[1..][k..] == t[m..];
      assert [t[0]] + t[1..m] == t[..m];
    }
  }

  /** Among distinct elements the sort keeps ties in input order: of two
      sorted elements with the same key, the earlier one comes first in
      the input. */
  lemma {:induction false} SortDescTies<T>(s: seq<T>, key: T -> int)
    requires forall i, j :: 0 <= i < j < |s| ==> s[i] != s[j]
    ensures forall x :: x in SortDesc(s, key) ==> x in s
    ensures forall i, j :: 0 <= i < j < |SortDesc(s, key)| && key(SortDesc(s, key)[i]) == key(SortDesc(s, key)[j]) ==>
      FirstIndex(s, SortDesc(s, key)[i]) < FirstIndex(s, SortDesc(s, key)[j])
    decreases |s|
  {
    forall x | x in SortDesc(s, key) ensures x in s {
      SortDescWithin(s, key, x);
    }
    if s != [] {
      var init, x := s[..|s| - 1], Last(s);
      InitLast(s);
      SortDescTies(init, key);
      SortDescFacts(init, key);
      var t := SortDesc(init, key);
      var m := InsertDescSplit(x, t, key);
      assert SortDesc(s, key) == t[..m] + [x] + t[m..];
      assert x !in init by {
        forall i | 0 <= i < |init| ensures init[i] != x {
          assert init[i] == s[i] && x == s[|s| - 1];
        }
      }
      forall y | y in t ensures y in init {
        SortDescWithin(init, key, y);
      }
      TiesStep(init, x, t, m, key);
    }
  }

  /** The step of `SortDescTies`: a new element inserted after the
      elements with a key at least its own comes after its ties. */
  lemma TiesStep<T>(init: seq<T>, x: T, t: seq<T>, m: nat, key: T -> int)
    requires x !in init && forall y :: y in t ==> y in init
    requires m <= |t| && forall i :: m <= i < |t| ==> key(t[i]) < key(x)
    requires forall a, b :: 0 <= a < b < |t| && key(t[a]) == key(t[b]) ==> FirstIndex(init, t[a]) < FirstIndex(init, t[b])
    ensures var sorted := t[..m] + [x] + t[m..];
      forall i, j :: 0 <= i < j < |sorted| && key(sorted[i]) == key(sorted[j]) ==>
        FirstIndex(init + [x], sorted[i]) < FirstIndex(init + [x], sorted[j])
  {
    var sorted := t[..m] + [x] + t[m..];
    forall i, j | 0 <= i < j < |sorted| && key(sorted[i]) == key(sorted[j])
      ensures FirstIndex(init + [x], sorted[i]) < FirstIndex(init + [x], sorted[j])
    {
      if j < m || i > m || (i < m && j > m) {
        var a := if i < m then i else i - 1;
        var b := if j < m then j else j - 1;
        assert sorted[i] == t[a] && sorted[j] == t[b] && a < b;
        FirstIndexSnoc(init, x, t[a]);
        FirstIndexSnoc(init, x, t[b]);
      } else if j == m {
        assert sorted[i] == t[i] && sorted[j] == x;
        FirstIndexSnoc(init, x, t[i]);
        FirstIndexSnoc(init, x, x);
      } else {
        assert false;
      }
    }
  }

  /** The first `n` of the sorted elements are the `n` largest: none of
      the elements left out has a larger key than any element kept. */
  lemma TopOfSorted<T>(s: seq<T>, key: T -> int, n: nat)
    requires SortedDesc(s, key)
    ensures forall i, j :: 0 <= i < |Take(s, n)| <= j < |s| ==> key(Take(s, n)[i]) >= key(s[j])
  {
  }

  /** The first `n` of a sorted sequence are sorted. */
  lemma TakeSorted<T>(s: seq<T>, key: T -> int, n: nat)
    requires SortedDesc(s, key)
    ensures SortedDesc(Take(s, n), key)
  {
  }

  /** Taking a prefix keeps only elements of the sequence. */
  lemma TakeWithin<T>(s: seq<T>, n: nat, x: T)
    requires x in Take(s, n)
    ensures x in s
  {
  }

  /** An element of a sorted copy is an element of the original. */
  lemma SortDescWithin<T>(s: seq<T>, key: T -> int, x: T)
    requires x in SortDesc(s, key)
    ensures x in s
  {
    SortDescFacts(s, key);
    assert x in multiset(SortDesc(s, key));
  }

  // ---------------------------------------------------------------------
  // Lookup by id and the ownership check
  // ---------------------------------------------------------------------

  /** `findUnique`/`findFirst`: the position of the first row whose key
      is `k`. */
  function FindKey<T>(rows: seq<T>, key: T -> string, k: string): (r: Option<nat>)
    ensures r.Some? ==> r.value < |rows| && key(rows[r.value]) == k
    ensures r.Some? ==> forall i :: 0 <= i < r.value ==> key(rows[i]) != k
    ensures r.None? ==> forall i :: 0 <= i < |rows| ==> key(rows[i]) != k
    decreases |rows|
  {
    if rows == [] then None
    else if key(rows[0]) == k then Some(0)
    else
      var r := FindKey(rows[1..], key, k);
      if r.None? then None else Some(r.value + 1)
  }

  predicate HasKey<T>(rows: seq<T>, key: T -> string, k: string) {
    exists i :: 0 <= i < |rows| && key(rows[i]) == k
  }

  predicate KeysUnique<T>(rows: seq<T>, key: T -> string) {
    forall i, j :: 0 <= i < j < |rows| ==> key(rows[i]) != key(rows[j])
  }

  /** With unique keys the lookup finds the one row with that key. */
  lemma {:induction false} FindKeyUnique<T>(rows: seq<T>, key: T -> string, i: nat)
    requires KeysUnique(rows, key) && i < |rows|
    ensures FindKey(rows, key, key(rows[i])) == Some(i)
    decreases i
  {
    if i > 0 {
      assert key(rows[0]) != key(rows[i]);
      assert rows[1..][i - 1] == rows[i];
      FindKeyUnique(rows[1..], key, i - 1);
    }
  }

  /** The two checks that open every change to an owned row: the row must
      exist, then its owner must be the caller. The result is the row's
      position or the error to raise. */
  function OwnerGuard<T>(rows: seq<T>, key: T -> string, owner: T -> string, id: string, userId: string,
                         notFound: Error, forbidden: Error): Result<nat>
  {
    var k := FindKey(rows, key, id);
    if k.None? then Err(notFound)
    else if owner(rows[k.value]) != userId then Err(forbidden)
    else Ok(k.value)
  }

  /** A missing row is reported whoever asks; forbidden only for an
      existing row owned by someone else; success only for its owner. */
  lemma OwnerGuardOrder<T>(rows: seq<T>, key: T -> string, owner: T -> string, id: string, userId: string,
                           notFound: Error, forbidden: Error)
    requires notFound != forbidden
    ensures OwnerGuard(rows, key, owner, id, userId, notFound, forbidden) == Err(notFound) <==> !HasKey(rows, key, id)
    ensures OwnerGuard(rows, key, owner, id, userId, notFound, forbidden) == Err(forbidden) <==>
      (HasKey(rows, key, id) && owner(rows[FindKey(rows, key, id).value]) != userId)
    ensures OwnerGuard(rows, key, owner, id, userId, notFound, forbidden).Ok? ==>
      var k := OwnerGuard(rows, key, owner, id, userId, notFound, forbidden).value;
      k < |rows| && key(rows[k]) == id && owner(rows[k]) == userId
  {
    if FindKey(rows, key, id).Some? {
      assert HasKey(rows, key, id);
    }
  }

  // ---------------------------------------------------------------------
  // Page-number pagination
  // ---------------------------------------------------------------------

  /** `(page - 1) * limit`, on the integers the controllers parse. */
  function Skip(page: int, limit: int): (r: int)
    ensures page >= 1 && limit >= 0 ==> r >= 0
  {
    (page - 1) * limit
  }

  /** The skip is negative exactly when the page lies before the first
      and the limit is positive, or after the first and the limit is
      negative. */
  lemma SkipNegativeIff(page: int, limit: int)
    ensures Skip(page, limit) < 0 <==> (page < 1 && limit > 0) || (page > 1 && limit < 0)
  {
    var d := page - 1;
    if d < 0 && limit > 0 {
      MulPositive(-d, limit);
      assert Skip(page, limit) == -((-d) * limit);
    } else if d > 0 && limit < 0 {
      MulPositive(d, -limit);
      assert Skip(page, limit) == -(d * -limit);
    } else if d <= 0 && limit <= 0 {
      MulNonNegative(-d, -limit);
      assert Skip(page, limit) == (-d) * (-limit);
    } else {
      MulNonNegative(d, limit);
    }
  }

  lemma {:induction false} MulNonNegative(a: nat, b: nat)
    ensures a * b >= 0
    decreases a
  {
    if a > 0 {
      MulNonNegative(a - 1, b);
      assert a * b == (a - 1) * b + b;
    }
  }

  lemma MulPositive(a: nat, b: nat)
    requires a > 0 && b > 0
    ensures a * b > 0
  {
    MulNonNegative(a - 1, b);
    assert a * b == (a - 1) * b + b;
  }

  /** Prisma's `skip` and `take` on an ordered result. A negative `skip`
      is rejected. A non-negative `take` keeps up to `take` rows after the
      first `skip`; a negative one counts from the end instead: it passes
      over the last `skip` rows and keeps up to `-take` rows before them,
      in their order. */
  function Window<T>(s: seq<T>, skip: int, take: int): Result<seq<T>> {
    if skip < 0 then Err(InvalidQuery("skip"))
    else if take >= 0 then Ok(Page(s, skip, take))
    else
      var end := if skip < |s| then |s| - skip else 0;
      Ok(s[(if end > -take then end + take else 0)..end])
  }

  /** The window is rejected exactly for a negative skip; otherwise it is
      a run of consecutive rows, as many as the take allows and the rows
      past the skip provide, counted from the front for a non-negative
      take and from the back for a negative one. */
  lemma WindowFacts<T>(s: seq<T>, skip: int, take: int)
    ensures Window(s, skip, take).Err? <==> skip < 0
    ensures skip >= 0 ==>
      var r := Window(s, skip, take).value;
      var room := if skip < |s| then |s| - skip else 0;
      var size := if take >= 0 then take else -take;
      |r| == (if size < room then size else room) &&
      (take >= 0 ==> forall i :: 0 <= i < |r| ==> r[i] == s[skip + i]) &&
      (take < 0 ==> forall i :: 0 <= i < |r| ==> r[i] == s[room - |r| + i])
  {
  }

  /** Prisma's `take` with no `skip`: the first `take` rows, or for a
      negative `take` the last `-take` rows, in their order. */
  function Taken<T>(s: seq<T>, take: int): seq<T> {
    Window(s, 0, take).value
  }

  /** A JavaScript number as `Math.ceil(total / limit)` can produce it
      here: an integer, `Infinity` or `NaN` (the latter two serialise as
      `null`). */
  datatype PageCount = Pages(count: int) | Infinity | NaN

  /** `Math.ceil(total / limit)` for an integer limit: a division by zero
      gives `Infinity`, or `NaN` for `0 / 0`. */
  function PageCountOf(total: nat, limit: int): PageCount {
    if limit > 0 then Pages(TotalPages(total, limit))
    else if limit == 0 then (if total == 0 then NaN else Infinity)
    else Pages(-(total / -limit))
  }

  /** `Math.ceil(total / limit)`, for a positive limit. */
  function TotalPages(total: nat, limit: nat): nat
    requires limit >= 1
  {
    (total + limit - 1) / limit
  }

  /** The page count is the ceiling of `total / limit`: enough pages of
      `limit` rows to hold `total`, and one page fewer would not do; it is
      zero exactly when there are no rows. */
  lemma TotalPagesCeiling(total: nat, limit: nat)
    requires limit >= 1
    ensures TotalPages(total, limit) * limit >= total
    ensures total > 0 ==> (TotalPages(total, limit) - 1) * limit < total
    ensures TotalPages(total, limit) == 0 <==> total == 0
  {
    var n := total + limit - 1;
    var q := TotalPages(total, limit);
    DivBounds(n, limit);
    assert limit * q <= n < limit * (q + 1);
    assert q * limit == limit * q;
    assert (q - 1) * limit == limit * q - limit;
  }

  /** `Math.ceil(total / limit)` is the least integer `c` with
      `c * limit >= total` for a positive limit, and the least with
      `c * limit <= total` for a negative one; a zero limit gives `NaN`
      without rows and `Infinity` with some. */
  lemma PageCountFacts(total: nat, limit: int)
    ensures limit != 0 <==> PageCountOf(total, limit).Pages?
    ensures limit > 0 ==> var c := PageCountOf(total, limit).count;
      c * limit >= total && (c - 1) * limit < total
    ensures limit < 0 ==> var c := PageCountOf(total, limit).count;
      c <= 0 && c * limit <= total < (c - 1) * limit
    ensures limit == 0 ==> (PageCountOf(total, limit) == NaN <==> total == 0)
    ensures limit == 0 ==> (PageCountOf(total, limit) == Infinity <==> total > 0)
  {
    if limit > 0 {
      TotalPagesCeiling(total, limit);
    } else if limit < 0 {
      var d := -limit;
      var q := total / d;
      DivBounds(total, d);
      assert PageCountOf(total, limit).count * limit == d * q;
      assert (PageCountOf(total, limit).count - 1) * limit == d * (q + 1);
    }
  }

  /** The page count of the rows that pass `p`: there is a row exactly
      when the total is positive, and the count is as `PageCountFacts`
      describes. */
  lemma PageCountOfRows<T>(s: seq<T>, p: T -> bool, limit: int)
    ensures var total := |Filter(s, p)|;
      var c := PageCountOf(total, limit);
      (forall x :: x in s && p(x) ==> total > 0) &&
      (limit > 0 ==> c.Pages? && c.count * limit >= total && (c.count - 1) * limit < total) &&
      (limit == 0 ==> c == (if total == 0 then NaN else Infinity)) &&
      (limit < 0 ==> c.Pages? && c.count <= 0)
  {
    PageCountFacts(|Filter(s, p)|, limit);
    forall x | x in s && p(x) ensures |Filter(s, p)| > 0 {
      assert x in Filter(s, p);
    }
  }

  /** The page count is exact for a multiple of the page size. */
  lemma TotalPagesExact(pages: nat, limit: nat)
    requires limit >= 1
    ensures TotalPages(pages * limit, limit) == pages
  {
    if pages == 0 {
      DivExact(0, limit - 1, limit);
    } else {
      assert pages * limit + limit - 1 == limit * (pages - 1) + (2 * limit - 1);
      assert pages * limit + limit - 1 == limit * pages + (limit - 1);
      DivExact(pages, limit - 1, limit);
    }
  }

  lemma SkipInside(page: nat, limit: nat, total: nat)
    requires limit >= 1 && 1 <= page <= TotalPages(total, limit)
    ensures Skip(page, limit) < total
  {
    var q := TotalPages(total, limit);
    TotalPagesCeiling(total, limit);
    MulMono(limit, page - 1, q - 1);
    assert Skip(page, limit) == limit * (page - 1);
    assert (q - 1) * limit == limit * (q - 1);
  }

  lemma SkipOutside(page: nat, limit: nat, total: nat)
    requires limit >= 1 && page > TotalPages(total, limit)
    ensures Skip(page, limit) >= total
  {
    var q := TotalPages(total, limit);
    TotalPagesCeiling(total, limit);
    MulMono(limit, q, page - 1);
    assert Skip(page, limit) == limit * (page - 1);
    assert q * limit == limit * q;
  }

  lemma SkipFullPage(page: nat, limit: nat, total: nat)
    requires limit >= 1 && 1 <= page < TotalPages(total, limit)
    ensures Skip(page, limit) + limit <= total
  {
    var q := TotalPages(total, limit);
    TotalPagesCeiling(total, limit);
    MulMono(limit, page, q - 1);
    assert Skip(page, limit) + limit == limit * page;
    assert (q - 1) * limit == limit * (q - 1);
  }

  /** Page `page` starts inside the rows exactly when its number is at
      most the page count, and every page before the last ends inside
      them. */
  lemma SkipWithin(page: nat, limit: nat, total: nat)
    requires page >= 1 && limit >= 1
    ensures Skip(page, limit) < total <==> page <= TotalPages(total, limit)
    ensures page < TotalPages(total, limit) ==> Skip(page, limit) + limit <= total
  {
    if page <= TotalPages(total, limit) {
      SkipInside(page, limit, total);
    } else {
      SkipOutside(page, limit, total);
    }
    if page < TotalPages(total, limit) {
      SkipFullPage(page, limit, total);
    }
  }

  /** A page holds rows exactly when its number is at most the page
      count; every page before the last is full. */
  lemma PageNonEmptyIff<T>(rows: seq<T>, page: nat, limit: nat)
    requires page >= 1 && limit >= 1
    ensures Page(rows, Skip(page, limit), limit) != [] <==> page <= TotalPages(|rows|, limit)
    ensures page < TotalPages(|rows|, limit) ==> |Page(rows, Skip(page, limit), limit)| == limit
  {
    SkipWithin(page, limit, |rows|);
  }

  /** `findMany({ where, orderBy: { <key>: 'desc' }, skip: (page - 1) * limit,
      take: limit })`: one page of the rows that pass `p`, largest key first. */
  function PageOf<T>(s: seq<T>, p: T -> bool, key: T -> int, page: int, limit: int): Result<seq<T>> {
    Window(SortDesc(Filter(s, p), key), Skip(page, limit), limit)
  }

  /** A page is rejected exactly when the skip comes out negative. An
      accepted page holds rows of `s` that pass `p`, largest key first, at
      most as many as the limit's size, none for a zero limit; with page
      and limit from 1 up, it is non-empty exactly up to the page count. */
  lemma PageOfFacts<T>(s: seq<T>, p: T -> bool, key: T -> int, page: int, limit: int)
    ensures PageOf(s, p, key, page, limit).Err? <==> (page < 1 && limit > 0) || (page > 1 && limit < 0)
    ensures PageOf(s, p, key, page, limit).Ok? ==>
      var r := PageOf(s, p, key, page, limit).value;
      |r| <= (if limit >= 0 then limit else -limit) && SortedDesc(r, key) &&
      (forall x :: x in r ==> x in s && p(x)) &&
      (limit == 0 ==> r == [])
    ensures page >= 1 && limit >= 1 ==>
      (PageOf(s, p, key, page, limit).value != [] <==> page <= TotalPages(|Filter(s, p)|, limit))
  {
    var ordered := SortDesc(Filter(s, p), key);
    SkipNegativeIff(page, limit);
    SortDescFacts(Filter(s, p), key);
    if Skip(page, limit) >= 0 {
      WindowSorted(ordered, key, Skip(page, limit), limit);
      forall x | x in PageOf(s, p, key, page, limit).value ensures x in s && p(x) {
        assert x in multiset(Filter(s, p));
      }
    }
    if page >= 1 && limit >= 1 {
      PageNonEmptyIff(ordered, page, limit);
    }
  }

  /** A window of a sorted sequence is sorted, holds at most the take's
      size of its elements, and none for a zero take. */
  lemma WindowSorted<T>(s: seq<T>, key: T -> int, skip: int, take: int)
    requires skip >= 0 && SortedDesc(s, key)
    ensures var r := Window(s, skip, take).value;
      |r| <= (if take >= 0 then take else -take) && SortedDesc(r, key) &&
      (forall x :: x in r ==> x in s) && (take == 0 ==> r == [])
  {
    var r := Window(s, skip, take).value;
    var end := if skip < |s| then |s| - skip else 0;
    var a := if take >= 0 then (if skip < |s| then skip else 0)
             else if end > -take then end + take else 0;
    assert a + |r| <= |s| && r == s[a..a + |r|];
    forall i, j | 0 <= i < j < |r| ensures key(r[i]) >= key(r[j]) {
      assert r[i] == s[a + i] && r[j] == s[a + j];
    }
  }

  /** An accepted page with a non-negative limit is the run of the sorted
      rows that starts after the skipped ones: as many as the limit
      allows and the rows past the skip provide. */
  lemma PageOfWindow<T>(s: seq<T>, p: T -> bool, key: T -> int, page: int, limit: int)
    requires page >= 1 && limit >= 0
    ensures var ordered := SortDesc(Filter(s, p), key);
      var r := PageOf(s, p, key, page, limit).value;
      var skip := (page - 1) * limit;
      PageOf(s, p, key, page, limit).Ok? &&
      |r| == (if skip + limit <= |ordered| then limit else if skip < |ordered| then |ordered| - skip else 0) &&
      forall i :: 0 <= i < |r| ==> r[i] == ordered[skip + i]
  {
    MulNonNegative(page - 1, limit);
    WindowFacts(SortDesc(Filter(s, p), key), Skip(page, limit), limit);
  }

  /** The first `n` after the sort are as many as there are, up to `n`,
      ordered by non-increasing key, drawn from `s`, and no element left
      out has a larger key than one kept. */
  lemma TopFacts<T>(s: seq<T>, key: T -> int, n: nat)
    ensures var top := Take(SortDesc(s, key), n);
      |top| == (if n < |s| then n else |s|) && SortedDesc(top, key) &&
      multiset(top) <= multiset(s) && (forall x :: x in top ==> x in s) &&
      (forall i, x :: 0 <= i < |top| && x in s && x !in top ==> key(top[i]) >= key(x))
  {
    var sorted := SortDesc(s, key);
    var top := Take(sorted, n);
    SortDescFacts(s, key);
    PrefixMultiset(sorted, |top|);
    TakeSorted(sorted, key, n);
    TopOfSorted(sorted, key, n);
    forall x | x in top ensures x in s {
      TakeWithin(sorted, n, x);
      SortDescWithin(s, key, x);
    }
    forall i, x | 0 <= i < |top| && x in s && x !in top ensures key(top[i]) >= key(x) {
      assert x in multiset(sorted);
      var k :| 0 <= k < |sorted| && sorted[k] == x;
      assert k >= |top|;
    }
  }

  /** A prefix holds no element more often than the whole. */
  lemma PrefixMultiset<T>(s: seq<T>, k: nat)
    requires k <= |s|
    ensures multiset(s[..k]) <= multiset(s)
  {
    assert s == s[..k] + s[k..];
  }

  /** `findMany({ where: p, orderBy: { <key>: 'desc' }, take: n })`: the
      rows passing `p` are as many as there are up to `n`, ordered by
      non-increasing key, and no passing row left out has a larger key
      than one kept. */
  lemma TopMatches<T>(s: seq<T>, p: T -> bool, key: T -> int, n: nat)
    ensures var top := Take(SortDesc(Filter(s, p), key), n);
      (|top| == if n < |Filter(s, p)| then n else |Filter(s, p)|) && SortedDesc(top, key) &&
      multiset(top) <= multiset(Filter(s, p)) && (forall x :: x in top ==> x in s && p(x)) &&
      (forall i, x :: 0 <= i < |top| && x in s && p(x) && x !in top ==> key(top[i]) >= key(x))
  {
    var found := Filter(s, p);
    TopFacts(found, key, n);
    forall x | x in s && p(x) ensures x in found {
      var i :| 0 <= i < |s| && s[i] == x;
    }
  }

  /** A non-negative `take` with no `skip` is `Take`. */
  lemma TakenFront<T>(s: seq<T>, n: nat)
    ensures Taken(s, n) == Take(s, n)
  {
    assert s[0..] == s;
  }

  /** A negative `take` keeps a suffix: the last `n` rows, or all of them
      when there are fewer. */
  lemma TakenBack<T>(s: seq<T>, n: nat)
    ensures Taken(s, -(n as int)) == s[(if n < |s| then |s| - n else 0)..]
  {
  }

  /** A `take` alone keeps a run of consecutive rows: a prefix for a
      non-negative take and a suffix for a negative one, as long as the
      take's size allows and the rows provide. */
  lemma TakenFacts<T>(s: seq<T>, take: int)
    ensures var r := Taken(s, take);
      |r| == (if take >= 0 then (if take < |s| then take else |s|) else if -take < |s| then -take else |s|)
    ensures take >= 0 ==> Taken(s, take) == s[..|Taken(s, take)|]
    ensures take < 0 ==> Taken(s, take) == s[|s| - |Taken(s, take)|..]
  {
    if take < 0 {
      TakenBack(s, -take);
    }
  }

  /** A `take` alone keeps only rows that passed the filter. */
  lemma TakenWithin<T>(s: seq<T>, take: int)
    ensures forall x :: x in Taken(s, take) ==> x in s
  {
    TakenFacts(s, take);
  }

  /** The last `n` after the sort are as many as there are up to `n`,
      ordered by non-increasing key and drawn from `s`, and no element
      left out has a smaller key than one kept. */
  lemma BottomFacts<T>(s: seq<T>, key: T -> int, n: nat)
    ensures var bottom := Taken(SortDesc(s, key), -(n as int));
      |bottom| == (if n < |s| then n else |s|) && SortedDesc(bottom, key) &&
      multiset(bottom) <= multiset(s) &&
      (forall i, x :: 0 <= i < |bottom| && x in s && x !in bottom ==> key(bottom[i]) <= key(x))
  {
    var sorted := SortDesc(s, key);
    SortDescFacts(s, key);
    TakenBack(sorted, n);
    var bottom := Taken(sorted, -(n as int));
    var a := |sorted| - |bottom|;
    assert sorted == sorted[..a] + bottom;
    SuffixOfSorted(sorted, key, a);
    forall i, x | 0 <= i < |bottom| && x in s && x !in bottom ensures key(bottom[i]) <= key(x) {
      assert x in multiset(sorted);
      var k :| 0 <= k < |sorted| && sorted[k] == x;
      assert k < a;
    }
  }

  /** A suffix of a sorted sequence is sorted, and no element of it has a
      larger key than an element before it. */
  lemma SuffixOfSorted<T>(s: seq<T>, key: T -> int, a: nat)
    requires a <= |s| && SortedDesc(s, key)
    ensures SortedDesc(s[a..], key)
    ensures forall i, k :: 0 <= i < |s| - a && 0 <= k < a ==> key(s[a..][i]) <= key(s[k])
  {
    forall i, j | 0 <= i < j < |s| - a ensures key(s[a..][i]) >= key(s[a..][j]) {
      assert s[a..][i] == s[a + i] && s[a..][j] == s[a + j];
    }
  }

  /** `findMany({ where: p, orderBy: { <key>: 'desc' }, take: n })` for
      any integer `n`: as many passing rows as there are up to the size of
      `n`, ordered by non-increasing key and drawn from the passing rows. */
  lemma TakenMatches<T>(s: seq<T>, p: T -> bool, key: T -> int, n: int)
    ensures var r := Taken(SortDesc(Filter(s, p), key), n);
      |r| == (if n >= 0 then (if n < |Filter(s, p)| then n else |Filter(s, p)|)
              else if -n < |Filter(s, p)| then -n else |Filter(s, p)|)
    ensures var r := Taken(SortDesc(Filter(s, p), key), n);
      SortedDesc(r, key) && multiset(r) <= multiset(Filter(s, p)) && (forall x :: x in r ==> x in s && p(x))
  {
    if n >= 0 {
      TakenFront(SortDesc(Filter(s, p), key), n);
      TopMatches(s, p, key, n);
    } else {
      BottomMatches(s, p, key, -n);
    }
  }

  /** Which rows `take: n` keeps: a non-negative `n` the largest keys, a
      negative one the smallest; no passing row left out lies on the kept
      side. */
  lemma TakenMatchesSide<T>(s: seq<T>, p: T -> bool, key: T -> int, n: int)
    ensures var r := Taken(SortDesc(Filter(s, p), key), n);
      n >= 0 ==> forall i, x :: 0 <= i < |r| && x in s && p(x) && x !in r ==> key(r[i]) >= key(x)
    ensures var r := Taken(SortDesc(Filter(s, p), key), n);
      n < 0 ==> forall i, x :: 0 <= i < |r| && x in s && p(x) && x !in r ==> key(r[i]) <= key(x)
  {
    if n >= 0 {
      TakenFront(SortDesc(Filter(s, p), key), n);
      TopMatches(s, p, key, n);
    } else {
      BottomMatches(s, p, key, -n);
    }
  }

  /** `findMany({ where: p, orderBy: { <key>: 'desc' }, take: -n })`: the
      passing rows with the smallest keys, as many as there are up to `n`,
      still ordered by non-increasing key. */
  lemma BottomMatches<T>(s: seq<T>, p: T -> bool, key: T -> int, n: nat)
    ensures var bottom := Taken(SortDesc(Filter(s, p), key), -(n as int));
      (|bottom| == if n < |Filter(s, p)| then n else |Filter(s, p)|) && SortedDesc(bottom, key) &&
      multiset(bottom) <= multiset(Filter(s, p)) && (forall x :: x in bottom ==> x in s && p(x)) &&
      (forall i, x :: 0 <= i < |bottom| && x in s && p(x) && x !in bottom ==> key(bottom[i]) <= key(x))
  {
    var found := Filter(s, p);
    BottomFacts(found, key, n);
    var bottom := Taken(SortDesc(found, key), -(n as int));
    forall x | x in bottom ensures x in s && p(x) {
      assert x in multiset(found);
    }
    forall x | x in s && p(x) ensures x in found {
      var m :| 0 <= m < |s| && s[m] == x;
    }
  }

  // ---------------------------------------------------------------------
  // Counting in an insertion-ordered map
  // ---------------------------------------------------------------------

  predicate Distinct(s: seq<string>) {
    forall i, j :: 0 <= i < j < |s| ==> s[i] != s[j]
  }

  datatype TermCount = TermCount(term: string, count: nat)

  function CountOf(e: TermCount): int { e.count }

  /** `counts.set(key, (counts.get(key) || 0) + 1)` on an
      insertion-ordered map. */
  function Bump(counts: seq<TermCount>, key: string): seq<TermCount>
    decreases |counts|
  {
    if counts == [] then [TermCount(key, 1)]
    else if counts[0].term == key then [counts[0].(count := counts[0].count + 1)] + counts[1..]
    else [counts[0]] + Bump(counts[1..], key)
  }

  /** The counts after every key of `keys`, in first-seen order. */
  function Tally(keys: seq<string>): seq<TermCount>
    decreases |keys|
  {
    if keys == [] then [] else Bump(Tally(keys[..|keys| - 1]), Last(keys))
  }

  /** How often `t` occurs in `keys`. */
  function Occurrences(keys: seq<string>, t: string): nat
    decreases |keys|
  {
    if keys == [] then 0
    else Occurrences(keys[..|keys| - 1], t) + (if Last(keys) == t then 1 else 0)
  }

  function Terms(counts: seq<TermCount>): seq<string> {
    seq(|counts|, i requires 0 <= i < |counts| => counts[i].term)
  }

  function SumCounts(counts: seq<TermCount>): nat
    decreases |counts|
  {
    if counts == [] then 0 else counts[0].count + SumCounts(counts[1..])
  }

  lemma TermsCons(c: TermCount, counts: seq<TermCount>)
    ensures Terms([c] + counts) == [c.term] + Terms(counts)
  {
  }

  lemma {:induction false} BumpKeepsTerms(counts: seq<TermCount>, key: string)
    ensures Terms(Bump(counts, key)) == if key in Terms(counts) then Terms(counts) else Terms(counts) + [key]
    decreases |counts|
  {
    if counts != [] {
      var c, rest := counts[0], counts[1..];
      assert counts == [c] + rest;
      TermsCons(c, rest);
      if c.term != key {
        BumpKeepsTerms(rest, key);
        TermsCons(c, Bump(rest, key));
      } else {
        TermsCons(c.(count := c.count + 1), rest);
      }
    }
  }

  lemma {:induction false} BumpSum(counts: seq<TermCount>, key: string)
    ensures SumCounts(Bump(counts, key)) == SumCounts(counts) + 1
    decreases |counts|
  {
    if counts != [] {
      var b := Bump(counts, key);
      if counts[0].term != key {
        BumpSum(counts[1..], key);
        assert b[1..] == Bump(counts[1..], key);
      } else {
        assert b[1..] == counts[1..];
      }
    }
  }

  /** Bumping adds `key` to the terms when it is new and keeps them
      otherwise, and adds one to the total. */
  lemma BumpTerms(counts: seq<TermCount>, key: string)
    ensures key in Terms(counts) ==> Terms(Bump(counts, key)) == Terms(counts)
    ensures key !in Terms(counts) ==> Terms(Bump(counts, key)) == Terms(counts) + [key]
    ensures SumCounts(Bump(counts, key)) == SumCounts(counts) + 1
  {
    BumpKeepsTerms(counts, key);
    BumpSum(counts, key);
  }

  /** With distinct terms, bumping increments the entry for `key` and
      leaves every other count alone; a new key gets count 1. */
  lemma {:induction false} BumpCounts(counts: seq<TermCount>, key: string)
    requires Distinct(Terms(counts))
    ensures |Bump(counts, key)| == |counts| + (if key in Terms(counts) then 0 else 1)
    ensures forall i :: 0 <= i < |counts| ==>
      Bump(counts, key)[i] == counts[i].(count := counts[i].count + (if counts[i].term == key then 1 else 0))
    ensures key !in Terms(counts) ==> Bump(counts, key)[|counts|] == TermCount(key, 1)
    decreases |counts|
  {
    if counts != [] {
      var c, rest := counts[0], counts[1..];
      assert counts == [c] + rest;
      TermsCons(c, rest);
      if c.term != key {
        assert Terms(rest) == Terms(counts)[1..];
        BumpCounts(rest, key);
        var b := Bump(counts, key);
        assert b == [c] + Bump(rest, key);
        forall i | 1 <= i < |counts|
          ensures b[i] == counts[i].(count := counts[i].count + (if counts[i].term == key then 1 else 0))
        {
          assert b[i] == Bump(rest, key)[i - 1] && counts[i] == rest[i - 1];
        }
      } else {
        forall i | 1 <= i < |counts| ensures counts[i].term != key {
          assert Terms(counts)[0] != Terms(counts)[i];
        }
      }
    }
  }

  lemma TallySnoc(keys: seq<string>, x: string)
    ensures Tally(keys + [x]) == Bump(Tally(keys), x)
  {
    assert (keys + [x])[..|keys|] == keys;
  }

  /** The tally's terms are the distinct keys, each once; the counts add
      up to the number of keys. */
  lemma {:induction false} TallyTerms(keys: seq<string>)
    ensures Distinct(Terms(Tally(keys)))
    ensures forall t :: t in Terms(Tally(keys)) <==> t in keys
    ensures SumCounts(Tally(keys)) == |keys|
    decreases |keys|
  {
    if keys != [] {
      var init, x := keys[..|keys| - 1], Last(keys);
      TallyTerms(init);
      BumpTerms(Tally(init), x);
      InitLast(keys);
      assert forall t :: t in keys <==> t in init || t == x;
      assert Tally(keys) == Bump(Tally(init), x);
    }
  }

  /** One more key: each count grows by the key's occurrence, and a new
      key enters with count one. */
  lemma TallyCountsStep(init: seq<string>, x: string)
    requires forall i :: 0 <= i < |Tally(init)| ==> Tally(init)[i].count == Occurrences(init, Tally(init)[i].term)
    ensures forall i :: 0 <= i < |Tally(init + [x])| ==>
      Tally(init + [x])[i].count == Occurrences(init + [x], Tally(init + [x])[i].term)
  {
    var keys := init + [x];
    assert keys[..|keys| - 1] == init && Last(keys) == x;
    TallyTerms(init);
    BumpTerms(Tally(init), x);
    BumpCounts(Tally(init), x);
    var before, after := Tally(init), Tally(keys);
    assert after == Bump(before, x);
    forall i | 0 <= i < |after| ensures after[i].count == Occurrences(keys, after[i].term) {
      OccurrencesSnoc(init, x, after[i].term);
      if i < |before| {
        assert after[i].term == before[i].term;
      } else {
        assert after[i] == TermCount(x, 1);
        OccurrencesAbsent(init, x);
      }
    }
  }

  lemma OccurrencesSnoc(init: seq<string>, x: string, t: string)
    ensures Occurrences(init + [x], t) == Occurrences(init, t) + (if x == t then 1 else 0)
  {
    var keys := init + [x];
    assert keys[..|keys| - 1] == init && Last(keys) == x;
  }

  /** Each entry of the tally counts the occurrences of its term. */
  lemma {:induction false} TallyCounts(keys: seq<string>)
    ensures forall i :: 0 <= i < |Tally(keys)| ==> Tally(keys)[i].count == Occurrences(keys, Tally(keys)[i].term)
    decreases |keys|
  {
    if keys != [] {
      var init := keys[..|keys| - 1];
      TallyCounts(init);
      TallyCountsStep(init, Last(keys));
      InitLast(keys);
    }
  }

  /** The position of the first `t` in `keys`. */
  function FirstIndex<T(==)>(keys: seq<T>, t: T): (i: nat)
    requires t in keys
    ensures i < |keys| && keys[i] == t
    ensures forall j :: 0 <= j < i ==> keys[j] != t
    decreases |keys|
  {
    if keys[0] == t then 0 else 1 + FirstIndex(keys[1..], t)
  }

  /** One more key leaves the first positions of the earlier keys alone,
      and a new key is first seen at the end. */
  lemma FirstIndexSnoc<T>(init: seq<T>, x: T, t: T)
    requires t in init + [x]
    ensures t in init ==> FirstIndex(init + [x], t) == FirstIndex(init, t)
    ensures t !in init ==> FirstIndex(init + [x], t) == |init|
  {
    var keys := init + [x];
    var k := FirstIndex(keys, t);
    if t in init {
      var j := FirstIndex(init, t);
      assert keys[j] == t;
      assert k <= j;
      assert init[k] == t;
    } else {
      assert k == |init|;
    }
  }

  /** The tally's terms are in first-seen order: a term listed before
      another occurs first earlier in the keys. */
  lemma {:induction false} TallyOrder(keys: seq<string>)
    ensures forall t :: t in Terms(Tally(keys)) ==> t in keys
    ensures forall i, j :: 0 <= i < j < |Tally(keys)| ==>
      FirstIndex(keys, Terms(Tally(keys))[i]) < FirstIndex(keys, Terms(Tally(keys))[j])
    decreases |keys|
  {
    TallyTerms(keys);
    if keys != [] {
      var init, x := keys[..|keys| - 1], Last(keys);
      InitLast(keys);
      TallyOrder(init);
      TallyTerms(init);
      BumpTerms(Tally(init), x);
      assert Tally(keys) == Bump(Tally(init), x);
      var before, after := Terms(Tally(init)), Terms(Tally(keys));
      forall i, j | 0 <= i < j < |Tally(keys)| ensures FirstIndex(keys, after[i]) < FirstIndex(keys, after[j]) {
        assert after[i] == before[i];
        FirstIndexSnoc(init, x, after[i]);
        FirstIndexSnoc(init, x, after[j]);
        if j < |before| {
          assert after[j] == before[j];
        }
      }
    }
  }

  /** The tally lists each distinct key once, in first-seen order, with
      its number of occurrences; the counts add up to the number of keys. */
  lemma TallyFacts(keys: seq<string>)
    ensures Distinct(Terms(Tally(keys)))
    ensures forall t :: t in Terms(Tally(keys)) <==> t in keys
    ensures forall i :: 0 <= i < |Tally(keys)| ==> Tally(keys)[i].count == Occurrences(keys, Tally(keys)[i].term)
    ensures SumCounts(Tally(keys)) == |keys|
    ensures forall i, j :: 0 <= i < j < |Tally(keys)| ==>
      FirstIndex(keys, Terms(Tally(keys))[i]) < FirstIndex(keys, Terms(Tally(keys))[j])
  {
    TallyTerms(keys);
    TallyCounts(keys);
    TallyOrder(keys);
  }

  /** A sequence without repeats holds each value at most once. */
  lemma {:induction false} DistinctOnce<T>(s: seq<T>, x: T)
    requires forall i, j :: 0 <= i < j < |s| ==> s[i] != s[j]
    ensures multiset(s)[x] <= 1
    decreases |s|
  {
    if s != [] {
      assert s == [s[0]] + s[1..];
      DistinctOnce(s[1..], x);
      if x == s[0] {
        assert x !in s[1..] by {
          forall k | 0 <= k < |s| - 1 ensures s[1..][k] != x {
            assert s[1..][k] == s[k + 1];
          }
        }
      }
    }
  }

  /** A permutation of a sequence without repeats has none either. */
  lemma PermutationDistinct<T>(s: seq<T>, t: seq<T>)
    requires multiset(s) == multiset(t)
    requires forall i, j :: 0 <= i < j < |s| ==> s[i] != s[j]
    ensures forall i, j :: 0 <= i < j < |t| ==> t[i] != t[j]
  {
    forall i, j | 0 <= i < j < |t| ensures t[i] != t[j] {
      DistinctOnce(s, t[i]);
      assert t == t[..j] + [t[j]] + t[j + 1..];
      assert t[i] in t[..j];
      assert multiset(t)[t[j]] == multiset(t[..j])[t[j]] + 1 + multiset(t[j + 1..])[t[j]];
    }
  }

  /** What `TallyFacts` proves of a tally of `keys`. */
  ghost predicate CountsOf(tally: seq<TermCount>, keys: seq<string>) {
    Distinct(Terms(tally)) &&
    (forall t :: t in Terms(tally) <==> t in keys) &&
    (forall i :: 0 <= i < |tally| ==> tally[i].count == Occurrences(keys, tally[i].term)) &&
    (forall i, j :: 0 <= i < j < |tally| ==> FirstIndex(keys, Terms(tally)[i]) < FirstIndex(keys, Terms(tally)[j]))
  }

  /** `Object.entries` of the counts, sorted by descending count, then
      `slice(0, n)`: as many as there are distinct keys up to `n`, or for a
      negative `n` all but the `-n` least frequent; by non-increasing count,
      each a key with its number of occurrences, and no key left out occurs
      more often than one kept. */
  lemma RankTop(keys: seq<string>, n: int)
    ensures var tally := Tally(keys);
      var r := Slice(SortDesc(tally, CountOf), n);
      |r| == (if n >= 0 then (if n < |tally| then n else |tally|)
              else if |tally| + n > 0 then |tally| + n else 0) && SortedDesc(r, CountOf) &&
      (forall e :: e in r ==> e.term in keys && e.count == Occurrences(keys, e.term)) &&
      (forall i, t :: 0 <= i < |r| && t in keys && (forall e :: e in r ==> e.term != t) ==>
         r[i].count >= Occurrences(keys, t))
  {
    var sorted := SortDesc(Tally(keys), CountOf);
    SortDescFacts(Tally(keys), CountOf);
    SliceFacts(sorted, n);
    var k: nat := |Slice(sorted, n)|;
    TallyFacts(keys);
    RankTopOf(Tally(keys), keys, k);
  }

  lemma RankTopOf(tally: seq<TermCount>, keys: seq<string>, n: nat)
    requires CountsOf(tally, keys)
    ensures var r := Take(SortDesc(tally, CountOf), n);
      |r| == (if n < |tally| then n else |tally|) && SortedDesc(r, CountOf) &&
      (forall e :: e in r ==> e.term in keys && e.count == Occurrences(keys, e.term)) &&
      (forall i, t :: 0 <= i < |r| && t in keys && (forall e :: e in r ==> e.term != t) ==>
         r[i].count >= Occurrences(keys, t))
  {
    var r := Take(SortDesc(tally, CountOf), n);
    TopFacts(tally, CountOf, n);
    RankMembers(tally, keys, r);
    RankLeftOut(tally, keys, r);
  }

  /** Entries drawn from the tally are keys with their occurrences. */
  lemma RankMembers(tally: seq<TermCount>, keys: seq<string>, r: seq<TermCount>)
    requires forall t :: t in Terms(tally) ==> t in keys
    requires forall i :: 0 <= i < |tally| ==> tally[i].count == Occurrences(keys, tally[i].term)
    requires forall e :: e in r ==> e in tally
    ensures forall e :: e in r ==> e.term in keys && e.count == Occurrences(keys, e.term)
  {
    forall e | e in r ensures e.term in keys && e.count == Occurrences(keys, e.term) {
      var k :| 0 <= k < |tally| && tally[k] == e;
      assert Terms(tally)[k] == e.term;
    }
  }

  /** A key whose tally entry was left out occurs no more often than any
      entry kept. */
  lemma RankLeftOut(tally: seq<TermCount>, keys: seq<string>, r: seq<TermCount>)
    requires forall t :: t in keys ==> t in Terms(tally)
    requires forall i :: 0 <= i < |tally| ==> tally[i].count == Occurrences(keys, tally[i].term)
    requires forall i, x :: 0 <= i < |r| && x in tally && x !in r ==> CountOf(r[i]) >= CountOf(x)
    ensures forall i, t :: 0 <= i < |r| && t in keys && (forall e :: e in r ==> e.term != t) ==>
      r[i].count >= Occurrences(keys, t)
  {
    forall i, t | 0 <= i < |r| && t in keys && (forall e :: e in r ==> e.term != t)
      ensures r[i].count >= Occurrences(keys, t)
    {
      var k :| 0 <= k < |tally| && Terms(tally)[k] == t;
      assert tally[k] in tally && tally[k] !in r;
    }
  }

  /** The ranked entries name distinct keys, and entries with equal
      counts keep the order in which their keys were first seen. */
  lemma RankTies(keys: seq<string>, n: int)
    ensures var r := Slice(SortDesc(Tally(keys), CountOf), n);
      (forall e :: e in r ==> e.term in keys) &&
      (forall i, j :: 0 <= i < j < |r| ==> r[i].term != r[j].term) &&
      (forall i, j :: 0 <= i < j < |r| && r[i].count == r[j].count ==>
         FirstIndex(keys, r[i].term) < FirstIndex(keys, r[j].term))
  {
    var sorted := SortDesc(Tally(keys), CountOf);
    SliceFacts(sorted, n);
    var k: nat := |Slice(sorted, n)|;
    TallyFacts(keys);
    RankTiesOf(Tally(keys), keys, k);
  }

  lemma RankTiesOf(tally: seq<TermCount>, keys: seq<string>, n: nat)
    requires CountsOf(tally, keys)
    ensures var r := Take(SortDesc(tally, CountOf), n);
      (forall e :: e in r ==> e.term in keys) &&
      (forall i, j :: 0 <= i < j < |r| ==> r[i].term != r[j].term) &&
      (forall i, j :: 0 <= i < j < |r| && r[i].count == r[j].count ==>
         FirstIndex(keys, r[i].term) < FirstIndex(keys, r[j].term))
  {
    var sorted := SortDesc(tally, CountOf);
    var r := Take(sorted, n);
    TallyDistinct(tally);
    SortDescFacts(tally, CountOf);
    SortDescTies(tally, CountOf);
    RankTerms(tally, keys, sorted, r);
    RankTieOrder(tally, keys, sorted, r);
  }

  /** Entries with distinct terms are distinct. */
  lemma TallyDistinct(tally: seq<TermCount>)
    requires Distinct(Terms(tally))
    ensures forall i, j :: 0 <= i < j < |tally| ==> tally[i] != tally[j]
  {
    forall i, j | 0 <= i < j < |tally| ensures tally[i] != tally[j] {
      assert Terms(tally)[i] != Terms(tally)[j];
    }
  }

  /** A prefix of the sorted tally names keys, each once. */
  lemma RankTerms(tally: seq<TermCount>, keys: seq<string>, sorted: seq<TermCount>, r: seq<TermCount>)
    requires multiset(sorted) == multiset(tally) && |r| <= |sorted| && r == sorted[..|r|]
    requires Distinct(Terms(tally)) && forall t :: t in Terms(tally) ==> t in keys
    requires forall i, j :: 0 <= i < j < |tally| ==> tally[i] != tally[j]
    requires forall x :: x in sorted ==> x in tally
    ensures forall e :: e in r ==> e.term in keys
    ensures forall i, j :: 0 <= i < j < |r| ==> r[i].term != r[j].term
  {
    PermutationDistinct(tally, sorted);
    forall e | e in r ensures e.term in keys {
      assert e in sorted;
      var k :| 0 <= k < |tally| && tally[k] == e;
      assert Terms(tally)[k] == e.term;
    }
    forall i, j | 0 <= i < j < |r| ensures r[i].term != r[j].term {
      assert r[i] == sorted[i] && r[j] == sorted[j];
      var a, b := FirstIndex(tally, r[i]), FirstIndex(tally, r[j]);
      assert Terms(tally)[a] == r[i].term && Terms(tally)[b] == r[j].term;
    }
  }

  /** Ties in a prefix of the sorted tally keep the keys' first-seen
      order. */
  lemma RankTieOrder(tally: seq<TermCount>, keys: seq<string>, sorted: seq<TermCount>, r: seq<TermCount>)
    requires |r| <= |sorted| && r == sorted[..|r|]
    requires forall x :: x in sorted ==> x in tally
    requires forall i, j :: 0 <= i < j < |sorted| && CountOf(sorted[i]) == CountOf(sorted[j]) ==>
      FirstIndex(tally, sorted[i]) < FirstIndex(tally, sorted[j])
    requires forall t :: t in Terms(tally) ==> t in keys
    requires forall i, j :: 0 <= i < j < |tally| ==> FirstIndex(keys, Terms(tally)[i]) < FirstIndex(keys, Terms(tally)[j])
    requires forall e :: e in r ==> e.term in keys
    ensures forall i, j :: 0 <= i < j < |r| && r[i].count == r[j].count ==>
      FirstIndex(keys, r[i].term) < FirstIndex(keys, r[j].term)
  {
    forall i, j | 0 <= i < j < |r| && r[i].count == r[j].count
      ensures FirstIndex(keys, r[i].term) < FirstIndex(keys, r[j].term)
    {
      assert r[i] == sorted[i] && r[j] == sorted[j];
      var a, b := FirstIndex(tally, r[i]), FirstIndex(tally, r[j]);
      assert Terms(tally)[a] == r[i].term && Terms(tally)[b] == r[j].term;
    }
  }

  lemma {:induction false} OccurrencesAbsent(keys: seq<string>, t: string)
    requires t !in keys
    ensures Occurrences(keys, t) == 0
    decreases |keys|
  {
    if keys != [] {
      assert keys[..|keys| - 1] + [Last(keys)] == keys;
      OccurrencesAbsent(keys[..|keys| - 1], t);
    }
  }
}
