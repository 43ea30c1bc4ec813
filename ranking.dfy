/** The query shapes the article endpoints share: keep the rows a condition admits,
    order them by one key, highest first, and keep the first `n`. The rows are a
    snapshot of the article table as the view's base queryset yields it. */
module Ranking {
  import opened Common

  /** The columns of a `Noticia` row the queries read. `estado` is `None` for a
      null publication state; `categorias` is `""` for null or empty. */
  datatype Row = Row(
    id: nat,
    estado: Option<nat>,
    contadorVisitas: nat,
    contadorVisitasTotal: nat,
    ultimaActualizacionContador: Instant,
    fechaPublicacion: int,
    categorias: string)

  /** `queryset.filter(...)`: the rows `keep` admits, in their order. */
  function Filter(rows: seq<Row>, keep: Row -> bool): (r: seq<Row>)
    ensures |r| <= |rows|
    ensures forall k :: 0 <= k < |r| ==> keep(r[k]) && r[k] in rows
    ensures forall x :: x in rows && keep(x) ==> x in r
    decreases |rows|
  {
    if rows == [] then []
    else if keep(rows[0]) then [rows[0]] + Filter(rows[1..], keep)
    else Filter(rows[1..], keep)
  }

  /** Ordered by `key`, largest first. */
  ghost predicate SortedDesc(s: seq<Row>, key: Row -> int) {
    forall i, j :: 0 <= i < j < |s| ==> key(s[i]) >= key(s[j])
  }

  /** Places `x` before the first row whose key it reaches. */
  function Insert(x: Row, s: seq<Row>, key: Row -> int): (r: seq<Row>)
    requires SortedDesc(s, key)
    ensures SortedDesc(r, key)
    ensures multiset(r) == multiset(s) + multiset{x}
    decreases |s|
  {
    if s == [] then [x]
    else if key(x) >= key(s[0]) then [x] + s
    else
      var rest := Insert(x, s[1..], key);
      assert s == [s[0]] + s[1..];
      InsertBelowHead(s[0], s[1..], x, rest, key);
      [s[0]] + rest
  }

  /** Inserting below the head of a sorted list keeps it sorted: every row of the
      new tail is the inserted row or an old tail row, none above the head. */
  lemma InsertBelowHead(h: Row, t: seq<Row>, x: Row, rest: seq<Row>, key: Row -> int)
    requires SortedDesc([h] + t, key) && key(x) < key(h)
    requires SortedDesc(rest, key) && multiset(rest) == multiset(t) + multiset{x}
    ensures SortedDesc([h] + rest, key)
    ensures multiset([h] + rest) == multiset([h] + t) + multiset{x}
  {
    forall k | 0 <= k < |rest| ensures key(rest[k]) <= key(h) {
      assert rest[k] in multiset(rest);
      if rest[k] != x {
        assert rest[k] in multiset(t);
        var j :| 0 <= j < |t| && t[j] == rest[k];
        assert ([h] + t)[0] == h && ([h] + t)[j + 1] == t[j];
      }
    }
    forall i, j | 0 <= i < j < |[h] + rest| ensures key(([h] + rest)[i]) >= key(([h] + rest)[j]) {
      if i > 0 {
        assert ([h] + rest)[i] == rest[i - 1];
      }
      assert ([h] + rest)[j] == rest[j - 1];
    }
  }

  /** `order_by('-key')`: a permutation of the rows, largest key first. */
  function SortDesc(rows: seq<Row>, key: Row -> int): (r: seq<Row>)
    ensures SortedDesc(r, key)
    ensures multiset(r) == multiset(rows)
    decreases |rows|
  {
    if rows == [] then []
    else
      assert rows == [rows[0]] + rows[1..];
      Insert(rows[0], SortDesc(rows[1..], key), key)
  }

  /** Two orderings of the same rows, both largest key first, agree key by key:
      rows that tie may come in either order, but the keys read off position by
      position are the same. */
  lemma {:induction false} SortedPermutationKeys(a: seq<Row>, b: seq<Row>, key: Row -> int)
    requires SortedDesc(a, key) && SortedDesc(b, key)
    requires multiset(a) == multiset(b)
    ensures |a| == |b|
    ensures forall i :: 0 <= i < |a| ==> key(a[i]) == key(b[i])
    decreases |a|
  {
    assert |a| == |multiset(a)| == |multiset(b)| == |b|;
    if |a| > 0 {
      assert a[0] in multiset(b);
      var j :| 0 <= j < |b| && b[j] == a[0];
      HeadKeys(a, b, key);
      var b' := Without(b, j);
      WithoutKeepsOrder(b, j, key);
      WithoutKeepsOrder(a, 0, key);
      SortedPermutationKeys(Without(a, 0), b', key);
      KeysPastRemoved(a, b, j, key);
    }
  }

  /** When `b[j]` carries the largest key and the rows after the heads agree key by
      key once `a[0]` and `b[j]` are taken out, the whole orderings agree: the rows
      of `b` before `j` all carry that largest key too. */
  lemma KeysPastRemoved(a: seq<Row>, b: seq<Row>, j: nat, key: Row -> int)
    requires SortedDesc(b, key) && |a| == |b| && j < |b|
    requires key(a[0]) == key(b[0]) == key(b[j])
    requires forall i :: 0 <= i < |a| - 1 ==> key(Without(a, 0)[i]) == key(Without(b, j)[i])
    ensures forall i :: 0 <= i < |a| ==> key(a[i]) == key(b[i])
  {
    forall i | 1 <= i < |a| ensures key(a[i]) == key(b[i]) {
      assert Without(a, 0)[i - 1] == a[i];
      if i <= j {
        assert Without(b, j)[i - 1] == b[i - 1];
        assert key(b[0]) >= key(b[i - 1]) >= key(b[j]);
        assert key(b[0]) >= key(b[i]) >= key(b[j]);
      } else {
        assert Without(b, j)[i - 1] == b[i];
      }
    }
  }

  /** The rows without the one at position `j`. */
  function Without(s: seq<Row>, j: nat): (r: seq<Row>)
    requires j < |s|
    ensures |r| == |s| - 1
    ensures forall p :: 0 <= p < |r| ==> r[p] == s[if p < j then p else p + 1]
  {
    s[..j] + s[j + 1..]
  }

  /** Taking one row out leaves the others sorted and removes exactly that row. */
  lemma WithoutKeepsOrder(s: seq<Row>, j: nat, key: Row -> int)
    requires j < |s| && SortedDesc(s, key)
    ensures SortedDesc(Without(s, j), key)
    ensures multiset(Without(s, j)) == multiset(s) - multiset{s[j]}
  {
    assert s == s[..j] + [s[j]] + s[j + 1..];
  }

  /** Sorted orderings of the same rows start with the same key: the largest. */
  lemma HeadKeys(a: seq<Row>, b: seq<Row>, key: Row -> int)
    requires SortedDesc(a, key) && SortedDesc(b, key)
    requires multiset(a) == multiset(b) && |a| > 0 && |b| > 0
    ensures key(a[0]) == key(b[0])
  {
    assert a[0] in multiset(b);
    var j :| 0 <= j < |b| && b[j] == a[0];
    assert b[0] in multiset(a);
    var m :| 0 <= m < |a| && a[m] == b[0];
  }

  /** `queryset[:n]` for `n >= 0`. */
  function Take(rows: seq<Row>, n: nat): (r: seq<Row>)
    ensures |r| == if n < |rows| then n else |rows|
    ensures r == rows[..|r|]
  {
    if n < |rows| then rows[..n] else rows
  }

  /** Why slicing a queryset raised. */
  datatype SliceError = NegativeIndexing

  /** `queryset[:limit]` for any integer: Django refuses a negative bound (it
      raises instead of counting from the end as a list would). */
  function Slice(rows: seq<Row>, limit: int): (r: Result<seq<Row>, SliceError>)
    ensures r.Err? <==> limit < 0
    ensures r.Ok? ==> r.value == Take(rows, limit)
  {
    if limit < 0 then Err(NegativeIndexing) else Ok(Take(rows, limit))
  }

  /** filter, then order by `key` (largest first), then take `n`. */
  function TopN(rows: seq<Row>, keep: Row -> bool, key: Row -> int, n: nat): seq<Row> {
    Take(SortDesc(Filter(rows, keep), key), n)
  }

  /** Which rows a filter-order-take query returns: only admitted rows of the
      table, at most `n` of them, and all admitted rows when fewer than `n` are. */
  lemma TopNSelection(rows: seq<Row>, keep: Row -> bool, key: Row -> int, n: nat, r: seq<Row>)
    requires r == TopN(rows, keep, key, n)
    ensures forall k :: 0 <= k < |r| ==> keep(r[k]) && r[k] in rows
    ensures |r| <= n
    ensures |r| == (if n < |Filter(rows, keep)| then n else |Filter(rows, keep)|)
    ensures |r| == n || forall x :: x in rows && keep(x) ==> x in r
  {
    var f := Filter(rows, keep);
    var s := SortDesc(f, key);
    forall k | 0 <= k < |r| ensures keep(r[k]) && r[k] in rows {
      assert r[k] == s[k];
      assert s[k] in multiset(s);
      assert s[k] in multiset(f);
    }
    if |r| < n {
      forall x | x in rows && keep(x) ensures x in r {
        assert x in multiset(f);
        assert x in multiset(s);
      }
    }
  }

  /** In what order a filter-order-take query returns its rows: highest key first,
      and no admitted row left out ranks above one that was returned. */
  lemma TopNOrder(rows: seq<Row>, keep: Row -> bool, key: Row -> int, n: nat, r: seq<Row>)
    requires r == TopN(rows, keep, key, n)
    ensures SortedDesc(r, key)
    ensures forall x, k :: x in rows && keep(x) && x !in r && 0 <= k < |r| ==> key(x) <= key(r[k])
  {
    var f := Filter(rows, keep);
    var s := SortDesc(f, key);
    forall x, k | x in rows && keep(x) && x !in r && 0 <= k < |r| ensures key(x) <= key(r[k]) {
      assert x in multiset(f);
      assert x in multiset(s);
      var i :| 0 <= i < |s| && s[i] == x;
      assert r[k] == s[k];
    }
  }
}
