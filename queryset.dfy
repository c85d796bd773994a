/** The query-set primitives the handlers and the delete rules are built from: `filter()` keeps
    the rows that match a condition, in their order; `get()` picks the row that matches one; and
    a saved edit rewrites the matching rows in place. */
module QuerySet {

  datatype Option<T> = None | Some(value: T)

  /** A relation holds between every row and every later row. */
  ghost predicate Pairwise<T>(s: seq<T>, rel: (T, T) -> bool) {
    forall i, j :: 0 <= i < j < |s| ==> rel(s[i], s[j])
  }

  predicate NotEqual<T(==)>(a: T, b: T) { a != b }

  /** No row appears twice. */
  ghost predicate Distinct<T>(s: seq<T>) {
    Pairwise(s, NotEqual)
  }

  /** `filter(...)`: the rows of `s` that satisfy `keep`, in their original order. */
  function Filter<T(!new)>(s: seq<T>, keep: T -> bool): (r: seq<T>)
    ensures |r| <= |s|
    ensures forall x :: x in r <==> x in s && keep(x)
  {
    if s == [] then []
    else if keep(s[0]) then [s[0]] + Filter(s[1..], keep)
    else Filter(s[1..], keep)
  }

  /** A filter that keeps every row returns the rows unchanged. */
  lemma {:induction false} FilterKeepsAll<T(!new)>(s: seq<T>, keep: T -> bool)
    requires forall x :: x in s ==> keep(x)
    ensures Filter(s, keep) == s
  {
    if s != [] {
      FilterKeepsAll(s[1..], keep);
    }
  }

  /** Filtering keeps the relative order of the rows it keeps, so any relation between earlier
      and later rows survives it (an ordering, distinct keys, ...). */
  lemma {:induction false} FilterPairwise<T(!new)>(s: seq<T>, keep: T -> bool, rel: (T, T) -> bool)
    ensures Pairwise(s, rel) ==> Pairwise(Filter(s, keep), rel)
  {
    if s != [] && Pairwise(s, rel) {
      FilterPairwise(s[1..], keep, rel);
      var tail := Filter(s[1..], keep);
      assert Pairwise(s[1..], rel) by {
        forall i, j | 0 <= i < j < |s[1..]| ensures rel(s[1..][i], s[1..][j]) {
          assert s[1..][i] == s[i + 1] && s[1..][j] == s[j + 1];
        }
      }
      if keep(s[0]) {
        var r := [s[0]] + tail;
        forall i, j | 0 <= i < j < |r| ensures rel(r[i], r[j]) {
          if i == 0 {
            assert r[j] == tail[j - 1];
            assert r[j] in s[1..];
            var k :| 0 <= k < |s[1..]| && s[1..][k] == r[j];
            assert s[k + 1] == r[j];
          } else {
            assert r[i] == tail[i - 1] && r[j] == tail[j - 1];
          }
        }
      }
    }
  }

  /** `get(...)`: the row that satisfies `cond`, None when no row does (where
      `get_object_or_404` answers Not Found). Every lookup is on a unique column, so at most one
      row matches. */
  function Get<T(!new)>(s: seq<T>, cond: T -> bool): (r: Option<T>)
    ensures r.Some? <==> exists x :: x in s && cond(x)
    ensures r.Some? ==> r.value in s && cond(r.value)
  {
    if s == [] then None
    else if cond(s[0]) then Some(s[0])
    else Get(s[1..], cond)
  }

  /** Saving an edited row: the rows that satisfy `cond` are replaced by `edit` of them, the others
      stay, and no row is added, dropped or moved. */
  function Update<T>(s: seq<T>, cond: T -> bool, edit: T -> T): (r: seq<T>)
    ensures |r| == |s|
    ensures forall i :: 0 <= i < |s| && cond(s[i]) ==> r[i] == edit(s[i])
    ensures forall i :: 0 <= i < |s| && !cond(s[i]) ==> r[i] == s[i]
  {
    seq(|s|, i requires 0 <= i < |s| => if cond(s[i]) then edit(s[i]) else s[i])
  }

  /** Rows without repetition are as many as the distinct values among them: counting the rows of
      a table with a uniqueness constraint counts its distinct entries. */
  lemma {:induction false} CountDistinct<T>(s: seq<T>)
    requires Distinct(s)
    ensures |set x | x in s| == |s|
  {
    if s != [] {
      assert Distinct(s[1..]) by {
        forall i, j | 0 <= i < j < |s[1..]| ensures NotEqual(s[1..][i], s[1..][j]) {
          assert s[1..][i] == s[i + 1] && s[1..][j] == s[j + 1];
        }
      }
      CountDistinct(s[1..]);
      forall k | 0 <= k < |s[1..]| ensures s[1..][k] != s[0] {
        assert NotEqual(s[0], s[k + 1]);
      }
      assert (set x | x in s) == {s[0]} + (set x | x in s[1..]);
    }
  }

  /** `filter(...).count()` over rows without repetition counts the distinct matching rows. */
  lemma CountFilter<T(!new)>(s: seq<T>, keep: T -> bool)
    ensures Distinct(s) ==> |Filter(s, keep)| == |Matching(s, keep)|
  {
    if Distinct(s) {
      var r := Filter(s, keep);
      FilterPairwise(s, keep, NotEqual);
      CountDistinct(r);
      assert (set x | x in r) == Matching(s, keep);
    }
  }

  /** The distinct rows of `s` that satisfy `keep`. */
  ghost function Matching<T(!new)>(s: seq<T>, keep: T -> bool): set<T> {
    set x | x in s && keep(x)
  }
}
