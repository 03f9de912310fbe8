/** The version order of tag names. Both resolvers compare tags with
    `comparing(DefaultArtifactVersion::new)`; the Maven comparison itself is
    not modelled, only that it is a total preorder: `le(a, b)` stands for
    `compare(a, b) <= 0`. The Gradle resolver sorts the head tags by it with a
    stable sort (`Stream.sorted`), modelled here by insertion sort. */
module VersionOrder {
  import opened Wrappers
  import opened Search

  ghost predicate TotalPreorder(le: (string, string) -> bool) {
    && (forall a, b :: le(a, b) || le(b, a))
    && (forall a, b, c :: le(a, b) && le(b, c) ==> le(a, c))
  }

  ghost predicate Sorted(xs: seq<string>, le: (string, string) -> bool) {
    forall i, j :: 0 <= i < j < |xs| ==> le(xs[i], xs[j])
  }

  /** Inserts `x` in front of the first element it is not above; `x` goes before
      elements equal to it, which keeps the sort stable. */
  function Insert(x: string, ys: seq<string>, le: (string, string) -> bool): (r: seq<string>)
    ensures multiset(r) == multiset(ys) + multiset{x}
  {
    if ys == [] || le(x, ys[0]) then [x] + ys
    else
      assert ys == [ys[0]] + ys[1..];
      [ys[0]] + Insert(x, ys[1..], le)
  }

  /** `tags.stream().sorted(comparing(DefaultArtifactVersion::new))`. */
  function SortByVersion(xs: seq<string>, le: (string, string) -> bool): (r: seq<string>)
    ensures multiset(r) == multiset(xs)
  {
    if xs == [] then []
    else
      assert xs == [xs[0]] + xs[1..];
      Insert(xs[0], SortByVersion(xs[1..], le), le)
  }

  lemma {:induction false} InsertSorted(x: string, ys: seq<string>, le: (string, string) -> bool)
    requires TotalPreorder(le) && Sorted(ys, le)
    ensures Sorted(Insert(x, ys, le), le)
  {
    if ys == [] || le(x, ys[0]) {
      var r := [x] + ys;
      forall i, j | 0 <= i < j < |r| ensures le(r[i], r[j]) {
        if i == 0 && 1 < j {
          assert le(x, ys[0]) && le(ys[0], ys[j - 1]);
        }
      }
    } else {
      var rest := Insert(x, ys[1..], le);
      InsertSorted(x, ys[1..], le);
      assert le(ys[0], x);
      forall k | 0 <= k < |rest| ensures le(ys[0], rest[k]) {
        assert rest[k] in multiset(rest);
        if rest[k] != x {
          assert rest[k] in multiset(ys[1..]);
          var j :| 0 <= j < |ys[1..]| && ys[1..][j] == rest[k];
          assert le(ys[0], ys[j + 1]);
        }
      }
    }
  }

  /** The sorted tags are in ascending version order. */
  lemma {:induction false} SortByVersionSorted(xs: seq<string>, le: (string, string) -> bool)
    requires TotalPreorder(le)
    ensures Sorted(SortByVersion(xs, le), le)
  {
    if xs != [] {
      SortByVersionSorted(xs[1..], le);
      InsertSorted(xs[0], SortByVersion(xs[1..], le), le);
    }
  }

  /** In a sorted list, the first element with a property is at or below every
      element with that property. */
  lemma FirstInSortedIsLeast(xs: seq<string>, le: (string, string) -> bool, k: nat, p: string -> bool)
    requires TotalPreorder(le) && Sorted(xs, le)
    requires k < |xs| && forall j :: 0 <= j < k ==> !p(xs[j])
    ensures forall y :: y in xs && p(y) ==> le(xs[k], y)
  {
    forall y | y in xs && p(y) ensures le(xs[k], y) {
      var j :| 0 <= j < |xs| && xs[j] == y;
      if j == k { assert le(y, y) || le(y, y); }
    }
  }

  // ---- stability: which of equally versioned tags comes first -----------

  /** The first element of `ys` that satisfies `p`. */
  function FirstAccepted(ys: seq<string>, p: string -> bool): (r: Option<string>)
    ensures r.Some? ==> FirstIndex(ys, p).Some? && r.value == ys[FirstIndex(ys, p).value]
    ensures r.None? ==> FirstIndex(ys, p).None?
  {
    if ys == [] then None
    else if p(ys[0]) then Some(ys[0])
    else FirstAccepted(ys[1..], p)
  }

  /** Independent of any sort: scanning `xs` from the back, an element that
      satisfies `p` replaces the one kept so far when it is at or below it, so
      among equally low elements the earliest wins. */
  function FirstLeast(xs: seq<string>, le: (string, string) -> bool, p: string -> bool): Option<string> {
    if xs == [] then None
    else
      var rest := FirstLeast(xs[1..], le, p);
      if p(xs[0]) && (rest.None? || le(xs[0], rest.value)) then Some(xs[0]) else rest
  }

  /** FirstLeast finds an element of `xs` with `p` that is at or below every
      such element, and no earlier element with `p` is at or below it. */
  lemma {:induction false} FirstLeastIsEarliestLeast(xs: seq<string>, le: (string, string) -> bool, p: string -> bool)
    requires TotalPreorder(le)
    ensures FirstLeast(xs, le, p).None? <==> forall j :: 0 <= j < |xs| ==> !p(xs[j])
    ensures FirstLeast(xs, le, p).Some? ==>
      exists m :: 0 <= m < |xs| && xs[m] == FirstLeast(xs, le, p).value && p(xs[m]) &&
        (forall j :: 0 <= j < |xs| && p(xs[j]) ==> le(xs[m], xs[j])) &&
        (forall j :: 0 <= j < m && p(xs[j]) ==> !le(xs[j], xs[m]))
  {
    if xs != [] {
      var rest := FirstLeast(xs[1..], le, p);
      FirstLeastIsEarliestLeast(xs[1..], le, p);
      if p(xs[0]) && (rest.None? || le(xs[0], rest.value)) {
        forall j | 0 <= j < |xs| && p(xs[j]) ensures le(xs[0], xs[j]) {
          if j > 0 {
            assert xs[1..][j - 1] == xs[j];
            var m' :| 0 <= m' < |xs[1..]| && xs[1..][m'] == rest.value &&
              forall j' :: 0 <= j' < |xs[1..]| && p(xs[1..][j']) ==> le(xs[1..][m'], xs[1..][j']);
            assert le(rest.value, xs[j]);
          }
        }
      } else if rest.Some? {
        var m' :| 0 <= m' < |xs[1..]| && xs[1..][m'] == rest.value && p(xs[1..][m']) &&
          (forall j :: 0 <= j < |xs[1..]| && p(xs[1..][j]) ==> le(xs[1..][m'], xs[1..][j])) &&
          (forall j :: 0 <= j < m' && p(xs[1..][j]) ==> !le(xs[1..][j], xs[1..][m']));
        var m := m' + 1;
        forall j | 0 <= j < |xs| && p(xs[j]) ensures le(xs[m], xs[j]) {
          if j > 0 { assert xs[1..][j - 1] == xs[j]; }
        }
        forall j | 0 <= j < m && p(xs[j]) ensures !le(xs[j], xs[m]) {
          if j > 0 { assert xs[1..][j - 1] == xs[j]; }
        }
      } else {
        forall j | 0 < j < |xs| ensures !p(xs[j]) {
          assert xs[1..][j - 1] == xs[j];
        }
      }
    }
  }

  /** The first element with `p` after inserting `x` into a sorted list: `x`
      when it has `p` and is at or below the former first one. */
  lemma {:induction false} InsertFirstAccepted(x: string, ys: seq<string>, le: (string, string) -> bool, p: string -> bool)
    requires TotalPreorder(le) && Sorted(ys, le)
    ensures var f := FirstAccepted(ys, p);
      FirstAccepted(Insert(x, ys, le), p) == if p(x) && (f.None? || le(x, f.value)) then Some(x) else f
  {
    var f := FirstAccepted(ys, p);
    if ys == [] || le(x, ys[0]) {
      assert ([x] + ys)[1..] == ys;
      if p(x) && f.Some? {
        var k := FirstIndex(ys, p).value;
        assert le(ys[0], ys[k]) || k == 0;
      }
    } else {
      var r := [ys[0]] + Insert(x, ys[1..], le);
      assert r[1..] == Insert(x, ys[1..], le);
      InsertFirstAccepted(x, ys[1..], le, p);
      if !p(ys[0]) {
        assert FirstAccepted(ys, p) == FirstAccepted(ys[1..], p);
      }
    }
  }

  /** The stable sort followed by "first accepted" picks the earliest of the
      lowest accepted elements of the unsorted list. */
  lemma {:induction false} SortedFirstAcceptedIsFirstLeast(xs: seq<string>, le: (string, string) -> bool, p: string -> bool)
    requires TotalPreorder(le)
    ensures FirstAccepted(SortByVersion(xs, le), p) == FirstLeast(xs, le, p)
  {
    if xs != [] {
      SortedFirstAcceptedIsFirstLeast(xs[1..], le, p);
      SortByVersionSorted(xs[1..], le);
      InsertFirstAccepted(xs[0], SortByVersion(xs[1..], le), le, p);
    }
  }
}
