/** Numbered migrations: which of the known ones are still to be run. */
module NextMigration {
  import opened Wrappers

  predicate Ascending(s: seq<int>) { forall i, j :: 0 <= i < j < |s| ==> s[i] <= s[j] }

  /** The entries of ms above c. */
  function Above(ms: seq<int>, c: int): multiset<int>
  {
    if ms == [] then multiset{} else Above(ms[..|ms| - 1], c) + if c < ms[|ms| - 1] then multiset{ms[|ms| - 1]} else multiset{}
  }

  /** What the next migrations are: all entries above the current one, each as often as it is
      listed, in ascending order; nil when there is none. */
  ghost predicate IsNext(c: int, ms: seq<int>, r: Option<seq<int>>)
  {
    match r
    case None => Above(ms, c) == multiset{}
    case Some(s) => s != [] && Ascending(s) && multiset(s) == Above(ms, c)
  }

  class Config {
    var migration: int

    constructor (migration: int)
      ensures this.migration == migration
    {
      this.migration := migration;
    }

    /** The caller's slice is copied, and the copy sorted and cut; the caller's stays as it is. */
    method NextMigrations(migrations: array<int>) returns (r: Option<seq<int>>)
      ensures IsNext(migration, migrations[..], r)
    {
      var sorted := new int[migrations.Length];
      for i := 0 to migrations.Length
        invariant sorted[..i] == migrations[..i]
      {
        sorted[i] := migrations[i];
      }
      assert sorted[..] == migrations[..];
      SortStable(sorted);
      AboveOfPermutation(sorted[..], migrations[..], migration);
      for i := 0 to sorted.Length
        invariant forall k :: 0 <= k < i ==> sorted[k] <= migration
      {
        if migration < sorted[i] {
          AboveOfSorted(sorted[..], migration, i);
          return Some(sorted[i..]);
        }
      }
      AboveOfSorted(sorted[..], migration, sorted.Length);
      r := None;
    }
  }

  /** The standard library's stable sort, here by insertion. */
  method SortStable(a: array<int>)
    modifies a
    ensures Ascending(a[..]) && multiset(a[..]) == multiset(old(a[..]))
  {
    for i := 0 to a.Length
      invariant forall k, l :: 0 <= k < l < i ==> a[k] <= a[l]
      invariant multiset(a[..]) == multiset(old(a[..]))
    {
      var j := i;
      while 0 < j && a[j] < a[j - 1]
        invariant 0 <= j <= i
        invariant forall k, l :: 0 <= k < l <= i && l != j ==> a[k] <= a[l]
        invariant multiset(a[..]) == multiset(old(a[..]))
      {
        a[j], a[j - 1] := a[j - 1], a[j];
        j := j - 1;
      }
    }
  }

  lemma {:induction false} AboveCounts(ms: seq<int>, c: int, x: int)
    ensures Above(ms, c)[x] == if c < x then multiset(ms)[x] else 0
  {
    if ms != [] {
      var n := |ms| - 1;
      AboveCounts(ms[..n], c, x);
      assert ms == ms[..n] + [ms[n]];
    }
  }

  /** That is: nil exactly when no entry is above the current one, and else ascending, with every
      number above it as often as it was listed and no other. */
  lemma NextIff(c: int, ms: seq<int>, r: Option<seq<int>>)
    ensures IsNext(c, ms, r) <==>
      match r
      case None => forall m <- ms :: m <= c
      case Some(s) =>
        && s != [] && (forall i, j :: 0 <= i < j < |s| ==> s[i] <= s[j])
        && forall x :: multiset(s)[x] == if c < x then multiset(ms)[x] else 0
  {
    CountsAbove(ms, c);
    if r.Some? && forall x :: multiset(r.value)[x] == if c < x then multiset(ms)[x] else 0 {
      assert forall x :: multiset(r.value)[x] == Above(ms, c)[x];
    }
  }

  lemma CountsAbove(ms: seq<int>, c: int)
    ensures forall x :: Above(ms, c)[x] == if c < x then multiset(ms)[x] else 0
    ensures Above(ms, c) == multiset{} <==> forall m <- ms :: m <= c
  {
    forall x ensures Above(ms, c)[x] == if c < x then multiset(ms)[x] else 0 {
      AboveCounts(ms, c, x);
    }
    if m :| m in ms && c < m {
      assert Above(ms, c)[m] == multiset(ms)[m] > 0;
    }
    if Above(ms, c) != multiset{} {
      var x :| x in Above(ms, c);
      assert x in multiset(ms) && x in ms;
    }
  }

  lemma AboveOfPermutation(ms: seq<int>, ms': seq<int>, c: int)
    requires multiset(ms) == multiset(ms')
    ensures Above(ms, c) == Above(ms', c)
  {
    forall x ensures Above(ms, c)[x] == Above(ms', c)[x] {
      AboveCounts(ms, c, x);
      AboveCounts(ms', c, x);
    }
  }

  /** In a sorted list the entries above c are its end. */
  lemma AboveOfSorted(s: seq<int>, c: int, i: nat)
    requires i <= |s| && Ascending(s)
    requires (forall k :: 0 <= k < i ==> s[k] <= c) && (i < |s| ==> c < s[i])
    ensures Above(s, c) == multiset(s[i..]) && Ascending(s[i..])
  {
    assert s == s[..i] + s[i..];
    assert forall k :: i <= k < |s| ==> c < s[k];
    forall x ensures Above(s, c)[x] == multiset(s[i..])[x] {
      AboveCounts(s, c, x);
      SplitCounts(s[..i], s[i..], c, x);
    }
  }

  lemma SplitCounts(low: seq<int>, high: seq<int>, c: int, x: int)
    requires (forall m <- low :: m <= c) && forall m <- high :: c < m
    ensures multiset(high)[x] == if c < x then multiset(low + high)[x] else 0
  {
    if c < x {
      assert x !in low;
    } else {
      assert x !in high;
    }
  }

  lemma FirstIsLeast(s: seq<int>, t: seq<int>)
    requires Ascending(s) && Ascending(t) && multiset(s) == multiset(t) && s != [] && t != []
    ensures s[0] <= t[0]
  {
    assert t[0] in multiset(s);
    var i :| 0 <= i < |s| && s[i] == t[0];
  }

  lemma TailBag(s: seq<int>)
    requires s != []
    ensures multiset(s[1..]) == multiset(s) - multiset{s[0]}
  {
    assert s == [s[0]] + s[1..];
  }

  lemma {:induction false} AscendingIsUnique(s: seq<int>, t: seq<int>)
    requires Ascending(s) && Ascending(t) && multiset(s) == multiset(t)
    ensures s == t
  {
    assert |multiset(s)| == |s| && |multiset(t)| == |t|;
    if s != [] {
      FirstIsLeast(s, t);
      FirstIsLeast(t, s);
      TailBag(s);
      TailBag(t);
      AscendingIsUnique(s[1..], t[1..]);
      assert s == [s[0]] + s[1..] && t == [t[0]] + t[1..];
    }
  }

  /** The next migrations are determined by what they are. */
  lemma NextIsUnique(c: int, ms: seq<int>, r: Option<seq<int>>, r': Option<seq<int>>)
    requires IsNext(c, ms, r) && IsNext(c, ms, r')
    ensures r == r'
  {
    if r.Some? && r'.Some? {
      AscendingIsUnique(r.value, r'.value);
    }
  }

  function Rest(s: seq<int>, k: nat): Option<seq<int>>
    requires k < |s|
  {
    if k + 1 == |s| then None else Some(s[k + 1..])
  }

  lemma AboveHigher(ms: seq<int>, s: seq<int>, c: int, d: int)
    requires multiset(s) == Above(ms, c) && c <= d
    ensures Above(ms, d) == Above(s, d)
  {
    forall x ensures Above(ms, d)[x] == Above(s, d)[x] {
      AboveCounts(ms, d, x);
      AboveCounts(ms, c, x);
      AboveCounts(s, d, x);
    }
  }

  lemma ListedAreAbove(ms: seq<int>, s: seq<int>, c: int, k: nat)
    requires multiset(s) == Above(ms, c) && k < |s|
    ensures c < s[k]
  {
    assert s[k] in multiset(s);
    AboveCounts(ms, c, s[k]);
  }

  lemma ResumesAfter(c: int, ms: seq<int>, s: seq<int>, k: nat)
    requires IsNext(c, ms, Some(s)) && k < |s| && (k + 1 == |s| || s[k] < s[k + 1])
    ensures IsNext(s[k], ms, Rest(s, k))
  {
    ListedAreAbove(ms, s, c, k);
    AboveHigher(ms, s, c, s[k]);
    AboveOfSorted(s, s[k], k + 1);
  }

  /** After the k-th next migration is recorded, the following call returns the rest of the list
      exactly when the same number is not listed again. */
  lemma ResumesAfterIff(c: int, ms: seq<int>, s: seq<int>, k: nat)
    requires IsNext(c, ms, Some(s)) && k < |s|
    ensures IsNext(s[k], ms, Rest(s, k)) <==> k + 1 == |s| || s[k] < s[k + 1]
  {
    if k + 1 == |s| || s[k] < s[k + 1] {
      ResumesAfter(c, ms, s, k);
    } else {
      AboveCounts(ms, s[k], s[k]);
      assert s[k + 1..][0] == s[k];
      assert s[k] in multiset(s[k + 1..]);
    }
  }
}
