/** Names ranked by the stamp of their last use. Both bounded stores of the program keep the best
    ranked names: branch baselines (at most 12) and parse sessions (at most 4). */
module Recency {
  type Name = string
  type Stamps = map<Name, nat>

  /** The byte order of names, in which an ordered map is iterated. */
  predicate Before(a: Name, b: Name) {
    |b| > 0 && (|a| == 0 || a[0] < b[0] || (a[0] == b[0] && Before(a[1..], b[1..])))
  }

  /** The order of bytes: the names differ first at some place, where `a` ends or has the lower byte. */
  lemma {:induction false} BeforeExactly(a: Name, b: Name)
    ensures Before(a, b) <==>
            exists n: nat {:trigger a[..n]} | n <= |a| && n < |b| && a[..n] == b[..n] :: n == |a| || a[n] < b[n]
  {
    if |b| > 0 && |a| > 0 && a[0] == b[0] {
      BeforeExactly(a[1..], b[1..]);
      if Before(a, b) {
        var n: nat :| n <= |a| - 1 && n < |b| - 1 && a[1..][..n] == b[1..][..n] && (n == |a| - 1 || a[1..][n] < b[1..][n]);
        assert a[..n + 1] == [a[0]] + a[1..][..n] && b[..n + 1] == [b[0]] + b[1..][..n];
      }
      if n: nat :| n <= |a| && n < |b| && a[..n] == b[..n] && (n == |a| || a[n] < b[n]) {
        assert a[1..][..n - 1] == a[..n][1..] && b[1..][..n - 1] == b[..n][1..];
      }
    } else if Before(a, b) {
      assert a[..0] == b[..0];
    } else {
      forall n: nat | 0 < n <= |a| && n < |b| ensures a[..n] != b[..n] {
        assert a[..n][0] == a[0] && b[..n][0] == b[0];
      }
    }
  }

  lemma {:induction false} BeforeIsTotal(a: Name, b: Name)
    ensures a == b || Before(a, b) || Before(b, a)
    ensures !(Before(a, b) && Before(b, a))
    ensures a == b ==> !Before(a, b)
  {
    if |a| > 0 && |b| > 0 {
      BeforeIsTotal(a[1..], b[1..]);
      assert a == [a[0]] + a[1..] && b == [b[0]] + b[1..];
    }
  }

  lemma {:induction false} BeforeIsTransitive(a: Name, b: Name, c: Name)
    requires Before(a, b) && Before(b, c)
    ensures Before(a, c)
  {
    if |a| > 0 && a[0] == b[0] == c[0] {
      BeforeIsTransitive(a[1..], b[1..], c[1..]);
    }
  }

  /** `a` was stamped after `b`; equal stamps fall back on the order of names, as a stable sort does. */
  predicate Newer(s: Stamps, a: Name, b: Name)
    requires a in s && b in s
  {
    s[a] > s[b] || (s[a] == s[b] && Before(b, a))
  }

  ghost function NewerThan(s: Stamps, b: Name): set<Name>
    requires b in s
  {
    set c | c in s && Newer(s, c, b)
  }

  /** A name is stale when at least `cap` others are newer. */
  ghost function Stale(s: Stamps, cap: nat): set<Name> {
    set b | b in s && |NewerThan(s, b)| >= cap
  }

  ghost function Top(s: Stamps, cap: nat): Stamps {
    s - Stale(s, cap)
  }

  lemma NewerIsTotal(s: Stamps, a: Name, b: Name)
    requires a in s && b in s
    ensures a == b || Newer(s, a, b) || Newer(s, b, a)
    ensures !(Newer(s, a, b) && Newer(s, b, a))
    ensures a == b ==> !Newer(s, a, b)
  {
    BeforeIsTotal(a, b);
  }

  lemma NewerIsTransitive(s: Stamps, a: Name, b: Name, c: Name)
    requires a in s && b in s && c in s && Newer(s, a, b) && Newer(s, b, c)
    ensures Newer(s, a, c)
  {
    if s[a] == s[b] == s[c] {
      BeforeIsTransitive(c, b, a);
    }
  }

  lemma SubsetSize<T>(a: set<T>, b: set<T>)
    requires a <= b
    ensures |a| <= |b|
  {
    assert b == a + (b - a);
  }

  // ---------------------------------------------------------------- sorted enumerations

  /** `order` lists exactly the names of `s`, oldest first. */
  ghost predicate Sorted(s: Stamps, order: seq<Name>) {
    && (forall i | 0 <= i < |order| :: order[i] in s)
    && (forall i, j | 0 <= i < j < |order| :: Newer(s, order[j], order[i]))
  }

  ghost predicate Lists(s: Stamps, order: seq<Name>) {
    Sorted(s, order) && forall k | k in s :: k in order
  }

  /** One insertion step of the recency sort. */
  function Insert(s: Stamps, order: seq<Name>, k: Name): (r: seq<Name>)
    requires k in s && forall i | 0 <= i < |order| :: order[i] in s
    ensures forall x :: x in r <==> x == k || x in order
  {
    if |order| == 0 || Newer(s, order[0], k) then [k] + order
    else [order[0]] + Insert(s, order[1..], k)
  }

  lemma {:induction false} InsertSorts(s: Stamps, order: seq<Name>, k: Name)
    requires k in s && Sorted(s, order) && k !in order
    ensures Sorted(s, Insert(s, order, k))
  {
    var r := Insert(s, order, k);
    if |order| == 0 {
    } else if Newer(s, order[0], k) {
      forall j | 0 <= j < |order| ensures Newer(s, order[j], k) {
        if j > 0 { NewerIsTransitive(s, order[j], order[0], k); }
      }
    } else {
      InsertSorts(s, order[1..], k);
      NewerIsTotal(s, k, order[0]);
      var rest := Insert(s, order[1..], k);
      forall j | 0 <= j < |rest| ensures Newer(s, rest[j], order[0]) {
        assert rest[j] in rest;
        if rest[j] != k {
          var i :| 0 <= i < |order| - 1 && order[1..][i] == rest[j];
        }
      }
    }
  }

  /** The names after position `i` of an enumeration are the ones newer than the name at `i`. */
  lemma RankIsPosition(s: Stamps, order: seq<Name>, i: nat)
    requires Lists(s, order) && i < |order|
    ensures |NewerThan(s, order[i])| == |order| - 1 - i
  {
    var later := order[i + 1..];
    forall x ensures x in NewerThan(s, order[i]) <==> x in later {
      if x in NewerThan(s, order[i]) {
        var j :| 0 <= j < |order| && order[j] == x;
        NewerIsTotal(s, order[i], x);
        assert j > i;
        assert later[j - i - 1] == x;
      }
      if x in later {
        var j :| 0 <= j < |later| && later[j] == x;
        assert order[i + 1 + j] == x;
      }
    }
    assert NewerThan(s, order[i]) == set x | x in later;
    forall a, b | 0 <= a < b < |later| ensures later[a] != later[b] {
      NewerIsTotal(s, order[i + 1 + b], order[i + 1 + a]);
    }
    DistinctSize(later);
  }

  lemma {:induction false} DistinctSize<T>(q: seq<T>)
    requires forall i, j | 0 <= i < j < |q| :: q[i] != q[j]
    ensures |set x | x in q| == |q|
  {
    if q != [] {
      DistinctSize(q[1..]);
      assert (set x | x in q) == {q[0]} + set x | x in q[1..];
    }
  }

  lemma SortedDistinct(s: Stamps, order: seq<Name>)
    requires Sorted(s, order)
    ensures forall i, j | 0 <= i < j < |order| :: order[i] != order[j]
  {
    forall i, j | 0 <= i < j < |order| ensures order[i] != order[j] {
      NewerIsTotal(s, order[j], order[i]);
    }
  }

  lemma ListsSize(s: Stamps, order: seq<Name>)
    requires Lists(s, order)
    ensures |order| == |s|
  {
    SortedDistinct(s, order);
    DistinctSize(order);
    assert s.Keys == set x | x in order;
  }

  /** Dropping a prefix of the enumeration is dropping the stale names. */
  lemma StaleIsPrefix(s: Stamps, order: seq<Name>, cap: nat)
    requires Lists(s, order)
    ensures var n := if |s| <= cap then 0 else |s| - cap;
            n <= |order| && Stale(s, cap) == set x | x in order[..n]
  {
    ListsSize(s, order);
    var n := if |s| <= cap then 0 else |s| - cap;
    forall x ensures x in Stale(s, cap) <==> x in order[..n] {
      if x in s {
        var i :| 0 <= i < |order| && order[i] == x;
        RankIsPosition(s, order, i);
        if i < n {
          assert order[..n][i] == x;
        } else if x in order[..n] {
          var j :| 0 <= j < n && order[j] == x;
          SortedDistinct(s, order);
        }
      }
    }
  }

  lemma {:induction false} CanList(s: Stamps) returns (order: seq<Name>)
    ensures Lists(s, order)
    decreases |s|
  {
    order := [];
    var todo := s.Keys;
    while todo != {}
      invariant todo <= s.Keys && Sorted(s, order)
      invariant forall k | k in s :: (k in order <==> k !in todo)
    {
      var k :| k in todo;
      InsertSorts(s, order, k);
      order := Insert(s, order, k);
      todo := todo - {k};
    }
  }

  /** The size of a pruned map is the smaller of `cap` and its size before. */
  lemma TopSize(s: Stamps, cap: nat)
    ensures |Top(s, cap)| == if |s| <= cap then |s| else cap
  {
    var order := CanList(s);
    StaleIsPrefix(s, order, cap);
    ListsSize(s, order);
    var n := if |s| <= cap then 0 else |s| - cap;
    SortedDistinct(s, order);
    DistinctSize(order[..n]);
    assert Top(s, cap).Keys == s.Keys - Stale(s, cap);
    assert Stale(s, cap) <= s.Keys;
    assert |s.Keys - Stale(s, cap)| == |s.Keys| - |Stale(s, cap)|;
  }

  // ---------------------------------------------------------------- pruning as you go

  lemma NewerStaysInTop(s: Stamps, cap: nat, a: Name, b: Name)
    requires b in Top(s, cap) && a in s && Newer(s, a, b)
    ensures a in Top(s, cap)
  {
    forall c | c in NewerThan(s, a) ensures c in NewerThan(s, b) {
      NewerIsTransitive(s, c, a, b);
    }
    SubsetSize(NewerThan(s, a), NewerThan(s, b));
  }

  lemma RankInTop(full: Stamps, cap: nat, k: Name, t: nat, b: Name)
    requires b in Top(full, cap)[k := t]
    requires k in full ==> full[k] <= t
    ensures var top' := Top(full, cap)[k := t];
            var full' := full[k := t];
            && NewerThan(top', b) <= NewerThan(full', b)
            && (b in Top(full', cap) || b in Top(top', cap) ==> NewerThan(top', b) == NewerThan(full', b))
  {
    var top, top', full' := Top(full, cap), Top(full, cap)[k := t], full[k := t];
    assert NewerThan(top', b) <= NewerThan(full', b);
    if b != k {
      forall c | c in NewerThan(full', b) ensures c in NewerThan(top', b) {
        if c != k { NewerStaysInTop(full, cap, c, b); }
      }
      assert NewerThan(top', b) == NewerThan(full', b);
    } else if NewerThan(top', k) != NewerThan(full', k) {
      // Some name newer than `k` was stale already, so at least `cap` kept names are newer than `k`.
      var c :| c in NewerThan(full', k) && c !in NewerThan(top', k);
      assert c != k && c in Stale(full, cap);
      StaleHasKeptWitnesses(full, cap, c);
      var kept := set d | d in top && Newer(full, d, c);
      forall d | d in kept ensures d in NewerThan(top', k) {
        if d == k {
          NewerIsTotal(full', c, k);
          NewerIsTotal(full, c, k);
        } else {
          assert Newer(full', d, c);
          NewerIsTransitive(full', d, c, k);
        }
      }
      SubsetSize(kept, NewerThan(top', k));
      SubsetSize(NewerThan(top', k), NewerThan(full', k));
    }
  }

  /** Every stale name has `cap` kept names above it. */
  lemma StaleHasKeptWitnesses(s: Stamps, cap: nat, c: Name)
    requires c in Stale(s, cap)
    ensures |set d | d in Top(s, cap) && Newer(s, d, c)| >= cap
  {
    var order := CanList(s);
    ListsSize(s, order);
    StaleIsPrefix(s, order, cap);
    var i :| 0 <= i < |order| && order[i] == c;
    RankIsPosition(s, order, i);
    var tail := order[|s| - cap..];
    TailIsNewer(s, order, cap, i);
    SortedDistinct(s, order);
    DistinctSize(tail);
    SubsetSize(set d | d in tail, set d | d in Top(s, cap) && Newer(s, d, c));
  }

  lemma TailIsNewer(s: Stamps, order: seq<Name>, cap: nat, i: nat)
    requires Lists(s, order) && |order| == |s| && i < |s| && cap + i < |s|
    ensures forall d | d in order[|s| - cap..] :: d in Top(s, cap) && Newer(s, d, order[i])
  {
    var n := |s| - cap;
    forall d | d in order[n..] ensures d in Top(s, cap) && Newer(s, d, order[i]) {
      var j :| 0 <= j < cap && order[n..][j] == d;
      RankIsPosition(s, order, n + j);
      assert order[n + j] == d;
    }
  }

  /** Pruning after every write loses nothing: the pruned store restamped and pruned is the store of
      all names ever written, restamped and pruned once. Only a name's own stamps must not go back. */
  lemma PruneAsYouGo(full: Stamps, cap: nat, k: Name, t: nat)
    requires k in full ==> full[k] <= t
    ensures Top(Top(full, cap)[k := t], cap) == Top(full[k := t], cap)
  {
    var top', full' := Top(full, cap)[k := t], full[k := t];
    forall b ensures b in Top(top', cap) <==> b in Top(full', cap) {
      if b in top' {
        RankInTop(full, cap, k, t, b);
      } else if b in full' {
        assert b in Stale(full, cap) && b != k;
        forall c | c in NewerThan(full, b) ensures c in NewerThan(full', b) {
        }
        SubsetSize(NewerThan(full, b), NewerThan(full', b));
      }
    }
  }
}
