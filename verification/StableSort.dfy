/** The stable sort that keeps a configuration's points by line, device and address. */
module StableSort {
  import opened Config

  /** Strings compare character by character, a proper prefix first. */
  predicate StringLess(a: string, b: string) {
    b != "" && (a == "" || a[0] < b[0] || (a[0] == b[0] && StringLess(a[1..], b[1..])))
  }

  lemma {:induction false} StringOrder(a: string, b: string, c: string)
    ensures !StringLess(a, a)
    ensures StringLess(a, b) && StringLess(b, c) ==> StringLess(a, c)
    ensures StringLess(a, b) || StringLess(b, a) || a == b
    decreases |a| + |b| + |c|
  {
    var shorter := (s: string) => if s == "" then "" else s[1..];
    if a != "" || b != "" || c != "" {
      StringOrder(shorter(a), shorter(b), shorter(c));
    }
    if a != "" && b != "" && a[0] == b[0] && a[1..] == b[1..] {
      assert a == [a[0]] + a[1..] && b == [b[0]] + b[1..];
    }
  }

  predicate KeyLess(p: PointConfig, q: PointConfig) {
    || StringLess(p.bus, q.bus)
    || (p.bus == q.bus && (p.device < q.device || (p.device == q.device && p.address < q.address)))
  }

  predicate SameKey(p: PointConfig, q: PointConfig) {
    p.bus == q.bus && p.device == q.device && p.address == q.address
  }

  lemma KeyOrder(p: PointConfig, q: PointConfig, r: PointConfig)
    ensures !KeyLess(p, p)
    ensures KeyLess(p, q) && KeyLess(q, r) ==> KeyLess(p, r)
    ensures !KeyLess(p, q) && !KeyLess(q, r) ==> !KeyLess(p, r)
    ensures KeyLess(p, q) || KeyLess(q, p) || SameKey(p, q)
    ensures KeyLess(p, q) ==> !KeyLess(q, p) && !SameKey(p, q)
  {
    hide StringLess;
    StringOrder(p.bus, q.bus, r.bus);
    StringOrder(q.bus, p.bus, r.bus);
    StringOrder(q.bus, r.bus, p.bus);
    StringOrder(r.bus, q.bus, p.bus);
    StringOrder(p.bus, r.bus, q.bus);
    StringOrder(r.bus, p.bus, q.bus);
    StringOrder(p.bus, q.bus, p.bus);
  }

  predicate Sorted(s: seq<PointConfig>) {
    forall i, j :: 0 <= i < j < |s| ==> !KeyLess(s[j], s[i])
  }

  /** A point goes behind all that are not greater. */
  function Insert(s: seq<PointConfig>, p: PointConfig): (r: seq<PointConfig>)
    ensures |r| == |s| + 1
  {
    if s == [] || !KeyLess(p, s[|s| - 1]) then s + [p]
    else Insert(s[..|s| - 1], p) + [s[|s| - 1]]
  }

  function Sort(s: seq<PointConfig>): (r: seq<PointConfig>)
    ensures |r| == |s|
  {
    if s == [] then [] else Insert(Sort(s[..|s| - 1]), s[|s| - 1])
  }

  function Filter(keep: PointConfig -> bool, s: seq<PointConfig>): (r: seq<PointConfig>)
    ensures forall p :: p in r <==> p in s && keep(p)
  {
    if s == [] then []
    else
      var rest := Filter(keep, s[..|s| - 1]);
      if keep(s[|s| - 1]) then rest + [s[|s| - 1]] else rest
  }

  lemma SplitLast(s: seq<PointConfig>)
    requires s != []
    ensures s == s[..|s| - 1] + [s[|s| - 1]]
  {}

  lemma {:induction false} InsertElements(s: seq<PointConfig>, p: PointConfig)
    ensures multiset(Insert(s, p)) == multiset(s) + multiset{p}
    ensures forall x :: x in Insert(s, p) <==> x in s || x == p
  {
    if s != [] && KeyLess(p, s[|s| - 1]) {
      var init, last := s[..|s| - 1], s[|s| - 1];
      InsertElements(init, p);
      SplitLast(s);
      assert multiset(s) == multiset(init) + multiset{last};
      assert forall x :: x in s <==> x in init || x == last;
    }
  }

  /** Sorting rearranges: every point is there as often as before. */
  lemma {:induction false} SortElements(s: seq<PointConfig>)
    ensures multiset(Sort(s)) == multiset(s)
    ensures forall x :: x in Sort(s) <==> x in s
  {
    if s != [] {
      SortElements(s[..|s| - 1]);
      InsertElements(Sort(s[..|s| - 1]), s[|s| - 1]);
      SplitLast(s);
      assert forall x :: x in s <==> x in s[..|s| - 1] || x == s[|s| - 1];
    }
  }

  lemma {:induction false} InsertSorted(s: seq<PointConfig>, p: PointConfig)
    requires Sorted(s)
    ensures Sorted(Insert(s, p))
  {
    hide KeyLess;
    if s != [] {
      var init, last := s[..|s| - 1], s[|s| - 1];
      if KeyLess(p, last) {
        InsertSorted(init, p);
        InsertElements(init, p);
        forall i | 0 <= i < |s| ensures !KeyLess(last, Insert(init, p)[i]) {
          assert Insert(init, p)[i] in Insert(init, p);
          KeyOrder(p, last, last);
          if Insert(init, p)[i] != p {
            var j :| 0 <= j < |init| && init[j] == Insert(init, p)[i];
            assert s[j] == init[j];
          }
        }
      } else {
        forall i | 0 <= i < |s| ensures !KeyLess(p, s[i]) {
          if i < |s| - 1 {
            KeyOrder(p, last, s[i]);
          }
        }
      }
    }
  }

  lemma {:induction false} SortSorts(s: seq<PointConfig>)
    ensures Sorted(Sort(s))
  {
    if s != [] {
      SortSorts(s[..|s| - 1]);
      InsertSorted(Sort(s[..|s| - 1]), s[|s| - 1]);
    }
  }

  /** A string is before another exactly if the other goes on where it ends, or has the greater
      character where they first differ. */
  lemma {:induction false} FirstDifference(a: string, b: string)
    ensures StringLess(a, b) <==>
            exists k :: 0 <= k <= |a| && k < |b| && a[..k] == b[..k] && (k == |a| || a[k] < b[k])
  {
    if StringLess(a, b) {
      if a != "" && a[0] == b[0] {
        FirstDifference(a[1..], b[1..]);
        var k :| 0 <= k <= |a[1..]| && k < |b[1..]| && a[1..][..k] == b[1..][..k] && (k == |a[1..]| || a[1..][k] < b[1..][k]);
        assert a[..k + 1] == [a[0]] + a[1..][..k] && b[..k + 1] == [b[0]] + b[1..][..k];
      } else {
        assert a[..0] == b[..0];
      }
    }
    if k :| 0 <= k <= |a| && k < |b| && a[..k] == b[..k] && (k == |a| || a[k] < b[k]) {
      if k > 0 {
        FirstDifference(a[1..], b[1..]);
        assert a[0] == a[..k][0] == b[..k][0] == b[0];
        assert a[1..][..k - 1] == a[..k][1..] && b[1..][..k - 1] == b[..k][1..];
      }
    }
  }

  /** In a sorted list lines do not decrease, on one line device numbers do not, and in one
      device addresses do not. */
  lemma SortedByLineDeviceAddress(s: seq<PointConfig>, i: nat, j: nat)
    requires i < j < |s|
    ensures var p, q := Sort(s)[i], Sort(s)[j];
            && !StringLess(q.bus, p.bus)
            && (p.bus == q.bus ==> p.device <= q.device)
            && (p.bus == q.bus && p.device == q.device ==> p.address <= q.address)
  {
    hide Sort, StringLess;
    SortSorts(s);
    assert !KeyLess(Sort(s)[j], Sort(s)[i]);
  }

  lemma {:induction false} SortedIsFixed(s: seq<PointConfig>)
    requires Sorted(s)
    ensures Sort(s) == s
  {
    hide KeyLess;
    if s != [] {
      SortedIsFixed(s[..|s| - 1]);
      SplitLast(s);
    }
  }

  /** Filtering a sorted list commutes with inserting into it. */
  lemma {:induction false} FilterInsert(keep: PointConfig -> bool, s: seq<PointConfig>, p: PointConfig)
    requires Sorted(s)
    ensures Filter(keep, Insert(s, p)) == if keep(p) then Insert(Filter(keep, s), p) else Filter(keep, s)
  {
    hide KeyLess;
    if s == [] {
      assert [p][..0] == [];
    } else {
      var init, last := s[..|s| - 1], s[|s| - 1];
      if KeyLess(p, last) {
        FilterInsert(keep, init, p);
        assert (Insert(init, p) + [last])[..|s|] == Insert(init, p);
        if keep(last) {
          assert (Filter(keep, init) + [last])[..|Filter(keep, init)|] == Filter(keep, init);
        }
      } else {
        assert (s + [p])[..|s|] == s;
        if keep(p) {
          NotGreater(keep, s, p);
        }
      }
    }
  }

  lemma NotGreater(keep: PointConfig -> bool, s: seq<PointConfig>, p: PointConfig)
    requires Sorted(s) && s != [] && !KeyLess(p, s[|s| - 1])
    ensures Insert(Filter(keep, s), p) == Filter(keep, s) + [p]
  {
    hide KeyLess;
    var kept := Filter(keep, s);
    if kept != [] {
      var x := kept[|kept| - 1];
      assert x in kept;
      var j :| 0 <= j < |s| && s[j] == x;
      KeyOrder(p, s[|s| - 1], x);
    }
  }

  lemma {:induction false} FilterSort(keep: PointConfig -> bool, s: seq<PointConfig>)
    ensures Filter(keep, Sort(s)) == Sort(Filter(keep, s))
  {
    if s != [] {
      var init, last := s[..|s| - 1], s[|s| - 1];
      FilterSort(keep, init);
      SortSorts(init);
      FilterInsert(keep, Sort(init), last);
      if keep(last) {
        assert (Filter(keep, init) + [last])[..|Filter(keep, init)|] == Filter(keep, init);
      }
    }
  }

  lemma SortOneMore(a: seq<PointConfig>, b: seq<PointConfig>)
    requires b != []
    ensures Sort(a + b) == Insert(Sort(a + b[..|b| - 1]), b[|b| - 1])
  {
    hide Insert;
    assert (a + b)[..|a| + |b| - 1] == a + b[..|b| - 1];
  }

  /** Sorting again with more points behind is sorting all at once. */
  lemma {:induction false} SortAppend(a: seq<PointConfig>, b: seq<PointConfig>)
    ensures Sort(Sort(a) + b) == Sort(a + b)
    decreases |b|
  {
    hide Sort, Insert;
    if b == [] {
      assert Sort(a) + b == Sort(a) && a + b == a;
      SortSorts(a);
      SortedIsFixed(Sort(a));
    } else {
      var init := b[..|b| - 1];
      SortAppend(a, init);
      SortOneMore(Sort(a), b);
      SortOneMore(a, b);
    }
  }

  function WithKey(s: seq<PointConfig>, key: PointConfig): seq<PointConfig> {
    Filter(p => SameKey(p, key), s)
  }

  /** Points with equal keys keep their order. */
  lemma SortIsStable(s: seq<PointConfig>, key: PointConfig)
    ensures WithKey(Sort(s), key) == WithKey(s, key)
  {
    var keep := (p: PointConfig) => SameKey(p, key);
    var same := WithKey(s, key);
    FilterSort(keep, s);
    forall i, j | 0 <= i < j < |same| ensures !KeyLess(same[j], same[i]) {
      assert same[i] in same && same[j] in same;
      KeyOrder(same[j], same[i], key);
      KeyOrder(key, key, key);
    }
    SortedIsFixed(same);
  }

  ghost predicate SameByKey(s: seq<PointConfig>, t: seq<PointConfig>) {
    forall key :: WithKey(s, key) == WithKey(t, key)
  }

  lemma LastIsKept(s: seq<PointConfig>, t: seq<PointConfig>)
    requires Sorted(s) && Sorted(t) && SameByKey(s, t) && s != [] && t != []
    ensures !KeyLess(s[|s| - 1], t[|t| - 1])
  {
    hide KeyLess;
    var last := t[|t| - 1];
    assert last in WithKey(t, last);
    assert last in WithKey(s, last);
    var i :| 0 <= i < |s| && s[i] == last;
    KeyOrder(last, last, last);
  }

  lemma NothingMissing(s: seq<PointConfig>, t: seq<PointConfig>)
    requires SameByKey(s, t) && t != []
    ensures s != []
  {
    assert t[0] in WithKey(t, t[0]);
    assert t[0] in WithKey(s, t[0]);
  }

  /** Sorted and stable is all there is to say: no other list is both. */
  lemma {:induction false} SortedStableIsUnique(s: seq<PointConfig>, t: seq<PointConfig>)
    requires Sorted(s) && Sorted(t) && SameByKey(s, t)
    ensures s == t
    decreases |s|
  {
    hide KeyLess, Filter;
    if t != [] {
      NothingMissing(s, t);
    }
    if s != [] {
      NothingMissing(t, s);
      var a, b := s[|s| - 1], t[|t| - 1];
      LastIsKept(s, t);
      LastIsKept(t, s);
      KeyOrder(a, b, a);
      LastOfKey(s);
      LastOfKey(t);
      var si, ti := s[..|s| - 1], t[..|t| - 1];
      forall key ensures WithKey(si, key) == WithKey(ti, key) {
        assert WithKey(s, key) == WithKey(t, key);
        InitFilter(s, key);
        InitFilter(t, key);
      }
      SortedStableIsUnique(si, ti);
      SplitLast(s);
      SplitLast(t);
    }
  }

  lemma LastOfKey(s: seq<PointConfig>)
    requires s != []
    ensures var last := s[|s| - 1];
            forall key :: SameKey(last, key) ==> WithKey(s, key) != [] && WithKey(s, key)[|WithKey(s, key)| - 1] == last
  {}

  lemma InitFilter(s: seq<PointConfig>, key: PointConfig)
    requires s != []
    ensures var all := WithKey(s, key);
            WithKey(s[..|s| - 1], key) == if SameKey(s[|s| - 1], key) then all[..|all| - 1] else all
  {}
}
