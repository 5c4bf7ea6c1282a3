/** Generic sequence, counting and ordering helpers used by both pipelines:
    splitting into runs, trimming, counting occurrences, first-occurrence
    order, descending sort and top-N selection. */
module Collections {

  /** Concatenation of a sequence of sequences. */
  function Concat<T>(ss: seq<seq<T>>): seq<T>
  {
    if ss == [] then [] else Concat(ss[..|ss| - 1]) + ss[|ss| - 1]
  }

  /** The elements of s that satisfy p, in order. */
  function Filter<T>(s: seq<T>, p: T -> bool): (r: seq<T>)
    ensures |r| <= |s|
    ensures forall x :: x in r ==> x in s && p(x)
  {
    if s == [] then []
    else Filter(s[..|s| - 1], p) + (if p(s[|s| - 1]) then [s[|s| - 1]] else [])
  }

  /** Filtering one more element appends it when it passes the test. */
  lemma FilterSnoc<T>(s: seq<T>, x: T, p: T -> bool)
    ensures Filter(s + [x], p) == Filter(s, p) + if p(x) then [x] else []
  {
    assert (s + [x])[..|s|] == s;
  }

  /** Filtering one more element of a prefix. */
  lemma FilterPrefix<T>(s: seq<T>, i: nat, p: T -> bool)
    requires i < |s|
    ensures Filter(s[..i + 1], p) == Filter(s[..i], p) + if p(s[i]) then [s[i]] else []
  {
    assert s[..i + 1] == s[..i] + [s[i]];
    FilterSnoc(s[..i], s[i], p);
  }

  /** Filtering distributes over concatenation. */
  lemma {:induction false} FilterConcat<T>(a: seq<T>, b: seq<T>, p: T -> bool)
    ensures Filter(a + b, p) == Filter(a, p) + Filter(b, p)
    decreases |b|
  {
    if b != [] {
      var b0, x := b[..|b| - 1], b[|b| - 1];
      assert b == b0 + [x];
      assert a + b == (a + b0) + [x];
      FilterConcat(a, b0, p);
      FilterSnoc(a + b0, x, p);
      FilterSnoc(b0, x, p);
    } else {
      assert a + b == a;
    }
  }

  /** A sequence whose elements all fail p filters to nothing. */
  lemma {:induction false} FilterNone<T>(s: seq<T>, p: T -> bool)
    requires forall k :: 0 <= k < |s| ==> !p(s[k])
    ensures Filter(s, p) == []
  {
    if s != [] {
      FilterNone(s[..|s| - 1], p);
    }
  }

  /** A sequence of non-empty pieces has no more pieces than elements. */
  lemma {:induction false} RunsAtMostConcat<T>(rs: seq<seq<T>>)
    requires forall r :: r in rs ==> r != []
    ensures |rs| <= |Concat(rs)|
  {
    if rs != [] {
      var init := rs[..|rs| - 1];
      assert forall r :: r in init ==> r in rs;
      RunsAtMostConcat(init);
      assert rs == init + [rs[|rs| - 1]];
      ConcatSnoc(init, rs[|rs| - 1]);
      assert rs[|rs| - 1] in rs;
    }
  }

  /** An element that passes the test survives the filter. */
  lemma {:induction false} FilterKeeps<T>(s: seq<T>, p: T -> bool, i: nat)
    requires i < |s| && p(s[i])
    ensures Filter(s, p) != []
  {
    if i < |s| - 1 {
      assert s[..|s| - 1][i] == s[i];
      FilterKeeps(s[..|s| - 1], p, i);
      FilterSnoc(s[..|s| - 1], s[|s| - 1], p);
      assert s[..|s| - 1] + [s[|s| - 1]] == s;
    } else {
      FilterSnoc(s[..|s| - 1], s[|s| - 1], p);
      assert s[..|s| - 1] + [s[|s| - 1]] == s;
    }
  }

  /** Filtering keeps every copy of an element that passes the test and
      no copy of one that does not. */
  lemma {:induction false} FilterMultiplicity<T>(s: seq<T>, p: T -> bool, x: T)
    ensures multiset(Filter(s, p))[x] == if p(x) then multiset(s)[x] else 0
  {
    if s != [] {
      var init := s[..|s| - 1];
      FilterMultiplicity(init, p, x);
      assert s == init + [s[|s| - 1]];
    }
  }

  // ---------------------------------------------------------------- runs

  /** The maximal non-empty runs of elements of s that satisfy inClass, in
      order: what splitting s on runs of the other elements yields once the
      empty pieces are dropped. */
  function Runs<T>(s: seq<T>, inClass: T -> bool): seq<seq<T>>
  {
    if s == [] then []
    else
      var prefix, c := s[..|s| - 1], s[|s| - 1];
      var rs := Runs(prefix, inClass);
      if !inClass(c) then rs
      else if prefix != [] && inClass(prefix[|prefix| - 1]) && rs != [] then
        rs[..|rs| - 1] + [rs[|rs| - 1] + [c]]
      else rs + [[c]]
  }

  /** A sequence whose last element is in the class has at least one run. */
  lemma RunsNonEmpty<T>(s: seq<T>, inClass: T -> bool)
    requires s != [] && inClass(s[|s| - 1])
    ensures Runs(s, inClass) != []
  {}

  /** Every run is non-empty and made of class elements only. */
  lemma {:induction false} RunsShape<T>(s: seq<T>, inClass: T -> bool)
    ensures forall r :: r in Runs(s, inClass) ==> r != [] && forall x :: x in r ==> inClass(x)
  {
    if s != [] {
      var prefix, c := s[..|s| - 1], s[|s| - 1];
      var rs := Runs(prefix, inClass);
      RunsShape(prefix, inClass);
      if inClass(c) && prefix != [] && inClass(prefix[|prefix| - 1]) && rs != [] {
        var k := |rs| - 1;
        assert rs[k] in rs;
        forall r | r in rs[..k] + [rs[k] + [c]]
          ensures r != [] && forall x :: x in r ==> inClass(x)
        {
          if r != rs[k] + [c] {
            assert r in rs;
          }
        }
      }
    }
  }

  /** Together the runs hold exactly the class elements of s, in order. */
  lemma {:induction false} RunsCover<T>(s: seq<T>, inClass: T -> bool)
    ensures Concat(Runs(s, inClass)) == Filter(s, inClass)
  {
    if s != [] {
      var prefix, c := s[..|s| - 1], s[|s| - 1];
      assert s == prefix + [c];
      RunsCover(prefix, inClass);
      RunsCoverStep(prefix, c, inClass);
    }
  }

  /** One more element keeps the runs and the filter in step. */
  lemma RunsCoverStep<T>(p: seq<T>, c: T, inClass: T -> bool)
    requires Concat(Runs(p, inClass)) == Filter(p, inClass)
    ensures Concat(Runs(p + [c], inClass)) == Filter(p + [c], inClass)
  {
    var rs := Runs(p, inClass);
    FilterSnoc(p, c, inClass);
    RunsSnoc(p, c, inClass);
    if inClass(c) {
      if p != [] && inClass(p[|p| - 1]) && rs != [] {
        var k := |rs| - 1;
        assert rs == rs[..k] + [rs[k]];
        ConcatSnoc(rs[..k], rs[k]);
        ConcatSnoc(rs[..k], rs[k] + [c]);
        var a := Concat(rs[..k]);
        assert a + (rs[k] + [c]) == (a + rs[k]) + [c];
      } else {
        ConcatSnoc(rs, [c]);
      }
    }
  }

  lemma ConcatSnoc<T>(ss: seq<seq<T>>, last: seq<T>)
    ensures Concat(ss + [last]) == Concat(ss) + last
  {
    assert (ss + [last])[..|ss|] == ss;
  }

  /** An element of one of the parts is an element of the concatenation. */
  lemma {:induction false} InConcat<T>(ss: seq<seq<T>>, r: seq<T>, x: T)
    requires r in ss && x in r
    ensures x in Concat(ss)
    decreases |ss|
  {
    var init, last := ss[..|ss| - 1], ss[|ss| - 1];
    assert ss == init + [last];
    ConcatSnoc(init, last);
    if r != last {
      InConcat(init, r, x);
    }
  }

  /** A sequence of class elements only is one run (or none when empty). */
  lemma {:induction false} RunsWhole<T>(s: seq<T>, inClass: T -> bool)
    requires forall x :: x in s ==> inClass(x)
    ensures Runs(s, inClass) == if s == [] then [] else [s]
  {
    if s != [] {
      var prefix, c := s[..|s| - 1], s[|s| - 1];
      assert s == prefix + [c];
      assert forall x :: x in prefix ==> inClass(x) by {
        forall x | x in prefix ensures inClass(x) {
          assert x in s;
        }
      }
      RunsWhole(prefix, inClass);
      assert inClass(c) by {
        assert c in s;
      }
      if prefix != [] {
        assert inClass(prefix[|prefix| - 1]) by {
          assert prefix[|prefix| - 1] in s;
        }
      }
      RunsWholeStep(prefix, c, inClass);
    }
  }

  /** A class element after a whole run, or after nothing, extends it. */
  lemma RunsWholeStep<T>(p: seq<T>, c: T, inClass: T -> bool)
    requires inClass(c) && (p != [] ==> inClass(p[|p| - 1]))
    requires Runs(p, inClass) == if p == [] then [] else [p]
    ensures Runs(p + [c], inClass) == [p + [c]]
  {
    RunsSnoc(p, c, inClass);
    if p != [] {
      assert [p][..0] + [p + [c]] == [p + [c]];
    }
  }

  /** A separator splits the runs: runs never straddle an element outside
      the class. */
  lemma {:induction false} RunsSplit<T>(a: seq<T>, sep: T, b: seq<T>, inClass: T -> bool)
    requires !inClass(sep)
    ensures Runs(a + [sep] + b, inClass) == Runs(a, inClass) + Runs(b, inClass)
  {
    if b == [] {
      assert a + [sep] + b == a + [sep];
      RunsSnoc(a, sep, inClass);
      assert Runs(a, inClass) + Runs(b, inClass) == Runs(a, inClass);
    } else {
      var b', c := b[..|b| - 1], b[|b| - 1];
      assert a + [sep] + b == (a + [sep] + b') + [c] && b == b' + [c];
      RunsSplit(a, sep, b', inClass);
      RunsSplitStep(a, sep, b', c, inClass);
    }
  }

  /** One more element after the separator extends the runs of both sides
      alike. */
  lemma RunsSplitStep<T>(a: seq<T>, sep: T, b: seq<T>, c: T, inClass: T -> bool)
    requires !inClass(sep)
    requires Runs(a + [sep] + b, inClass) == Runs(a, inClass) + Runs(b, inClass)
    ensures Runs(a + [sep] + b + [c], inClass) == Runs(a, inClass) + Runs(b + [c], inClass)
  {
    var sp := a + [sep] + b;
    assert sp[|sp| - 1] == if b == [] then sep else b[|b| - 1];
    RunsSnocAlike(sp, b, c, inClass, Runs(a, inClass));
  }

  /** Two sequences that end alike (both in a run, or both not) and whose
      runs differ by a fixed prefix still do so after one more element. */
  lemma RunsSnocAlike<T>(sp: seq<T>, b: seq<T>, c: T, inClass: T -> bool, ra: seq<seq<T>>)
    requires sp != [] && Runs(sp, inClass) == ra + Runs(b, inClass)
    requires inClass(sp[|sp| - 1]) <==> b != [] && inClass(b[|b| - 1])
    ensures Runs(sp + [c], inClass) == ra + Runs(b + [c], inClass)
  {
    RunsSnoc(sp, c, inClass);
    RunsSnoc(b, c, inClass);
    var rb := Runs(b, inClass);
    if inClass(c) && b != [] && inClass(b[|b| - 1]) {
      RunsNonEmpty(b, inClass);
      ExtendLast(ra, rb, c);
    } else if inClass(c) {
      assert ra + rb + [[c]] == ra + (rb + [[c]]);
    }
  }

  lemma ExtendLast<T>(ra: seq<seq<T>>, rb: seq<seq<T>>, c: T)
    requires rb != []
    ensures var rs := ra + rb;
      rs[..|rs| - 1] + [rs[|rs| - 1] + [c]] == ra + (rb[..|rb| - 1] + [rb[|rb| - 1] + [c]])
  {
    var rs := ra + rb;
    assert rs[..|rs| - 1] == ra + rb[..|rb| - 1];
  }

  /** One unfolding of Runs at the end of the sequence. */
  lemma RunsSnoc<T>(p: seq<T>, c: T, inClass: T -> bool)
    ensures Runs(p + [c], inClass) ==
      var rs := Runs(p, inClass);
      if !inClass(c) then rs
      else if p != [] && inClass(p[|p| - 1]) && rs != [] then rs[..|rs| - 1] + [rs[|rs| - 1] + [c]]
      else rs + [[c]]
  {
    assert (p + [c])[..|p|] == p;
  }

  /** Appending the same element to two sequences with the same runs, that
      end alike, keeps their runs the same. */
  lemma RunsSnocBoth<T>(p: seq<T>, r: seq<T>, c: T, inClass: T -> bool)
    requires Runs(p, inClass) == Runs(r, inClass)
    requires (p != [] && inClass(p[|p| - 1])) == (r != [] && inClass(r[|r| - 1]))
    ensures Runs(p + [c], inClass) == Runs(r + [c], inClass)
  {
    RunsSnoc(p, c, inClass);
    RunsSnoc(r, c, inClass);
  }

  // -------------------------------------------------------------- trimming

  /** The index of the first element at or after i that differs from x. */
  function SkipFrom<T(==)>(s: seq<T>, x: T, i: nat): (n: nat)
    requires i <= |s|
    ensures i <= n <= |s| && (n == |s| || s[n] != x)
    ensures forall k :: i <= k < n ==> s[k] == x
    decreases |s| - i
  {
    if i < |s| && s[i] == x then SkipFrom(s, x, i + 1) else i
  }

  /** The index just past the last element of s[lo..j] that differs from x,
      or lo when there is none. */
  function SkipBackFrom<T(==)>(s: seq<T>, x: T, lo: nat, j: nat): (n: nat)
    requires lo <= j <= |s|
    ensures lo <= n <= j && (n == lo || s[n - 1] != x)
    ensures forall k :: n <= k < j ==> s[k] == x
  {
    if j > lo && s[j - 1] == x then SkipBackFrom(s, x, lo, j - 1) else j
  }

  /** r is s[a..b] for some a <= b with only copies of x outside it. */
  predicate StrippedOf<T(==)>(s: seq<T>, x: T, r: seq<T>)
  {
    exists a, b :: 0 <= a <= b <= |s| && r == s[a..b]
      && (forall k :: 0 <= k < a ==> s[k] == x) && (forall k :: b <= k < |s| ==> s[k] == x)
  }

  /** s without its leading and trailing copies of x, and s itself when its
      ends are already different from x (TrimSlice and TrimUnique show that
      it is the one slice of s cut that way). */
  function Trim<T(==)>(s: seq<T>, x: T): (r: seq<T>)
    ensures |r| <= |s|
    ensures forall y :: y in r ==> y in s
    ensures r == [] || (r[0] != x && r[|r| - 1] != x)
    ensures s != [] && s[0] != x && s[|s| - 1] != x ==> r == s
  {
    var a := SkipFrom(s, x, 0);
    var b := SkipBackFrom(s, x, a, |s|);
    s[a..b]
  }

  /** The trimmed sequence is a slice of s with only copies of x cut off. */
  lemma TrimSlice<T>(s: seq<T>, x: T)
    ensures StrippedOf(s, x, Trim(s, x))
  {
    var a := SkipFrom(s, x, 0);
    var b := SkipBackFrom(s, x, a, |s|);
    assert Trim(s, x) == s[a..b];
  }

  /** Trim is the only such slice: whatever cut s[a..b] removes only copies
      of x and leaves no x at either end is the trimmed sequence. */
  lemma TrimUnique<T>(s: seq<T>, x: T, a: nat, b: nat)
    requires a <= b <= |s|
    requires forall k :: 0 <= k < a || b <= k < |s| ==> s[k] == x
    requires a < b ==> s[a] != x && s[b - 1] != x
    ensures s[a..b] == Trim(s, x)
  {
    var c := SkipFrom(s, x, 0);
    var d := SkipBackFrom(s, x, c, |s|);
    SameCut(s, x, a, b, c, d);
  }

  /** Two cuts of s that remove only copies of x and keep no x at either end
      are the same cut. */
  lemma SameCut<T>(s: seq<T>, x: T, a: nat, b: nat, c: nat, d: nat)
    requires a <= b <= |s| && c <= d <= |s|
    requires forall k :: 0 <= k < a || b <= k < |s| ==> s[k] == x
    requires forall k :: 0 <= k < c || d <= k < |s| ==> s[k] == x
    requires a < b ==> s[a] != x && s[b - 1] != x
    requires c < d ==> s[c] != x && s[d - 1] != x
    ensures s[a..b] == s[c..d]
  {
    assert a < b ==> a == c && b == d;
    assert c < d ==> a == c && b == d;
  }

  // -------------------------------------------------------------- counting

  /** m with the count of k raised by one. */
  function Inc<K>(m: map<K, nat>, k: K): map<K, nat>
  {
    m[k := (if k in m then m[k] else 0) + 1]
  }

  /** Occurrence counts, keyed in first-occurrence order in the source. */
  function Counts<K>(ts: seq<K>): map<K, nat>
  {
    if ts == [] then map[] else Inc(Counts(ts[..|ts| - 1]), ts[|ts| - 1])
  }

  lemma CountsSnoc<K>(ts: seq<K>, k: K)
    ensures Counts(ts + [k]) == Inc(Counts(ts), k)
  {
    assert (ts + [k])[..|ts|] == ts;
  }

  /** The keys of Counts(ts) are exactly the elements of ts, each counted as
      often as it occurs. */
  lemma {:induction false} CountsSpec<K>(ts: seq<K>)
    ensures forall k :: k in Counts(ts) <==> k in ts
    ensures forall k :: k in Counts(ts) ==> Counts(ts)[k] == multiset(ts)[k] > 0
  {
    if ts != [] {
      var prefix := ts[..|ts| - 1];
      CountsSpec(prefix);
      assert ts == prefix + [ts[|ts| - 1]];
    }
  }

  /** The distinct elements of s, in first-occurrence order. */
  function Distinct<K(==)>(s: seq<K>): (r: seq<K>)
    ensures forall i :: 0 <= i < |r| ==> r[i] in s
    ensures forall i :: 0 <= i < |s| ==> s[i] in r
    ensures forall i, j :: 0 <= i < j < |r| ==> r[i] != r[j]
  {
    if s == [] then []
    else
      var d := Distinct(s[..|s| - 1]);
      assert forall i :: 0 <= i < |s| - 1 ==> s[i] == s[..|s| - 1][i];
      if s[|s| - 1] in d then d else d + [s[|s| - 1]]
  }

  /** The index of the first occurrence of x in s. */
  function IndexOf<K(==)>(s: seq<K>, x: K): (n: nat)
    requires x in s
    ensures n < |s| && s[n] == x && forall k :: 0 <= k < n ==> s[k] != x
  {
    if s[0] == x then 0 else 1 + IndexOf(s[1..], x)
  }

  /** Appending keeps the first occurrence of an element already present. */
  lemma IndexOfSnoc<K>(s: seq<K>, y: K, x: K)
    requires x in s
    ensures IndexOf(s + [y], x) == IndexOf(s, x)
  {
    var i, j := IndexOf(s + [y], x), IndexOf(s, x);
    assert (s + [y])[j] == x;
  }

  /** The elements of r come in the order of their first occurrence in s. */
  predicate FirstOrder<K(==)>(s: seq<K>, r: seq<K>)
    requires forall i :: 0 <= i < |r| ==> r[i] in s
  {
    forall i, j :: 0 <= i < j < |r| ==> IndexOf(s, r[i]) < IndexOf(s, r[j])
  }

  /** Appending y to s keeps the order of r, and r + [y] is in order too
      when y is new. */
  lemma FirstOrderSnoc<K>(s: seq<K>, y: K, r: seq<K>)
    requires forall i :: 0 <= i < |r| ==> r[i] in s
    requires FirstOrder(s, r)
    ensures FirstOrder(s + [y], r)
    ensures y !in s ==> FirstOrder(s + [y], r + [y])
  {
    forall x | x in s ensures IndexOf(s + [y], x) == IndexOf(s, x) {
      IndexOfSnoc(s, y, x);
    }
    if y !in s {
      var t := r + [y];
      assert IndexOf(s + [y], y) == |s|;
      forall i, j | 0 <= i < j < |t| ensures IndexOf(s + [y], t[i]) < IndexOf(s + [y], t[j]) {
        assert t[i] == r[i] && r[i] in s;
        if j < |r| {
          assert t[j] == r[j] && r[j] in s;
        }
      }
    }
  }

  /** The elements of Distinct(s) come in the order of their first
      occurrence in s, which with its membership and distinctness clauses
      determines the result. */
  lemma {:induction false} DistinctOrder<K>(s: seq<K>)
    ensures forall i, j :: 0 <= i < j < |Distinct(s)| ==> IndexOf(s, Distinct(s)[i]) < IndexOf(s, Distinct(s)[j])
  {
    if s != [] {
      var p, y := s[..|s| - 1], s[|s| - 1];
      assert s == p + [y];
      DistinctOrder(p);
      var d := Distinct(p);
      assert FirstOrder(p, d);
      FirstOrderSnoc(p, y, d);
      assert y in d <==> y in p;
      assert FirstOrder(s, Distinct(s));
    }
  }

  // -------------------------------------------------------------- ordering

  predicate SortedDesc<T>(s: seq<T>, key: T -> real)
  {
    forall i, j :: 0 <= i < j < |s| ==> key(s[i]) >= key(s[j])
  }

  /** Sorts by key, largest first. The order of equal keys is left open:
      the sorts it models are stable, but the input order they would keep
      (array or object key order) is not part of the model. */
  method SortDesc<T>(xs: seq<T>, key: T -> real) returns (ys: seq<T>)
    ensures multiset(ys) == multiset(xs)
    ensures SortedDesc(ys, key)
  {
    ys := [];
    for i := 0 to |xs|
      invariant multiset(ys) == multiset(xs[..i])
      invariant SortedDesc(ys, key)
    {
      var x := xs[i];
      var p := InsertionPoint(ys, x, key);
      InsertKeepsSorted(ys, p, x, key);
      InsertAddsOne(ys, p, x);
      assert multiset(xs[..i + 1]) == multiset(xs[..i]) + multiset{x} by {
        assert xs[..i + 1] == xs[..i] + [x];
      }
      ys := ys[..p] + [x] + ys[p..];
    }
    assert xs[..|xs|] == xs;
  }

  /** The first position of a sorted sequence whose key is below key(x). */
  method InsertionPoint<T>(ys: seq<T>, x: T, key: T -> real) returns (p: int)
    ensures 0 <= p <= |ys|
    ensures forall q :: 0 <= q < p ==> key(ys[q]) >= key(x)
    ensures p < |ys| ==> key(ys[p]) < key(x)
  {
    p := 0;
    while p < |ys| && key(ys[p]) >= key(x)
      invariant 0 <= p <= |ys|
      invariant forall q :: 0 <= q < p ==> key(ys[q]) >= key(x)
    {
      p := p + 1;
    }
  }

  /** Inserting x after every element with a key at least its own keeps a
      sorted sequence sorted. */
  lemma InsertKeepsSorted<T>(ys: seq<T>, p: int, x: T, key: T -> real)
    requires SortedDesc(ys, key) && 0 <= p <= |ys|
    requires forall q :: 0 <= q < p ==> key(ys[q]) >= key(x)
    requires p < |ys| ==> key(ys[p]) < key(x)
    ensures SortedDesc(ys[..p] + [x] + ys[p..], key)
  {
    var zs := ys[..p] + [x] + ys[p..];
    forall i, j | 0 <= i < j < |zs| ensures key(zs[i]) >= key(zs[j]) {
      if j < p {
        assert zs[i] == ys[i] && zs[j] == ys[j];
      } else if j == p {
        assert zs[i] == ys[i];
      } else if i < p {
        assert zs[i] == ys[i] && zs[j] == ys[j - 1];
      } else if i == p {
        assert zs[j] == ys[j - 1];
        assert key(ys[j - 1]) <= key(ys[p]);
      } else {
        assert zs[i] == ys[i - 1] && zs[j] == ys[j - 1];
      }
    }
  }

  /** The insertion adds exactly x. */
  lemma InsertAddsOne<T>(ys: seq<T>, p: int, x: T)
    requires 0 <= p <= |ys|
    ensures multiset(ys[..p] + [x] + ys[p..]) == multiset(ys) + multiset{x}
  {
    assert ys == ys[..p] + ys[p..];
  }

  /** Two positions holding the same element make it occur twice. */
  lemma TwiceCounted<T>(s: seq<T>, i: int, j: int)
    requires 0 <= i < j < |s| && s[i] == s[j]
    ensures multiset(s)[s[i]] >= 2
  {
    assert s == s[..i] + [s[i]] + s[i + 1..j] + [s[j]] + s[j + 1..];
  }

  /** Without repeated elements, nothing occurs twice. */
  lemma {:induction false} OnceCounted<T>(s: seq<T>)
    requires forall i, j :: 0 <= i < j < |s| ==> s[i] != s[j]
    ensures forall x :: multiset(s)[x] <= 1
  {
    if s != [] {
      var prefix := s[..|s| - 1];
      OnceCounted(prefix);
      assert s == prefix + [s[|s| - 1]];
      assert s[|s| - 1] !in prefix;
    }
  }

  /** Reordering a list of (key, count) entries with distinct keys keeps
      the keys distinct and keeps the same entries. */
  lemma ReorderedEntries<K>(entries: seq<(K, nat)>, sorted: seq<(K, nat)>)
    requires multiset(sorted) == multiset(entries)
    requires forall i, j :: 0 <= i < j < |entries| ==> entries[i] != entries[j]
    requires forall e, f :: e in entries && f in entries && e.0 == f.0 ==> e == f
    ensures |sorted| == |entries|
    ensures forall e :: e in sorted <==> e in entries
    ensures forall i, j :: 0 <= i < j < |sorted| ==> sorted[i].0 != sorted[j].0
  {
    assert |multiset(sorted)| == |multiset(entries)|;
    forall e ensures e in sorted <==> e in entries {
      assert e in sorted <==> e in multiset(sorted);
    }
    OnceCounted(entries);
    forall i, j | 0 <= i < j < |sorted| ensures sorted[i].0 != sorted[j].0 {
      if sorted[i].0 == sorted[j].0 {
        assert sorted[i] in entries && sorted[j] in entries;
        TwiceCounted(sorted, i, j);
      }
    }
  }

  /** In a list sorted by count, every entry beyond the first n counts no
      more than any of the first n. */
  lemma CutOffBound<K>(sorted: seq<(K, nat)>, n: nat, e: (K, nat))
    requires SortedDesc(sorted, (e: (K, nat)) => e.1 as real)
    requires n <= |sorted| && e in sorted && e !in sorted[..n]
    ensures forall f :: f in sorted[..n] ==> e.1 <= f.1
  {
    var p :| 0 <= p < |sorted| && sorted[p] == e;
    forall f | f in sorted[..n] ensures e.1 <= f.1 {
      var q :| 0 <= q < n && sorted[..n][q] == f;
      assert sorted[q] == f;
    }
  }

  /** The entries of a count map, one per key, in some order. */
  method Entries<K>(counts: map<K, nat>) returns (entries: seq<(K, nat)>)
    ensures |entries| == |counts|
    ensures forall e :: e in entries <==> e.0 in counts && e.1 == counts[e.0]
    ensures forall i, j :: 0 <= i < j < |entries| ==> entries[i] != entries[j]
  {
    entries := [];
    var rest := counts.Keys;
    while rest != {}
      invariant rest <= counts.Keys
      invariant |entries| + |rest| == |counts|
      invariant forall e :: e in entries ==> e.0 in counts && e.1 == counts[e.0] && e.0 !in rest
      invariant forall k :: k in counts && k !in rest ==> (k, counts[k]) in entries
      invariant forall i, j :: 0 <= i < j < |entries| ==> entries[i] != entries[j]
      decreases |rest|
    {
      var k :| k in rest;
      entries := entries + [(k, counts[k])];
      rest := rest - {k};
    }
  }

  /** The arsort-then-slice step: the `limit` largest entries of a count map,
      largest first, each paired with its own count, with no key twice;
      every key left out counts no more than any key kept. */
  method SelectTop<K>(counts: map<K, nat>, limit: nat) returns (top: seq<(K, nat)>)
    ensures |top| == if |counts| < limit then |counts| else limit
    ensures forall e :: e in top ==> e.0 in counts && e.1 == counts[e.0]
    ensures forall i, j :: 0 <= i < j < |top| ==> top[i].0 != top[j].0
    ensures forall i, j :: 0 <= i < j < |top| ==> top[i].1 >= top[j].1
    ensures forall k :: k in counts && (forall e :: e in top ==> e.0 != k) ==>
              forall e :: e in top ==> counts[k] <= e.1
  {
    var entries := Entries(counts);
    var sorted := SortDesc(entries, (e: (K, nat)) => e.1 as real);
    ReorderedEntries(entries, sorted);
    var n := if |counts| < limit then |counts| else limit;
    top := sorted[..n];
    PrefixOfRanking(counts, sorted, n);
  }

  /** The first n entries of a ranking of a count map keep what the ranking
      promises, and leave out no key that counts more than a kept one. */
  lemma PrefixOfRanking<K>(counts: map<K, nat>, sorted: seq<(K, nat)>, n: nat)
    requires forall e :: e in sorted <==> e.0 in counts && e.1 == counts[e.0]
    requires forall i, j :: 0 <= i < j < |sorted| ==> sorted[i].0 != sorted[j].0
    requires SortedDesc(sorted, (e: (K, nat)) => e.1 as real)
    requires n <= |sorted|
    ensures forall e :: e in sorted[..n] ==> e.0 in counts && e.1 == counts[e.0]
    ensures forall i, j :: 0 <= i < j < n ==> sorted[..n][i].0 != sorted[..n][j].0
    ensures forall i, j :: 0 <= i < j < n ==> sorted[..n][i].1 >= sorted[..n][j].1
    ensures forall k :: k in counts && (forall e :: e in sorted[..n] ==> e.0 != k) ==>
              forall e :: e in sorted[..n] ==> counts[k] <= e.1
  {
    var top := sorted[..n];
    forall i, j | 0 <= i < j < n ensures top[i].1 >= top[j].1 {
      assert top[i] == sorted[i] && top[j] == sorted[j];
    }
    forall k | k in counts && (forall e :: e in top ==> e.0 != k)
      ensures forall e :: e in top ==> counts[k] <= e.1
    {
      CutOffBound(sorted, n, (k, counts[k]));
    }
  }

  /** Scoring the selected entries of a count map one by one and reordering
      the scores keeps one score per selected entry: the reordered scores
      carry distinct keys with their counts, and leave out no key that
      counts more than a kept one. entry reads back the key and the count
      a score was made from. */
  lemma RankScores<K, T>(counts: map<K, nat>, top: seq<(K, nat)>, scored: seq<T>, ranked: seq<T>,
                         entry: T -> (K, nat))
    requires forall e :: e in top ==> e.0 in counts && e.1 == counts[e.0]
    requires forall i, j :: 0 <= i < j < |top| ==> top[i].0 != top[j].0
    requires forall k :: k in counts && (forall e :: e in top ==> e.0 != k) ==>
               forall e :: e in top ==> counts[k] <= e.1
    requires |scored| == |top| && forall i :: 0 <= i < |top| ==> entry(scored[i]) == top[i]
    requires multiset(ranked) == multiset(scored)
    ensures |ranked| == |top|
    ensures forall t :: t in ranked ==> t in scored
    ensures forall t :: t in ranked ==> entry(t).0 in counts && entry(t).1 == counts[entry(t).0]
    ensures forall i, j :: 0 <= i < j < |ranked| ==> entry(ranked[i]).0 != entry(ranked[j]).0
    ensures forall k :: k in counts && (forall t :: t in ranked ==> entry(t).0 != k) ==>
              forall t :: t in ranked ==> counts[k] <= entry(t).1
  {
    assert |ranked| == |multiset(ranked)| == |scored|;
    forall t | t in ranked ensures t in scored && entry(t) in top {
      assert t in multiset(scored);
      var i :| 0 <= i < |scored| && scored[i] == t;
      assert top[i] in top;
    }
    forall i, j | 0 <= i < j < |scored| ensures scored[i] != scored[j] {
      assert entry(scored[i]).0 != entry(scored[j]).0;
    }
    OnceCounted(scored);
    forall i, j | 0 <= i < j < |ranked| ensures entry(ranked[i]).0 != entry(ranked[j]).0 {
      if entry(ranked[i]).0 == entry(ranked[j]).0 {
        assert ranked[i] in ranked && ranked[j] in ranked;
        var p :| 0 <= p < |scored| && scored[p] == ranked[i];
        var q :| 0 <= q < |scored| && scored[q] == ranked[j];
        assert p == q;
        TwiceCounted(ranked, i, j);
        assert false;
      }
    }
    forall k | k in counts && (forall t :: t in ranked ==> entry(t).0 != k)
      ensures forall t :: t in ranked ==> counts[k] <= entry(t).1
    {
      forall e | e in top ensures e.0 != k {
        var i :| 0 <= i < |top| && top[i] == e;
        assert scored[i] in multiset(ranked);
      }
    }
  }

  /** array_column / Array.prototype.map: one field of every entry, in order. */
  function Column<T>(xs: seq<T>, field: T -> real): (r: seq<real>)
    ensures |r| == |xs| && forall i :: 0 <= i < |xs| ==> r[i] == field(xs[i])
  {
    seq(|xs|, i requires 0 <= i < |xs| => field(xs[i]))
  }

  // -------------------------------------------------------------- extremes

  /** PHP max() over a non-empty list. */
  function MaxOf(s: seq<real>): (r: real)
    requires s != []
    ensures r in s && forall x :: x in s ==> x <= r
  {
    if |s| == 1 then s[0]
    else
      var m := MaxOf(s[..|s| - 1]);
      assert forall x :: x in s ==> x in s[..|s| - 1] || x == s[|s| - 1];
      if s[|s| - 1] > m then s[|s| - 1] else m
  }

  /** PHP min() over a non-empty list. */
  function MinOf(s: seq<real>): (r: real)
    requires s != []
    ensures r in s && forall x :: x in s ==> r <= x
  {
    if |s| == 1 then s[0]
    else
      var m := MinOf(s[..|s| - 1]);
      assert forall x :: x in s ==> x in s[..|s| - 1] || x == s[|s| - 1];
      if s[|s| - 1] < m then s[|s| - 1] else m
  }
}
