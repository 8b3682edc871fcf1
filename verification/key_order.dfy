/** Python's ordering of `str` values and `sorted()` applied to a set of
    field names: the ascending sequence in which `sign` visits the fields. */
module KeyOrder {

  /** `a < b` on Python strings: lexicographic by code point, and a proper
      prefix comes before every longer string that starts with it. */
  predicate Less(a: string, b: string)
    decreases |a|
  {
    if |a| == 0 then |b| > 0
    else if |b| == 0 then false
    else if a[0] != b[0] then a[0] < b[0]
    else Less(a[1..], b[1..])
  }

  lemma {:induction false} LessIrreflexive(a: string)
    ensures !Less(a, a)
    decreases |a|
  {
    if |a| > 0 {
      LessIrreflexive(a[1..]);
    }
  }

  lemma {:induction false} LessTransitive(a: string, b: string, c: string)
    requires Less(a, b) && Less(b, c)
    ensures Less(a, c)
    decreases |a|
  {
    if |a| > 0 && a[0] == b[0] && b[0] == c[0] {
      LessTransitive(a[1..], b[1..], c[1..]);
    }
  }

  lemma {:induction false} LessAsymmetric(a: string, b: string)
    ensures !(Less(a, b) && Less(b, a))
  {
    LessIrreflexive(a);
    if Less(a, b) && Less(b, a) {
      LessTransitive(a, b, a);
    }
  }

  lemma {:induction false} LessTotal(a: string, b: string)
    ensures a == b || Less(a, b) || Less(b, a)
    decreases |a|
  {
    if |a| > 0 && |b| > 0 && a[0] == b[0] {
      LessTotal(a[1..], b[1..]);
      assert a == [a[0]] + a[1..] && b == [b[0]] + b[1..];
    }
  }

  /** Every later element is strictly greater: ascending, no name twice. */
  ghost predicate StrictlySorted(ks: seq<string>)
  {
    forall i, j :: 0 <= i < j < |ks| ==> Less(ks[i], ks[j])
  }

  /** `ks` lists exactly the members of `s`. */
  ghost predicate Enumerates(ks: seq<string>, s: set<string>)
  {
    forall k :: k in ks <==> k in s
  }

  predicate IsLeast(m: string, s: set<string>)
  {
    m in s && forall x :: x in s ==> x == m || Less(m, x)
  }

  lemma LeastExists(s: set<string>)
    requires s != {}
    ensures exists m :: IsLeast(m, s)
    decreases s
  {
    var x :| x in s;
    if s - {x} == {} {
      forall z | z in s
        ensures z == x
      {
        assert z !in s - {x};
      }
      assert IsLeast(x, s);
    } else {
      LeastExists(s - {x});
      var y :| IsLeast(y, s - {x});
      LessTotal(x, y);
      if Less(x, y) {
        forall z | z in s
          ensures z == x || Less(x, z)
        {
          if z != x && z != y {
            LessTransitive(x, y, z);
          }
        }
        assert IsLeast(x, s);
      } else {
        assert IsLeast(y, s);
      }
    }
  }

  lemma LeastUnique(s: set<string>)
    ensures forall m, n :: IsLeast(m, s) && IsLeast(n, s) ==> m == n
  {
    forall m, n | IsLeast(m, s) && IsLeast(n, s)
      ensures m == n
    {
      LessAsymmetric(m, n);
    }
  }

  /** `sorted(s)`: the names of `s` in ascending order, each once. */
  function SortedKeys(s: set<string>): (ks: seq<string>)
    ensures StrictlySorted(ks) && Enumerates(ks, s)
    decreases s
  {
    if s == {} then []
    else
      LeastExists(s);
      LeastUnique(s);
      var m :| IsLeast(m, s);
      [m] + SortedKeys(s - {m})
  }

  /** The head of a sorted sequence is below every other element, and the
      tail holds every element except the head. */
  lemma SortedHead(a: seq<string>)
    requires StrictlySorted(a) && a != []
    ensures forall k :: k in a[1..] <==> k in a && k != a[0]
    ensures forall k :: k in a[1..] ==> Less(a[0], k)
    ensures StrictlySorted(a[1..])
  {
    LessIrreflexive(a[0]);
    forall k | k in a[1..]
      ensures Less(a[0], k)
    {
      var j :| 0 <= j < |a[1..]| && a[1..][j] == k;
      assert a[j + 1] == k;
    }
  }

  /** A strictly ascending sequence is determined by the set it lists. */
  lemma {:induction false} SortedUnique(a: seq<string>, b: seq<string>)
    requires StrictlySorted(a) && StrictlySorted(b)
    requires forall k :: k in a <==> k in b
    ensures a == b
    decreases |a|
  {
    if a != [] {
      assert a[0] in b;
    }
    if b != [] {
      assert b[0] in a;
    }
    if a != [] && b != [] {
      SortedHead(a);
      SortedHead(b);
      assert a[0] in b && b[0] in a;
      LessAsymmetric(a[0], b[0]);
      assert a[0] == b[0];
      SortedUnique(a[1..], b[1..]);
      assert a == [a[0]] + a[1..] && b == [b[0]] + b[1..];
    }
  }

  /** Whatever order the field names arrive in, `sorted` yields one sequence:
      the only ascending listing of the set. */
  lemma SortedKeysUnique(ks: seq<string>, s: set<string>)
    requires StrictlySorted(ks) && Enumerates(ks, s)
    ensures ks == SortedKeys(s)
  {
    SortedUnique(ks, SortedKeys(s));
  }

  /** `ks` with every occurrence of `x` removed, order kept. */
  function Without(ks: seq<string>, x: string): (r: seq<string>)
    ensures forall k :: k in r <==> k in ks && k != x
    ensures StrictlySorted(ks) ==> StrictlySorted(r)
  {
    if ks == [] then []
    else
      var init, last := ks[..|ks| - 1], ks[|ks| - 1];
      assert ks == init + [last];
      var r := Without(init, x) + (if last != x then [last] else []);
      assert StrictlySorted(ks) ==> StrictlySorted(r) by {
        if StrictlySorted(ks) {
          assert StrictlySorted(init);
          forall k | k in Without(init, x)
            ensures Less(k, last)
          {
            var i :| 0 <= i < |init| && init[i] == k;
            assert ks[i] == k;
          }
        }
      }
      r
  }
}
