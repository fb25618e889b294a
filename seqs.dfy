/** Sequence facts shared by the store, the present list and the report. */
module Seqs {
  import opened Wrappers

  /** No element occurs twice. */
  predicate Distinct<T(==)>(s: seq<T>)
  {
    forall i, j :: 0 <= i < j < |s| ==> s[i] != s[j]
  }

  /** Python's `s.index(x)`, with None where Python raises ValueError:
      the position of the first occurrence of x. */
  function IndexOf<T(==)>(s: seq<T>, x: T): (r: Option<nat>)
    ensures r.None? <==> x !in s
    ensures r.Some? ==> r.value < |s| && s[r.value] == x && x !in s[..r.value]
  {
    if s == [] then None
    else if s[0] == x then Some(0)
    else match IndexOf(s[1..], x)
      case None => None
      case Some(j) =>
        assert s[..j + 1] == [s[0]] + s[1..][..j];
        Some(j + 1)
  }

  /** In a sequence without repetitions an element's position is the first one. */
  lemma IndexOfDistinct<T>(s: seq<T>, i: nat)
    requires Distinct(s) && i < |s|
    ensures IndexOf(s, s[i]) == Some(i)
  {
    assert s[i] !in s[..i];
  }

  /** The order-keeping de-duplication of the present list: an element is
      appended the first time it is seen, later sightings change nothing
      (`if roll not in present: present.append(roll)`). */
  function Dedup<T(==)>(s: seq<T>): (r: seq<T>)
    ensures Distinct(r)
    ensures forall i :: 0 <= i < |r| ==> r[i] in s
    ensures forall i :: 0 <= i < |s| ==> s[i] in r
  {
    if s == [] then []
    else
      var p := Dedup(s[..|s| - 1]);
      var x := s[|s| - 1];
      assert s == s[..|s| - 1] + [x];
      if x in p then p else p + [x]
  }

  /** A later sighting of something already present changes nothing. */
  lemma {:induction false} DedupRepeat<T>(s: seq<T>, x: T)
    requires x in s
    ensures Dedup(s + [x]) == Dedup(s)
  {
    assert (s + [x])[..|s|] == s;
  }

  /** De-duplicating twice is de-duplicating once. */
  lemma {:induction false} DedupIdempotent<T>(s: seq<T>)
    ensures Dedup(Dedup(s)) == Dedup(s)
  {
    DedupOfDistinct(Dedup(s));
  }

  /** A sequence without repetitions is left as it is. */
  lemma {:induction false} DedupOfDistinct<T>(s: seq<T>)
    requires Distinct(s)
    ensures Dedup(s) == s
  {
    if s != [] {
      var init := s[..|s| - 1];
      assert Distinct(init);
      DedupOfDistinct(init);
      assert s[|s| - 1] !in init;
      assert s == init + [s[|s| - 1]];
    }
  }

  /** First-seen order: each element of Dedup(s) first occurs in s before the next one does. */
  lemma {:induction false} DedupFirstSeenOrder<T>(s: seq<T>, i: nat, j: nat)
    requires i < j < |Dedup(s)|
    ensures IndexOf(s, Dedup(s)[i]).value < IndexOf(s, Dedup(s)[j]).value
  {
    var init := s[..|s| - 1];
    var x := s[|s| - 1];
    var p := Dedup(init);
    assert s == init + [x];
    if x in p {
      DedupFirstSeenOrder(init, i, j);
      IndexOfPrefix(init, x, p[i]);
      IndexOfPrefix(init, x, p[j]);
    } else {
      IndexOfPrefix(init, x, p[i]);
      if j < |p| {
        DedupFirstSeenOrder(init, i, j);
        IndexOfPrefix(init, x, p[j]);
      } else {
        assert Dedup(s)[j] == x;
        assert x !in init;
        assert IndexOf(s, x).value == |init| by {
          assert s[..|init|] == init;
        }
      }
    }
  }

  /** Appending an element does not move the first occurrence of anything already present. */
  lemma IndexOfPrefix<T>(s: seq<T>, x: T, y: T)
    requires y in s
    ensures IndexOf(s + [x], y) == IndexOf(s, y)
  {
    if s[0] != y {
      assert (s + [x])[1..] == s[1..] + [x];
      IndexOfPrefix(s[1..], x, y);
    }
  }

  /** Number of elements of s that belong to the set p. */
  function CountIn<T>(s: seq<T>, p: set<T>): (n: nat)
    ensures n <= |s|
  {
    if s == [] then 0
    else CountIn(s[..|s| - 1], p) + (if s[|s| - 1] in p then 1 else 0)
  }

  /** Elements outside s do not affect how many elements of s lie in p. */
  lemma {:induction false} CountInIgnoresOutsiders<T>(s: seq<T>, p: set<T>, x: T)
    requires x !in s
    ensures CountIn(s, p) == CountIn(s, p - {x})
  {
    if s != [] {
      assert s[..|s| - 1] + [s[|s| - 1]] == s;
      CountInIgnoresOutsiders(s[..|s| - 1], p, x);
    }
  }

  /** When s has no repetitions and lists every element of p, exactly |p| of its elements lie in p. */
  lemma {:induction false} CountInCovered<T>(s: seq<T>, p: set<T>)
    requires Distinct(s)
    requires forall x :: x in p ==> x in s
    ensures CountIn(s, p) == |p|
  {
    if s == [] {
      assert p == {};
    } else {
      var init := s[..|s| - 1];
      var x := s[|s| - 1];
      assert s == init + [x];
      assert x !in init;
      var rest := p - {x};
      forall y | y in rest ensures y in init {
        assert y in s;
      }
      CountInCovered(init, rest);
      CountInIgnoresOutsiders(init, p, x);
      if x in p {
        assert |p| == |rest| + 1;
      } else {
        assert rest == p;
      }
    }
  }

  /** The set of the elements of a sequence. */
  function Elements<T(!new)>(s: seq<T>): set<T>
  {
    set x | x in s
  }

  /** One more element adds itself to the set of elements. */
  lemma ElementsAppend<T(!new)>(s: seq<T>, x: T)
    ensures Elements(s + [x]) == Elements(s) + {x}
  {
  }
}
