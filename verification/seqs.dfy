/** Sequence helpers shared by the screens: duplicate-freedom and the
    `filter(x => x !== v)` idiom the handlers use to deselect. */
module Seqs {

  /** No value occurs twice in `s`. */
  ghost predicate NoDup<T>(s: seq<T>)
  {
    forall i, j :: 0 <= i < j < |s| ==> s[i] != s[j]
  }

  /** JavaScript's `s.filter(p)`: the elements satisfying `p`, in order. */
  function Keep<T>(s: seq<T>, p: T -> bool): (r: seq<T>)
    ensures |r| <= |s|
    ensures forall i :: 0 <= i < |r| ==> p(r[i]) && r[i] in s
    ensures forall i :: 0 <= i < |s| && p(s[i]) ==> s[i] in r
    ensures (forall i :: 0 <= i < |s| ==> p(s[i])) ==> r == s
    ensures (exists i :: 0 <= i < |s| && !p(s[i])) ==> |r| < |s|
  {
    if |s| == 0 then []
    else if p(s[0]) then [s[0]] + Keep(s[1..], p)
    else Keep(s[1..], p)
  }

  /** Filtering distributes over concatenation, so the survivors keep their order. */
  lemma {:induction false} KeepConcat<T>(a: seq<T>, b: seq<T>, p: T -> bool)
    ensures Keep(a + b, p) == Keep(a, p) + Keep(b, p)
    decreases |a|
  {
    if |a| == 0 {
      assert a + b == b;
    } else {
      assert (a + b)[1..] == a[1..] + b;
      KeepConcat(a[1..], b, p);
    }
  }

  /** `s.filter(x => x !== v)`: drops every occurrence of `v`. */
  function RemoveAll<T(==)>(s: seq<T>, v: T): (r: seq<T>)
    ensures v !in r
    ensures forall i :: 0 <= i < |r| ==> r[i] in s
    ensures forall i :: 0 <= i < |s| && s[i] != v ==> s[i] in r
    ensures |r| <= |s|
    ensures v in s ==> |r| < |s|
    ensures v !in s ==> r == s
  {
    Keep(s, x => x != v)
  }

  lemma RemoveAllConcat<T>(a: seq<T>, b: seq<T>, v: T)
    ensures RemoveAll(a + b, v) == RemoveAll(a, v) + RemoveAll(b, v)
  {
    KeepConcat(a, b, x => x != v);
  }

  lemma NoDupTail<T>(s: seq<T>)
    requires |s| > 0 && NoDup(s)
    ensures s[0] !in s[1..] && NoDup(s[1..])
  {
  }

  /** Removing values never introduces a duplicate. */
  lemma {:induction false} RemoveAllNoDup<T>(s: seq<T>, v: T)
    requires NoDup(s)
    ensures NoDup(RemoveAll(s, v))
  {
    if |s| > 0 {
      NoDupTail(s);
      RemoveAllNoDup(s[1..], v);
      var t := RemoveAll(s[1..], v);
      if s[0] != v {
        var r := [s[0]] + t;
        assert s[0] !in t;
        forall i, j | 0 <= i < j < |r| ensures r[i] != r[j] {
          if i == 0 {
            assert r[j] == t[j - 1];
          } else {
            assert r[i] == t[i - 1] && r[j] == t[j - 1];
          }
        }
      }
    }
  }

  /** Appending a fresh value keeps a sequence duplicate-free. */
  lemma AppendFreshNoDup<T>(s: seq<T>, v: T)
    requires NoDup(s) && v !in s
    ensures NoDup(s + [v])
  {
    var r := s + [v];
    forall i, j | 0 <= i < j < |r| ensures r[i] != r[j] {
      if j == |s| {
        assert r[i] == s[i];
      } else {
        assert r[i] == s[i] && r[j] == s[j];
      }
    }
  }
}
