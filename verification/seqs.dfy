/**
 * Filtering a sequence while keeping its order: the shape shared by the
 * list comprehensions of the explorer (`[x for x in xs if p(x)]`) and by
 * its loops that `append` to an accumulator and `continue` past the rest.
 * Both are defined from the right, so that a loop that has processed the
 * prefix `s[..i]` holds exactly `FilterMap(f, s[..i])`.
 */
module Seqs {
  import opened Wrappers

  /** The elements an optional value contributes: one or none. */
  function Opt<B>(o: Option<B>): seq<B>
  {
    match o
    case Some(b) => [b]
    case None => []
  }

  /** The images, in order, of the elements of `s` that `f` maps to a value. */
  function FilterMap<A, B>(f: A -> Option<B>, s: seq<A>): (r: seq<B>)
    ensures |r| <= |s|
  {
    if s == [] then [] else FilterMap(f, s[..|s| - 1]) + Opt(f(s[|s| - 1]))
  }

  /** The positions of `s`, in increasing order, at which `f` yields a value. */
  function Hits<A, B>(f: A -> Option<B>, s: seq<A>): seq<nat>
  {
    if s == [] then []
    else Hits(f, s[..|s| - 1]) + (if f(s[|s| - 1]).Some? then [|s| - 1] else [])
  }

  /**
   * `r` is what `f` yields at the positions `ix` of `s`, `ix` is strictly
   * increasing, and `ix` holds exactly the positions where `f` yields a value.
   */
  ghost predicate SelectedAt<A, B>(f: A -> Option<B>, s: seq<A>, ix: seq<nat>, r: seq<B>)
  {
    && |ix| == |r|
    && (forall k :: 0 <= k < |ix| ==> ix[k] < |s| && f(s[ix[k]]) == Some(r[k]))
    && (forall k, l :: 0 <= k < l < |ix| ==> ix[k] < ix[l])
    && (forall i :: 0 <= i < |s| ==> (f(s[i]).Some? <==> i in ix))
  }

  lemma FilterMapSnoc<A, B>(f: A -> Option<B>, s: seq<A>, x: A)
    ensures FilterMap(f, s + [x]) == FilterMap(f, s) + Opt(f(x))
    ensures Hits(f, s + [x]) == Hits(f, s) + (if f(x).Some? then [|s|] else [])
  {
    assert (s + [x])[..|s|] == s;
  }

  /** `FilterMap` keeps exactly the elements `f` accepts, in their original order. */
  lemma {:induction false} FilterMapSelects<A, B>(f: A -> Option<B>, s: seq<A>)
    ensures SelectedAt(f, s, Hits(f, s), FilterMap(f, s))
  {
    if s != [] {
      var n := |s| - 1;
      var p, x := s[..n], s[n];
      assert s == p + [x];
      FilterMapSelects(f, p);
      FilterMapSnoc(f, p, x);
      var ix, r := Hits(f, p), FilterMap(f, p);
      var ix', r' := Hits(f, s), FilterMap(f, s);
      forall k | 0 <= k < |ix|
        ensures ix[k] < n && s[ix[k]] == p[ix[k]]
      {
      }
      if f(x).Some? {
        assert ix' == ix + [n] && r' == r + [f(x).value];
        forall k | 0 <= k < |ix'|
          ensures ix'[k] < |s| && f(s[ix'[k]]) == Some(r'[k])
        {
          if k < |ix| {
            assert ix'[k] == ix[k] && r'[k] == r[k];
          }
        }
        forall i | 0 <= i < |s|
          ensures f(s[i]).Some? <==> i in ix'
        {
          if i < n {
            assert s[i] == p[i];
            assert i in ix' <==> i in ix;
          }
        }
      } else {
        assert ix' == ix && r' == r;
        forall i | 0 <= i < |s|
          ensures f(s[i]).Some? <==> i in ix'
        {
          if i < n {
            assert s[i] == p[i];
          } else {
            assert i !in ix;
          }
        }
      }
    }
  }

  /** The selector that keeps an element exactly when `p` holds of it. */
  function Keep<T>(p: T -> bool): T -> Option<T>
  {
    x => if p(x) then Some(x) else None
  }

  /** `[x for x in s if p(x)]` */
  function Filter<T>(p: T -> bool, s: seq<T>): seq<T>
  {
    FilterMap(Keep(p), s)
  }

  /** A filter keeps exactly the members that pass, and never adds any. */
  lemma FilterMembers<T>(p: T -> bool, s: seq<T>)
    ensures |Filter(p, s)| <= |s|
    ensures forall x :: x in Filter(p, s) ==> x in s && p(x)
    ensures forall x :: x in s && p(x) ==> x in Filter(p, s)
  {
    var f := Keep(p);
    var ix, r := Hits(f, s), FilterMap(f, s);
    FilterMapSelects(f, s);
    forall x
      ensures x in r <==> x in s && p(x)
    {
      if x in r {
        var k :| 0 <= k < |r| && r[k] == x;
        assert f(s[ix[k]]) == Some(x);
      }
      if x in s && p(x) {
        var i :| 0 <= i < |s| && s[i] == x;
        assert i in ix;
        var k :| 0 <= k < |ix| && ix[k] == i;
        assert f(s[i]) == Some(r[k]);
      }
    }
  }

  /**
   * A filter keeps exactly the elements that pass, in their original order:
   * the result is `s` read at the increasing positions `Hits(Keep(p), s)`,
   * which are exactly the positions whose element passes.
   */
  lemma FilterSelects<T>(p: T -> bool, s: seq<T>)
    ensures |Filter(p, s)| == |Hits(Keep(p), s)|
    ensures forall k :: 0 <= k < |Hits(Keep(p), s)| ==>
      Hits(Keep(p), s)[k] < |s| && Filter(p, s)[k] == s[Hits(Keep(p), s)[k]]
    ensures forall k, l :: 0 <= k < l < |Hits(Keep(p), s)| ==> Hits(Keep(p), s)[k] < Hits(Keep(p), s)[l]
    ensures forall i :: 0 <= i < |s| ==> (p(s[i]) <==> i in Hits(Keep(p), s))
  {
    FilterMapSelects(Keep(p), s);
  }

  /** A filter that every element passes is the identity. */
  lemma {:induction false} FilterAll<T>(p: T -> bool, s: seq<T>)
    requires forall x :: x in s ==> p(x)
    ensures Filter(p, s) == s
  {
    if s != [] {
      var n := |s| - 1;
      assert s == s[..n] + [s[n]];
      FilterAll(p, s[..n]);
      FilterMapSnoc(Keep(p), s[..n], s[n]);
    }
  }

  /** Filtering twice by the same test is filtering once. */
  lemma FilterIdempotent<T>(p: T -> bool, s: seq<T>)
    ensures Filter(p, Filter(p, s)) == Filter(p, s)
  {
    FilterMembers(p, s);
    FilterAll(p, Filter(p, s));
  }

  /** Filtering distributes over appending one element. */
  lemma FilterSnoc<T>(p: T -> bool, s: seq<T>, x: T)
    ensures Filter(p, s + [x]) == Filter(p, s) + (if p(x) then [x] else [])
  {
    FilterMapSnoc(Keep(p), s, x);
  }

  /**
   * Filtering what `f` yields is the same as using the narrower selector `g`
   * that yields `f`'s value only when it also passes `p`.
   */
  lemma {:induction false} FilterMapNarrowed<A, B>(f: A -> Option<B>, g: A -> Option<B>, p: B -> bool, s: seq<A>)
    requires forall x :: g(x) == (if f(x).Some? && p(f(x).value) then f(x) else None)
    ensures FilterMap(g, s) == Filter(p, FilterMap(f, s))
  {
    if s != [] {
      var n := |s| - 1;
      assert s == s[..n] + [s[n]];
      FilterMapNarrowed(f, g, p, s[..n]);
      FilterMapSnoc(f, s[..n], s[n]);
      FilterMapSnoc(g, s[..n], s[n]);
      assert g(s[n]) == (if f(s[n]).Some? && p(f(s[n]).value) then f(s[n]) else None);
      var r, r' := FilterMap(f, s[..n]), FilterMap(g, s[..n]);
      if f(s[n]).Some? {
        FilterSnoc(p, r, f(s[n]).value);
      } else {
        assert r + [] == r && r' + [] == r';
      }
    }
  }
}
