/**
 * The string operations the shopping-list helper relies on: Python's
 * `str.strip()`, `str.lower()` and `str.split(",")`, restricted to the
 * ASCII range (see README: characters above U+007F are never whitespace
 * and are never case-folded here).
 */
module Text {

  /** `c.isspace()` for ASCII characters: tab, line feed, vertical tab, form
      feed, carriage return, the four information separators and space. */
  predicate IsSpace(c: char)
  {
    var n := c as int;
    n == 32 || 9 <= n <= 13 || 28 <= n <= 31
  }

  predicate AllSpace(s: string)
  {
    forall k :: 0 <= k < |s| ==> IsSpace(s[k])
  }

  predicate IsUpper(c: char)
  {
    'A' <= c <= 'Z'
  }

  /** `s.lstrip()` */
  function TrimLeft(s: string): (r: string)
    ensures |r| <= |s| && r == s[|s| - |r|..]
    ensures r == [] || !IsSpace(r[0])
  {
    if |s| > 0 && IsSpace(s[0]) then TrimLeft(s[1..]) else s
  }

  /** `s.rstrip()` */
  function TrimRight(s: string): (r: string)
    ensures |r| <= |s| && r == s[..|r|]
    ensures r == [] || !IsSpace(r[|r| - 1])
  {
    if |s| > 0 && IsSpace(s[|s| - 1]) then TrimRight(s[..|s| - 1]) else s
  }

  /** `s.strip()`: nothing but whitespace is removed, and only at the two ends. */
  function Strip(s: string): (r: string)
    ensures |r| <= |s|
    ensures r == [] || (!IsSpace(r[0]) && !IsSpace(r[|r| - 1]))
  {
    TrimRight(TrimLeft(s))
  }

  /** `c.lower()` for ASCII characters */
  function LowerChar(c: char): char
  {
    if IsUpper(c) then (c as int + 32) as char else c
  }

  /** `s.lower()`: only upper-case letters change, each to its lower-case form. */
  function Lower(s: string): (r: string)
    ensures |r| == |s|
  {
    seq(|s|, k requires 0 <= k < |s| => LowerChar(s[k]))
  }

  /** `s.strip().lower()`, the form in which ingredient names are compared. */
  function Normalize(s: string): (r: string)
    ensures |r| <= |s|
  {
    Lower(Strip(s))
  }

  /** `s.split(sep)`: the pieces between separators, always at least one. */
  function Split(s: string, sep: char): (parts: seq<string>)
    ensures |parts| >= 1
    ensures forall k :: 0 <= k < |parts| ==> sep !in parts[k]
  {
    if s == [] then [[]]
    else if s[0] == sep then [[]] + Split(s[1..], sep)
    else
      var rest := Split(s[1..], sep);
      [[s[0]] + rest[0]] + rest[1..]
  }

  /** `sep.join(parts)` */
  function Join(parts: seq<string>, sep: char): string
    requires |parts| >= 1
  {
    if |parts| == 1 then parts[0] else parts[0] + [sep] + Join(parts[1..], sep)
  }

  // ----- Properties -----

  /** Splitting loses nothing: joining the pieces gives back the input. */
  lemma {:induction false} JoinSplit(s: string, sep: char)
    ensures Join(Split(s, sep), sep) == s
  {
    if s != [] {
      JoinSplit(s[1..], sep);
      if s[0] == sep {
        assert [[]] + Split(s[1..], sep) == Split(s, sep);
      } else {
        var rest := Split(s[1..], sep);
        var parts := [[s[0]] + rest[0]] + rest[1..];
        assert parts[1..] == rest[1..];
        if |rest| == 1 {
          assert s == [s[0]] + s[1..];
        } else {
          assert Join(rest, sep) == rest[0] + [sep] + Join(rest[1..], sep);
          assert Join(parts, sep) == [s[0]] + Join(rest, sep);
        }
      }
    }
  }

  /** A string without the separator is a single piece. */
  lemma {:induction false} SplitNoSeparator(s: string, sep: char)
    requires sep !in s
    ensures Split(s, sep) == [s]
  {
    if s != [] {
      SplitNoSeparator(s[1..], sep);
      assert [s[0]] + s[1..] == s;
    }
  }

  /** The first piece runs up to the first separator; the rest is the split of what follows it. */
  lemma {:induction false} SplitFirst(a: string, sep: char, b: string)
    requires sep !in a
    ensures Split(a + [sep] + b, sep) == [a] + Split(b, sep)
  {
    var s := a + [sep] + b;
    if a == [] {
      assert s[1..] == b;
    } else {
      assert s[1..] == a[1..] + [sep] + b;
      SplitFirst(a[1..], sep, b);
      assert [a[0]] + a[1..] == a;
    }
  }

  /** Lower-casing changes no separator, so it commutes with splitting. */
  lemma {:induction false} SplitLower(s: string)
    ensures |Split(Lower(s), ',')| == |Split(s, ',')|
    ensures forall k :: 0 <= k < |Split(s, ',')| ==> Split(Lower(s), ',')[k] == Lower(Split(s, ',')[k])
  {
    if s != [] {
      var t := Lower(s);
      assert t[1..] == Lower(s[1..]);
      SplitLower(s[1..]);
      var r, r' := Split(s[1..], ','), Split(t[1..], ',');
      if s[0] == ',' {
        assert Split(s, ',') == [[]] + r;
        assert Split(t, ',') == [[]] + r';
      } else {
        assert t[0] != ',';
        assert Split(s, ',') == [[s[0]] + r[0]] + r[1..];
        assert Split(t, ',') == [[t[0]] + r'[0]] + r'[1..];
        assert Lower([s[0]] + r[0]) == [t[0]] + Lower(r[0]);
      }
    }
  }

  /** `lstrip` removes only whitespace. */
  lemma {:induction false} TrimLeftRemovesSpace(s: string)
    ensures AllSpace(s[..|s| - |TrimLeft(s)|])
  {
    if |s| > 0 && IsSpace(s[0]) {
      TrimLeftRemovesSpace(s[1..]);
      var n := |s| - |TrimLeft(s)|;
      assert s[..n] == [s[0]] + s[1..][..n - 1];
    }
  }

  /** `rstrip` removes only whitespace. */
  lemma {:induction false} TrimRightRemovesSpace(s: string)
    ensures AllSpace(s[|TrimRight(s)|..])
  {
    if |s| > 0 && IsSpace(s[|s| - 1]) {
      var n := |s| - 1;
      TrimRightRemovesSpace(s[..n]);
      var m := |TrimRight(s)|;
      assert s[m..] == s[..n][m..] + [s[n]];
    }
  }

  /** A string strips to nothing exactly when it is all whitespace. */
  lemma StripEmpty(s: string)
    ensures Strip(s) == [] <==> AllSpace(s)
  {
    var l := TrimLeft(s);
    TrimLeftRemovesSpace(s);
    if Strip(s) == [] {
      if l != [] {
        TrimRightRemovesSpace(l);
        assert false;
      }
      assert s[..|s|] == s;
    }
  }

  /**
   * `strip` removes whitespace from the two ends and nothing else: its result
   * is the slice of the input between an all-whitespace head and tail.
   */
  lemma StripIsTrimmedSlice(s: string)
    ensures exists a, b :: 0 <= a <= b <= |s| && Strip(s) == s[a..b] && AllSpace(s[..a]) && AllSpace(s[b..])
  {
    var l := TrimLeft(s);
    var a := |s| - |l|;
    var m := |Strip(s)|;
    TrimLeftRemovesSpace(s);
    TrimRightRemovesSpace(l);
    assert s[a..a + m] == l[..m];
    assert s[a + m..] == l[m..];
  }

  /** A string without whitespace at its ends is left alone by `strip`. */
  lemma StripStripped(t: string)
    requires t == [] || (!IsSpace(t[0]) && !IsSpace(t[|t| - 1]))
    ensures Strip(t) == t
  {
  }

  lemma {:induction false} TrimLeftPadded(pre: string, s: string)
    requires AllSpace(pre)
    ensures TrimLeft(pre + s) == TrimLeft(s)
  {
    if pre == [] {
      assert pre + s == s;
    } else {
      assert (pre + s)[0] == pre[0] && IsSpace(pre[0]);
      assert (pre + s)[1..] == pre[1..] + s;
      TrimLeftPadded(pre[1..], s);
    }
  }

  lemma {:induction false} TrimRightPadded(s: string, post: string)
    requires AllSpace(post)
    ensures TrimRight(s + post) == TrimRight(s)
  {
    if post == [] {
      assert s + post == s;
    } else {
      var n := |post| - 1;
      assert (s + post)[|s + post| - 1] == post[n] && IsSpace(post[n]);
      assert (s + post)[..|s + post| - 1] == s + post[..n];
      TrimRightPadded(s, post[..n]);
    }
  }

  lemma {:induction false} TrimLeftAppend(s: string, t: string)
    requires TrimLeft(s) != []
    ensures TrimLeft(s + t) == TrimLeft(s) + t
  {
    if IsSpace(s[0]) {
      assert (s + t)[1..] == s[1..] + t;
      TrimLeftAppend(s[1..], t);
    }
  }

  /** Surrounding whitespace never matters to `strip`. */
  lemma StripPadded(pre: string, s: string, post: string)
    requires AllSpace(pre) && AllSpace(post)
    ensures Strip(pre + s + post) == Strip(s)
  {
    assert pre + s + post == pre + (s + post);
    TrimLeftPadded(pre, s + post);
    if TrimLeft(s) != [] {
      TrimLeftAppend(s, post);
      TrimRightPadded(TrimLeft(s), post);
    } else {
      assert AllSpace(s) by { StripEmpty(s); }
      assert AllSpace(s + post);
      StripEmpty(s + post);
    }
  }

  lemma {:induction false} TrimLeftLower(s: string)
    ensures TrimLeft(Lower(s)) == Lower(TrimLeft(s))
  {
    if s != [] {
      assert Lower(s)[1..] == Lower(s[1..]);
      TrimLeftLower(s[1..]);
    }
  }

  lemma {:induction false} TrimRightLower(s: string)
    ensures TrimRight(Lower(s)) == Lower(TrimRight(s))
  {
    if s != [] {
      var n := |s| - 1;
      assert Lower(s)[..n] == Lower(s[..n]);
      TrimRightLower(s[..n]);
    }
  }

  lemma LowerIdempotent(s: string)
    ensures Lower(Lower(s)) == Lower(s)
  {
  }

  /** `strip` and `lower` commute. */
  lemma StripLower(s: string)
    ensures Strip(Lower(s)) == Lower(Strip(s))
  {
    TrimLeftLower(s);
    TrimRightLower(TrimLeft(s));
  }

  /** Lower-casing first changes neither the normal form nor what `strip` leaves. */
  lemma NormalizeLower(t: string)
    ensures Normalize(Lower(t)) == Normalize(t)
    ensures |Strip(Lower(t))| == |Strip(t)|
  {
    StripLower(t);
    LowerIdempotent(Strip(t));
  }

  /** A normalised name normalises to itself. */
  lemma {:induction false} NormalizeIdempotent(s: string)
    ensures Normalize(Normalize(s)) == Normalize(s)
  {
    var t := Strip(s);
    StripLower(t);
    StripStripped(t);
    LowerIdempotent(t);
  }

  /**
   * Names that differ only in letter case and in surrounding whitespace
   * normalise to the same string.
   */
  lemma NormalizeForgetsCaseAndPadding(a: string, b: string, pre: string, post: string)
    requires AllSpace(pre) && AllSpace(post)
    requires Lower(a) == Lower(b)
    ensures Normalize(pre + a + post) == Normalize(b)
  {
    StripPadded(pre, a, post);
    StripLower(a);
    StripLower(b);
  }
}
