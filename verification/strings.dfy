/**
 * The Python `str` builtins the diet planner relies on, over `seq<char>`:
 * `isspace`, `strip`, `split` on separator characters, `lower`, and the
 * filter-map shape shared by every "for line in lines: append if it parses"
 * loop of the program.
 */
module Strings {
  import opened Wrappers

  /**
   * Python's `str.isspace()` for a single character. `str.strip()` with no
   * argument removes exactly these characters, and the regular expression
   * class `\s` of a `str` pattern matches exactly these: tab, line feed,
   * vertical tab, form feed, carriage return, the four information
   * separators U+001C..U+001F, space, NEL U+0085, NO-BREAK SPACE U+00A0,
   * OGHAM SPACE MARK U+1680, the spaces U+2000..U+200A, LINE and PARAGRAPH
   * SEPARATOR U+2028/U+2029, U+202F, U+205F and IDEOGRAPHIC SPACE U+3000.
   */
  predicate IsSpace(c: char)
  {
    || c == ' '
    || ('\t' <= c <= '\r')
    || ('\U{1C}' <= c <= '\U{1F}')
    || c == '\U{85}' || c == '\U{A0}' || c == '\U{1680}'
    || ('\U{2000}' <= c <= '\U{200A}')
    || c == '\U{2028}' || c == '\U{2029}' || c == '\U{202F}' || c == '\U{205F}' || c == '\U{3000}'
  }

  /** `str.lstrip()`: the suffix of `s` that starts at its first non-space character. */
  function TrimStart(s: string): (r: string)
    ensures |r| <= |s|
  {
    if s != [] && IsSpace(s[0]) then TrimStart(s[1..]) else s
  }

  /** `str.rstrip()`: the prefix of `s` that ends at its last non-space character. */
  function TrimEnd(s: string): (r: string)
    ensures |r| <= |s|
  {
    if s != [] && IsSpace(s[|s| - 1]) then TrimEnd(s[..|s| - 1]) else s
  }

  /** `str.strip()`. */
  function Strip(s: string): (r: string)
    ensures |r| <= |s|
  {
    TrimEnd(TrimStart(s))
  }

  /** What `lstrip` cuts is whitespace, and what it keeps does not start with whitespace. */
  lemma {:induction false} TrimStartSpec(s: string)
    ensures TrimStart(s) == s[|s| - |TrimStart(s)|..]
    ensures TrimStart(s) == [] || !IsSpace(TrimStart(s)[0])
    ensures forall i :: 0 <= i < |s| - |TrimStart(s)| ==> IsSpace(s[i])
  {
    if s != [] && IsSpace(s[0]) {
      var t := s[1..];
      TrimStartSpec(t);
      assert TrimStart(s) == TrimStart(t);
      assert s[|s| - |TrimStart(s)|..] == t[|t| - |TrimStart(t)|..];
      forall i | 0 <= i < |s| - |TrimStart(s)|
        ensures IsSpace(s[i])
      {
        if i > 0 {
          assert s[i] == t[i - 1];
        }
      }
    }
  }

  /** What `rstrip` cuts is whitespace, and what it keeps does not end with whitespace. */
  lemma {:induction false} TrimEndSpec(s: string)
    ensures TrimEnd(s) == s[..|TrimEnd(s)|]
    ensures TrimEnd(s) == [] || !IsSpace(TrimEnd(s)[|TrimEnd(s)| - 1])
    ensures forall i :: |TrimEnd(s)| <= i < |s| ==> IsSpace(s[i])
  {
    if s != [] && IsSpace(s[|s| - 1]) {
      var t := s[..|s| - 1];
      TrimEndSpec(t);
      assert TrimEnd(s) == TrimEnd(t);
      assert s[..|TrimEnd(s)|] == t[..|TrimEnd(t)|];
      forall i | |TrimEnd(s)| <= i < |s|
        ensures IsSpace(s[i])
      {
        if i < |t| {
          assert s[i] == t[i];
        }
      }
    }
  }

  /** `strip` keeps the slice of `s` that starts after the leading whitespace. */
  lemma StripSlice(s: string)
    ensures var r, lo := Strip(s), |s| - |TrimStart(s)|;
      lo + |r| <= |s| && r == s[lo..lo + |r|]
  {
    var t := TrimStart(s);
    TrimStartSpec(s);
    TrimEndSpec(t);
    assert Strip(s) == t[..|Strip(s)|];
  }

  /** What `strip` cuts away on either side is whitespace. */
  lemma StripCutsSpace(s: string)
    ensures var r, lo := Strip(s), |s| - |TrimStart(s)|;
      && (forall i :: 0 <= i < lo ==> IsSpace(s[i]))
      && (forall i :: lo + |r| <= i < |s| ==> IsSpace(s[i]))
  {
    var t := TrimStart(s);
    var lo := |s| - |t|;
    TrimStartSpec(s);
    TrimEndSpec(t);
    assert forall i :: lo <= i < |s| ==> s[i] == t[i - lo];
  }

  /** What `strip` keeps neither starts nor ends with whitespace. */
  lemma StripEnds(s: string)
    ensures Strip(s) == [] || (!IsSpace(Strip(s)[0]) && !IsSpace(Strip(s)[|Strip(s)| - 1]))
  {
    var t := TrimStart(s);
    TrimStartSpec(s);
    TrimEndSpec(t);
    if Strip(s) != [] {
      assert Strip(s)[0] == t[0];
    }
  }

  /** `strip` gives the empty string exactly for all-whitespace input. */
  lemma StripEmpty(s: string)
    ensures Strip(s) == [] <==> forall i :: 0 <= i < |s| ==> IsSpace(s[i])
  {
    StripSlice(s);
    StripCutsSpace(s);
    StripEnds(s);
    var t := TrimStart(s);
    if Strip(s) == [] {
      TrimStartSpec(s);
      TrimEndSpec(t);
    }
  }

  /**
   * `strip` keeps a contiguous slice of `s`, starting at `lo`, that neither
   * begins nor ends with whitespace; everything cut away is whitespace, so the
   * result is empty exactly when `s` is all whitespace.
   */
  lemma StripSpec(s: string)
    ensures var r, lo := Strip(s), |s| - |TrimStart(s)|;
      && lo + |r| <= |s|
      && r == s[lo..lo + |r|]
      && (forall i :: 0 <= i < lo ==> IsSpace(s[i]))
      && (forall i :: lo + |r| <= i < |s| ==> IsSpace(s[i]))
      && (r == [] || (!IsSpace(r[0]) && !IsSpace(r[|r| - 1])))
      && (r == [] <==> forall i :: 0 <= i < |s| ==> IsSpace(s[i]))
  {
    StripSlice(s);
    StripCutsSpace(s);
    StripEnds(s);
    StripEmpty(s);
  }

  /** Whitespace put before a text is all cut by `lstrip`. */
  lemma {:induction false} TrimStartPad(pad: string, s: string)
    requires forall i :: 0 <= i < |pad| ==> IsSpace(pad[i])
    ensures TrimStart(pad + s) == TrimStart(s)
  {
    if pad == [] {
      assert pad + s == s;
    } else {
      assert (pad + s)[0] == pad[0] && (pad + s)[1..] == pad[1..] + s;
      TrimStartPad(pad[1..], s);
    }
  }

  /** Whitespace put after a text is all cut by `rstrip`. */
  lemma {:induction false} TrimEndPad(s: string, pad: string)
    requires forall i :: 0 <= i < |pad| ==> IsSpace(pad[i])
    ensures TrimEnd(s + pad) == TrimEnd(s)
    decreases |pad|
  {
    if pad == [] {
      assert s + pad == s;
    } else {
      var t := s + pad;
      assert t[|t| - 1] == pad[|pad| - 1] && t[..|t| - 1] == s + pad[..|pad| - 1];
      TrimEndPad(s, pad[..|pad| - 1]);
    }
  }

  /** `lstrip` of a concatenation stops inside the first text unless that is all whitespace. */
  lemma {:induction false} TrimStartConcat(x: string, y: string)
    ensures TrimStart(x + y) == if TrimStart(x) != [] then TrimStart(x) + y else TrimStart(y)
  {
    if x == [] {
      assert x + y == y;
    } else {
      assert (x + y)[0] == x[0] && (x + y)[1..] == x[1..] + y;
      if IsSpace(x[0]) {
        TrimStartConcat(x[1..], y);
      }
    }
  }

  /** Whitespace on either side of a text does not change what `strip` returns. */
  lemma StripPad(left: string, s: string, right: string)
    requires forall i :: 0 <= i < |left| ==> IsSpace(left[i])
    requires forall i :: 0 <= i < |right| ==> IsSpace(right[i])
    ensures Strip(left + s + right) == Strip(s)
  {
    assert left + s + right == left + (s + right);
    TrimStartPad(left, s + right);
    TrimStartConcat(s, right);
    if TrimStart(s) != [] {
      TrimEndPad(TrimStart(s), right);
    } else {
      TrimStartPad(right, []);
      assert right + [] == right;
    }
  }

  /**
   * `s.split(sep)` for a one-character separator, and `re.split(pattern, s)`
   * for a pattern that is a class of single characters: the pieces between
   * separators, always at least one.
   */
  function Split(s: string, seps: set<char>): (r: seq<string>)
    ensures |r| >= 1
  {
    if s == [] then [[]]
    else
      var rest := Split(s[1..], seps);
      if s[0] in seps then [[]] + rest
      else [[s[0]] + rest[0]] + rest[1..]
  }

  /** No piece holds a separator. */
  lemma {:induction false} SplitPiecesAvoidSeps(s: string, seps: set<char>)
    ensures forall k, j :: 0 <= k < |Split(s, seps)| && 0 <= j < |Split(s, seps)[k]| ==> Split(s, seps)[k][j] !in seps
  {
    if s != [] {
      SplitPiecesAvoidSeps(s[1..], seps);
      var rest := Split(s[1..], seps);
      if s[0] !in seps {
        var first := [s[0]] + rest[0];
        assert forall j :: 1 <= j < |first| ==> first[j] == rest[0][j - 1];
      }
    }
  }

  /** The `n` characters of `s` from position `lo`. */
  function Window(s: string, lo: nat, n: nat): (w: string)
    requires lo + n <= |s|
    ensures |w| == n
  {
    s[lo..lo + n]
  }

  /** `p` occurs in `s` as a contiguous run of characters. */
  predicate SliceOf(p: string, s: string)
  {
    exists lo: nat :: lo + |p| <= |s| && Window(s, lo, |p|) == p
  }

  /** A prefix is a slice. */
  lemma PrefixSlice(p: string, s: string)
    requires |p| <= |s| && p == s[..|p|]
    ensures SliceOf(p, s)
  {
    assert Window(s, 0, |p|) == p;
  }

  /** A slice of the tail is a slice of the whole. */
  lemma SliceOfShift(p: string, s: string)
    requires s != [] && SliceOf(p, s[1..])
    ensures SliceOf(p, s)
  {
    var lo: nat :| lo + |p| <= |s[1..]| && Window(s[1..], lo, |p|) == p;
    assert s[1..][lo..lo + |p|] == s[lo + 1..lo + 1 + |p|];
    assert Window(s, lo + 1, |p|) == p;
  }

  /** The first piece is a prefix. */
  lemma {:induction false} SplitFirstPrefix(s: string, seps: set<char>)
    ensures |Split(s, seps)[0]| <= |s| && Split(s, seps)[0] == s[..|Split(s, seps)[0]|]
  {
    if s != [] && s[0] !in seps {
      var rest := Split(s[1..], seps);
      SplitFirstPrefix(s[1..], seps);
      assert Split(s, seps)[0] == [s[0]] + rest[0];
      assert s[..|rest[0]| + 1] == [s[0]] + s[1..][..|rest[0]|];
    }
  }

  /** Every piece is a contiguous slice of `s`. */
  lemma {:induction false} SplitSlice(s: string, seps: set<char>, k: nat)
    requires k < |Split(s, seps)|
    ensures SliceOf(Split(s, seps)[k], s)
  {
    var r := Split(s, seps);
    if k == 0 {
      SplitFirstPrefix(s, seps);
      PrefixSlice(r[0], s);
    } else {
      var rest := Split(s[1..], seps);
      var j := if s[0] in seps then k - 1 else k;
      assert r[k] == rest[j];
      SplitSlice(s[1..], seps, j);
      SliceOfShift(r[k], s);
    }
  }

  /** Split of a string that starts with a separator. */
  lemma SplitConsSep(x: char, t: string, seps: set<char>)
    requires x in seps
    ensures Split([x] + t, seps) == [[]] + Split(t, seps)
  {
    assert ([x] + t)[0] == x && ([x] + t)[1..] == t;
  }

  /** Split of a string that starts with another character. */
  lemma SplitConsOther(x: char, t: string, seps: set<char>)
    requires x !in seps
    ensures Split([x] + t, seps) == [[x] + Split(t, seps)[0]] + Split(t, seps)[1..]
  {
    assert ([x] + t)[0] == x && ([x] + t)[1..] == t;
  }

  /** Extending the first piece commutes with appending more pieces. */
  lemma ExtendFirst(x: char, ra: seq<string>, rb: seq<string>)
    requires |ra| >= 1
    ensures [[x] + (ra + rb)[0]] + (ra + rb)[1..] == ([[x] + ra[0]] + ra[1..]) + rb
  {
    assert (ra + rb)[0] == ra[0] && (ra + rb)[1..] == ra[1..] + rb;
  }

  /** Putting the same first character before two texts keeps a common tail of pieces. */
  lemma SplitConsStep(x: char, tail: string, rest: string, rb: seq<string>, seps: set<char>)
    requires Split(rest, seps) == Split(tail, seps) + rb
    ensures Split([x] + rest, seps) == Split([x] + tail, seps) + rb
  {
    var ra := Split(tail, seps);
    if x in seps {
      SplitConsSep(x, rest, seps);
      SplitConsSep(x, tail, seps);
      assert [[]] + (ra + rb) == ([[]] + ra) + rb;
    } else {
      SplitConsOther(x, rest, seps);
      SplitConsOther(x, tail, seps);
      ExtendFirst(x, ra, rb);
    }
  }

  /** Two texts joined by a separator split into the pieces of the first followed by those of the second. */
  lemma {:induction false} SplitConcat(a: string, c: char, b: string, seps: set<char>)
    requires c in seps
    ensures Split(a + [c] + b, seps) == Split(a, seps) + Split(b, seps)
  {
    if a == [] {
      assert a + [c] + b == [c] + b;
      SplitConsSep(c, b, seps);
    } else {
      var tail := a[1..];
      var rest := tail + [c] + b;
      SplitConcat(tail, c, b, seps);
      assert a + [c] + b == [a[0]] + rest;
      assert a == [a[0]] + tail;
      SplitConsStep(a[0], tail, rest, Split(b, seps), seps);
    }
  }

  /** Characters that are not separators put before a text lengthen its first piece. */
  lemma {:induction false} SplitPadLeft(pad: string, s: string, seps: set<char>)
    requires forall i :: 0 <= i < |pad| ==> pad[i] !in seps
    ensures Split(pad + s, seps) == [pad + Split(s, seps)[0]] + Split(s, seps)[1..]
  {
    var r := Split(s, seps);
    if pad == [] {
      assert pad + s == s;
      assert pad + r[0] == r[0];
    } else {
      var rest := pad[1..] + s;
      assert pad + s == [pad[0]] + rest;
      SplitPadLeft(pad[1..], s, seps);
      SplitConsOther(pad[0], rest, seps);
      assert [pad[0]] + (pad[1..] + r[0]) == pad + r[0];
    }
  }

  /** Characters that are not separators put after a text lengthen its last piece. */
  lemma {:induction false} SplitPadRight(s: string, pad: string, seps: set<char>)
    requires forall i :: 0 <= i < |pad| ==> pad[i] !in seps
    ensures var r := Split(s, seps);
      Split(s + pad, seps) == r[..|r| - 1] + [r[|r| - 1] + pad]
  {
    var r := Split(s, seps);
    if s == [] {
      SplitPadLeft(pad, [], seps);
      assert pad + [] == pad && [] + pad == pad;
    } else {
      var r1 := Split(s[1..], seps);
      var q := Split(s[1..] + pad, seps);
      SplitPadRight(s[1..], pad, seps);
      assert s + pad == [s[0]] + (s[1..] + pad);
      if s[0] in seps {
        SplitConsSep(s[0], s[1..] + pad, seps);
        assert r == [[]] + r1;
        assert r[..|r| - 1] == [[]] + r1[..|r1| - 1];
      } else {
        SplitConsOther(s[0], s[1..] + pad, seps);
        assert r == [[s[0]] + r1[0]] + r1[1..];
        if |r1| == 1 {
          assert [s[0]] + (r1[0] + pad) == ([s[0]] + r1[0]) + pad;
        } else {
          assert q[0] == r1[0] && q[1..] == r1[1..|r1| - 1] + [r1[|r1| - 1] + pad];
          assert r[..|r| - 1] == [[s[0]] + r1[0]] + r1[1..|r1| - 1];
        }
      }
    }
  }

  /** `sep.join(pieces)`. */
  function Join(pieces: seq<string>, sep: char): string
  {
    if pieces == [] then []
    else if |pieces| == 1 then pieces[0]
    else pieces[0] + [sep] + Join(pieces[1..], sep)
  }

  /** Splitting on a character and joining back with it gives the original string. */
  lemma {:induction false} JoinSplit(s: string, sep: char)
    ensures Join(Split(s, {sep}), sep) == s
  {
    if s != [] {
      var rest := Split(s[1..], {sep});
      JoinSplit(s[1..], sep);
      if s[0] == sep {
        assert Split(s, {sep}) == [[]] + rest;
        assert ([[]] + rest)[1..] == rest;
      } else {
        assert Split(s, {sep}) == [[s[0]] + rest[0]] + rest[1..];
        if |rest| > 1 {
          assert ([[s[0]] + rest[0]] + rest[1..])[1..] == rest[1..];
        }
      }
    }
  }

  /** Number of characters of `s` that belong to `seps`. */
  function CountIn(s: string, seps: set<char>): nat
  {
    if s == [] then 0 else (if s[0] in seps then 1 else 0) + CountIn(s[1..], seps)
  }

  /** There is exactly one more piece than there are separators. */
  lemma {:induction false} SplitCount(s: string, seps: set<char>)
    ensures |Split(s, seps)| == CountIn(s, seps) + 1
  {
    if s != [] {
      SplitCount(s[1..], seps);
    }
  }

  lemma {:induction false} CountInAppend(a: string, b: string, seps: set<char>)
    ensures CountIn(a + b, seps) == CountIn(a, seps) + CountIn(b, seps)
  {
    if a == [] {
      assert a + b == b;
    } else {
      assert (a + b)[0] == a[0] && (a + b)[1..] == a[1..] + b;
      CountInAppend(a[1..], b, seps);
    }
  }

  lemma {:induction false} CountInBlank(s: string, seps: set<char>)
    requires forall c :: c in seps ==> !IsSpace(c)
    requires forall i :: 0 <= i < |s| ==> IsSpace(s[i])
    ensures CountIn(s, seps) == 0
  {
    if s != [] {
      CountInBlank(s[1..], seps);
    }
  }

  /** Stripping removes only whitespace, so it keeps every separator that is not whitespace. */
  lemma StripKeepsCount(s: string, seps: set<char>)
    requires forall c :: c in seps ==> !IsSpace(c)
    ensures CountIn(Strip(s), seps) == CountIn(s, seps)
  {
    var r := Strip(s);
    var lo := |s| - |TrimStart(s)|;
    var hi := lo + |r|;
    StripSpec(s);
    var left, right := s[..lo], s[hi..];
    assert s == left + r + right;
    CountInBlank(left, seps);
    CountInBlank(right, seps);
    CountInAppend(left, r, seps);
    CountInAppend(left + r, right, seps);
  }

  /**
   * Python's `str.lower()` on the characters whose lower-case form is an
   * ASCII letter: 'A'..'Z' and KELVIN SIGN U+212A (which lowers to 'k').
   * Every other character is left as it is, which decides every comparison
   * with an all-lower-case ASCII word.
   */
  function LowerChar(c: char): char
  {
    if 'A' <= c <= 'Z' then (c as int + 32) as char
    else if c == '\U{212A}' then 'k'
    else c
  }

  function Lower(s: string): (r: string)
    ensures |r| == |s|
  {
    if s == [] then [] else [LowerChar(s[0])] + Lower(s[1..])
  }

  /** Lower-casing works character by character. */
  lemma {:induction false} LowerAt(s: string, i: nat)
    requires i < |s|
    ensures Lower(s)[i] == LowerChar(s[i])
  {
    if i > 0 {
      LowerAt(s[1..], i - 1);
    }
  }

  /** Lower-casing twice is lower-casing once. */
  lemma LowerIdempotent(s: string)
    ensures Lower(Lower(s)) == Lower(s)
  {
    forall i | 0 <= i < |s|
      ensures Lower(Lower(s))[i] == Lower(s)[i]
    {
      LowerAt(s, i);
      LowerAt(Lower(s), i);
    }
  }

  /**
   * Keep `f(x)` for every `x` that it maps to `Some`, in order: the shape of a
   * loop that appends an item for each line that parses and skips the rest.
   */
  function FilterMap<A, B>(xs: seq<A>, f: A -> Option<B>): (ys: seq<B>)
    ensures |ys| <= |xs|
  {
    if xs == [] then []
    else (match f(xs[0]) case Some(y) => [y] case None => []) + FilterMap(xs[1..], f)
  }

  /** The result for a concatenation is the concatenation of the results: order is kept. */
  lemma {:induction false} FilterMapAppend<A, B>(xs: seq<A>, zs: seq<A>, f: A -> Option<B>)
    ensures FilterMap(xs + zs, f) == FilterMap(xs, f) + FilterMap(zs, f)
  {
    if xs == [] {
      assert xs + zs == zs;
    } else {
      assert (xs + zs)[0] == xs[0] && (xs + zs)[1..] == xs[1..] + zs;
      FilterMapAppend(xs[1..], zs, f);
    }
  }

  /** One more input adds its value, if any, at the end. */
  lemma FilterMapSnoc<A, B>(xs: seq<A>, x: A, f: A -> Option<B>)
    ensures FilterMap(xs + [x], f) == FilterMap(xs, f) + (if f(x).Some? then [f(x).value] else [])
  {
    FilterMapAppend(xs, [x], f);
    assert [x][1..] == [];
  }

  /** Every produced value comes from some input that `f` maps to it. */
  lemma {:induction false} FilterMapSound<A, B>(xs: seq<A>, f: A -> Option<B>, k: nat)
    requires k < |FilterMap(xs, f)|
    ensures exists i :: 0 <= i < |xs| && f(xs[i]) == Some(FilterMap(xs, f)[k])
  {
    var rest := FilterMap(xs[1..], f);
    match f(xs[0])
    case Some(y) =>
      if k > 0 {
        FilterMapSound(xs[1..], f, k - 1);
        var i :| 0 <= i < |xs[1..]| && f(xs[1..][i]) == Some(rest[k - 1]);
        assert f(xs[i + 1]) == Some(FilterMap(xs, f)[k]);
      }
    case None =>
      FilterMapSound(xs[1..], f, k);
      var i :| 0 <= i < |xs[1..]| && f(xs[1..][i]) == Some(rest[k]);
      assert f(xs[i + 1]) == Some(FilterMap(xs, f)[k]);
  }

  /** Every input that `f` maps to `Some(y)` contributes `y`. */
  lemma {:induction false} FilterMapComplete<A, B>(xs: seq<A>, f: A -> Option<B>, i: nat)
    requires i < |xs| && f(xs[i]).Some?
    ensures f(xs[i]).value in FilterMap(xs, f)
  {
    if i > 0 {
      FilterMapComplete(xs[1..], f, i - 1);
    }
  }

  /** Concatenation is associative. */
  lemma AppendAssoc<T>(a: seq<T>, b: seq<T>, c: seq<T>)
    ensures a + (b + c) == (a + b) + c
  {
  }

  /** Inputs that `f` maps alike, position by position, produce the same values. */
  lemma {:induction false} FilterMapPointwise<A, B>(xs: seq<A>, ys: seq<A>, f: A -> Option<B>)
    requires |xs| == |ys| && forall i :: 0 <= i < |xs| ==> f(xs[i]) == f(ys[i])
    ensures FilterMap(xs, f) == FilterMap(ys, f)
  {
    if xs != [] {
      assert f(xs[0]) == f(ys[0]);
      FilterMapPointwise(xs[1..], ys[1..], f);
    }
  }

  /** A count of zero means no character of `s` is in `seps`. */
  lemma {:induction false} CountInZero(s: string, seps: set<char>)
    ensures CountIn(s, seps) == 0 <==> forall i :: 0 <= i < |s| ==> s[i] !in seps
  {
    if s != [] {
      CountInZero(s[1..], seps);
      assert forall i :: 1 <= i < |s| ==> s[i] == s[1..][i - 1];
    }
  }

  /** Removing an input that maps to `None` changes nothing. */
  lemma FilterMapSkip<A, B>(xs: seq<A>, f: A -> Option<B>, i: nat)
    requires i < |xs| && f(xs[i]).None?
    ensures FilterMap(xs[..i] + xs[i + 1..], f) == FilterMap(xs, f)
  {
    var before, x, after := xs[..i], xs[i], xs[i + 1..];
    assert xs == (before + [x]) + after;
    FilterMapSnoc(before, x, f);
    assert FilterMap(before + [x], f) == FilterMap(before, f) + [];
    FilterMapAppend(before + [x], after, f);
    FilterMapAppend(before, after, f);
    assert FilterMap(before, f) + [] == FilterMap(before, f);
  }

  /** Inputs that all map to `None` produce nothing. */
  lemma {:induction false} FilterMapNone<A, B>(xs: seq<A>, f: A -> Option<B>)
    requires forall i :: 0 <= i < |xs| ==> f(xs[i]).None?
    ensures FilterMap(xs, f) == []
  {
    if xs != [] {
      FilterMapNone(xs[1..], f);
    }
  }
}
