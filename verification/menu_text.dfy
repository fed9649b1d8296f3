/**
 * The sentence splitter applied to text extracted from a menu: every run of
 * whitespace becomes one space, the ends are stripped, the text is cut at
 * every '.', '!' and '?', and the stripped, non-empty pieces are the
 * sentences.
 */
module MenuText {
  import opened Wrappers
  import opened Strings

  /** The characters `[.!?]` that end a sentence. */
  const SentenceEnds: set<char> := {'.', '!', '?'}

  /** `re.sub(r'\s+', ' ', s)`: every maximal run of whitespace becomes a single space. */
  function CollapseSpaces(s: string): (r: string)
    ensures |r| <= |s|
    decreases |s|
  {
    if s == [] then []
    else if IsSpace(s[0]) then [' '] + CollapseSpaces(TrimStart(s))
    else [s[0]] + CollapseSpaces(s[1..])
  }

  /** A piece of the split text, stripped, when it is not empty. */
  function SentenceOf(piece: string): Option<string>
  {
    var sentence := Strip(piece);
    if sentence != [] then Some(sentence) else None
  }

  /**
   * `process_text`: collapse, strip, split at sentence ends, keep the
   * non-empty stripped pieces. Whitespace handling never adds or removes a
   * sentence end, so there is at most one sentence more than the text has
   * sentence ends.
   */
  function ProcessText(text: string): (sentences: seq<string>)
    ensures |sentences| <= CountIn(text, SentenceEnds) + 1
  {
    var cleaned := Strip(CollapseSpaces(text));
    CollapseKeepsCount(text, SentenceEnds);
    StripKeepsCount(CollapseSpaces(text), SentenceEnds);
    SplitCount(cleaned, SentenceEnds);
    FilterMap(Split(cleaned, SentenceEnds), SentenceOf)
  }

  predicate NoSentenceEnd(s: string)
  {
    forall i :: 0 <= i < |s| ==> s[i] !in SentenceEnds
  }

  /** The only whitespace is the plain space. */
  predicate OnlyPlainSpaces(s: string)
  {
    forall i :: 0 <= i < |s| && IsSpace(s[i]) ==> s[i] == ' '
  }

  predicate NoDoubleSpace(s: string)
  {
    forall i :: 0 < i < |s| && s[i] == ' ' ==> s[i - 1] != ' '
  }

  /** A contiguous run of characters inherits the three character-level properties. */
  lemma SliceKeeps(p: string, s: string)
    requires SliceOf(p, s)
    ensures NoSentenceEnd(s) ==> NoSentenceEnd(p)
    ensures OnlyPlainSpaces(s) ==> OnlyPlainSpaces(p)
    ensures NoDoubleSpace(s) ==> NoDoubleSpace(p)
  {
    var lo: nat :| lo + |p| <= |s| && Window(s, lo, |p|) == p;
    assert forall i :: 0 <= i < |p| ==> p[i] == s[lo + i];
  }

  /** Collapsing leaves only single plain spaces, and keeps a leading non-space character. */
  lemma {:induction false} CollapseShape(s: string)
    ensures OnlyPlainSpaces(CollapseSpaces(s)) && NoDoubleSpace(CollapseSpaces(s))
    ensures s != [] && !IsSpace(s[0]) ==> CollapseSpaces(s) != [] && CollapseSpaces(s)[0] == s[0]
    decreases |s|
  {
    if s != [] {
      var r := CollapseSpaces(s);
      if IsSpace(s[0]) {
        var t := TrimStart(s);
        var c := CollapseSpaces(t);
        CollapseShape(t);
        TrimStartSpec(s);
        assert r == [' '] + c;
        assert forall i :: 0 < i < |r| ==> r[i] == c[i - 1];
      } else {
        var c := CollapseSpaces(s[1..]);
        CollapseShape(s[1..]);
        assert r == [s[0]] + c;
        assert forall i :: 0 < i < |r| ==> r[i] == c[i - 1];
      }
    }
  }

  /** Collapsing changes only whitespace, so it keeps every separator that is not whitespace. */
  lemma {:induction false} CollapseKeepsCount(s: string, seps: set<char>)
    requires forall c :: c in seps ==> !IsSpace(c)
    ensures CountIn(CollapseSpaces(s), seps) == CountIn(s, seps)
    decreases |s|
  {
    if s != [] {
      if IsSpace(s[0]) {
        var t := TrimStart(s);
        var lo := |s| - |t|;
        TrimStartSpec(s);
        CollapseKeepsCount(t, seps);
        assert s == s[..lo] + t;
        CountInAppend(s[..lo], t, seps);
        CountInBlank(s[..lo], seps);
        assert CollapseSpaces(s) == [' '] + CollapseSpaces(t);
        CountInAppend([' '], CollapseSpaces(t), seps);
      } else {
        CollapseKeepsCount(s[1..], seps);
        assert CollapseSpaces(s) == [s[0]] + CollapseSpaces(s[1..]);
        CountInAppend([s[0]], CollapseSpaces(s[1..]), seps);
      }
    }
  }

  /** The collapsed and stripped text has only single plain spaces. */
  lemma CleanedShape(text: string)
    ensures var cleaned := Strip(CollapseSpaces(text));
      OnlyPlainSpaces(cleaned) && NoDoubleSpace(cleaned)
  {
    var collapsed := CollapseSpaces(text);
    var cleaned := Strip(collapsed);
    CollapseShape(text);
    StripSpec(collapsed);
    var lo := |collapsed| - |TrimStart(collapsed)|;
    assert Window(collapsed, lo, |cleaned|) == cleaned;
    SliceKeeps(cleaned, collapsed);
  }

  /** A sentence kept from a piece inherits the piece's properties and has no whitespace at its ends. */
  lemma PieceSentenceShape(piece: string, sentence: string)
    requires SentenceOf(piece) == Some(sentence)
    requires NoSentenceEnd(piece) && OnlyPlainSpaces(piece) && NoDoubleSpace(piece)
    ensures sentence != [] && !IsSpace(sentence[0]) && !IsSpace(sentence[|sentence| - 1])
    ensures NoSentenceEnd(sentence) && OnlyPlainSpaces(sentence) && NoDoubleSpace(sentence)
  {
    StripSpec(piece);
    var lo := |piece| - |TrimStart(piece)|;
    assert Window(piece, lo, |sentence|) == sentence;
    SliceKeeps(sentence, piece);
  }

  /**
   * Every sentence is non-empty, neither starts nor ends with whitespace,
   * holds no '.', '!' or '?', has no whitespace but the plain space and no
   * two spaces in a row.
   */
  lemma SentenceShape(text: string, k: nat)
    requires k < |ProcessText(text)|
    ensures var sentence := ProcessText(text)[k];
      && sentence != []
      && !IsSpace(sentence[0]) && !IsSpace(sentence[|sentence| - 1])
      && NoSentenceEnd(sentence)
      && OnlyPlainSpaces(sentence)
      && NoDoubleSpace(sentence)
  {
    var cleaned := Strip(CollapseSpaces(text));
    var pieces := Split(cleaned, SentenceEnds);
    var sentence := ProcessText(text)[k];
    CleanedShape(text);
    FilterMapSound(pieces, SentenceOf, k);
    var i :| 0 <= i < |pieces| && SentenceOf(pieces[i]) == Some(sentence);
    SplitSlice(cleaned, SentenceEnds, i);
    SliceKeeps(pieces[i], cleaned);
    SplitPiecesAvoidSeps(cleaned, SentenceEnds);
    assert NoSentenceEnd(pieces[i]);
    PieceSentenceShape(pieces[i], sentence);
  }

  /** The characters of `s` that are neither whitespace nor in `drop`, in order. */
  function Visible(s: string, drop: set<char>): string
  {
    if s == [] then []
    else (if IsSpace(s[0]) || s[0] in drop then [] else [s[0]]) + Visible(s[1..], drop)
  }

  /** The strings one after the other. */
  function Concat(ss: seq<string>): string
  {
    if ss == [] then [] else ss[0] + Concat(ss[1..])
  }

  lemma {:induction false} VisibleAppend(a: string, b: string, drop: set<char>)
    ensures Visible(a + b, drop) == Visible(a, drop) + Visible(b, drop)
  {
    if a == [] {
      assert a + b == b;
    } else {
      assert (a + b)[0] == a[0] && (a + b)[1..] == a[1..] + b;
      VisibleAppend(a[1..], b, drop);
    }
  }

  lemma {:induction false} VisibleBlank(s: string, drop: set<char>)
    requires forall i :: 0 <= i < |s| ==> IsSpace(s[i]) || s[i] in drop
    ensures Visible(s, drop) == []
  {
    if s != [] {
      VisibleBlank(s[1..], drop);
    }
  }

  /** Without characters from `drop`, dropping them changes nothing. */
  lemma {:induction false} VisibleNoDrop(s: string, drop: set<char>)
    requires forall i :: 0 <= i < |s| ==> s[i] !in drop
    ensures Visible(s, drop) == Visible(s, {})
  {
    if s != [] {
      VisibleNoDrop(s[1..], drop);
    }
  }

  /** Stripping removes only whitespace. */
  lemma VisibleStrip(s: string, drop: set<char>)
    ensures Visible(Strip(s), drop) == Visible(s, drop)
  {
    var r := Strip(s);
    var lo := |s| - |TrimStart(s)|;
    StripSpec(s);
    var left, right := s[..lo], s[lo + |r|..];
    assert s == left + r + right;
    VisibleBlank(left, drop);
    VisibleBlank(right, drop);
    VisibleAppend(left, r, drop);
    VisibleAppend(left + r, right, drop);
  }

  /** Collapsing replaces whitespace by whitespace only. */
  lemma {:induction false} VisibleCollapse(s: string, drop: set<char>)
    ensures Visible(CollapseSpaces(s), drop) == Visible(s, drop)
    decreases |s|
  {
    if s != [] {
      if IsSpace(s[0]) {
        var t := TrimStart(s);
        VisibleCollapse(t, drop);
        TrimStartSpec(s);
        var lo := |s| - |t|;
        assert s == s[..lo] + t;
        VisibleBlank(s[..lo], drop);
        VisibleAppend(s[..lo], t, drop);
        assert CollapseSpaces(s) == [' '] + CollapseSpaces(t);
        VisibleAppend([' '], CollapseSpaces(t), drop);
      } else {
        VisibleCollapse(s[1..], drop);
        assert CollapseSpaces(s) == [s[0]] + CollapseSpaces(s[1..]);
        VisibleAppend([s[0]], CollapseSpaces(s[1..]), drop);
      }
    }
  }

  /** Cutting at sentence ends loses nothing but the sentence ends. */
  lemma {:induction false} VisibleSplit(s: string)
    ensures Visible(Concat(Split(s, SentenceEnds)), SentenceEnds) == Visible(s, SentenceEnds)
  {
    if s != [] {
      var rest := Split(s[1..], SentenceEnds);
      VisibleSplit(s[1..]);
      var pieces := Split(s, SentenceEnds);
      if s[0] in SentenceEnds {
        assert pieces == [[]] + rest;
        assert pieces[1..] == rest;
        assert Concat(pieces) == Concat(rest);
      } else {
        assert pieces == [[s[0]] + rest[0]] + rest[1..];
        assert pieces[1..] == rest[1..];
        assert Concat(rest) == rest[0] + Concat(rest[1..]);
        assert Concat(pieces) == [s[0]] + Concat(rest);
        VisibleAppend([s[0]], Concat(rest), SentenceEnds);
      }
    }
  }

  /** Dropping the pieces that strip to nothing, and stripping the others, loses only whitespace. */
  lemma {:induction false} VisibleSentences(pieces: seq<string>)
    ensures Visible(Concat(FilterMap(pieces, SentenceOf)), SentenceEnds) == Visible(Concat(pieces), SentenceEnds)
  {
    if pieces != [] {
      var rest := FilterMap(pieces[1..], SentenceOf);
      VisibleSentences(pieces[1..]);
      VisibleAppend(pieces[0], Concat(pieces[1..]), SentenceEnds);
      VisibleStrip(pieces[0], SentenceEnds);
      match SentenceOf(pieces[0])
      case Some(sentence) =>
        assert FilterMap(pieces, SentenceOf) == [sentence] + rest;
        assert ([sentence] + rest)[1..] == rest;
        VisibleAppend(sentence, Concat(rest), SentenceEnds);
      case None =>
        assert FilterMap(pieces, SentenceOf) == rest;
        StripSpec(pieces[0]);
        VisibleBlank(pieces[0], SentenceEnds);
    }
  }

  /** The visible characters of the input are those of the sentences, in order. */
  lemma ContentKept(text: string)
    ensures Visible(Concat(ProcessText(text)), SentenceEnds) == Visible(text, SentenceEnds)
  {
    var collapsed := CollapseSpaces(text);
    var cleaned := Strip(collapsed);
    VisibleSentences(Split(cleaned, SentenceEnds));
    VisibleSplit(cleaned);
    VisibleStrip(collapsed, SentenceEnds);
    VisibleCollapse(text, SentenceEnds);
  }

  lemma {:induction false} ConcatNoSentenceEnd(ss: seq<string>)
    requires forall k :: 0 <= k < |ss| ==> NoSentenceEnd(ss[k])
    ensures NoSentenceEnd(Concat(ss))
  {
    if ss != [] {
      ConcatNoSentenceEnd(ss[1..]);
      assert forall i :: |ss[0]| <= i < |Concat(ss)| ==> Concat(ss)[i] == Concat(ss[1..])[i - |ss[0]|];
    }
  }

  /**
   * Content is kept in order: the characters of the input that are neither
   * whitespace nor '.', '!', '?' are exactly the non-whitespace characters
   * of the sentences, one after the other.
   */
  lemma ContentPreserved(text: string)
    ensures Visible(Concat(ProcessText(text)), {}) == Visible(text, SentenceEnds)
  {
    var sentences := ProcessText(text);
    forall k | 0 <= k < |sentences|
      ensures NoSentenceEnd(sentences[k])
    {
      SentenceShape(text, k);
    }
    ConcatNoSentenceEnd(sentences);
    VisibleNoDrop(Concat(sentences), SentenceEnds);
    ContentKept(text);
  }

  /** Text made only of whitespace and sentence ends has no sentences. */
  lemma BlankTextNoSentences(text: string)
    requires forall i :: 0 <= i < |text| ==> IsSpace(text[i]) || text[i] in SentenceEnds
    ensures ProcessText(text) == []
  {
    var sentences := ProcessText(text);
    if sentences != [] {
      SentenceShape(text, 0);
      ContentKept(text);
      VisibleBlank(text, SentenceEnds);
      var first := sentences[0];
      assert Concat(sentences) == first + Concat(sentences[1..]);
      VisibleAppend(first, Concat(sentences[1..]), SentenceEnds);
      assert false;
    }
  }

  /** The sentences of a text: its stripped, non-empty pieces between sentence ends. */
  function Sentences(t: string): seq<string>
  {
    FilterMap(Split(t, SentenceEnds), SentenceOf)
  }

  /** A sentence end joins the sentences of the text before it and of the text after it. */
  lemma SentencesConcat(x: string, c: char, y: string)
    requires c in SentenceEnds
    ensures Sentences(x + [c] + y) == Sentences(x) + Sentences(y)
  {
    SplitConcat(x, c, y, SentenceEnds);
    FilterMapAppend(Split(x, SentenceEnds), Split(y, SentenceEnds), SentenceOf);
  }

  /** Whitespace around a text lengthens only its first and last pieces. */
  lemma PadPieces(left: string, t: string, right: string)
    requires forall i :: 0 <= i < |left| ==> IsSpace(left[i])
    requires forall i :: 0 <= i < |right| ==> IsSpace(right[i])
    ensures var r, u := Split(t, SentenceEnds), Split(left + t + right, SentenceEnds);
      && |u| == |r|
      && forall i :: 0 <= i < |r| ==>
           u[i] == (if i == 0 then left else []) + r[i] + (if i == |r| - 1 then right else [])
  {
    var r := Split(t, SentenceEnds);
    var m := Split(left + t, SentenceEnds);
    SplitPadLeft(left, t, SentenceEnds);
    SplitPadRight(left + t, right, SentenceEnds);
    assert m == [left + r[0]] + r[1..];
    forall i | 0 <= i < |r|
      ensures m[i] == (if i == 0 then left else []) + r[i]
    {
      if i > 0 {
        assert [] + r[i] == r[i];
      }
    }
  }

  /** Whitespace around a text does not change its sentences. */
  lemma SentencesPad(left: string, t: string, right: string)
    requires forall i :: 0 <= i < |left| ==> IsSpace(left[i])
    requires forall i :: 0 <= i < |right| ==> IsSpace(right[i])
    ensures Sentences(left + t + right) == Sentences(t)
  {
    var r, u := Split(t, SentenceEnds), Split(left + t + right, SentenceEnds);
    PadPieces(left, t, right);
    forall i | 0 <= i < |r|
      ensures SentenceOf(u[i]) == SentenceOf(r[i])
    {
      StripPad(if i == 0 then left else [], r[i], if i == |r| - 1 then right else []);
    }
    FilterMapPointwise(u, r, SentenceOf);
  }

  /** `process_text` is the sentences of the collapsed text: the outer strip changes nothing. */
  lemma ProcessTextSentences(text: string)
    ensures ProcessText(text) == Sentences(CollapseSpaces(text))
  {
    var collapsed := CollapseSpaces(text);
    var r := Strip(collapsed);
    var lo := |collapsed| - |TrimStart(collapsed)|;
    StripSpec(collapsed);
    var left, right := collapsed[..lo], collapsed[lo + |r|..];
    assert collapsed == left + r + right;
    SentencesPad(left, r, right);
  }

  /** Collapsing a concatenation collapses each part, unless a run of whitespace spans the join. */
  lemma {:induction false} CollapseAppend(x: string, y: string)
    requires (x == [] || !IsSpace(x[|x| - 1])) || (y == [] || !IsSpace(y[0]))
    ensures CollapseSpaces(x + y) == CollapseSpaces(x) + CollapseSpaces(y)
    decreases |x|, 1
  {
    if x == [] {
      assert x + y == y;
    } else if IsSpace(x[0]) {
      CollapseAppendSpace(x, y);
    } else {
      CollapseAppendOther(x, y);
    }
  }

  /** `CollapseAppend` when `x` opens with a whitespace run. */
  lemma {:induction false} CollapseAppendSpace(x: string, y: string)
    requires x != [] && IsSpace(x[0])
    requires !IsSpace(x[|x| - 1]) || (y == [] || !IsSpace(y[0]))
    ensures CollapseSpaces(x + y) == CollapseSpaces(x) + CollapseSpaces(y)
    decreases |x|, 0
  {
    var t := TrimStart(x);
    assert CollapseSpaces(x + y) == [' '] + CollapseSpaces(TrimStart(x + y)) by {
      assert (x + y)[0] == x[0];
    }
    assert CollapseSpaces(x) == [' '] + CollapseSpaces(t);
    if t != [] {
      assert TrimStart(x + y) == t + y by {
        TrimStartConcat(x, y);
      }
      assert t[|t| - 1] == x[|x| - 1] by {
        TrimStartSpec(x);
      }
      CollapseAppend(t, y);
      AppendAssoc([' '], CollapseSpaces(t), CollapseSpaces(y));
    } else {
      assert IsSpace(x[|x| - 1]) by {
        TrimStartSpec(x);
      }
      assert TrimStart(x + y) == y by {
        TrimStartConcat(x, y);
      }
      assert CollapseSpaces(x) == [' '];
    }
  }

  /** `CollapseAppend` when `x` opens with a character that is not whitespace. */
  lemma {:induction false} CollapseAppendOther(x: string, y: string)
    requires x != [] && !IsSpace(x[0])
    requires !IsSpace(x[|x| - 1]) || (y == [] || !IsSpace(y[0]))
    ensures CollapseSpaces(x + y) == CollapseSpaces(x) + CollapseSpaces(y)
    decreases |x|, 0
  {
    var z := x[1..];
    assert (x + y)[0] == x[0] && (x + y)[1..] == z + y;
    assert CollapseSpaces(x + y) == [x[0]] + CollapseSpaces(z + y);
    if z != [] {
      assert z[|z| - 1] == x[|x| - 1];
    }
    CollapseAppend(z, y);
    assert CollapseSpaces(x) == [x[0]] + CollapseSpaces(z);
    AppendAssoc([x[0]], CollapseSpaces(z), CollapseSpaces(y));
  }

  /** Each maximal run of whitespace becomes exactly one space. */
  lemma CollapseRun(x: string, w: string, y: string)
    requires w != [] && forall i :: 0 <= i < |w| ==> IsSpace(w[i])
    requires x == [] || !IsSpace(x[|x| - 1])
    requires y == [] || !IsSpace(y[0])
    ensures CollapseSpaces(x + w + y) == CollapseSpaces(x) + [' '] + CollapseSpaces(y)
  {
    assert TrimStart(w + y) == y by {
      TrimStartPad(w, y);
    }
    assert CollapseSpaces(w + y) == [' '] + CollapseSpaces(y) by {
      assert (w + y)[0] == w[0];
    }
    assert x + w + y == x + (w + y);
    CollapseAppend(x, w + y);
    AppendAssoc(CollapseSpaces(x), [' '], CollapseSpaces(y));
  }

  /** A text without whitespace is left as it is. */
  lemma {:induction false} CollapseNoSpace(s: string)
    requires forall i :: 0 <= i < |s| ==> !IsSpace(s[i])
    ensures CollapseSpaces(s) == s
  {
    if s != [] {
      assert forall i :: 0 <= i < |s[1..]| ==> s[1..][i] == s[i + 1];
      CollapseNoSpace(s[1..]);
    }
  }

  /**
   * A sentence end splits the text there: the sentences of two texts joined
   * by '.', '!' or '?' are those of the first followed by those of the second.
   */
  lemma ProcessTextConcat(a: string, c: char, b: string)
    requires c in SentenceEnds
    ensures ProcessText(a + [c] + b) == ProcessText(a) + ProcessText(b)
  {
    assert a + [c] + b == a + ([c] + b);
    CollapseAppend(a, [c] + b);
    assert ([c] + b)[0] == c && ([c] + b)[1..] == b;
    assert CollapseSpaces([c] + b) == [c] + CollapseSpaces(b);
    assert CollapseSpaces(a + [c] + b) == CollapseSpaces(a) + [c] + CollapseSpaces(b);
    ProcessTextSentences(a + [c] + b);
    ProcessTextSentences(a);
    ProcessTextSentences(b);
    SentencesConcat(CollapseSpaces(a), c, CollapseSpaces(b));
  }

  /** A text with no sentence end and some non-space character is exactly one sentence. */
  lemma OneSentence(text: string)
    requires NoSentenceEnd(text) && Visible(text, {}) != []
    ensures |ProcessText(text)| == 1
  {
    var collapsed := CollapseSpaces(text);
    ProcessTextSentences(text);
    CountInZero(text, SentenceEnds);
    CollapseKeepsCount(text, SentenceEnds);
    CountInZero(collapsed, SentenceEnds);
    SplitPadLeft(collapsed, [], SentenceEnds);
    assert collapsed + [] == collapsed;
    assert Split(collapsed, SentenceEnds) == [collapsed];
    VisibleCollapse(text, {});
    if forall i :: 0 <= i < |collapsed| ==> IsSpace(collapsed[i]) {
      VisibleBlank(collapsed, {});
    }
    StripEmpty(collapsed);
  }
}
