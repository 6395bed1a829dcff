/** Character-level helpers: the whitespace normalisation applied to the
    request identifier (the `RN` column), and zero-padded decimal digits
    used by the date formats. */
module Text {

  // ---------------------------------------------------------------------
  // Whitespace
  // ---------------------------------------------------------------------

  /** The characters Python treats as whitespace (`str.isspace`, and `\s`
      in a `str` regular expression). This set already contains the
      no-break space U+00A0 that the identifier pattern names explicitly. */
  predicate IsSpace(c: char)
  {
    var k := c as int;
    (9 <= k <= 13) || (28 <= k <= 32) || k == 0x85 || k == 0xA0 || k == 0x1680 ||
    (0x2000 <= k <= 0x200A) || k == 0x2028 || k == 0x2029 || k == 0x202F ||
    k == 0x205F || k == 0x3000
  }

  /** Drops the leading run of whitespace. */
  function SkipSpaces(s: string): (r: string)
    ensures |r| <= |s| && r == s[|s| - |r|..]
    ensures r == [] || !IsSpace(r[0])
  {
    if s != [] && IsSpace(s[0]) then SkipSpaces(s[1..]) else s
  }

  /** Everything `SkipSpaces` drops is whitespace. */
  lemma {:induction false} SkipSpacesDropsSpaces(s: string)
    ensures forall i :: 0 <= i < |s| - |SkipSpaces(s)| ==> IsSpace(s[i])
    decreases |s|
  {
    if s != [] && IsSpace(s[0]) {
      SkipSpacesDropsSpaces(s[1..]);
      assert forall i :: 1 <= i < |s| ==> s[i] == s[1..][i - 1];
    }
  }

  /** Drops the trailing run of whitespace. */
  function TrimEnd(s: string): (r: string)
    ensures |r| <= |s| && r == s[..|r|]
    ensures r == [] || !IsSpace(r[|r| - 1])
  {
    if s != [] && IsSpace(s[|s| - 1]) then TrimEnd(s[..|s| - 1]) else s
  }

  /** Everything `TrimEnd` drops is whitespace. */
  lemma {:induction false} TrimEndDropsSpaces(s: string)
    ensures forall i :: |TrimEnd(s)| <= i < |s| ==> IsSpace(s[i])
    decreases |s|
  {
    if s != [] && IsSpace(s[|s| - 1]) {
      TrimEndDropsSpaces(s[..|s| - 1]);
    }
  }

  /** Position `i` holds no whitespace other than the ASCII space. */
  predicate PlainAt(s: string, i: int)
    requires 0 <= i < |s|
  {
    IsSpace(s[i]) ==> s[i] == ' '
  }

  /** Positions `i` and `i + 1` both hold a space. */
  predicate DoubleAt(s: string, i: int)
    requires 0 <= i < |s| - 1
  {
    s[i] == ' ' && s[i + 1] == ' '
  }

  /** The only whitespace character left is the ASCII space. */
  predicate PlainSpaces(s: string)
  {
    forall i :: 0 <= i < |s| ==> PlainAt(s, i)
  }

  /** No two adjacent spaces. */
  predicate NoDoubleSpace(s: string)
  {
    forall i :: 0 <= i < |s| - 1 ==> !DoubleAt(s, i)
  }

  /** Neither starts nor ends with a space. */
  predicate NoEdgeSpace(s: string)
  {
    s == [] || (s[0] != ' ' && s[|s| - 1] != ' ')
  }

  /** The shape of a normalised identifier. */
  predicate IsNormalId(s: string)
  {
    PlainSpaces(s) && NoDoubleSpace(s) && NoEdgeSpace(s)
  }

  /** Replaces every maximal run of whitespace by one ASCII space
      (the substitution of `[\xa0\s]+` by `' '`). */
  function Collapse(s: string): (r: string)
    ensures s == [] <==> r == []
    ensures s != [] ==> (r[0] == ' ' <==> IsSpace(s[0]))
    decreases |s|
  {
    if s == [] then []
    else if IsSpace(s[0]) then [' '] + Collapse(SkipSpaces(s))
    else [s[0]] + Collapse(s[1..])
  }

  /** The identifier normalisation: collapse whitespace runs, then strip
      both ends. */
  function NormalizeId(s: string): string
  {
    TrimEnd(SkipSpaces(Collapse(s)))
  }

  /** Prepending a character to a string with single plain spaces keeps
      that shape when the character is a plain space not followed by
      another, or is not whitespace at all. */
  lemma ConsKeepsShape(c: char, t: string)
    requires PlainSpaces(t) && NoDoubleSpace(t)
    requires c == ' ' || !IsSpace(c)
    requires c == ' ' ==> t == [] || t[0] != ' '
    ensures PlainSpaces([c] + t) && NoDoubleSpace([c] + t)
  {
    var r := [c] + t;
    forall i | 0 <= i < |r|
      ensures PlainAt(r, i)
    {
      if i > 0 {
        assert r[i] == t[i - 1] && PlainAt(t, i - 1);
      }
    }
    forall i | 0 <= i < |r| - 1
      ensures !DoubleAt(r, i)
    {
      if i > 0 {
        assert r[i] == t[i - 1] && r[i + 1] == t[i] && !DoubleAt(t, i - 1);
      }
    }
  }

  /** After collapsing, the only whitespace is single ASCII spaces. */
  lemma {:induction false} CollapseShape(s: string)
    ensures PlainSpaces(Collapse(s)) && NoDoubleSpace(Collapse(s))
    decreases |s|
  {
    if s != [] {
      if IsSpace(s[0]) {
        var t := SkipSpaces(s);
        CollapseShape(t);
        ConsKeepsShape(' ', Collapse(t));
      } else {
        CollapseShape(s[1..]);
        ConsKeepsShape(s[0], Collapse(s[1..]));
      }
    }
  }

  /** A normalised identifier has single plain spaces and none at either
      end. */
  lemma NormalizeIdShape(s: string)
    ensures IsNormalId(NormalizeId(s))
  {
    CollapseShape(s);
    StripShape(Collapse(s));
  }

  /** Stripping both ends of a string with single plain spaces leaves no
      space at either end. */
  lemma StripShape(c: string)
    requires PlainSpaces(c) && NoDoubleSpace(c)
    ensures IsNormalId(TrimEnd(SkipSpaces(c)))
  {
    var left := SkipSpaces(c);
    SliceKeepsShape(c, |c| - |left|);
    var r := TrimEnd(left);
    PrefixKeepsShape(left, |r|);
    if r != [] {
      assert r[0] == left[0];
    }
  }

  /** A suffix of a string with single plain spaces has single plain
      spaces. */
  lemma SliceKeepsShape(s: string, k: int)
    requires PlainSpaces(s) && NoDoubleSpace(s) && 0 <= k <= |s|
    ensures PlainSpaces(s[k..]) && NoDoubleSpace(s[k..])
  {
    var t := s[k..];
    forall i | 0 <= i < |t|
      ensures PlainAt(t, i)
    {
      assert t[i] == s[k + i] && PlainAt(s, k + i);
    }
    forall i | 0 <= i < |t| - 1
      ensures !DoubleAt(t, i)
    {
      assert t[i] == s[k + i] && t[i + 1] == s[k + i + 1] && !DoubleAt(s, k + i);
    }
  }

  /** A prefix of a string with single plain spaces has single plain
      spaces. */
  lemma PrefixKeepsShape(s: string, k: int)
    requires PlainSpaces(s) && NoDoubleSpace(s) && 0 <= k <= |s|
    ensures PlainSpaces(s[..k]) && NoDoubleSpace(s[..k])
  {
    var t := s[..k];
    forall i | 0 <= i < |t|
      ensures PlainAt(t, i)
    {
      assert t[i] == s[i] && PlainAt(s, i);
    }
    forall i | 0 <= i < |t| - 1
      ensures !DoubleAt(t, i)
    {
      assert t[i] == s[i] && t[i + 1] == s[i + 1] && !DoubleAt(s, i);
    }
  }

  /** The non-whitespace characters of `s`, in order. */
  function NonSpace(s: string): string
    decreases |s|
  {
    if s == [] then []
    else (if IsSpace(s[0]) then [] else [s[0]]) + NonSpace(s[1..])
  }

  lemma {:induction false} NonSpaceAppend(a: string, b: string)
    ensures NonSpace(a + b) == NonSpace(a) + NonSpace(b)
    decreases |a|
  {
    if a == [] {
      assert a + b == b;
    } else {
      var head := if IsSpace(a[0]) then [] else [a[0]];
      assert (a + b)[0] == a[0] && (a + b)[1..] == a[1..] + b;
      NonSpaceAppend(a[1..], b);
      calc {
        NonSpace(a + b);
        head + NonSpace(a[1..] + b);
        head + (NonSpace(a[1..]) + NonSpace(b));
        (head + NonSpace(a[1..])) + NonSpace(b);
      }
    }
  }

  /** Removing leading whitespace keeps every other character. */
  lemma {:induction false} SkipSpacesKeepsText(s: string)
    ensures NonSpace(SkipSpaces(s)) == NonSpace(s)
    decreases |s|
  {
    if s != [] && IsSpace(s[0]) {
      SkipSpacesKeepsText(s[1..]);
    }
  }

  /** Removing trailing whitespace keeps every other character. */
  lemma {:induction false} TrimEndKeepsText(s: string)
    ensures NonSpace(TrimEnd(s)) == NonSpace(s)
    decreases |s|
  {
    if s != [] && IsSpace(s[|s| - 1]) {
      var init := s[..|s| - 1];
      TrimEndKeepsText(init);
      assert s == init + [s[|s| - 1]];
      NonSpaceAppend(init, [s[|s| - 1]]);
      assert NonSpace([s[|s| - 1]]) == [];
    }
  }

  lemma {:induction false} CollapseKeepsText(s: string)
    ensures NonSpace(Collapse(s)) == NonSpace(s)
    decreases |s|
  {
    if s != [] {
      if IsSpace(s[0]) {
        var t := SkipSpaces(s);
        CollapseKeepsText(t);
        SkipSpacesKeepsText(s);
        NonSpaceAppend([' '], Collapse(t));
        assert NonSpace([' ']) == [];
      } else {
        CollapseKeepsText(s[1..]);
        NonSpaceAppend([s[0]], Collapse(s[1..]));
        assert NonSpace([s[0]]) == [s[0]];
      }
    }
  }

  /** Normalisation keeps every non-whitespace character, in order. */
  lemma NormalizeIdKeepsText(s: string)
    ensures NonSpace(NormalizeId(s)) == NonSpace(s)
  {
    var c := Collapse(s);
    CollapseKeepsText(s);
    SkipSpacesKeepsText(c);
    TrimEndKeepsText(SkipSpaces(c));
  }

  /** A string with only single ASCII spaces is left alone by `Collapse`. */
  lemma {:induction false} CollapseFixesSingleSpaces(s: string)
    requires PlainSpaces(s) && NoDoubleSpace(s)
    ensures Collapse(s) == s
    decreases |s|
  {
    if s != [] {
      var t := s[1..];
      SliceKeepsShape(s, 1);
      CollapseFixesSingleSpaces(t);
      assert s == [s[0]] + t;
      if IsSpace(s[0]) {
        SpaceIsFollowedByText(s);
        CollapseSpaceRun([s[0]], t);
      } else {
        CollapseCons(s[0], t);
      }
    }
  }

  /** In a string with single plain spaces, a leading whitespace character
      is an ASCII space and the next character is not whitespace. */
  lemma SpaceIsFollowedByText(s: string)
    requires PlainSpaces(s) && NoDoubleSpace(s) && s != [] && IsSpace(s[0])
    ensures s[0] == ' ' && (|s| == 1 || !IsSpace(s[1]))
  {
    assert PlainAt(s, 0);
    if |s| > 1 {
      assert !DoubleAt(s, 0) && PlainAt(s, 1);
    }
  }

  /** Normalisation leaves exactly the normalised identifiers unchanged. */
  lemma NormalizeIdFixpoints(s: string)
    ensures NormalizeId(s) == s <==> IsNormalId(s)
  {
    NormalizeIdShape(s);
    if IsNormalId(s) {
      CollapseFixesSingleSpaces(s);
      if s != [] {
        assert PlainAt(s, 0) && PlainAt(s, |s| - 1);
      }
      assert SkipSpaces(s) == s;
      assert TrimEnd(s) == s;
    }
  }

  /** Normalising twice is normalising once. */
  lemma NormalizeIdIdempotent(s: string)
    ensures NormalizeId(NormalizeId(s)) == NormalizeId(s)
  {
    NormalizeIdShape(s);
    NormalizeIdFixpoints(NormalizeId(s));
  }

  /** A prefix without whitespace passes through `Collapse` unchanged. */
  lemma {:induction false} CollapseWordPrefix(a: string, b: string)
    requires forall i :: 0 <= i < |a| ==> !IsSpace(a[i])
    ensures Collapse(a + b) == a + Collapse(b)
    decreases |a|
  {
    if a == [] {
      assert a + b == b;
    } else {
      var a' := a[1..];
      assert a == [a[0]] + a';
      assert a + b == [a[0]] + (a' + b);
      assert a + Collapse(b) == [a[0]] + (a' + Collapse(b));
      assert forall i :: 0 <= i < |a'| ==> a'[i] == a[i + 1];
      CollapseWordPrefix(a', b);
      CollapseCons(a[0], a' + b);

    }
  }

  /** A character that is not whitespace is kept as it is. */
  lemma CollapseCons(c: char, t: string)
    requires !IsSpace(c)
    ensures Collapse([c] + t) == [c] + Collapse(t)
  {
    var s := [c] + t;
    assert s[0] == c && s[1..] == t;
  }

  /** A leading whitespace run becomes a single space. */
  lemma CollapseSpaceRun(a: string, b: string)
    requires a != [] && forall i :: 0 <= i < |a| ==> IsSpace(a[i])
    requires b == [] || !IsSpace(b[0])
    ensures Collapse(a + b) == [' '] + Collapse(b)
  {
    SkipSpacesRun(a, b);
    assert (a + b)[0] == a[0];
  }

  lemma {:induction false} SkipSpacesRun(a: string, b: string)
    requires forall i :: 0 <= i < |a| ==> IsSpace(a[i])
    requires b == [] || !IsSpace(b[0])
    ensures SkipSpaces(a + b) == b
    decreases |a|
  {
    if a == [] {
      assert a + b == b;
    } else {
      assert (a + b)[0] == a[0] && (a + b)[1..] == a[1..] + b;
      SkipSpacesRun(a[1..], b);
    }
  }

  /** Two words separated by any run of whitespace (no-break spaces
      included) and followed by trailing whitespace normalise to the two
      words joined by one space. */
  lemma NormalizeIdTwoWords(a: string, gap: string, b: string, tail: string)
    requires a != [] && forall i :: 0 <= i < |a| ==> !IsSpace(a[i])
    requires b != [] && forall i :: 0 <= i < |b| ==> !IsSpace(b[i])
    requires gap != [] && forall i :: 0 <= i < |gap| ==> IsSpace(gap[i])
    requires forall i :: 0 <= i < |tail| ==> IsSpace(tail[i])
    ensures NormalizeId(a + gap + b + tail) == a + " " + b
  {
    var words := a + " " + b;
    var ct: string := if tail == [] then [] else [' '];
    var c := words + ct;
    assert a + gap + b + tail == a + (gap + (b + tail));
    assert a + ([' '] + (b + ct)) == c;
    assert Collapse(a + gap + b + tail) == c by {
      assert Collapse(tail) == ct by {
        if tail != [] {
          CollapseSpaceRun(tail, []);
          assert tail + [] == tail;
        }
      }
      CollapseWordPrefix(b, tail);
      assert Collapse(b + tail) == b + ct;
      assert (b + tail)[0] == b[0];
      CollapseSpaceRun(gap, b + tail);
      assert Collapse(gap + (b + tail)) == [' '] + (b + ct);
      CollapseWordPrefix(a, gap + (b + tail));
      assert Collapse(a + (gap + (b + tail))) == a + ([' '] + (b + ct));
    }
    assert c[0] == a[0];
    assert SkipSpaces(c) == c;
    assert !IsSpace(words[|words| - 1]) by {
      assert words[|words| - 1] == b[|b| - 1];
    }
    if tail != [] {
      assert c[..|c| - 1] == words;
    }
    assert TrimEnd(words) == words;
  }

  // ---------------------------------------------------------------------
  // Reference: the words of the identifier joined by single spaces
  // ---------------------------------------------------------------------

  /** No character of `w` is whitespace. */
  predicate Solid(w: string)
  {
    forall i :: 0 <= i < |w| ==> !IsSpace(w[i])
  }

  /** The leading run of non-whitespace characters. */
  function Word(s: string): (w: string)
    ensures |w| <= |s| && w == s[..|w|] && Solid(w)
    ensures |w| == |s| || IsSpace(s[|w|])
    decreases |s|
  {
    if s == [] || IsSpace(s[0]) then []
    else
      var v := Word(s[1..]);
      assert s[1..][..|v|] == s[1..|v| + 1];
      [s[0]] + v
  }

  /** Python's `str.split()` with no separator: the maximal runs of
      non-whitespace characters, left to right. */
  function Words(s: string): (ws: seq<string>)
    ensures forall k :: 0 <= k < |ws| ==> ws[k] != [] && Solid(ws[k])
    decreases |s|
  {
    if s == [] then []
    else if IsSpace(s[0]) then Words(s[1..])
    else
      var w := Word(s);
      assert w[0] == s[0];
      [w] + Words(s[|w|..])
  }

  /** `' '.join(ws)`. */
  function Join(ws: seq<string>): string
  {
    if ws == [] then []
    else if |ws| == 1 then ws[0]
    else ws[0] + " " + Join(ws[1..])
  }

  /** Collapsing whitespace keeps the words, in order: it only changes what
      separates them. */
  lemma {:induction false} CollapseKeepsWords(s: string)
    ensures Words(Collapse(s)) == Words(s)
    decreases |s|
  {
    if s != [] {
      if IsSpace(s[0]) {
        var x := Collapse(SkipSpaces(s));
        assert Collapse(s) == [' '] + x;
        assert ([' '] + x)[1..] == x;
        CollapseKeepsWords(SkipSpaces(s));
        WordsSkipSpaces(s);
      } else {
        var w := Word(s);
        var rest := s[|w|..];
        assert w[0] == s[0];
        assert s == w + rest;
        CollapseWordPrefix(w, rest);
        CollapseKeepsWords(rest);
        WordsAfterWord(w, Collapse(rest));
      }
    }
  }

  /** A word followed by nothing or by whitespace is the first word. */
  lemma WordsAfterWord(w: string, y: string)
    requires w != [] && Solid(w) && (y == [] || IsSpace(y[0]))
    ensures Words(w + y) == [w] + Words(y)
  {
    WordOfWordThen(w, y);
    assert (w + y)[0] == w[0];
    assert (w + y)[|w|..] == y;
  }

  lemma {:induction false} WordOfWordThen(w: string, y: string)
    requires Solid(w) && (y == [] || IsSpace(y[0]))
    ensures Word(w + y) == w
    decreases |w|
  {
    if w == [] {
      assert w + y == y;
    } else {
      assert (w + y)[0] == w[0] && (w + y)[1..] == w[1..] + y;
      WordOfWordThen(w[1..], y);
      assert w == [w[0]] + w[1..];
    }
  }

  /** Leading whitespace is no word. */
  lemma {:induction false} WordsSkipSpaces(s: string)
    ensures Words(SkipSpaces(s)) == Words(s)
    decreases |s|
  {
    if s != [] && IsSpace(s[0]) {
      WordsSkipSpaces(s[1..]);
    }
  }

  /** Removing a leading whitespace run before or after collapsing gives
      the same string. */
  lemma SkipSpacesCollapse(s: string)
    ensures SkipSpaces(Collapse(s)) == Collapse(SkipSpaces(s))
  {
    if s != [] && IsSpace(s[0]) {
      var c := Collapse(SkipSpaces(s));
      assert Collapse(s) == [' '] + c;
      assert ([' '] + c)[1..] == c;
      assert SkipSpaces(c) == c;
    }
  }

  /** Trailing whitespace of `a + b` lies in `b` when `b` starts with a
      non-whitespace character. */
  lemma {:induction false} TrimEndAppend(a: string, b: string)
    requires b != [] && !IsSpace(b[0])
    ensures TrimEnd(a + b) == a + TrimEnd(b)
    decreases |b|
  {
    var ab := a + b;
    if IsSpace(b[|b| - 1]) {
      var b' := b[..|b| - 1];
      assert ab[|ab| - 1] == b[|b| - 1];
      assert ab[..|ab| - 1] == a + b';
      assert b'[0] == b[0];
      TrimEndAppend(a, b');
    } else {
      assert ab[|ab| - 1] == b[|b| - 1];
    }
  }

  /** On a string that starts with a word, collapsing and trimming the
      end joins its words with single spaces. */
  lemma {:induction false} TrimCollapseIsJoin(t: string)
    requires t == [] || !IsSpace(t[0])
    ensures TrimEnd(Collapse(t)) == Join(Words(t))
    decreases |t|
  {
    if t != [] {
      var w := Word(t);
      var rest := t[|w|..];
      assert w[0] == t[0];
      assert t == w + rest;
      assert Words(t) == [w] + Words(rest);
      CollapseWordPrefix(w, rest);
      if rest == [] {
        assert Collapse(t) == w + [];
        assert TrimEnd(w) == w;
      } else {
        var r := SkipSpaces(rest);
        if r != [] {
          TrimCollapseIsJoin(r);
        }
        WordThenGap(w, rest);
      }
    }
  }

  /** A word followed by whitespace and then the rest: the word, one space
      and the rest, unless only whitespace follows the word. */
  lemma WordThenGap(w: string, rest: string)
    requires w != [] && Solid(w) && rest != [] && IsSpace(rest[0])
    requires TrimEnd(Collapse(SkipSpaces(rest))) == Join(Words(SkipSpaces(rest)))
    ensures TrimEnd(w + Collapse(rest)) == Join([w] + Words(rest))
  {
    GapCollapses(rest);
    WordsSkipSpaces(rest);
    if SkipSpaces(rest) == [] {
      WordThenEnd(w, Collapse(rest), Words(rest));
    } else {
      WordThenMore(w, SkipSpaces(rest));
    }
  }

  lemma WordThenEnd(w: string, c: string, ws: seq<string>)
    requires w != [] && Solid(w) && c == " " && ws == []
    ensures TrimEnd(w + c) == Join([w] + ws)
  {
    WordTrimmed(w);
    assert [w] + ws == [w];
  }

  lemma WordThenMore(w: string, r: string)
    requires w != [] && Solid(w) && r != [] && !IsSpace(r[0])
    requires TrimEnd(Collapse(r)) == Join(Words(r))
    ensures TrimEnd(w + ([' '] + Collapse(r))) == Join([w] + Words(r))
  {
    var c := Collapse(r);
    assert w + ([' '] + c) == (w + " ") + c;
    assert c == [r[0]] + Collapse(r[1..]);
    TrimEndAppend(w + " ", c);
    JoinCons(w, Words(r));
  }

  /** A leading whitespace run collapses to one space. */
  lemma GapCollapses(rest: string)
    requires rest != [] && IsSpace(rest[0])
    ensures Collapse(rest) == [' '] + Collapse(SkipSpaces(rest))
  {
  }

  lemma JoinCons(w: string, ws: seq<string>)
    requires ws != []
    ensures Join([w] + ws) == w + " " + Join(ws)
  {
    assert ([w] + ws)[1..] == ws;
  }

  /** A non-empty word has no trailing whitespace, also when one space
      follows it. */
  lemma WordTrimmed(w: string)
    requires w != [] && Solid(w)
    ensures TrimEnd(w + " ") == w
  {
    var ws := w + " ";
    assert ws[..|ws| - 1] == w;
    assert !IsSpace(w[|w| - 1]);
  }

  /** The identifier normalisation is `' '.join(s.split())`: the words of
      the identifier, in order, separated by exactly one space. */
  lemma NormalizeIdIsJoinedWords(s: string)
    ensures NormalizeId(s) == Join(Words(s))
  {
    SkipSpacesCollapse(s);
    TrimCollapseIsJoin(SkipSpaces(s));
    WordsSkipSpaces(s);
  }

  // ---------------------------------------------------------------------
  // Decimal digits
  // ---------------------------------------------------------------------

  predicate IsDigit(c: char)
  {
    '0' <= c <= '9'
  }

  predicate AllDigits(s: string)
  {
    forall i :: 0 <= i < |s| ==> IsDigit(s[i])
  }

  function DigitChar(k: int): (c: char)
    requires 0 <= k <= 9
    ensures IsDigit(c)
  {
    (('0' as int) + k) as char
  }

  function DigitValue(c: char): (k: int)
    requires IsDigit(c)
    ensures 0 <= k <= 9 && DigitChar(k) == c
  {
    c as int - '0' as int
  }

  function Pow10(w: nat): (p: nat)
    ensures p >= 1
  {
    if w == 0 then 1 else 10 * Pow10(w - 1)
  }

  /** The value of a string of decimal digits (leading zeros allowed). */
  function Value(s: string): (v: nat)
    requires AllDigits(s)
    ensures v < Pow10(|s|)
    decreases |s|
  {
    if s == [] then 0 else 10 * Value(s[..|s| - 1]) + DigitValue(s[|s| - 1])
  }

  /** The last `width` decimal digits of `n`, zero-padded on the left
      (`%04d`, `%02d`). */
  function Pad(n: nat, width: nat): (r: string)
    ensures |r| == width && AllDigits(r)
    decreases width
  {
    if width == 0 then [] else Pad(n / 10, width - 1) + [DigitChar(n % 10)]
  }

  /** Reading back a padded number gives the number when it fits the width. */
  lemma {:induction false} ValuePad(n: nat, width: nat)
    requires n < Pow10(width)
    ensures Value(Pad(n, width)) == n
    decreases width
  {
    if width > 0 {
      var r := Pad(n, width);
      ValuePad(n / 10, width - 1);
      assert r[..|r| - 1] == Pad(n / 10, width - 1);
    }
  }
}
